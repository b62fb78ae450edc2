// Conversations (conversation.go): a titled list of messages chained through
// their names, the participants recorded in the conversation's Access file,
// and the reading of a whole conversation back from the store.

module Conversations {
  import opened Results
  import opened Text
  import Upspin
  import Messages
  import Sorting
  import Numerals

  type UserName = string
  type MsgName = string

  const ConverseDir := "conversations"
  const AccessName := "Access"

  // ----------------------------------------------------------------- paths

  /** ConvPath: a user's directory for a conversation, with `paths` appended. */
  function ConvPath(u: UserName, title: string, paths: seq<string>): Upspin.Path {
    Upspin.Join([u, ConverseDir, title] + paths)
  }

  /** For a named user and title, ConvPath is the three leading components and the joined rest. */
  lemma ConvPathLayout(u: UserName, title: string, paths: seq<string>)
    requires u != "" && title != ""
    ensures ConvPath(u, title, paths) == [u, ConverseDir, title] + Upspin.Join(paths)
  {
    Upspin.JoinAppend([u, ConverseDir, title], paths);
    Upspin.JoinClean([u, ConverseDir, title]);
  }

  /** A named file of a conversation sits directly in the conversation's directory. */
  lemma ConvPathEntry(u: UserName, title: string, name: string)
    requires u != "" && title != "" && name != ""
    ensures var p := ConvPath(u, title, [name]);
      && Upspin.IsChild(ConvPath(u, title, []), p)
      && Upspin.Base(p) == name && Upspin.Dir(p) == ConvPath(u, title, [])
  {
    ConvPathLayout(u, title, [name]);
    ConvPathLayout(u, title, []);
    Upspin.JoinClean([name]);
  }

  // -------------------------------------------------------------- ordering

  /** The base names the pattern `msg*-*.txt` matches. */
  predicate IsMsgFileName(b: string) {
    |b| >= 8 && b[..3] == Messages.MsgPrefix && b[|b| - 4..] == "." + Messages.MsgExtension
    && '-' in b[3..|b| - 4]
  }

  /** Every message name that is written is found by the pattern the reader globs for. */
  lemma NewNamesMatch(user: UserName, num: int)
    ensures IsMsgFileName(Messages.NewMsgName(user, num))
  {
    var n := Messages.NewMsgName(user, num);
    var d := Numerals.FormatInt(num, 10);
    Numerals.FormatIntChars(num, 10);
    assert n[3 + |d|] == '-';
    assert n[3..|n| - 4][|d|] == '-';
    assert n[..3] == Messages.MsgPrefix;
    assert n[|n| - 4..] == "." + Messages.MsgExtension;
  }

  /** time.Time.Unix: whole seconds since the epoch of a time in nanoseconds (rounded down). */
  function Unix(t: int): int {
    t / 1_000_000_000
  }

  /** The key the comparator uses: the message's number, then the second it was written in. */
  function MsgKey(m: Messages.Message): Option<Sorting.Key> {
    match m.Name()
    case None => None
    case Some(n) =>
      match Messages.Number(n)
      case None => None
      case Some(k) => Some(Sorting.Key(k, Unix(m.time)))
  }

  /** The comparator as written: "number below, or time below". */
  predicate AsWrittenLess(a: Sorting.Key, b: Sorting.Key) {
    (a.major != b.major && a.major < b.major) || a.minor < b.minor
  }

  /** What the comparator as written does say: a lower number or, for equal numbers, an earlier second. */
  lemma AsWrittenLessCases(a: Sorting.Key, b: Sorting.Key)
    ensures a.major < b.major ==> AsWrittenLess(a, b)
    ensures a.major == b.major ==> (AsWrittenLess(a, b) <==> a.minor < b.minor)
    ensures a.major > b.major ==> (AsWrittenLess(a, b) <==> a.minor < b.minor)
  {
  }

  /** A later-numbered message written in an earlier second makes each message less than the other. */
  lemma AsWrittenNotAsymmetric()
    ensures AsWrittenLess(Sorting.Key(1, 10), Sorting.Key(2, 5))
    ensures AsWrittenLess(Sorting.Key(2, 5), Sorting.Key(1, 10))
  {
  }

  /** When times never run against the numbering, the comparator as written is the intended order. */
  lemma AsWrittenAgreesOnConsistentTimes(a: Sorting.Key, b: Sorting.Key)
    requires a.major < b.major ==> a.minor <= b.minor
    requires b.major < a.major ==> b.minor <= a.minor
    ensures AsWrittenLess(a, b) <==> Sorting.KeyLt(a, b)
  {
  }

  /** The intended order, by number and then by time, is a strict total order whose reflexive closure is KeyLe. */
  lemma LessIsStrictTotalOrder(a: Sorting.Key, b: Sorting.Key, c: Sorting.Key)
    ensures !Sorting.KeyLt(a, a)
    ensures Sorting.KeyLt(a, b) ==> !Sorting.KeyLt(b, a)
    ensures Sorting.KeyLt(a, b) && Sorting.KeyLt(b, c) ==> Sorting.KeyLt(a, c)
    ensures a != b ==> Sorting.KeyLt(a, b) || Sorting.KeyLt(b, a)
    ensures Sorting.KeyLe(a, b) <==> Sorting.KeyLt(a, b) || a == b
  {
  }

  // ---------------------------------------------------------- conversation

  /** Each message's parent is the name of the message before it; the first has none. */
  predicate Chained(ms: seq<Messages.Message>) {
    (|ms| > 0 ==> ms[0].parent == "")
    && forall i :: 0 < i < |ms| ==> ms[i - 1].Name() == Some(ms[i].parent)
  }

  /** In a chained list the k-th message (counting from 1) is named with number k. */
  lemma {:induction false} ChainedNumbers(ms: seq<Messages.Message>)
    requires Chained(ms)
    ensures forall k :: 0 <= k < |ms| ==>
      ms[k].Name().Some? && Messages.Number(ms[k].Name().value) == Some(k + 1)
  {
    if |ms| > 0 {
      var front := ms[..|ms| - 1];
      assert Chained(front) by {
        forall i | 0 < i < |front| ensures front[i - 1].Name() == Some(front[i].parent) {
          assert front[i - 1] == ms[i - 1] && front[i] == ms[i];
        }
      }
      ChainedNumbers(front);
      var k := |ms| - 1;
      if k > 0 {
        assert front[k - 1] == ms[k - 1];
        assert Messages.Number(ms[k].parent) == Some(k);
      }
      forall j | 0 <= j < |ms|
        ensures ms[j].Name().Some? && Messages.Number(ms[j].Name().value) == Some(j + 1)
      {
        if j < k {
          assert ms[j] == front[j];
        }
      }
    }
  }

  /** The last message of a chained list has a name, so the next Add does not panic. */
  lemma ChainedNextParent(ms: seq<Messages.Message>)
    requires Chained(ms) && |ms| > 0
    ensures ms[|ms| - 1].Name().Some?
    ensures Messages.Number(ms[|ms| - 1].Name().value) == Some(|ms|)
  {
    ChainedNumbers(ms);
  }

  /** A message whose parent is the name of the last message extends a chain. */
  lemma ChainedAppend(ms: seq<Messages.Message>, m: Messages.Message)
    requires Chained(ms)
    requires |ms| == 0 ==> m.parent == ""
    requires |ms| > 0 ==> ms[|ms| - 1].Name() == Some(m.parent)
    ensures Chained(ms + [m])
  {
    var more := ms + [m];
    forall i | 0 < i < |more| ensures more[i - 1].Name() == Some(more[i].parent) {
      if i < |ms| {
        assert more[i - 1] == ms[i - 1] && more[i] == ms[i];
      }
    }
  }

  /** The grant AddParticipant writes: the existing Access text (or an owner line), then a read grant for `u`. */
  function GrantText(existing: Option<string>, owner: UserName, u: UserName): string {
    (if existing.Some? then existing.value else "*: " + owner) + "\nread,create,list: " + u
  }

  /** A grant appended to an existing Access file keeps every line of it and adds one. */
  lemma GrantKeepsLines(existing: string, owner: UserName, u: UserName)
    requires '\n' !in u
    ensures Split(GrantText(Some(existing), owner, u), '\n') == Split(existing, '\n') + ["read,create,list: " + u]
  {
    var line := "read,create,list: " + u;
    OneLine("read,create,list: ", u);
    assert GrantText(Some(existing), owner, u) == existing + ['\n'] + line;
    SplitAt(existing, line, '\n');
    SplitJoin([line], '\n');
  }

  /** A new Access file holds the owner's line and the grant. */
  lemma GrantNewFile(owner: UserName, u: UserName)
    requires '\n' !in owner && '\n' !in u
    ensures Split(GrantText(None, owner, u), '\n') == ["*: " + owner, "read,create,list: " + u]
  {
    var first := "*: " + owner;
    var line := "read,create,list: " + u;
    OneLine("*: ", owner);
    OneLine("read,create,list: ", u);
    assert GrantText(None, owner, u) == first + ['\n'] + line;
    SplitTwo(first, line, '\n');
  }

  /** A fixed line start followed by a user name is a single line. */
  lemma OneLine(start: string, u: UserName)
    requires start == "*: " || start == "read,create,list: "
    requires '\n' !in u
    ensures '\n' !in start + u
  {
    forall i | 0 <= i < |start + u| ensures (start + u)[i] != '\n' {
      if i >= |start| {
        assert (start + u)[i] == u[i - |start|];
      }
    }
  }


  /** `after` is `before` with at most the file at `p` written. */
  predicate OnlyWritten(before: map<Upspin.Path, string>, after: map<Upspin.Path, string>, p: Upspin.Path) {
    (forall c :: c in after && c != p ==> c in before)
    && (forall c :: c in before ==> c in after)
    && (forall c :: c in before && c != p ==> after[c] == before[c])
  }

  lemma OnlyWrittenTrans(a: map<Upspin.Path, string>, b: map<Upspin.Path, string>, c: map<Upspin.Path, string>,
                         p: Upspin.Path)
    requires OnlyWritten(a, b, p) && OnlyWritten(b, c, p)
    ensures OnlyWritten(a, c, p)
  {
  }

  datatype ConvError =
    | Untitled
    | StoreFailed(err: Upspin.StoreError)
    | GlobFailed
    | ReadFailed(name: Upspin.Path)
    | Unparsable(file: Upspin.Path, reason: Messages.ParseError)
    | Unnamed       // a message whose name cannot be computed: the comparator panics
    | AccessFailed

  class Conversation {
    var messages: seq<Messages.Message>
    const title: string
    var participants: seq<UserName>

    constructor (title: string)
      ensures this.title == title && messages == [] && participants == []
    {
      this.title := title;
      messages := [];
      participants := [];
    }

    /** nextParent: the name of the last message, or "" when there is none. */
    function NextParent(): (r: Option<MsgName>)
      reads this
      ensures |messages| == 0 ==> r == Some("")
      ensures |messages| > 0 ==> r == messages[|messages| - 1].Name()
    {
      if |messages| == 0 then Some("") else messages[|messages| - 1].Name()
    }

    /**
     * Appends a new unsigned message by `user` whose parent is the last
     * message's name. None stands for the panic when that name cannot be
     * computed.
     */
    method Add(user: UserName, body: Option<string>, now: int) returns (r: Option<Messages.Message>)
      modifies this
      ensures old(NextParent()).None? ==> r.None? && unchanged(this)
      ensures old(NextParent()).Some? ==>
        && r.Some? && fresh(r.value)
        && messages == old(messages) + [r.value] && participants == old(participants)
      ensures r.Some? ==>
        && r.value.author == user && r.value.title == title
        && r.value.parent == old(NextParent()).value
        && r.value.body == body && r.value.time == now
        && r.value.content == "" && r.value.sig.None?
    {
      var parent := NextParent();
      if parent.None? {
        return None;
      }
      var m := new Messages.Message(user, title, parent.value, body, now);
      messages := messages + [m];
      r := Some(m);
    }

    /** isParticipant: `u` is among the participants. */
    method IsParticipant(u: UserName) returns (found: bool)
      ensures found <==> u in participants
    {
      var i := 0;
      while i < |participants|
        invariant 0 <= i <= |participants|
        invariant u !in participants[..i]
      {
        if participants[i] == u {
          return true;
        }
        i := i + 1;
      }
      assert participants[..i] == participants;
      return false;
    }

    /**
     * Grants `u` read access to the conversation in `owner`'s Access file
     * and records `u` as a participant once the file is written.
     */
    method AddParticipant(cl: Upspin.Client, owner: UserName, u: UserName) returns (r: Result<(), ConvError>)
      requires cl.Valid()
      modifies this, cl
      ensures cl.Valid() && cl.dirs == old(cl.dirs) && messages == old(messages)
      ensures title == "" ==> r == Err(Untitled)
      ensures title != "" && u in old(participants) ==> r == Ok(())
      ensures title == "" || u in old(participants) ==>
        participants == old(participants) && cl.files == old(cl.files)
      ensures title != "" && u !in old(participants) ==>
        var pth := ConvPath(owner, title, [AccessName]);
        && (r.Ok? <==> old(CanGrant(cl, pth)))
        && participants == (if r.Ok? then old(participants) + [u] else old(participants))
        && cl.files == (if r.Ok? then Granted(old(cl.files), pth, owner, u) else old(cl.files))
      ensures r.Ok? ==> u in participants
      ensures old(participants) <= participants
      ensures OnlyWritten(old(cl.files), cl.files, ConvPath(owner, title, [AccessName]))
    {
      if title == "" {
        return Err(Untitled);
      }
      var member := IsParticipant(u);
      if member {
        return Ok(());
      }
      var pth := ConvPath(owner, title, [AccessName]);
      r := Grant(cl, pth, owner, u);
      if r.Ok? {
        participants := participants + [u];
      }
    }
  }

  /** The store after `u`'s grant is written to the Access file at `pth`. */
  function Granted(files: map<Upspin.Path, string>, pth: Upspin.Path, owner: UserName, u: UserName)
    : (r: map<Upspin.Path, string>)
    ensures pth in r && OnlyWritten(files, r, pth)
  {
    files[pth := GrantText(if pth in files then Some(files[pth]) else None, owner, u)]
  }

  /**
   * Whether the grant can be written: an Access file that the store reports
   * is readable, and a writable place for it.
   */
  predicate CanGrant(cl: Upspin.Client, pth: Upspin.Path)
    reads cl
  {
    (cl.Visible(pth) ==> pth in cl.files) && cl.CanPut(pth)
  }

  /**
   * The store half of AddParticipant: read the Access file at `pth` (an
   * owner line when there is none), append a read grant for `u`, write it back.
   */
  method Grant(cl: Upspin.Client, pth: Upspin.Path, owner: UserName, u: UserName) returns (r: Result<(), ConvError>)
    requires cl.Valid()
    modifies cl
    ensures cl.Valid() && cl.dirs == old(cl.dirs)
    ensures r.Ok? <==> old(CanGrant(cl, pth))
    ensures cl.files == if r.Ok? then Granted(old(cl.files), pth, owner, u) else old(cl.files)
  {
    var data: string;
    var found := cl.Lookup(pth);
    if !found {
      data := "*: " + owner;
    } else {
      var got := cl.Get(pth);
      if got.Err? {
        return Err(StoreFailed(got.error));
      }
      data := got.value;
    }
    data := data + "\nread,create,list: " + u;
    var put := cl.Put(pth, data);
    if put.Err? {
      return Err(StoreFailed(put.error));
    }
    r := Ok(());
  }

  // --------------------------------------------------------------- reading

  /** Combined effect of access.Parse and Access.Users(Read) on an Access file's text. */
  datatype AccessError = ParseError | UsersError

  /** Entry `c` of directory `dir` is a message file by its name. */
  predicate IsMsgEntry(dir: Upspin.Path, c: Upspin.Path) {
    Upspin.IsChild(dir, c) && IsMsgFileName(Upspin.Base(c))
  }

  /** A message parser: ParseMessage (message.go), passed as a value so that the proofs here do not look inside it. */
  type Parser = string -> Result<Messages.Envelope, Messages.ParseError>

  /** Message `m` is what `parse` makes of `data`. */
  ghost predicate ParsedFrom(m: Messages.Message, data: string, parse: Parser)
    reads m
  {
    m.sig.Some? && m.body.None?
    && parse(data) == Ok(Messages.Envelope(m.HeaderFields(), m.content, m.sig.value))
  }

  /** `data` parses, and its header is the header of message `m`. */
  predicate HeaderFrom(m: Messages.Message, data: string, parse: Parser) {
    parse(data).Ok? && parse(data).value.header == m.HeaderFields()
  }

  /** The store holds a readable, well-formed message at `c`. */
  ghost predicate Readable(files: map<Upspin.Path, string>, denied: set<Upspin.Path>, c: Upspin.Path, parse: Parser) {
    c in files && c !in denied && parse(files[c]).Ok?
  }

  /** Message `m` is what `parse` makes of some message file directly inside `dir`. */
  ghost predicate FromDir(files: map<Upspin.Path, string>, dir: Upspin.Path, m: Messages.Message, parse: Parser)
    reads m
  {
    exists c :: IsMsgEntry(dir, c) && c in files && ParsedFrom(m, files[c], parse)
  }

  /** The entries of a directory listing that the glob pattern `msg*-*.txt` keeps, in order. */
  function MatchMsgFiles(ents: seq<Upspin.Entry>): (r: seq<Upspin.Entry>)
    ensures forall e :: e in r <==> e in ents && IsMsgFileName(Upspin.Base(e.name))
  {
    if |ents| == 0 then []
    else (if IsMsgFileName(Upspin.Base(ents[0].name)) then [ents[0]] else []) + MatchMsgFiles(ents[1..])
  }

  /** The filter keeps names distinct. */
  lemma {:induction false} MatchMsgFilesDistinct(ents: seq<Upspin.Entry>)
    requires Upspin.DistinctNames(ents)
    ensures Upspin.DistinctNames(MatchMsgFiles(ents))
  {
    if |ents| > 0 {
      var rest := MatchMsgFiles(ents[1..]);
      MatchMsgFilesDistinct(ents[1..]);
      forall e | e in rest ensures e.name != ents[0].name {
        var k :| 0 < k < |ents| && ents[k] == e;
      }
    }
  }

  /** The filter keeps the listing's order: matching a concatenation concatenates the matches. */
  lemma {:induction false} MatchMsgFilesAppend(a: seq<Upspin.Entry>, b: seq<Upspin.Entry>)
    ensures MatchMsgFiles(a + b) == MatchMsgFiles(a) + MatchMsgFiles(b)
  {
    if |a| == 0 {
      assert a + b == b;
    } else {
      var head := if IsMsgFileName(Upspin.Base(a[0].name)) then [a[0]] else [];
      calc {
        MatchMsgFiles(a + b);
        { assert (a + b)[0] == a[0] && (a + b)[1..] == a[1..] + b; }
        head + MatchMsgFiles(a[1..] + b);
        { MatchMsgFilesAppend(a[1..], b); }
        head + (MatchMsgFiles(a[1..]) + MatchMsgFiles(b));
        (head + MatchMsgFiles(a[1..])) + MatchMsgFiles(b);
      }
    }
  }

  /** The message files directly inside `dir`. */
  function MsgFiles(files: map<Upspin.Path, string>, dir: Upspin.Path): set<Upspin.Path> {
    set c | c in files && IsMsgEntry(dir, c)
  }

  /**
   * ReadMessage for every entry of the glob, in order: Get the file, parse
   * it and copy the envelope into a new Message. The first entry that
   * cannot be read or parsed fails the whole read.
   */
  method ReadMessages(cl: Upspin.Client, ents: seq<Upspin.Entry>, parse: Parser)
    returns (r: Result<seq<Messages.Message>, ConvError>)
    ensures r.Ok? ==> forall k :: 0 <= k < |ents| ==> Readable(cl.files, cl.denied, ents[k].name, parse)
    ensures r.Ok? ==> |r.value| == |ents|
    ensures r.Ok? ==> forall m :: m in r.value ==> fresh(m)
    ensures r.Ok? ==> forall k :: 0 <= k < |ents| ==>
      ents[k].name in cl.files && ParsedFrom(r.value[k], cl.files[ents[k].name], parse)
    ensures r.Err? ==> exists k :: 0 <= k < |ents| && !Readable(cl.files, cl.denied, ents[k].name, parse)
  {
    var ms: seq<Messages.Message> := [];
    var i := 0;
    while i < |ents|
      invariant 0 <= i <= |ents| && |ms| == i
      invariant forall k :: 0 <= k < i ==> Readable(cl.files, cl.denied, ents[k].name, parse)
      invariant forall m :: m in ms ==> fresh(m)
      invariant forall k :: 0 <= k < i ==> ParsedFrom(ms[k], cl.files[ents[k].name], parse)
    {
      var e := ents[i];
      var data := cl.Get(e.name);
      if data.Err? {
        return Err(ReadFailed(e.name));
      }
      var parsed := parse(data.value);
      if parsed.Err? {
        return Err(Unparsable(e.name, parsed.error));
      }
      var m := new Messages.Message.FromEnvelope(parsed.value);
      ms := ms + [m];
      i := i + 1;
    }
    r := Ok(ms);
  }

  /** Every message has a key, and the keys never decrease along `ms`. */
  predicate InOrder(ms: seq<Messages.Message>) {
    Sorting.KeyedInOrder(ms, MsgKey)
  }

  /** No message of `ms` with a higher number was written in an earlier second than one with a lower number. */
  ghost predicate TimesFollowNumbers(ms: seq<Messages.Message>) {
    forall m, n :: m in ms && n in ms && MsgKey(m).Some? && MsgKey(n).Some? ==>
      (MsgKey(m).value.major < MsgKey(n).value.major ==> MsgKey(m).value.minor <= MsgKey(n).value.minor)
  }

  /** When times follow numbers, the comparator as written is the intended order on the messages' keys. */
  lemma TimesFollowNumbersAgree(ms: seq<Messages.Message>)
    ensures TimesFollowNumbers(ms) ==> Sorting.KeyedAgrees(ms, MsgKey, AsWrittenLess)
  {
    if TimesFollowNumbers(ms) {
      forall m, n | m in multiset(ms) && n in multiset(ms) && MsgKey(m).Some? && MsgKey(n).Some?
        ensures AsWrittenLess(MsgKey(m).value, MsgKey(n).value) <==> Sorting.KeyLt(MsgKey(m).value, MsgKey(n).value)
      {
        var a, b := MsgKey(m).value, MsgKey(n).value;
        assert m in ms && n in ms;
        AsWrittenAgreesOnConsistentTimes(a, b);
      }
    }
  }

  /**
   * sort.Slice of the messages with the comparator as written. It fails where a
   * message has no name. The result is ordered by number and then second when
   * the times follow the numbers; otherwise the comparator is no order and the
   * result is only a rearrangement.
   */
  method SortMessages(ms: seq<Messages.Message>) returns (r: Result<seq<Messages.Message>, ConvError>)
    ensures r.Err? <==> |ms| >= 2 && exists m :: m in ms && MsgKey(m).None?
    ensures r.Ok? ==> multiset(r.value) == multiset(ms)
    ensures r.Ok? ==> forall m :: m in r.value ==> m in ms
    ensures r.Ok? && TimesFollowNumbers(ms) ==> InOrder(r.value)
  {
    var a := new Messages.Message[|ms|](i requires 0 <= i < |ms| => ms[i]);
    assert a[..] == ms;
    Sorting.AllKeyedMembers(ms, MsgKey);
    TimesFollowNumbersAgree(ms);
    var ok := Sorting.SortOrAbort(a, MsgKey, AsWrittenLess);
    if !ok {
      return Err(Unnamed);
    }
    r := Ok(a[..]);
    assert forall m :: m in r.value ==> m in multiset(ms);
  }

  /**
   * SortMessages with the evidently intended comparator, the order by number
   * and then second: whenever it succeeds the result is ordered.
   */
  method SortMessagesFixed(ms: seq<Messages.Message>) returns (r: Result<seq<Messages.Message>, ConvError>)
    ensures r.Err? <==> |ms| >= 2 && exists m :: m in ms && MsgKey(m).None?
    ensures r.Ok? ==> multiset(r.value) == multiset(ms)
    ensures r.Ok? ==> InOrder(r.value)
  {
    var a := new Messages.Message[|ms|](i requires 0 <= i < |ms| => ms[i]);
    assert a[..] == ms;
    Sorting.AllKeyedMembers(ms, MsgKey);
    assert Sorting.KeyedAgrees(ms, MsgKey, Sorting.KeyLt);
    var ok := Sorting.SortOrAbort(a, MsgKey, Sorting.KeyLt);
    if !ok {
      return Err(Unnamed);
    }
    r := Ok(a[..]);
  }

  /** The Access file of `owner`'s conversation `title`. */
  function AccessPath(owner: UserName, title: string): Upspin.Path {
    ConvPath(owner, title, [AccessName])
  }

  /**
   * `readers` stands for access.Parse followed by Users(access.Read): it maps
   * the text of an Access file to the users it grants read access.
   */
  type Readers = string -> Result<seq<UserName>, AccessError>

  /** The Access file of the conversation exists, may be read and parses. */
  ghost predicate AccessReadable(files: map<Upspin.Path, string>, denied: set<Upspin.Path>, acc: Upspin.Path,
                                 readers: Readers)
  {
    acc in files && acc !in denied && readers(files[acc]) != Err(ParseError)
  }

  /** A prefix of a prefix is a prefix. */
  lemma PrefixTrans<T>(a: seq<T>, b: seq<T>, c: seq<T>)
    requires a <= b && b <= c
    ensures a <= c
  {
  }

  /** The authors of `ms`, in message order. */
  function Authors(ms: seq<Messages.Message>): (r: seq<UserName>)
    ensures |r| == |ms| && forall k :: 0 <= k < |ms| ==> r[k] == ms[k].author
  {
    seq(|ms|, k requires 0 <= k < |ms| => ms[k].author)
  }

  /** No user appears twice. */
  predicate NoDuplicates(us: seq<UserName>) {
    forall i, j :: 0 <= i < j < |us| ==> us[i] != us[j]
  }

  /** The participants `ps` after a successful AddParticipant for each of `us` in turn: a user not yet present is appended. */
  function WithUsers(ps: seq<UserName>, us: seq<UserName>): seq<UserName>
    decreases |us|
  {
    if |us| == 0 then ps
    else
      var before := WithUsers(ps, us[..|us| - 1]);
      if us[|us| - 1] in before then before else before + [us[|us| - 1]]
  }

  /** Adding users keeps the old participants in front, holds exactly the old participants and the users, and adds no duplicate. */
  lemma {:induction false} WithUsersMembers(ps: seq<UserName>, us: seq<UserName>)
    ensures ps <= WithUsers(ps, us)
    ensures forall v :: v in WithUsers(ps, us) <==> v in ps || v in us
    ensures NoDuplicates(ps) ==> NoDuplicates(WithUsers(ps, us))
  {
    if |us| > 0 {
      var init := us[..|us| - 1];
      WithUsersMembers(ps, init);
      assert us == init + [us[|us| - 1]];
      forall v | v in us ensures v in init || v == us[|us| - 1] {
      }
    }
  }

  /** The store after the grants for `us`, in turn, are written to the Access file at `pth`. */
  function GrantedAll(files: map<Upspin.Path, string>, pth: Upspin.Path, owner: UserName, us: seq<UserName>)
    : map<Upspin.Path, string>
    decreases |us|
  {
    if |us| == 0 then files
    else Granted(GrantedAll(files, pth, owner, us[..|us| - 1]), pth, owner, us[|us| - 1])
  }

  /** The read grant lines for `us`, in order. */
  function GrantLines(us: seq<UserName>): (r: seq<string>)
    ensures |r| == |us| && forall k :: 0 <= k < |us| ==> r[k] == "read,create,list: " + us[k]
  {
    seq(|us|, k requires 0 <= k < |us| => "read,create,list: " + us[k])
  }

  /** The grants write the Access file and nothing else. */
  lemma {:induction false} GrantedAllWritten(files: map<Upspin.Path, string>, pth: Upspin.Path, owner: UserName,
                                             us: seq<UserName>)
    ensures OnlyWritten(files, GrantedAll(files, pth, owner, us), pth)
    ensures pth in files || |us| > 0 ==> pth in GrantedAll(files, pth, owner, us)
  {
    if |us| > 0 {
      var init := us[..|us| - 1];
      GrantedAllWritten(files, pth, owner, init);
      OnlyWrittenTrans(files, GrantedAll(files, pth, owner, init), GrantedAll(files, pth, owner, us), pth);
    }
  }

  /** The Access text `start` after the grants for `us`, in turn. */
  function Grants(start: string, owner: UserName, us: seq<UserName>): string
    decreases |us|
  {
    if |us| == 0 then start else GrantText(Some(Grants(start, owner, us[..|us| - 1])), owner, us[|us| - 1])
  }

  /**
   * After the grants for `us`, the Access file holds its old text (or the
   * owner's line, when there was none) with the grants applied to it.
   */
  lemma {:induction false} GrantedAllText(files: map<Upspin.Path, string>, pth: Upspin.Path, owner: UserName,
                                          us: seq<UserName>)
    requires pth in files || |us| > 0
    ensures pth in GrantedAll(files, pth, owner, us)
    ensures GrantedAll(files, pth, owner, us)[pth]
      == Grants(if pth in files then files[pth] else "*: " + owner, owner, us)
  {
    GrantedAllWritten(files, pth, owner, us);
    if |us| > 0 {
      var init := us[..|us| - 1];
      var before := GrantedAll(files, pth, owner, init);
      if |init| == 0 {
        assert before == files;
      } else {
        GrantedAllText(files, pth, owner, init);
      }
    }
  }

  /** The grant lines of `us` are those of all but its last user, then the last user's. */
  lemma GrantLinesSnoc(us: seq<UserName>)
    requires |us| > 0
    ensures GrantLines(us) == GrantLines(us[..|us| - 1]) + ["read,create,list: " + us[|us| - 1]]
  {
  }

  /** Each grant adds one line, when no user name holds a line break. */
  lemma {:induction false} GrantsLines(start: string, owner: UserName, us: seq<UserName>)
    requires forall i :: 0 <= i < |us| ==> '\n' !in us[i]
    ensures Split(Grants(start, owner, us), '\n') == Split(start, '\n') + GrantLines(us)
  {
    if |us| == 0 {
      assert GrantLines(us) == [];
    } else {
      var init, u := us[..|us| - 1], us[|us| - 1];
      GrantsLines(start, owner, init);
      GrantKeepsLines(Grants(start, owner, init), owner, u);
      GrantLinesSnoc(us);
    }
  }

  /**
   * After the grants for `us`, the Access file holds its old lines (or the
   * owner's line, when there was none) followed by one read grant line per
   * user, in order.
   */
  lemma GrantedAllLines(files: map<Upspin.Path, string>, pth: Upspin.Path, owner: UserName, us: seq<UserName>)
    requires '\n' !in owner
    requires forall i :: 0 <= i < |us| ==> '\n' !in us[i]
    requires pth in files || |us| > 0
    ensures pth in GrantedAll(files, pth, owner, us)
    ensures Split(GrantedAll(files, pth, owner, us)[pth], '\n')
      == (if pth in files then Split(files[pth], '\n') else ["*: " + owner]) + GrantLines(us)
  {
    GrantedAllText(files, pth, owner, us);
    var start := if pth in files then files[pth] else "*: " + owner;
    GrantsLines(start, owner, us);
    if pth !in files {
      OneLine("*: ", owner);
      SplitJoin([start], '\n');
    }
  }

  /** Adding one more user: it is appended unless already present. */
  lemma WithUsersSnoc(ps: seq<UserName>, us: seq<UserName>, u: UserName)
    ensures WithUsers(ps, us + [u])
      == if u in WithUsers(ps, us) then WithUsers(ps, us) else WithUsers(ps, us) + [u]
  {
    assert (us + [u])[..|us|] == us;
  }

  /** Granting one more user writes that user's grant on top of the others. */
  lemma GrantedAllSnoc(files: map<Upspin.Path, string>, pth: Upspin.Path, owner: UserName, us: seq<UserName>,
                       u: UserName)
    ensures GrantedAll(files, pth, owner, us + [u]) == Granted(GrantedAll(files, pth, owner, us), pth, owner, u)
  {
    assert (us + [u])[..|us|] == us;
  }

  /** Starting from no participants, adding the authors of `ms` gives each distinct author exactly once. */
  lemma DistinctAuthors(ms: seq<Messages.Message>)
    ensures NoDuplicates(WithUsers([], Authors(ms)))
    ensures forall u :: u in WithUsers([], Authors(ms)) <==> exists m :: m in ms && m.author == u
  {
    WithUsersMembers([], Authors(ms));
    forall u | u in Authors(ms) ensures exists m :: m in ms && m.author == u {
      var k :| 0 <= k < |ms| && Authors(ms)[k] == u;
      assert ms[k] in ms;
    }
    forall m | m in ms ensures m.author in Authors(ms) {
      var k :| 0 <= k < |ms| && ms[k] == m;
      assert Authors(ms)[k] == m.author;
    }
  }

  /**
   * The participants `members` and the store `files` are what adding the
   * users `done`, in turn, makes of the participants `start` and the store
   * `files0`: the new users appended and granted at `acc`, in order.
   */
  predicate AuthorsAdded(start: seq<UserName>, done: seq<UserName>, members: seq<UserName>,
                         files0: map<Upspin.Path, string>, files: map<Upspin.Path, string>,
                         acc: Upspin.Path, owner: UserName)
  {
    start <= members && members == WithUsers(start, done) && files == GrantedAll(files0, acc, owner, members[|start|..])
  }

  /** One round of AddAuthors keeps the participants and the store in step with WithUsers and GrantedAll. */
  lemma AuthorStep(start: seq<UserName>, done: seq<UserName>, a: UserName, members: seq<UserName>,
                   members': seq<UserName>, files0: map<Upspin.Path, string>, files: map<Upspin.Path, string>,
                   files': map<Upspin.Path, string>, acc: Upspin.Path, owner: UserName)
    requires AuthorsAdded(start, done, members, files0, files, acc, owner)
    requires a in members ==> members' == members && files' == files
    requires a !in members ==> members' == members + [a] && files' == Granted(files, acc, owner, a)
    ensures AuthorsAdded(start, done + [a], members', files0, files', acc, owner)
  {
    WithUsersSnoc(start, done, a);
    if a !in members {
      assert members'[|start|..] == members[|start|..] + [a];
      GrantedAllSnoc(files0, acc, owner, members[|start|..], a);
    }
  }

  /** Every author of `ms` is among the participants after adding them. */
  lemma AuthorsIncluded(start: seq<UserName>, ms: seq<Messages.Message>)
    ensures forall m :: m in ms ==> m.author in WithUsers(start, Authors(ms))
  {
    WithUsersMembers(start, Authors(ms));
    forall m | m in ms ensures m.author in WithUsers(start, Authors(ms)) {
      var k :| 0 <= k < |ms| && ms[k] == m;
      assert Authors(ms)[k] == m.author;
    }
  }

  /**
   * One round of AddAuthors: AddParticipant for author `u`, after the authors
   * `done` were added to the participants `start` and granted in the store
   * `files0`.
   */
  method AddAuthor(conv: Conversation, cl: Upspin.Client, owner: UserName, u: UserName,
                   ghost start: seq<UserName>, ghost done: seq<UserName>, ghost files0: map<Upspin.Path, string>)
    returns (r: Result<(), ConvError>)
    requires cl.Valid()
    requires AuthorsAdded(start, done, conv.participants, files0, cl.files, AccessPath(owner, conv.title), owner)
    modifies conv, cl
    ensures cl.Valid() && cl.dirs == old(cl.dirs) && conv.messages == old(conv.messages)
    ensures OnlyWritten(files0, cl.files, AccessPath(owner, conv.title))
    ensures conv.title == "" ==> r == Err(Untitled)
    ensures start <= conv.participants
    ensures r.Ok? ==> AuthorsAdded(start, done + [u], conv.participants, files0, cl.files, AccessPath(owner, conv.title), owner)
  {
    ghost var acc := AccessPath(owner, conv.title);
    ghost var files, members := cl.files, conv.participants;
    GrantedAllWritten(files0, acc, owner, members[|start|..]);
    r := conv.AddParticipant(cl, owner, u);
    OnlyWrittenTrans(files0, files, cl.files, acc);
    PrefixTrans(start, members, conv.participants);
    if r.Ok? {
      AuthorStep(start, done, u, members, conv.participants, files0, files, cl.files, acc, owner);
    }
  }

  /**
   * The fallback of ReadConversation when the Access file cannot be read:
   * every message's author is added as a participant, in message order,
   * stopping at the first failure.
   */
  method AddAuthors(conv: Conversation, cl: Upspin.Client, owner: UserName) returns (r: Result<(), ConvError>)
    requires cl.Valid()
    modifies conv, cl
    ensures cl.Valid() && cl.dirs == old(cl.dirs) && conv.messages == old(conv.messages)
    ensures OnlyWritten(old(cl.files), cl.files, AccessPath(owner, conv.title))
    ensures old(conv.participants) <= conv.participants
    ensures conv.title == "" && |conv.messages| > 0 ==> r == Err(Untitled)
    ensures r.Ok? ==> conv.participants == WithUsers(old(conv.participants), Authors(conv.messages))
    ensures r.Ok? ==> cl.files == GrantedAll(old(cl.files), AccessPath(owner, conv.title), owner,
                                             conv.participants[|old(conv.participants)|..])
    ensures r.Ok? ==> forall m :: m in conv.messages ==> m.author in conv.participants
  {
    var acc := AccessPath(owner, conv.title);
    var ms := conv.messages;
    var authors := Authors(ms);
    ghost var start := conv.participants;
    var i := 0;
    while i < |authors|
      invariant 0 <= i <= |authors|
      invariant cl.Valid() && cl.dirs == old(cl.dirs)
      invariant conv.messages == ms
      invariant conv.title == "" ==> i == 0
      invariant AuthorsAdded(start, authors[..i], conv.participants, old(cl.files), cl.files, acc, owner)
    {
      assert authors[..i + 1] == authors[..i] + [authors[i]];
      var added := AddAuthor(conv, cl, owner, authors[i], start, authors[..i], old(cl.files));
      if added.Err? {
        return Err(added.error);
      }
      i := i + 1;
    }
    assert authors[..i] == authors;
    AuthorsIncluded(start, ms);
    GrantedAllWritten(old(cl.files), acc, owner, conv.participants[|start|..]);
    r := Ok(());
  }

  /**
   * The participants part of ReadConversation: the users the Access file
   * grants read access when it can be read and parsed; otherwise every
   * author, added one by one through AddParticipant.
   */
  method LoadParticipants(conv: Conversation, cl: Upspin.Client, owner: UserName, readers: Readers)
    returns (r: Result<(), ConvError>)
    requires cl.Valid()
    modifies conv, cl
    ensures cl.Valid() && cl.dirs == old(cl.dirs) && conv.messages == old(conv.messages)
    ensures OnlyWritten(old(cl.files), cl.files, AccessPath(owner, conv.title))
    ensures var acc := AccessPath(owner, conv.title);
      AccessReadable(old(cl.files), cl.denied, acc, readers) ==>
        && (r.Ok? <==> readers(old(cl.files)[acc]).Ok?)
        && (r.Ok? ==> conv.participants == readers(old(cl.files)[acc]).value)
        && (r.Err? ==> r.error == AccessFailed)
        && cl.files == old(cl.files)
    ensures !AccessReadable(old(cl.files), cl.denied, AccessPath(owner, conv.title), readers) && r.Ok? ==>
      && old(conv.participants) <= conv.participants
      && conv.participants == WithUsers(old(conv.participants), Authors(conv.messages))
      && cl.files == GrantedAll(old(cl.files), AccessPath(owner, conv.title), owner,
                                conv.participants[|old(conv.participants)|..])
      && (forall m :: m in conv.messages ==> m.author in conv.participants)
  {
    var acc := AccessPath(owner, conv.title);
    var text := cl.Get(acc);
    var users := if text.Ok? then readers(text.value) else Err(ParseError);
    if users.Ok? {
      conv.participants := users.value;
      return Ok(());
    }
    if users.error == UsersError {
      return Err(AccessFailed);
    }
    r := AddAuthors(conv, cl, owner);
  }

  /**
   * The first half of ReadConversation: glob the message files directly
   * inside `dir` and read each of them, in listing order. On success every
   * message file has given a message, and there are as many messages as
   * message files.
   */
  method ReadDir(cl: Upspin.Client, dir: Upspin.Path, parse: Parser)
    returns (r: Result<seq<Messages.Message>, ConvError>)
    ensures !(dir in cl.dirs && dir !in cl.denied) ==> r == Err(GlobFailed)
    ensures r.Ok? ==> forall c :: IsMsgEntry(dir, c) && (c in cl.files || c in cl.dirs) ==>
      Readable(cl.files, cl.denied, c, parse)
    ensures r.Ok? ==> forall m :: m in r.value ==> fresh(m) && FromDir(cl.files, dir, m, parse)
    ensures r.Ok? ==> forall c :: c in MsgFiles(cl.files, dir) ==>
      exists m :: m in r.value && ParsedFrom(m, cl.files[c], parse)
    ensures r.Ok? ==> |r.value| == |MsgFiles(cl.files, dir)|
  {
    var ents := cl.Glob(dir);
    if ents.Err? {
      return Err(GlobFailed);
    }
    var matched := MatchMsgFiles(ents.value);
    var read := ReadMessages(cl, matched, parse);
    if read.Err? {
      return Err(read.error);
    }
    ReadDirFacts(cl.files, cl.dirs, cl.denied, dir, ents.value, read.value, parse);
    r := read;
  }

  /**
   * What ReadDir concludes from a listing of `dir` and the messages read from
   * its matched entries in order.
   */
  lemma ReadDirFacts(files: map<Upspin.Path, string>, dirs: set<Upspin.Path>, denied: set<Upspin.Path>,
                     dir: Upspin.Path, ents: seq<Upspin.Entry>, ms: seq<Messages.Message>, parse: Parser)
    requires forall e :: e in ents ==> Upspin.IsChild(dir, e.name) && (e.name in files || e.name in dirs)
    requires forall c :: Upspin.IsChild(dir, c) && (c in files || c in dirs) ==> c in Upspin.Names(ents)
    requires Upspin.DistinctNames(ents)
    requires |ms| == |MatchMsgFiles(ents)|
    requires forall k :: 0 <= k < |MatchMsgFiles(ents)| ==> Readable(files, denied, MatchMsgFiles(ents)[k].name, parse)
    requires forall k :: 0 <= k < |MatchMsgFiles(ents)| ==>
      MatchMsgFiles(ents)[k].name in files && ParsedFrom(ms[k], files[MatchMsgFiles(ents)[k].name], parse)
    ensures forall c :: IsMsgEntry(dir, c) && (c in files || c in dirs) ==> Readable(files, denied, c, parse)
    ensures forall m :: m in ms ==> FromDir(files, dir, m, parse)
    ensures forall c :: c in MsgFiles(files, dir) ==> exists m :: m in ms && ParsedFrom(m, files[c], parse)
    ensures |ms| == |MsgFiles(files, dir)|
  {
    var matched := MatchMsgFiles(ents);
    MatchedEntries(ents, dir, files, dirs);
    NamedReadable(files, denied, matched, parse);
    var paths := MsgFiles(files, dir);
    assert forall c :: c in Upspin.Names(matched) <==> c in paths by {
      forall c | c in Upspin.Names(matched) ensures c in files {
        assert Readable(files, denied, c, parse);
      }
    }
    ReadSound(files, paths, matched, ms, parse);
    assert forall m :: m in ms ==> FromDir(files, dir, m, parse) by {
      forall m | m in ms ensures FromDir(files, dir, m, parse) {
        var c :| c in paths && c in files && ParsedFrom(m, files[c], parse);
      }
    }
    ReadComplete(files, paths, matched, ms, parse);
    Upspin.NamesCount(matched, paths);
  }

  /** Entries read one by one without failure name readable files. */
  lemma NamedReadable(files: map<Upspin.Path, string>, denied: set<Upspin.Path>, matched: seq<Upspin.Entry>, parse: Parser)
    requires forall k :: 0 <= k < |matched| ==> Readable(files, denied, matched[k].name, parse)
    ensures forall c :: c in Upspin.Names(matched) ==> Readable(files, denied, c, parse)
  {
    forall c | c in Upspin.Names(matched) ensures Readable(files, denied, c, parse) {
      var k :| 0 <= k < |matched| && Upspin.Names(matched)[k] == c;
      assert Readable(files, denied, matched[k].name, parse);
    }
  }

  /** The entries the filter keeps from a listing of `dir` are, by name, the message entries of `dir`, once each. */
  lemma MatchedEntries(ents: seq<Upspin.Entry>, dir: Upspin.Path, files: map<Upspin.Path, string>, dirs: set<Upspin.Path>)
    requires forall e :: e in ents ==> Upspin.IsChild(dir, e.name) && (e.name in files || e.name in dirs)
    requires forall c :: Upspin.IsChild(dir, c) && (c in files || c in dirs) ==> c in Upspin.Names(ents)
    requires Upspin.DistinctNames(ents)
    ensures forall c :: c in Upspin.Names(MatchMsgFiles(ents)) <==> IsMsgEntry(dir, c) && (c in files || c in dirs)
    ensures Upspin.DistinctNames(MatchMsgFiles(ents))
  {
    MatchMsgFilesDistinct(ents);
    var matched := MatchMsgFiles(ents);
    forall c ensures c in Upspin.Names(matched) <==> IsMsgEntry(dir, c) && (c in files || c in dirs) {
      if c in Upspin.Names(matched) {
        var k :| 0 <= k < |matched| && Upspin.Names(matched)[k] == c;
        assert matched[k] in ents;
      }
      if IsMsgEntry(dir, c) && (c in files || c in dirs) {
        var k :| 0 <= k < |ents| && Upspin.Names(ents)[k] == c;
        assert ents[k] in matched;
        var j :| 0 <= j < |matched| && matched[j] == ents[k];
        assert Upspin.Names(matched)[j] == c;
      }
    }
  }

  /** Messages read one by one from entries naming paths of `paths`: each comes from one of those files. */
  lemma ReadSound(files: map<Upspin.Path, string>, paths: set<Upspin.Path>, matched: seq<Upspin.Entry>,
                  ms: seq<Messages.Message>, parse: Parser)
    requires forall c :: c in Upspin.Names(matched) ==> c in paths
    requires |ms| == |matched|
    requires forall k :: 0 <= k < |matched| ==> matched[k].name in files && ParsedFrom(ms[k], files[matched[k].name], parse)
    ensures forall m :: m in ms ==> exists c :: c in paths && c in files && ParsedFrom(m, files[c], parse)
  {
    forall m | m in ms ensures exists c :: c in paths && c in files && ParsedFrom(m, files[c], parse) {
      var j :| 0 <= j < |ms| && ms[j] == m;
      assert Upspin.Names(matched)[j] == matched[j].name;
    }
  }

  /** Messages read one by one from entries naming every path of `paths`: each of those files gave one. */
  lemma ReadComplete(files: map<Upspin.Path, string>, paths: set<Upspin.Path>, matched: seq<Upspin.Entry>,
                     ms: seq<Messages.Message>, parse: Parser)
    requires forall c :: c in paths ==> c in Upspin.Names(matched)
    requires |ms| == |matched|
    requires forall k :: 0 <= k < |matched| ==> matched[k].name in files && ParsedFrom(ms[k], files[matched[k].name], parse)
    ensures forall c :: c in paths ==> c in files && exists m :: m in ms && ParsedFrom(m, files[c], parse)
  {
    forall c | c in paths ensures c in files && exists m :: m in ms && ParsedFrom(m, files[c], parse) {
      var j :| 0 <= j < |matched| && Upspin.Names(matched)[j] == c;
      assert ms[j] in ms;
    }
  }

  /**
   * ReadDir followed by SortMessages: the message files of `dir`, one message
   * each, sorted with the comparator as written.
   */
  method ReadSorted(cl: Upspin.Client, dir: Upspin.Path, parse: Parser)
    returns (r: Result<seq<Messages.Message>, ConvError>)
    ensures !(dir in cl.dirs && dir !in cl.denied) ==> r == Err(GlobFailed)
    ensures r.Ok? ==> forall c :: IsMsgEntry(dir, c) && (c in cl.files || c in cl.dirs) ==>
      Readable(cl.files, cl.denied, c, parse)
    ensures r.Ok? ==> forall m :: m in r.value ==> fresh(m) && FromDir(cl.files, dir, m, parse)
    ensures r.Ok? ==> forall c :: c in MsgFiles(cl.files, dir) ==>
      exists m :: m in r.value && ParsedFrom(m, cl.files[c], parse)
    ensures r.Ok? ==> forall c :: c in MsgFiles(cl.files, dir) ==>
      exists m :: m in r.value && HeaderFrom(m, cl.files[c], parse)
    ensures r.Ok? ==> |r.value| == |MsgFiles(cl.files, dir)|
    ensures r.Ok? && TimesFollowNumbers(r.value) ==> InOrder(r.value)
  {
    var read := ReadDir(cl, dir, parse);
    if read.Err? {
      return Err(read.error);
    }
    var sorted := SortMessages(read.value);
    if sorted.Err? {
      return Err(sorted.error);
    }
    assert forall m :: m in sorted.value <==> m in read.value by {
      assert forall m :: m in read.value ==> m in multiset(sorted.value);
    }
    assert |sorted.value| == |read.value| by {
      assert |multiset(sorted.value)| == |multiset(read.value)|;
    }
    forall c | c in MsgFiles(cl.files, dir) ensures exists m :: m in sorted.value && HeaderFrom(m, cl.files[c], parse) {
      var m :| m in read.value && ParsedFrom(m, cl.files[c], parse);
      assert HeaderFrom(m, cl.files[c], parse);
    }
    r := sorted;
  }

  /**
   * The last part of ReadConversation: a conversation holding `ms`, whose
   * participants are then loaded. The messages themselves are not touched.
   */
  method Assemble(cl: Upspin.Client, owner: UserName, title: string, ms: seq<Messages.Message>, readers: Readers,
                  ghost files: map<Upspin.Path, string>, ghost dir: Upspin.Path, ghost parse: Parser)
    returns (r: Result<Conversation, ConvError>)
    requires cl.Valid()
    requires forall m :: m in ms ==> FromDir(files, dir, m, parse)
    modifies cl
    ensures cl.Valid() && cl.dirs == old(cl.dirs)
    ensures OnlyWritten(old(cl.files), cl.files, AccessPath(owner, title))
    ensures r.Ok? ==> fresh(r.value) && r.value.title == title && r.value.messages == ms
    ensures r.Ok? ==> forall m :: m in ms ==> FromDir(files, dir, m, parse)
    ensures r.Ok? && AccessReadable(old(cl.files), cl.denied, AccessPath(owner, title), readers) ==>
      && readers(old(cl.files)[AccessPath(owner, title)]).Ok?
      && r.value.participants == readers(old(cl.files)[AccessPath(owner, title)]).value
    ensures r.Ok? && !AccessReadable(old(cl.files), cl.denied, AccessPath(owner, title), readers) ==>
      && r.value.participants == WithUsers([], Authors(ms))
      && NoDuplicates(r.value.participants)
      && (forall u :: u in r.value.participants <==> exists m :: m in ms && m.author == u)
      && cl.files == GrantedAll(old(cl.files), AccessPath(owner, title), owner, r.value.participants)
  {
    var conv := new Conversation(title);
    conv.messages := ms;
    DistinctAuthors(ms);
    var loaded := LoadParticipants(conv, cl, owner, readers);
    if loaded.Err? {
      return Err(loaded.error);
    }
    assert conv.participants[0..] == conv.participants;
    r := Ok(conv);
  }

  /**
   * ReadConversation: reads every message file of `owner`'s conversation
   * `title` with `parse` (ParseMessage), sorts the messages with the
   * comparator as written, then loads the participants. Any failure fails the
   * whole read. Every message was parsed from a message file of the
   * conversation, every such file gave a message with its header, and there
   * are as many messages as files. The messages come out ordered by number
   * and time when their times follow their numbers.
   */
  method ReadConversation(cl: Upspin.Client, owner: UserName, title: string, parse: Parser, readers: Readers)
    returns (r: Result<Conversation, ConvError>)
    requires cl.Valid()
    modifies cl
    ensures cl.Valid() && cl.dirs == old(cl.dirs)
    ensures OnlyWritten(old(cl.files), cl.files, AccessPath(owner, title))
    ensures var dir := ConvPath(owner, title, []);
      !(dir in old(cl.dirs) && dir !in cl.denied) ==> r == Err(GlobFailed)
    ensures r.Ok? ==> fresh(r.value) && r.value.title == title
    ensures r.Ok? ==> forall c :: IsMsgEntry(ConvPath(owner, title, []), c) && (c in old(cl.files) || c in old(cl.dirs)) ==>
      c in old(cl.files) && c !in cl.denied && parse(old(cl.files)[c]).Ok?
    ensures r.Ok? ==> forall m :: m in r.value.messages ==> FromDir(old(cl.files), ConvPath(owner, title, []), m, parse)
    ensures r.Ok? ==> forall c :: c in MsgFiles(old(cl.files), ConvPath(owner, title, [])) ==>
      exists m :: m in r.value.messages && HeaderFrom(m, old(cl.files)[c], parse)
    ensures r.Ok? ==> |r.value.messages| == |MsgFiles(old(cl.files), ConvPath(owner, title, []))|
    ensures r.Ok? && TimesFollowNumbers(r.value.messages) ==> InOrder(r.value.messages)
    ensures r.Ok? && AccessReadable(old(cl.files), cl.denied, AccessPath(owner, title), readers) ==>
      && readers(old(cl.files)[AccessPath(owner, title)]).Ok?
      && r.value.participants == readers(old(cl.files)[AccessPath(owner, title)]).value
    ensures r.Ok? && !AccessReadable(old(cl.files), cl.denied, AccessPath(owner, title), readers) ==>
      && r.value.participants == WithUsers([], Authors(r.value.messages))
      && NoDuplicates(r.value.participants)
      && (forall u :: u in r.value.participants <==> exists m :: m in r.value.messages && m.author == u)
      && cl.files == GrantedAll(old(cl.files), AccessPath(owner, title), owner, r.value.participants)
  {
    var dir := ConvPath(owner, title, []);
    var sorted := ReadSorted(cl, dir, parse);
    if sorted.Err? {
      return Err(sorted.error);
    }
    r := Assemble(cl, owner, title, sorted.value, readers, cl.files, dir, parse);
  }
}
