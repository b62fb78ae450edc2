// The older snapshot of messages kept in main.go: `.md` names whose number is
// read up to the first '.', a three-field header, a decimal signature footer
// joined by '-', and the ordering of a directory listing by message number.

module MainCmd {
  import opened Results
  import opened Text
  import Numerals
  import Records
  import Messages
  import Sorting

  type UserName = string
  type MsgName = string

  const MsgPrefix := "msg"
  const MdExtension := "md"

  // ---------------------------------------------------------------- names

  /** The file name of the `num`-th message, written by `user`. */
  function NewMsgName(user: UserName, num: int): MsgName {
    MsgPrefix + Numerals.FormatInt(num, 10) + "-" + user + "." + MdExtension
  }

  /**
   * The number in a message name as this snapshot reads it: the text between
   * the prefix and the first '.'. None stands for the panic.
   */
  function Number(n: MsgName): (r: Option<int>)
    ensures '.' !in n ==> r.None?
  {
    var i := Index(n, ".");
    IndexOfChar(n, '.', i);
    if i < |MsgPrefix| then None
    else Numerals.ParseInt(n[|MsgPrefix|..i], 10)
  }

  /** The author in a message name: the same slicing as in message.go. */
  function User(n: MsgName): Option<UserName> {
    Messages.User(n)
  }

  /** The next name, with the number read by Number; None where Number panics. */
  function NextName(parent: MsgName, user: UserName): (r: Option<MsgName>)
    ensures parent == "" ==> r == Some(NewMsgName(user, 1))
    ensures parent != "" ==> (r.Some? <==> Number(parent).Some?)
  {
    if parent == "" then Some(NewMsgName(user, 1))
    else match Number(parent)
      case None => None
      case Some(k) => Some(NewMsgName(user, k + 1))
  }

  /** The next name with the number read as message.go reads it. */
  function NextNameFixed(parent: MsgName, user: UserName): (r: Option<MsgName>)
    ensures parent == "" ==> r == Some(NewMsgName(user, 1))
    ensures parent != "" ==> (r.Some? <==> Messages.Number(parent).Some?)
  {
    if parent == "" then Some(NewMsgName(user, 1))
    else match Messages.Number(parent)
      case None => None
      case Some(k) => Some(NewMsgName(user, k + 1))
  }

  /**
   * No name this snapshot writes can be read back by its own Number: the text
   * up to the first '.' always holds the '-' and the user name.
   */
  lemma NumberOfNewNameFails(user: UserName, num: int)
    ensures Number(NewMsgName(user, num)) == None
  {
    var d := Numerals.FormatInt(num, 10);
    Numerals.FormatIntChars(num, 10);
    var n := NewMsgName(user, num);
    var p := |MsgPrefix| + |d|;
    assert n[p] == '-';
    forall j | 0 <= j < p + 1 ensures n[j] != '.' {
      if j < 3 {
        assert n[j] == MsgPrefix[j];
      } else if j < p {
        assert n[j] == d[j - 3];
        if num >= 0 || j > 3 {
          if num < 0 {
            assert d[j - 3] == d[1..][j - 4];
          }
          Numerals.DigitIsNotSeparator(d[j - 3], 10);
        }
      }
    }
    assert n[|n| - 3] == '.';
    IndexOfCharFrom(n, '.', p + 1);
    var i := Index(n, ".");
    var numStr := n[|MsgPrefix|..i];
    assert numStr[|d|] == '-';
    Numerals.InnerSignNotInt(numStr, |d|, 10);
  }

  /** ParseMsgName: the name itself once its number has been read; None stands for the panic. */
  function ParseMsgName(name: string): (r: Option<MsgName>)
    ensures r.Some? <==> Number(name).Some?
    ensures r.Some? ==> r.value == name
  {
    if Number(name).Some? then Some(name) else None
  }

  /** ParseMsgName rejects every name this snapshot writes. */
  lemma ParseMsgNameOfNewNameFails(user: UserName, num: int)
    ensures ParseMsgName(NewMsgName(user, num)) == None
  {
    NumberOfNewNameFails(user, num);
  }

  /** Hence no generated parent has a next name. */
  lemma NextNameOfNewNameFails(parentAuthor: UserName, num: int, user: UserName)
    ensures NextName(NewMsgName(parentAuthor, num), user) == None
  {
    NumberOfNewNameFails(parentAuthor, num);
  }

  /** NextNameOfNewNameFails for every generated parent at once. */
  lemma NoNextNameAfterNewName(user: UserName)
    ensures forall parentAuthor, num :: NextName(NewMsgName(parentAuthor, num), user) == None
  {
    forall parentAuthor, num ensures NextName(NewMsgName(parentAuthor, num), user) == None {
      NextNameOfNewNameFails(parentAuthor, num, user);
    }
  }

  /** The author written into a name is read back, whatever characters it holds. */
  lemma UserOfNewName(user: UserName, num: int)
    requires num >= 0
    ensures User(NewMsgName(user, num)) == Some(user)
  {
    Messages.NameLayout(user, num, MdExtension);
  }

  /** message.go's Number reads this snapshot's names correctly. */
  lemma FixedNumberOfNewName(user: UserName, num: int)
    requires num >= 0
    ensures Messages.Number(NewMsgName(user, num)) == Some(num)
  {
    Messages.NameLayout(user, num, MdExtension);
    Numerals.ParseFormat(num, 10);
  }

  /** With message.go's Number, the next name carries the next number and the writer. */
  lemma NextNameFixedReadable(parent: MsgName, user: UserName)
    ensures Messages.NamedAfter(parent, user, NextNameFixed(parent, user))
  {
    if NextNameFixed(parent, user).Some? {
      var k := if parent == "" then 1 else Messages.Number(parent).value + 1;
      FixedNumberOfNewName(user, k);
      UserOfNewName(user, k);
    }
  }



  // --------------------------------------------------------------- sorting

  datatype NumError = SliceOutOfRange | NotANumber

  /** parseMsgNum: the integer between index 3 and the first '.'. */
  function ParseMsgNum(fname: string): (r: Result<int, NumError>)
    ensures r.Ok? <==> Number(fname).Some?
    ensures r.Ok? ==> Number(fname) == Some(r.value)
  {
    var i := Index(fname, ".");
    if i < 3 then Err(SliceOutOfRange)
    else match Numerals.ParseInt(fname[3..i], 10)
      case None => Err(NotANumber)
      case Some(k) => Ok(k)
  }

  /** A generated name makes parseMsgNum fail. */
  lemma ParseMsgNumOfNewNameFails(user: UserName, num: int)
    ensures ParseMsgNum(NewMsgName(user, num)).Err?
  {
    NumberOfNewNameFails(user, num);
  }

  function NumKey(fname: string): Option<Sorting.Key> {
    match ParseMsgNum(fname)
    case Ok(k) => Some(Sorting.Key(k, 0))
    case Err(_) => None
  }

  /** The comparator of sortMsgs on the numbers it read: `ni < nj`. */
  predicate NumLess(a: Sorting.Key, b: Sorting.Key) {
    a.major < b.major
  }

  /** Every key NumKey and FixedNumKey produce has minor 0, so `ni < nj` is the key order on them. */
  lemma NumLessAgrees(s: seq<string>)
    ensures Sorting.KeyedAgrees(s, NumKey, NumLess)
    ensures Sorting.KeyedAgrees(s, FixedNumKey, NumLess)
  {
    forall x, y | NumKey(x).Some? && NumKey(y).Some?
      ensures NumLess(NumKey(x).value, NumKey(y).value) <==> Sorting.KeyLt(NumKey(x).value, NumKey(y).value)
    {
      assert NumKey(x).value.minor == 0 && NumKey(y).value.minor == 0;
    }
    forall x, y | FixedNumKey(x).Some? && FixedNumKey(y).Some?
      ensures NumLess(FixedNumKey(x).value, FixedNumKey(y).value) <==> Sorting.KeyLt(FixedNumKey(x).value, FixedNumKey(y).value)
    {
      assert FixedNumKey(x).value.minor == 0 && FixedNumKey(y).value.minor == 0;
    }
  }

  function FixedNumKey(fname: string): Option<Sorting.Key> {
    match Messages.Number(fname)
    case Some(k) => Some(Sorting.Key(k, 0))
    case None => None
  }

  /**
   * sortMsgs: orders file names in place by parseMsgNum; `ok` is false where
   * the comparator stops the program on a name it cannot read.
   */
  method SortMsgs(names: array<string>) returns (ok: bool)
    modifies names
    ensures ok <==> names.Length < 2 || forall n :: n in old(names[..]) ==> ParseMsgNum(n).Ok?
    ensures !ok ==> names[..] == old(names[..])
    ensures ok ==> multiset(names[..]) == multiset(old(names[..]))
    ensures ok ==> forall i, j :: 0 <= i < j < names.Length ==>
      ParseMsgNum(names[i]).Ok? && ParseMsgNum(names[j]).Ok?
      && ParseMsgNum(names[i]).value <= ParseMsgNum(names[j]).value
  {
    NumLessAgrees(names[..]);
    ok := Sorting.SortOrAbort(names, NumKey, NumLess);
    forall i, j | ok && 0 <= i < j < names.Length
      ensures ParseMsgNum(names[i]).Ok? && ParseMsgNum(names[j]).Ok?
      ensures ParseMsgNum(names[i]).value <= ParseMsgNum(names[j]).value
    {
      assert Sorting.AllKeyed(names[..], NumKey) && Sorting.KeyedInOrder(names[..], NumKey);
      assert names[..][i] == names[i] && names[..][j] == names[j];
    }
    assert Sorting.AllKeyed(old(names[..]), NumKey) <==> forall n :: n in old(names[..]) ==> ParseMsgNum(n).Ok?;
  }

  /** sortMsgs with message.go's reading of the number. */
  method SortMsgsFixed(names: array<string>) returns (ok: bool)
    modifies names
    ensures ok <==> names.Length < 2 || forall n :: n in old(names[..]) ==> Messages.Number(n).Some?
    ensures !ok ==> names[..] == old(names[..])
    ensures ok ==> multiset(names[..]) == multiset(old(names[..]))
    ensures ok ==> forall i, j :: 0 <= i < j < names.Length ==>
      Messages.Number(names[i]).Some? && Messages.Number(names[j]).Some?
      && Messages.Number(names[i]).value <= Messages.Number(names[j]).value
  {
    NumLessAgrees(names[..]);
    ok := Sorting.SortOrAbort(names, FixedNumKey, NumLess);
    forall i, j | ok && 0 <= i < j < names.Length
      ensures Messages.Number(names[i]).Some? && Messages.Number(names[j]).Some?
      ensures Messages.Number(names[i]).value <= Messages.Number(names[j]).value
    {
      assert Sorting.AllKeyed(names[..], FixedNumKey) && Sorting.KeyedInOrder(names[..], FixedNumKey);
      assert names[..][i] == names[i] && names[..][j] == names[j];
    }
    assert Sorting.AllKeyed(old(names[..]), FixedNumKey) <==> forall n :: n in old(names[..]) ==> Messages.Number(n).Some?;
  }

  // ------------------------------------------------------------- envelope

  const SigHeader := "\n\n" + Rule(13) + " SIGNATURE " + Rule(15)
  const HeaderMarker := Rule(13) + " END HEADER " + Rule(14) + "\n\n"
  const SigBase := 10

  /** The header fields of this snapshot (it has no title). Time is in nanoseconds. */
  datatype Header = Header(author: UserName, time: int, parent: MsgName)

  datatype Envelope = Envelope(header: Header, content: string, sig: Messages.Signature)

  const HeaderKeys := ["Author", "Time", "ParentMessage"]

  function HeaderValues(h: Header): seq<string> {
    [h.author, Numerals.FormatInt(h.time, 10), h.parent]
  }

  function EncodeHeader(h: Header): string {
    Records.Encode(HeaderKeys, HeaderValues(h))
  }

  function DecodeHeader(text: string): (r: Option<Header>)
    ensures r.Some? ==> Records.Decode(HeaderKeys, text).Some?
  {
    match Records.Decode(HeaderKeys, text)
    case None => None
    case Some(vs) =>
      match Numerals.ParseInt(vs[1], 10)
      case None => None
      case Some(t) => Some(Header(vs[0], t, vs[2]))
  }

  lemma DecodeEncodeHeader(h: Header)
    ensures DecodeHeader(EncodeHeader(h) + "\n") == Some(h)
  {
    Records.DecodeEncode(HeaderKeys, HeaderValues(h));
    Numerals.ParseFormat(h.time, 10);
  }

  /** payloadNoSig: header, marker, content. */
  function SignedText(h: Header, content: string): (r: string)
    ensures |r| >= |content| + |HeaderMarker|
    ensures r[|r| - |content|..] == content
  {
    EncodeHeader(h) + "\n" + HeaderMarker + content
  }

  /** payloadSigOnly: the marker, then both integers in decimal joined by '-'. */
  function SignatureText(sig: Messages.Signature): (r: string)
    ensures |r| > |SigHeader| && r[..|SigHeader|] == SigHeader
  {
    SigHeader + "\n" + Numerals.FormatInt(sig.r, SigBase) + "-" + Numerals.FormatInt(sig.s, SigBase) + "\n"
  }

  function Encode(e: Envelope): string {
    SignedText(e.header, e.content) + SignatureText(e.sig)
  }

  /** Reads the footer: two decimal integers separated by the one '-'. */
  function ParseFooter(footer: string): (r: Result<Messages.Signature, Messages.ParseError>)
    ensures r.Err? ==> r.error == Messages.MalformedSignature || r.error == Messages.InvalidSignature
  {
    var parts := Split(TrimSpace(footer), '-');
    if |parts| != 2 then Err(Messages.MalformedSignature)
    else
      match (Numerals.ParseInt(parts[0], SigBase), Numerals.ParseInt(parts[1], SigBase))
      case (Some(x), Some(y)) => Ok(Messages.Signature(x, y))
      case _ => Err(Messages.InvalidSignature)
  }

  /** Splits at the first header marker and the last signature marker, then decodes. */
  function ParseMessage(s: string): (r: Result<Envelope, Messages.ParseError>)
    ensures Messages.Sections(s, HeaderMarker, SigHeader).Err? ==>
      r == Err(Messages.Sections(s, HeaderMarker, SigHeader).error)
    ensures r.Ok? ==>
      var sections := Messages.Sections(s, HeaderMarker, SigHeader);
      && sections.Ok? && r.value.content == sections.value.1
      && DecodeHeader(sections.value.0) == Some(r.value.header)
      && ParseFooter(sections.value.2) == Ok(r.value.sig)
  {
    match Messages.Sections(s, HeaderMarker, SigHeader)
    case Err(err) => Err(err)
    case Ok((header, content, footer)) =>
      match DecodeHeader(header)
      case None => Err(Messages.MalformedHeader)
      case Some(h) =>
        match ParseFooter(footer)
        case Err(err) => Err(err)
        case Ok(sig) => Ok(Envelope(h, content, sig))
  }

  lemma HeaderMarkerFirst(h: Header, content: string, rest: string)
    ensures Index(SignedText(h, content) + rest, HeaderMarker) == |EncodeHeader(h)| + 1
  {
    var p := EncodeHeader(h) + "\n";
    Records.EncodeNoBlankLine(HeaderKeys, HeaderValues(h));
    HeaderMarkerShape();
    FirstOccurrence(p, HeaderMarker, content + rest);
    SignedTextParts(h, content, rest);
  }

  lemma HeaderMarkerShape()
    ensures |HeaderMarker| >= 3 && HeaderMarker[0] != '\n'
    ensures HeaderMarker[|HeaderMarker| - 2] == '\n' && HeaderMarker[|HeaderMarker| - 1] == '\n'
    ensures '\n' !in HeaderMarker[..|HeaderMarker| - 2]
  {
    var body := Rule(13) + " END HEADER " + Rule(14);
    assert HeaderMarker[..|HeaderMarker| - 2] == body;
    assert HeaderMarker[0] == Rule(13)[0];
  }

  lemma SignedTextParts(h: Header, content: string, rest: string)
    ensures SignedText(h, content) + rest == (EncodeHeader(h) + "\n") + HeaderMarker + (content + rest)
  {
  }

  /** The decimal text of an integer: no newline, no space at either end. */
  lemma DecimalShape(i: int)
    ensures var t := Numerals.FormatInt(i, SigBase);
      && |t| > 0 && '\n' !in t && !IsSpace(t[0]) && !IsSpace(t[|t| - 1])
      && (i >= 0 ==> '-' !in t)
      && (i < 0 ==> t[0] == '-' && '-' !in t[1..] && |t| >= 2)
  {
    var t := Numerals.FormatInt(i, SigBase);
    Numerals.FormatIntChars(i, SigBase);
    forall k | 0 <= k < |t| ensures t[k] != '\n' && (k > 0 || i >= 0 ==> t[k] != '-') {
      if i < 0 && k > 0 {
        assert t[k] == t[1..][k - 1];
      }
      if k > 0 || i >= 0 {
        Numerals.DigitIsNotSeparator(t[k], SigBase);
      }
    }
    Numerals.DigitIsNotSeparator(t[|t| - 1], SigBase);
    if i < 0 {
      forall k | 0 <= k < |t[1..]| ensures t[1..][k] != '-' {
        assert t[1..][k] == t[k + 1];
      }
    }
  }

  lemma SigHeaderLast(before: string, sig: Messages.Signature)
    ensures LastIndex(before + SignatureText(sig), SigHeader) == |before|
  {
    var f := SignatureText(sig)[|SigHeader|..];
    FooterNoBlankLine(sig);
    assert SigHeader[2..] == Rule(13) + " SIGNATURE " + Rule(15);
    LastOccurrence(before, SigHeader, f);
    assert SignatureText(sig) == SigHeader + f;
    assert before + SignatureText(sig) == before + SigHeader + f;
  }

  /** The footer holds no empty line. */
  lemma FooterNoBlankLine(sig: Messages.Signature)
    ensures NoBlankLine(SignatureText(sig)[|SigHeader|..])
  {
    var a := Numerals.FormatInt(sig.r, SigBase);
    var b := Numerals.FormatInt(sig.s, SigBase);
    DecimalShape(sig.r);
    DecimalShape(sig.s);
    var x := a + "-" + b;
    assert '\n' !in x;
    NoBlankLineLine(x);
    NoBlankLineConcat("\n", x + "\n");
    FooterText(sig);
    assert "\n" + x + "\n" == "\n" + (x + "\n");
  }


  /** The trimmed footer: the two decimal integers and the '-' between them. */
  lemma TrimmedFooter(sig: Messages.Signature)
    ensures var a := Numerals.FormatInt(sig.r, SigBase);
      var b := Numerals.FormatInt(sig.s, SigBase);
      TrimSpace(SignatureText(sig)[|SigHeader|..]) == a + "-" + b
  {
    var a := Numerals.FormatInt(sig.r, SigBase);
    var b := Numerals.FormatInt(sig.s, SigBase);
    DecimalShape(sig.r);
    DecimalShape(sig.s);
    var x := a + "-" + b;
    assert !IsSpace(x[0]) && !IsSpace(x[|x| - 1]) by {
      assert x[0] == a[0] && x[|x| - 1] == b[|b| - 1];
    }
    FooterText(sig);
    TrimSpaceAround("\n", x, "\n");
  }

  /** The footer follows the signature header: the two integers between newlines. */
  lemma FooterText(sig: Messages.Signature)
    ensures var a := Numerals.FormatInt(sig.r, SigBase);
      var b := Numerals.FormatInt(sig.s, SigBase);
      SignatureText(sig)[|SigHeader|..] == "\n" + (a + "-" + b) + "\n"
  {
    var t := "\n" + (Numerals.FormatInt(sig.r, SigBase) + "-" + Numerals.FormatInt(sig.s, SigBase)) + "\n";
    assert SignatureText(sig) == SigHeader + t;
  }

  /** A footer of two non-negative integers reads back as the signature it was written from. */
  lemma FooterRoundTrip(sig: Messages.Signature)
    requires sig.r >= 0 && sig.s >= 0
    ensures ParseFooter(SignatureText(sig)[|SigHeader|..]) == Ok(sig)
  {
    var a := Numerals.FormatInt(sig.r, SigBase);
    var b := Numerals.FormatInt(sig.s, SigBase);
    assert Split(TrimSpace(SignatureText(sig)[|SigHeader|..]), '-') == [a, b] by {
      TrimmedFooter(sig);
      DecimalShape(sig.r);
      DecimalShape(sig.s);
      assert a + "-" + b == a + ['-'] + b;
      SplitTwo(a, b, '-');
    }
    Numerals.ParseFormat(sig.r, SigBase);
    Numerals.ParseFormat(sig.s, SigBase);
  }

  /** Two integers joined by '-', one of them negative: more than two pieces. */
  lemma SplitWithSigns(a: string, b: string)
    requires |a| >= 1 && |b| >= 1
    requires a[0] == '-' || b[0] == '-'
    ensures |Split(a + "-" + b, '-')| > 2
  {
    SplitAt(a, b, '-');
    if a[0] == '-' {
      assert a == "" + ['-'] + a[1..];
      SplitAt("", a[1..], '-');
    } else {
      assert b == "" + ['-'] + b[1..];
      SplitAt("", b[1..], '-');
    }
  }

  /** A negative signature integer adds a '-' to the footer, which then has too many pieces. */
  lemma NegativeFooterRejected(sig: Messages.Signature)
    requires sig.r < 0 || sig.s < 0
    ensures ParseFooter(SignatureText(sig)[|SigHeader|..]) == Err(Messages.MalformedSignature)
  {
    DecimalShape(sig.r);
    DecimalShape(sig.s);
    TrimmedFooter(sig);
    SplitWithSigns(Numerals.FormatInt(sig.r, SigBase), Numerals.FormatInt(sig.s, SigBase));
  }

  /** The step RoundTrip uses: a text whose sections, header and footer each parse back gives the envelope they came from. */
  lemma ParseAt(s: string, header: string, e: Envelope, footer: string)
    requires Messages.Sections(s, HeaderMarker, SigHeader) == Ok((header, e.content, footer))
    requires DecodeHeader(header) == Some(e.header)
    requires ParseFooter(footer) == Ok(e.sig)
    ensures ParseMessage(s) == Ok(e)
  {
  }

  /** The sections of an encoded envelope are its header text, its content and its footer. */
  lemma EncodedSections(e: Envelope)
    ensures Messages.Sections(Encode(e), HeaderMarker, SigHeader)
      == Ok((EncodeHeader(e.header) + "\n", e.content, SignatureText(e.sig)[|SigHeader|..]))
  {
    var s := Encode(e);
    var p := EncodeHeader(e.header) + "\n";
    var front := SignedText(e.header, e.content);
    HeaderMarkerFirst(e.header, e.content, SignatureText(e.sig));
    SigHeaderLast(front, e.sig);
    assert front == p + HeaderMarker + e.content;
    var i := |p|;
    var j := |front|;
    assert s[..i] == p;
    assert s[i + |HeaderMarker|..j] == e.content;
    assert s[j + |SigHeader|..] == SignatureText(e.sig)[|SigHeader|..];
  }

  /** An envelope with a non-negative signature parses back from its text. */
  lemma RoundTrip(e: Envelope)
    requires e.sig.r >= 0 && e.sig.s >= 0
    ensures ParseMessage(Encode(e)) == Ok(e)
  {
    EncodedSections(e);
    DecodeEncodeHeader(e.header);
    FooterRoundTrip(e.sig);
    ParseAt(Encode(e), EncodeHeader(e.header) + "\n", e, SignatureText(e.sig)[|SigHeader|..]);
  }

  /** An envelope with a negative signature integer is written but cannot be read back. */
  lemma NegativeSignatureRejected(e: Envelope)
    requires e.sig.r < 0 || e.sig.s < 0
    ensures ParseMessage(Encode(e)) == Err(Messages.MalformedSignature)
  {
    EncodedSections(e);
    DecodeEncodeHeader(e.header);
    NegativeFooterRejected(e.sig);
  }

  // -------------------------------------------------------------- message

  /**
   * A message of this snapshot. `body` is None for a reader that fails; `sig`
   * is None until the message is signed.
   */
  class Message {
    const author: UserName
    const time: int
    const parent: MsgName
    var body: Option<string>
    var content: string
    var sig: Option<Messages.Signature>

    /** NewMessage: an unsigned message stamped with the current time `now`. */
    constructor (author: UserName, parent: MsgName, body: Option<string>, now: int)
      ensures this.author == author && this.parent == parent && this.body == body && time == now
      ensures content == "" && sig.None?
    {
      this.author := author;
      this.parent := parent;
      this.body := body;
      this.time := now;
      this.content := "";
      this.sig := None;
    }

    function HeaderFields(): Header {
      Header(author, time, parent)
    }

    /**
     * The file name of the message: its parent's NextName. The first message
     * of a conversation is named `msg1-<author>.md`; a reply to a name this
     * snapshot generated has none, because NextName panics on it.
     */
    function Name(): (r: Option<MsgName>)
      ensures parent == "" ==> r.Some? && Messages.Number(r.value) == Some(1) && User(r.value) == Some(author)
      ensures parent != "" ==> (r.Some? <==> Number(parent).Some?)
      ensures forall parentAuthor, num :: parent == NewMsgName(parentAuthor, num) ==> r.None?
    {
      FixedNumberOfNewName(author, 1);
      UserOfNewName(author, 1);
      NoNextNameAfterNewName(author);
      NextName(parent, author)
    }

    function PayloadNoSig(): (r: string)
      reads this
      ensures Index(r, HeaderMarker) == |r| - |content| - |HeaderMarker|
      ensures r[|r| - |content|..] == content
    {
      HeaderMarkerFirst(HeaderFields(), content, "");
      assert SignedText(HeaderFields(), content) + "" == SignedText(HeaderFields(), content);
      SignedText(HeaderFields(), content)
    }

    /**
     * The stored form of a signed message. It parses back to this message
     * exactly when both signature integers are non-negative.
     */
    function Payload(): (r: Result<string, Messages.SignError>)
      reads this
      ensures r.Err? <==> sig.None?
      ensures r.Err? ==> r.error == Messages.Unsigned
      ensures r.Ok? && sig.value.r >= 0 && sig.value.s >= 0 ==>
        ParseMessage(r.value) == Ok(Envelope(HeaderFields(), content, sig.value))
      ensures r.Ok? && (sig.value.r < 0 || sig.value.s < 0) ==>
        ParseMessage(r.value) == Err(Messages.MalformedSignature)
    {
      if sig.None? then Err(Messages.Unsigned)
      else
        var e := Envelope(HeaderFields(), content, sig.value);
        if e.sig.r >= 0 && e.sig.s >= 0 then
          RoundTrip(e);
          Ok(PayloadNoSig() + SignatureText(sig.value))
        else
          NegativeSignatureRejected(e);
          Ok(PayloadNoSig() + SignatureText(sig.value))
    }

    /** Reads the body into the content and signs it; a message is signed at most once. */
    method Sign(signer: string -> Option<Messages.Signature>) returns (r: Result<string, Messages.SignError>)
      modifies this
      ensures old(sig).Some? ==> r == Err(Messages.AlreadySigned) && unchanged(this)
      ensures old(sig).None? && old(body).None? ==> r == Err(Messages.ReadFailed) && unchanged(this)
      ensures old(sig).None? && old(body).Some? ==>
        && content == old(body).value && body == Some("")
        && sig == signer(SignedText(HeaderFields(), content))
        && (sig.None? ==> r == Err(Messages.SignFailed))
        && (sig.Some? ==> r == Payload())
    {
      if sig.Some? {
        return Err(Messages.AlreadySigned);
      }
      if body.None? {
        return Err(Messages.ReadFailed);
      }
      content := body.value;
      body := Some("");
      sig := signer(PayloadNoSig());
      if sig.None? {
        return Err(Messages.SignFailed);
      }
      r := Ok(PayloadNoSig() + SignatureText(sig.value));
    }
  }
}
