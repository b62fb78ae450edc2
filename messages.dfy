// Messages of a conversation (message.go): the file-name scheme that numbers
// messages and names their authors, the signed text envelope a message is
// stored as, and the Message object that is signed once and then serialised.

module Messages {
  import opened Results
  import opened Text
  import Numerals
  import Records

  type UserName = string
  type MsgName = string

  const MsgPrefix := "msg"
  const MsgExtension := "txt"

  // ---------------------------------------------------------------- names

  /** The file name of the `num`-th message of a conversation, written by `user`. */
  function NewMsgName(user: UserName, num: int): MsgName {
    NameWith(user, num, MsgExtension)
  }

  /** The shape of a message name, `msg<num>-<user>.<ext>`, under any extension. */
  function NameWith(user: UserName, num: int, ext: string): string {
    MsgPrefix + Numerals.FormatInt(num, 10) + "-" + user + "." + ext
  }

  /**
   * The number in a message name: the text after the prefix up to the first
   * '-' or '.', whichever comes first. None stands for the panic the code
   * raises on a name without both separators or whose number does not parse.
   */
  function Number(n: MsgName): (r: Option<int>)
    ensures '.' !in n || '-' !in n ==> r.None?
    ensures r.Some? ==> r.value >= 0
  {
    var dot := Index(n, ".");
    var dash := Index(n, "-");
    IndexOfChar(n, '.', dot);
    IndexOfChar(n, '-', dash);
    var i := if dash < dot then dash else dot;
    // i < 0: a separator is missing; i < |MsgPrefix|: the slice is out of range
    if i < |MsgPrefix| then None
    else Numerals.ParseInt(n[|MsgPrefix|..i], 10)
  }

  /**
   * The author in a message name: the text between the first '-' and the last
   * '.'. None stands for the panic when those two are out of order or the '.'
   * is missing.
   */
  function User(n: MsgName): (r: Option<UserName>)
    ensures '.' !in n ==> r.None?
    ensures r.Some? ==> |r.value| <= |n|
  {
    var start := Index(n, "-") + 1;
    var end := LastIndex(n, ".");
    LastIndexOfChar(n, '.', end);
    if start <= end then Some(n[start..end]) else None
  }

  /**
   * The name of the message `user` writes after `parent`: number 1 for the
   * first message of a conversation, otherwise the parent's number plus one.
   * None when the parent's number cannot be read.
   */
  function NextName(parent: MsgName, user: UserName): (r: Option<MsgName>)
    ensures parent == "" ==> r == Some(NewMsgName(user, 1))
    ensures parent != "" ==> (r.Some? <==> Number(parent).Some?)
  {
    if parent == "" then Some(NewMsgName(user, 1))
    else match Number(parent)
      case None => None
      case Some(k) => Some(NewMsgName(user, k + 1))
  }

  /** The positions of the pieces of a generated name. */
  lemma NameLayout(user: UserName, num: int, ext: string)
    requires num >= 0 && '.' !in ext
    ensures var n := NameWith(user, num, ext);
      var p := |MsgPrefix| + |Numerals.FormatInt(num, 10)|;
      && Index(n, "-") == p
      && Index(n, ".") > p
      && LastIndex(n, ".") == |n| - |ext| - 1
      && n[|MsgPrefix|..p] == Numerals.FormatInt(num, 10)
      && n[p + 1..|n| - |ext| - 1] == user
  {
    var n := NameWith(user, num, ext);
    var p := |MsgPrefix| + |Numerals.FormatInt(num, 10)|;
    NameChars(user, num, ext);
    IndexOfCharAt(n, '-', p);
    IndexOfCharFrom(n, '.', p + 1);
    LastIndexOfCharAt(n, '.', |n| - |ext| - 1);
  }

  /** Where the separators of a message name are, and what lies between them. */
  lemma NameChars(user: UserName, num: int, ext: string)
    requires num >= 0 && '.' !in ext
    ensures var n := NameWith(user, num, ext);
      var d := Numerals.FormatInt(num, 10);
      var p := |MsgPrefix| + |d|;
      var dot := |n| - |ext| - 1;
      && p < dot && n[p] == '-' && n[dot] == '.'
      && (forall j :: 0 <= j < p ==> n[j] != '.' && n[j] != '-')
      && (forall j :: dot < j < |n| ==> n[j] != '.')
      && n[|MsgPrefix|..p] == d && n[p + 1..dot] == user
  {
    var d := Numerals.FormatInt(num, 10);
    Numerals.FormatIntChars(num, 10);
    var n := NameWith(user, num, ext);
    var p := |MsgPrefix| + |d|;
    var dot := |n| - |ext| - 1;
    assert n == MsgPrefix + d + "-" + user + "." + ext;
    forall j | 0 <= j < p ensures n[j] != '.' && n[j] != '-' {
      if j < 3 {
        assert n[j] == MsgPrefix[j];
      } else {
        assert n[j] == d[j - 3];
        Numerals.DigitIsNotSeparator(d[j - 3], 10);
      }
    }
    forall j | dot < j < |n| ensures n[j] != '.' {
      assert n[j] == ext[j - dot - 1];
    }
  }


  /** The number written into a name is the number read back from it. */
  lemma NumberOfNewName(user: UserName, num: int)
    requires num >= 0
    ensures Number(NewMsgName(user, num)) == Some(num)
  {
    NameLayout(user, num, MsgExtension);
    Numerals.ParseFormat(num, 10);
  }

  /** The author written into a name is read back, whatever characters the user name holds. */
  lemma UserOfNewName(user: UserName, num: int)
    requires num >= 0
    ensures User(NewMsgName(user, num)) == Some(user)
  {
    NameLayout(user, num, MsgExtension);
  }

  /** A name made with a negative number has the sign where the number ends, so it does not read back. */
  lemma NegativeNumberUnreadable(user: UserName, num: int)
    requires num < 0
    ensures Number(NewMsgName(user, num)) == None
  {
    var n := NewMsgName(user, num);
    Numerals.FormatIntChars(num, 10);
    assert n[3] == '-';
    forall j | 0 <= j < 3 ensures n[j] != '-' && n[j] != '.' {
      assert n[j] == MsgPrefix[j];
    }
    IndexOfCharAt(n, '-', 3);
    assert n[|n| - 4] == '.';
    IndexOfCharFrom(n, '.', 4);
  }

  /** ParseMsgName: the name itself once its number has been read; None stands for the panic. */
  function ParseMsgName(name: string): (r: Option<MsgName>)
    ensures r.Some? <==> Number(name).Some?
    ensures r.Some? ==> r.value == name
  {
    if Number(name).Some? then Some(name) else None
  }

  /** Every name made from a non-negative number is accepted by ParseMsgName. */
  lemma ParseNewMsgName(user: UserName, num: int)
    requires num >= 0
    ensures ParseMsgName(NewMsgName(user, num)) == Some(NewMsgName(user, num))
  {
    NumberOfNewName(user, num);
  }

  /**
   * `r` is the name of a reply by `user` to `parent`: it reads back as
   * `user`'s, numbered one past the parent (1 for the first message), and
   * there is a name exactly when the parent's number can be read.
   */
  predicate NamedAfter(parent: MsgName, user: UserName, r: Option<MsgName>) {
    && (r.Some? ==> User(r.value) == Some(user))
    && (parent == "" ==> r.Some? && Number(r.value) == Some(1))
    && (parent != "" ==> (r.Some? <==> Number(parent).Some?))
    && (parent != "" && r.Some? ==> Number(r.value) == Some(Number(parent).value + 1))
  }

  /** A next name carries the next number and the writer, and is itself readable. */
  lemma NextNameReadable(parent: MsgName, user: UserName)
    ensures NamedAfter(parent, user, NextName(parent, user))
  {
    if NextName(parent, user).Some? {
      var k := if parent == "" then 1 else Number(parent).value + 1;
      NumberOfNewName(user, k);
      UserOfNewName(user, k);
    }
  }



  // ------------------------------------------------------------- envelope

  const SigHeader := "\n\n" + Rule(26) + " SIGNATURE " + Rule(27)
  const HeaderMarker := Rule(26) + " END HEADER " + Rule(26) + "\n\n"
  const SigBase := 16

  /** An ECDSA signature: its two integers. */
  datatype Signature = Signature(r: int, s: int)

  /** The header fields a message is signed with. Time is in nanoseconds. */
  datatype Header = Header(author: UserName, time: int, parent: MsgName, title: string)

  /** Everything a stored message consists of. */
  datatype Envelope = Envelope(header: Header, content: string, sig: Signature)

  const HeaderKeys := ["Author", "Time", "ParentMessage", "Title"]

  function HeaderValues(h: Header): seq<string> {
    [h.author, Numerals.FormatInt(h.time, 10), h.parent, h.title]
  }

  /** The indented header text (without its final newline). */
  function EncodeHeader(h: Header): string {
    Records.Encode(HeaderKeys, HeaderValues(h))
  }

  /** Reads a header text, including its final newline; None is the decode error. */
  function DecodeHeader(text: string): (r: Option<Header>)
    ensures r.Some? ==> Records.Decode(HeaderKeys, text).Some?
  {
    match Records.Decode(HeaderKeys, text)
    case None => None
    case Some(vs) =>
      match Numerals.ParseInt(vs[1], 10)
      case None => None
      case Some(t) => Some(Header(vs[0], t, vs[2], vs[3]))
  }

  lemma DecodeEncodeHeader(h: Header)
    ensures DecodeHeader(EncodeHeader(h) + "\n") == Some(h)
  {
    Records.DecodeEncode(HeaderKeys, HeaderValues(h));
    Numerals.ParseFormat(h.time, 10);
  }

  /** The part of a message its signature covers: header, marker, content. */
  function SignedText(h: Header, content: string): (r: string)
    ensures |r| >= |content| + |HeaderMarker|
    ensures r[|r| - |content|..] == content
  {
    EncodeHeader(h) + "\n" + HeaderMarker + content
  }

  /** The footer: signature marker and the two signature integers in lower-case hex. */
  function SignatureText(sig: Signature): (r: string)
    ensures |r| > |SigHeader| && r[..|SigHeader|] == SigHeader
  {
    SigHeader + "\n" + Numerals.FormatInt(sig.r, SigBase) + "\n" + Numerals.FormatInt(sig.s, SigBase) + "\n"
  }

  function Encode(e: Envelope): string {
    SignedText(e.header, e.content) + SignatureText(e.sig)
  }

  datatype ParseError =
    | NoHeader            // no header marker
    | NoSignature         // no signature marker
    | OutOfRange          // the signature marker starts inside the header marker: the slice panics
    | MalformedHeader
    | MalformedSignature  // the footer is not two lines
    | InvalidSignature    // a signature line is not a hex integer

  /**
   * Cuts a stored message into header, content and footer at the first
   * `marker` (the end of the header) and the last `sigHeader` (the start of
   * the signature).
   */
  function Sections(s: string, marker: string, sigHeader: string): (r: Result<(string, string, string), ParseError>)
    ensures Index(s, marker) < 0 ==> r == Err(NoHeader)
    ensures Index(s, marker) >= 0 && LastIndex(s, sigHeader) < 0 ==> r == Err(NoSignature)
    ensures r.Err? ==> r.error in {NoHeader, NoSignature, OutOfRange}
    ensures r.Ok? <==> 0 <= Index(s, marker) && Index(s, marker) + |marker| <= LastIndex(s, sigHeader)
    ensures r.Ok? ==>
      var i := Index(s, marker);
      var j := LastIndex(s, sigHeader);
      && 0 <= i && i + |marker| <= j
      && r.value == (s[..i], s[i + |marker|..j], s[j + |sigHeader|..])
      && s == r.value.0 + marker + r.value.1 + sigHeader + r.value.2
  {
    var i := Index(s, marker);
    if i < 0 then Err(NoHeader)
    else
      var j := LastIndex(s, sigHeader);
      if j < 0 then Err(NoSignature)
      else if j < i + |marker| then Err(OutOfRange)
      else
        assert s[i..i + |marker|] == marker;
        assert s[j..j + |sigHeader|] == sigHeader;
        assert s == s[..i] + marker + s[i + |marker|..j] + sigHeader + s[j + |sigHeader|..];
        Ok((s[..i], s[i + |marker|..j], s[j + |sigHeader|..]))
  }

  /** Decodes a stored message: its sections, then the header, then the signature. */
  function ParseMessage(s: string): (r: Result<Envelope, ParseError>)
    ensures Sections(s, HeaderMarker, SigHeader).Err? ==> r == Err(Sections(s, HeaderMarker, SigHeader).error)
    ensures r.Ok? ==>
      && Sections(s, HeaderMarker, SigHeader).Ok? && r.value.content == Sections(s, HeaderMarker, SigHeader).value.1
      && DecodeHeader(Sections(s, HeaderMarker, SigHeader).value.0) == Some(r.value.header)
      && ParseFooter(Sections(s, HeaderMarker, SigHeader).value.2) == Ok(r.value.sig)
  {
    match Sections(s, HeaderMarker, SigHeader)
    case Err(err) => Err(err)
    case Ok((header, content, footer)) =>
      match DecodeHeader(header)
      case None => Err(MalformedHeader)
      case Some(h) =>
        match ParseFooter(footer)
        case Err(err) => Err(err)
        case Ok(sig) => Ok(Envelope(h, content, sig))
  }

  /** Reads the two hex signature integers after the signature marker, one per line. */
  function ParseFooter(footer: string): (r: Result<Signature, ParseError>)
    ensures r.Err? ==> r.error == MalformedSignature || r.error == InvalidSignature
  {
    var parts := Split(TrimSpace(footer), '\n');
    if |parts| != 2 then Err(MalformedSignature)
    else
      match (Numerals.ParseInt(parts[0], SigBase), Numerals.ParseInt(parts[1], SigBase))
      case (Some(x), Some(y)) => Ok(Signature(x, y))
      case _ => Err(InvalidSignature)
  }

  lemma HeaderMarkerShape()
    ensures |HeaderMarker| >= 3 && HeaderMarker[0] != '\n'
    ensures HeaderMarker[|HeaderMarker| - 2] == '\n' && HeaderMarker[|HeaderMarker| - 1] == '\n'
    ensures '\n' !in HeaderMarker[..|HeaderMarker| - 2]
  {
    var body := Rule(26) + " END HEADER " + Rule(26);
    assert HeaderMarker[..|HeaderMarker| - 2] == body;
    assert HeaderMarker[0] == Rule(26)[0];
  }

  lemma SigHeaderShape()
    ensures |SigHeader| >= 3 && SigHeader[0] == '\n' && SigHeader[1] == '\n'
    ensures '\n' !in SigHeader[2..]
  {
    assert SigHeader[2..] == Rule(26) + " SIGNATURE " + Rule(27);
  }

  /** The header marker of a signed text is the first one, whatever follows it. */
  lemma HeaderMarkerFirst(h: Header, content: string, rest: string)
    ensures Index(SignedText(h, content) + rest, HeaderMarker) == |EncodeHeader(h)| + 1
  {
    var p := EncodeHeader(h) + "\n";
    Records.EncodeNoBlankLine(HeaderKeys, HeaderValues(h));
    HeaderMarkerShape();
    FirstOccurrence(p, HeaderMarker, content + rest);
    SignedTextParts(h, content, rest);
  }

  lemma SignedTextParts(h: Header, content: string, rest: string)
    ensures SignedText(h, content) + rest == (EncodeHeader(h) + "\n") + HeaderMarker + (content + rest)
  {
  }

  lemma FooterNoBlankLine(a: string, b: string)
    requires |a| > 0 && |b| > 0 && '\n' !in a && '\n' !in b
    ensures NoBlankLine("\n" + a + "\n" + b + "\n")
  {
    var s := "\n" + a + "\n" + b + "\n";
    forall i | 0 <= i < |s| - 1 ensures s[i] != '\n' || s[i + 1] != '\n' {
      if i == 0 {
        assert s[1] == a[0];
      } else if i <= |a| {
        assert s[i] == a[i - 1];
      } else if i == |a| + 1 {
        assert s[i + 1] == b[0];
      } else {
        assert s[i] == b[i - |a| - 2];
      }
    }
  }

  lemma HexLineShape(i: int)
    ensures var t := Numerals.FormatInt(i, SigBase);
      |t| > 0 && '\n' !in t && !IsSpace(t[0]) && !IsSpace(t[|t| - 1])
  {
    var t := Numerals.FormatInt(i, SigBase);
    Numerals.FormatIntChars(i, SigBase);
    forall k | 0 <= k < |t| ensures t[k] != '\n' {
      if i < 0 && k > 0 {
        assert t[k] == t[1..][k - 1];
      }
      if k > 0 || i >= 0 {
        Numerals.DigitIsNotSeparator(t[k], SigBase);
      }
    }
    Numerals.DigitIsNotSeparator(t[|t| - 1], SigBase);
  }

  /** The signature marker of a footer is the last one, whatever comes before it. */
  lemma SigHeaderLast(before: string, sig: Signature)
    ensures LastIndex(before + SignatureText(sig), SigHeader) == |before|
  {
    var f := SignatureText(sig)[|SigHeader|..];
    FooterClean(sig);
    SigHeaderShape();
    LastOccurrence(before, SigHeader, f);
    assert SignatureText(sig) == SigHeader + f;
    assert before + SignatureText(sig) == before + SigHeader + f;
  }

  /** The footer holds no empty line. */
  lemma FooterClean(sig: Signature)
    ensures NoBlankLine(SignatureText(sig)[|SigHeader|..])
  {
    var a := Numerals.FormatInt(sig.r, SigBase);
    var b := Numerals.FormatInt(sig.s, SigBase);
    HexLineShape(sig.r);
    HexLineShape(sig.s);
    FooterNoBlankLine(a, b);
    FooterText(sig);
    assert "\n" + (a + "\n" + b) + "\n" == "\n" + a + "\n" + b + "\n";
  }


  /** The footer reads back as the signature it was written from. */
  lemma FooterRoundTrip(sig: Signature)
    ensures ParseFooter(SignatureText(sig)[|SigHeader|..]) == Ok(sig)
  {
    var a := Numerals.FormatInt(sig.r, SigBase);
    var b := Numerals.FormatInt(sig.s, SigBase);
    TrimmedFooter(sig);
    HexLineShape(sig.r);
    HexLineShape(sig.s);
    assert a + "\n" + b == a + ['\n'] + b;
    SplitTwo(a, b, '\n');
    assert Split(TrimSpace(SignatureText(sig)[|SigHeader|..]), '\n') == [a, b];
    Numerals.ParseFormat(sig.r, SigBase);
    Numerals.ParseFormat(sig.s, SigBase);
  }

  /** The trimmed footer: the two hexadecimal integers on their own lines. */
  lemma TrimmedFooter(sig: Signature)
    ensures var a := Numerals.FormatInt(sig.r, SigBase);
      var b := Numerals.FormatInt(sig.s, SigBase);
      TrimSpace(SignatureText(sig)[|SigHeader|..]) == a + "\n" + b
  {
    var a := Numerals.FormatInt(sig.r, SigBase);
    var b := Numerals.FormatInt(sig.s, SigBase);
    HexLineShape(sig.r);
    HexLineShape(sig.s);
    var x := a + "\n" + b;
    assert !IsSpace(x[0]) && !IsSpace(x[|x| - 1]) by {
      assert x[0] == a[0] && x[|x| - 1] == b[|b| - 1];
    }
    FooterText(sig);
    TrimSpaceAround("\n", x, "\n");
  }

  /** The footer follows the signature header: the two integers between newlines. */
  lemma FooterText(sig: Signature)
    ensures var a := Numerals.FormatInt(sig.r, SigBase);
      var b := Numerals.FormatInt(sig.s, SigBase);
      SignatureText(sig)[|SigHeader|..] == "\n" + (a + "\n" + b) + "\n"
  {
    var t := "\n" + (Numerals.FormatInt(sig.r, SigBase) + "\n" + Numerals.FormatInt(sig.s, SigBase)) + "\n";
    assert SignatureText(sig) == SigHeader + t;
  }

  /** ParseMessage succeeds when the markers, the header and the footer are where an encoder puts them. */
  lemma ParseAt(s: string, header: string, e: Envelope, footer: string)
    requires Sections(s, HeaderMarker, SigHeader) == Ok((header, e.content, footer))
    requires DecodeHeader(header) == Some(e.header)
    requires ParseFooter(footer) == Ok(e.sig)
    ensures ParseMessage(s) == Ok(e)
  {
  }

  /** Where the parts of an encoded message lie in its text. */
  lemma EncodedSlices(p: string, c: string, f: string)
    ensures var s, i := p + HeaderMarker + c + SigHeader + f, |p| + |HeaderMarker|;
      && s[..|p|] == p && s[i..i + |c|] == c && s[i + |c| + |SigHeader|..] == f
  {
    var s, i := p + HeaderMarker + c + SigHeader + f, |p| + |HeaderMarker|;
    assert s == (p + HeaderMarker) + c + (SigHeader + f);
  }

  /** The sections of an encoded envelope are its header text, its content and its signature lines. */
  lemma SectionsOfEncoded(e: Envelope)
    ensures Sections(Encode(e), HeaderMarker, SigHeader) ==
      Ok((EncodeHeader(e.header) + "\n", e.content, SignatureText(e.sig)[|SigHeader|..]))
  {
    var p := EncodeHeader(e.header) + "\n";
    var front := SignedText(e.header, e.content);
    var f := SignatureText(e.sig)[|SigHeader|..];
    HeaderMarkerFirst(e.header, e.content, SignatureText(e.sig));
    SigHeaderLast(front, e.sig);
    assert front == p + HeaderMarker + e.content;
    assert SignatureText(e.sig) == SigHeader + f;
    var s := Encode(e);
    assert s == p + HeaderMarker + e.content + SigHeader + f;
    EncodedSlices(p, e.content, f);
    assert Index(s, HeaderMarker) == |p|;
    assert LastIndex(s, SigHeader) == |p| + |HeaderMarker| + |e.content|;
  }

  /**
   * Every envelope, whatever its content holds (even copies of either
   * marker), parses back from its text to the same header, content and
   * signature.
   */
  lemma RoundTrip(e: Envelope)
    ensures ParseMessage(Encode(e)) == Ok(e)
  {
    SectionsOfEncoded(e);
    DecodeEncodeHeader(e.header);
    FooterRoundTrip(e.sig);
    ParseAt(Encode(e), EncodeHeader(e.header) + "\n", e, SignatureText(e.sig)[|SigHeader|..]);
  }

  // -------------------------------------------------------------- message

  datatype SignError = Unsigned | AlreadySigned | ReadFailed | SignFailed

  /**
   * A message. Its content is read from `body` when it is signed; `body` is
   * None for a reader that fails. `sig` is None until the message is signed.
   */
  class Message {
    const author: UserName
    const title: string
    const time: int
    const parent: MsgName
    var body: Option<string>
    var content: string
    var sig: Option<Signature>

    /** NewMessage: an unsigned message stamped with the current time `now`. */
    constructor (author: UserName, title: string, parent: MsgName, body: Option<string>, now: int)
      ensures this.author == author && this.title == title && this.parent == parent
      ensures this.body == body && time == now
      ensures content == "" && sig.None?
    {
      this.author := author;
      this.title := title;
      this.parent := parent;
      this.body := body;
      this.time := now;
      this.content := "";
      this.sig := None;
    }

    /** The message ParseMessage builds: signed, with no body left to read. */
    constructor FromEnvelope(e: Envelope)
      ensures author == e.header.author && title == e.header.title
      ensures time == e.header.time && parent == e.header.parent
      ensures content == e.content && sig == Some(e.sig) && body.None?
    {
      author := e.header.author;
      title := e.header.title;
      time := e.header.time;
      parent := e.header.parent;
      content := e.content;
      sig := Some(e.sig);
      body := None;
    }

    function HeaderFields(): Header {
      Header(author, time, parent, title)
    }

    /** The file name of the message: the name that follows its parent's. */
    function Name(): (r: Option<MsgName>)
      ensures NamedAfter(parent, author, r)
    {
      NextNameReadable(parent, author);
      NextName(parent, author)
    }

    /** payloadNoSig: the text the signature covers; its header marker is the first. */
    function PayloadNoSig(): (r: string)
      reads this
      ensures Index(r, HeaderMarker) == |r| - |content| - |HeaderMarker|
      ensures r[|r| - |content|..] == content
    {
      HeaderMarkerFirst(HeaderFields(), content, "");
      assert SignedText(HeaderFields(), content) + "" == SignedText(HeaderFields(), content);
      SignedText(HeaderFields(), content)
    }

    /** The stored form of a signed message, which parses back to this message. */
    function Payload(): (r: Result<string, SignError>)
      reads this
      ensures r.Err? <==> sig.None?
      ensures r.Err? ==> r.error == Unsigned
      ensures r.Ok? ==> ParseMessage(r.value) == Ok(Envelope(HeaderFields(), content, sig.value))
    {
      if sig.None? then Err(Unsigned)
      else
        var e := Envelope(HeaderFields(), content, sig.value);
        RoundTrip(e);
        Ok(PayloadNoSig() + SignatureText(sig.value))
    }

    /**
     * Reads the body into the content and signs header and content with
     * `signer` (the author's key over the SHA-256 hash; None is its error).
     * A message is signed at most once.
     */
    method Sign(signer: string -> Option<Signature>) returns (r: Result<string, SignError>)
      modifies this
      ensures old(sig).Some? ==> r == Err(AlreadySigned) && unchanged(this)
      ensures old(sig).None? && old(body).None? ==> r == Err(ReadFailed) && unchanged(this)
      ensures old(sig).None? && old(body).Some? ==>
        && content == old(body).value && body == Some("")
        && sig == signer(SignedText(HeaderFields(), content))
        && (sig.None? ==> r == Err(SignFailed))
        && (sig.Some? ==> r == Payload())
      ensures r.Ok? ==>
        ParseMessage(r.value) == Ok(Envelope(HeaderFields(), old(body).value, sig.value))
    {
      if sig.Some? {
        return Err(AlreadySigned);
      }
      if body.None? {
        return Err(ReadFailed);
      }
      content := body.value;
      body := Some("");
      sig := signer(PayloadNoSig());
      if sig.None? {
        return Err(SignFailed);
      }
      r := Ok(PayloadNoSig() + SignatureText(sig.value));
    }
  }
}
