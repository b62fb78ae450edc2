/**
 * The envelope header's text form. The program writes the header with
 * encoding/json MarshalIndent and reads it with json.Unmarshal; this model
 * replaces JSON with a smaller format that keeps the two properties the
 * envelope relies on: decoding what was encoded gives back the same fields,
 * and the encoded header never contains a blank line (JSON escapes control
 * characters inside strings, so a raw newline never appears in a value).
 * Each field is one line `Key: value`, with `\` and newline escaped in the value.
 */
module Records {
  import opened Results
  import opened Text

  function EscapeChar(c: char): (r: string)
    ensures |r| >= 1 && '\n' !in r
  {
    if c == '\\' then "\\\\" else if c == '\n' then "\\n" else [c]
  }

  /** A value with every backslash and newline written as a two-character escape. */
  function Escape(s: string): (r: string)
    ensures '\n' !in r
  {
    if |s| == 0 then "" else EscapeChar(s[0]) + Escape(s[1..])
  }

  function Unescape(s: string): Option<string>
  {
    if |s| == 0 then Some("")
    else if s[0] != '\\' then
      match Unescape(s[1..])
      case Some(t) => Some([s[0]] + t)
      case None => None
    else if |s| >= 2 && (s[1] == '\\' || s[1] == 'n') then
      match Unescape(s[2..])
      case Some(t) => Some([if s[1] == 'n' then '\n' else '\\'] + t)
      case None => None
    else None
  }

  lemma {:induction false} UnescapeEscape(s: string)
    ensures Unescape(Escape(s)) == Some(s)
  {
    if |s| > 0 {
      UnescapeEscape(s[1..]);
      var e := Escape(s);
      assert e == EscapeChar(s[0]) + Escape(s[1..]);
      if s[0] == '\\' || s[0] == '\n' {
        assert e[2..] == Escape(s[1..]);
      } else {
        assert e[1..] == Escape(s[1..]);
      }
      assert s == [s[0]] + s[1..];
    }
  }

  function FieldLine(key: string, value: string): string {
    key + ": " + Escape(value)
  }

  function FieldLines(keys: seq<string>, values: seq<string>): (r: seq<string>)
    requires |keys| == |values|
    ensures |r| == |keys|
    ensures forall i :: 0 <= i < |r| ==> r[i] == FieldLine(keys[i], values[i])
  {
    if |keys| == 0 then [] else [FieldLine(keys[0], values[0])] + FieldLines(keys[1..], values[1..])
  }

  /** The header text: one field per line (the caller adds the final newline). */
  function Encode(keys: seq<string>, values: seq<string>): string
    requires |keys| == |values| >= 1
  {
    JoinWith(FieldLines(keys, values), '\n')
  }

  function DecodeLines(keys: seq<string>, lines: seq<string>): (r: Option<seq<string>>)
    requires |keys| == |lines|
    ensures r.Some? ==> |r.value| == |keys|
  {
    if |keys| == 0 then Some([])
    else
      var key := keys[0] + ": ";
      var line := lines[0];
      if |line| < |key| || line[..|key|] != key then None
      else
        match (Unescape(line[|key|..]), DecodeLines(keys[1..], lines[1..]))
        case (Some(v), Some(vs)) => Some([v] + vs)
        case _ => None
  }

  /** Reads a header written by Encode and followed by its newline; None is the decode error. */
  function Decode(keys: seq<string>, text: string): (r: Option<seq<string>>)
    ensures r.Some? ==> |r.value| == |keys|
  {
    var lines := Split(text, '\n');
    if |lines| != |keys| + 1 || lines[|keys|] != "" then None
    else DecodeLines(keys, lines[..|keys|])
  }

  predicate GoodKeys(keys: seq<string>) {
    |keys| >= 1 && forall i :: 0 <= i < |keys| ==> '\n' !in keys[i]
  }

  lemma JoinWithLast(parts: seq<string>, x: string, sep: char)
    requires |parts| >= 1
    ensures JoinWith(parts + [x], sep) == JoinWith(parts, sep) + [sep] + x
  {
    if |parts| > 1 {
      assert (parts + [x])[1..] == parts[1..] + [x];
      JoinWithLast(parts[1..], x, sep);
    }
  }

  lemma {:induction false} DecodeFieldLines(keys: seq<string>, values: seq<string>)
    requires |keys| == |values|
    ensures DecodeLines(keys, FieldLines(keys, values)) == Some(values)
  {
    if |keys| > 0 {
      var key := keys[0] + ": ";
      var line := FieldLine(keys[0], values[0]);
      assert line[..|key|] == key && line[|key|..] == Escape(values[0]);
      UnescapeEscape(values[0]);
      DecodeFieldLines(keys[1..], values[1..]);
      assert FieldLines(keys, values)[1..] == FieldLines(keys[1..], values[1..]);
      assert values == [values[0]] + values[1..];
    }
  }

  /** Decoding an encoded header (with the newline the envelope puts after it) gives back its fields. */
  lemma DecodeEncode(keys: seq<string>, values: seq<string>)
    requires GoodKeys(keys) && |values| == |keys|
    ensures Decode(keys, Encode(keys, values) + "\n") == Some(values)
  {
    var lines := FieldLines(keys, values);
    JoinWithLast(lines, "", '\n');
    assert Encode(keys, values) + "\n" == JoinWith(lines + [""], '\n');
    forall i | 0 <= i < |lines + [""]| ensures '\n' !in (lines + [""])[i] {
      if i < |lines| {
        assert (lines + [""])[i] == FieldLine(keys[i], values[i]);
      }
    }
    SplitJoin(lines + [""], '\n');
    assert (lines + [""])[..|keys|] == lines;
    DecodeFieldLines(keys, values);
  }

  lemma {:induction false} NoBlankLineJoin(lines: seq<string>)
    requires |lines| >= 1
    requires forall i :: 0 <= i < |lines| ==> |lines[i]| > 0 && '\n' !in lines[i]
    ensures NoBlankLine(JoinWith(lines, '\n') + "\n")
  {
    NoBlankLineLine(lines[0]);
    if |lines| > 1 {
      NoBlankLineJoin(lines[1..]);
      var rest := JoinWith(lines[1..], '\n') + "\n";
      assert rest[0] == lines[1][0];
      NoBlankLineConcat(lines[0] + "\n", rest);
      assert JoinWith(lines, '\n') + "\n" == lines[0] + "\n" + rest;
    }
  }

  /** An encoded header followed by its newline has no blank line. */
  lemma EncodeNoBlankLine(keys: seq<string>, values: seq<string>)
    requires GoodKeys(keys) && |values| == |keys|
    ensures NoBlankLine(Encode(keys, values) + "\n")
  {
    NoBlankLineJoin(FieldLines(keys, values));
  }
}
