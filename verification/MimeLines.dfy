/** CRLF-separated text, and base64 wrapped to 76 columns (section 6.8 of RFC 2045). */
module MimeLines {
  import opened Bytes
  import opened Base64
  import opened Options
  import opened Sequences

  const CRLF := "\r\n"
  const LINE_LENGTH := 76

  /** Neither CR nor LF occurs. */
  predicate Clean(s: string) {
    forall i | 0 <= i < |s| :: s[i] != '\r' && s[i] != '\n'
  }

  predicate AllClean(lines: seq<string>) {
    forall i | 0 <= i < |lines| :: Clean(lines[i])
  }

  /** No CR is followed by LF and, where lines also end at a bare LF, no LF occurs at all. */
  predicate OneLine(s: string, lf: bool) {
    && (forall i | 0 <= i < |s| - 1 :: s[i] == '\r' ==> s[i + 1] != '\n')
    && (lf ==> forall i | 0 <= i < |s| :: s[i] != '\n')
  }

  predicate AllOneLine(lines: seq<string>, lf: bool) {
    forall i | 0 <= i < |lines| :: OneLine(lines[i], lf)
  }

  function Join(lines: seq<string>): string
    requires lines != []
  {
    if |lines| == 1 then lines[0] else lines[0] + CRLF + Join(lines[1..])
  }

  /**
   * The lines of a text: what stands between its CRLFs. With `lf` a line also ends at a
   * bare LF, as it does for many readers and for a transport that completes it to CRLF.
   */
  function Split(text: string, lf: bool): (lines: seq<string>)
    ensures lines != []
  {
    if text == "" then [""]
    else if CRLF <= text then [""] + Split(text[2..], lf)
    else if lf && text[0] == '\n' then [""] + Split(text[1..], lf)
    else
      var rest := Split(text[1..], lf);
      [[text[0]] + rest[0]] + rest[1..]
  }

  lemma {:induction false} SplitLine(line: string, rest: string, lf: bool)
    requires OneLine(line, lf)
    ensures Split(line, lf) == [line]
    ensures Split(line + CRLF + rest, lf) == [line] + Split(rest, lf)
  {
    if line == "" {
      assert line + CRLF + rest == CRLF + rest;
      assert (CRLF + rest)[2..] == rest;
    } else {
      SplitLine(line[1..], rest, lf);
      assert line == [line[0]] + line[1..];
      SplitLonger(line, rest, lf);
    }
  }

  lemma SplitLonger(line: string, rest: string, lf: bool)
    requires OneLine(line, lf) && line != "" && Split(line[1..] + CRLF + rest, lf) == [line[1..]] + Split(rest, lf)
    ensures Split(line + CRLF + rest, lf) == [line] + Split(rest, lf)
  {
    var text := line + CRLF + rest;
    assert text[1..] == line[1..] + CRLF + rest;
    assert text[0] == line[0] && text[1] == if |line| > 1 then line[1] else '\r';
    assert line == [line[0]] + line[1..];
  }

  /** Splitting undoes joining. */
  lemma {:induction false} SplitJoin(lines: seq<string>, lf: bool)
    requires lines != [] && AllOneLine(lines, lf)
    ensures Split(Join(lines), lf) == lines
  {
    if |lines| == 1 {
      SplitLine(lines[0], "", lf);
    } else {
      SplitJoin(lines[1..], lf);
      SplitLine(lines[0], Join(lines[1..]), lf);
      assert lines == [lines[0]] + lines[1..];
    }
  }

  /** No line of a split text holds a break; nor does the first one join up with what precedes it. */
  lemma {:induction false} SplitOneLine(text: string, lf: bool)
    ensures AllOneLine(Split(text, lf), lf)
    ensures text != "" && Split(text, lf)[0] != "" ==> Split(text, lf)[0][0] == text[0]
  {
    if text == "" {
    } else if CRLF <= text {
      SplitOneLine(text[2..], lf);
    } else if lf && text[0] == '\n' {
      SplitOneLine(text[1..], lf);
    } else {
      SplitOneLine(text[1..], lf);
      var rest := Split(text[1..], lf);
      FirstLine(text, rest[0], lf);
    }
  }

  lemma FirstLine(text: string, rest: string, lf: bool)
    requires text != "" && !(CRLF <= text) && !(lf && text[0] == '\n')
    requires OneLine(rest, lf) && (text[1..] != "" && rest != "" ==> rest[0] == text[1])
    requires text[1..] == "" ==> rest == ""
    ensures OneLine([text[0]] + rest, lf)
  {
    var first := [text[0]] + rest;
    forall i | 0 <= i < |first| - 1 ensures first[i] == '\r' ==> first[i + 1] != '\n' {
      if i > 0 {
        assert first[i] == rest[i - 1] && first[i + 1] == rest[i];
      } else {
        assert first[1] == text[1];
      }
    }
  }

  lemma CleanOneLine(lines: seq<string>, lf: bool)
    requires AllClean(lines)
    ensures AllOneLine(lines, lf)
  {
  }

  lemma {:induction false} JoinConcat(a: seq<string>, b: seq<string>)
    requires a != [] && b != []
    ensures Join(a + b) == Join(a) + CRLF + Join(b)
  {
    if |a| == 1 {
      assert (a + b)[1..] == b;
    } else {
      assert (a + b)[1..] == a[1..] + b;
      JoinConcat(a[1..], b);
      Assoc4(a[0] + CRLF, Join(a[1..]), CRLF, Join(b));
    }
  }

  // ---- wrapping ----

  function Chunks(text: string): (lines: seq<string>)
    ensures lines != []
  {
    if |text| <= LINE_LENGTH then [text] else [text[..LINE_LENGTH]] + Chunks(text[LINE_LENGTH..])
  }

  function Concat(lines: seq<string>): string {
    if lines == [] then "" else lines[0] + Concat(lines[1..])
  }

  /** The wrapped lines hold the text, all but the last are full, and only the empty text has an empty line. */
  lemma {:induction false} ChunksWrap(text: string)
    ensures Concat(Chunks(text)) == text
    ensures forall i | 0 <= i < |Chunks(text)| - 1 :: |Chunks(text)[i]| == LINE_LENGTH
    ensures var last := Chunks(text)[|Chunks(text)| - 1]; |last| <= LINE_LENGTH && (text != "" ==> last != "")
  {
    if |text| <= LINE_LENGTH {
      assert [text][1..] == [];
    } else {
      var rest := Chunks(text[LINE_LENGTH..]);
      ChunksWrap(text[LINE_LENGTH..]);
      assert Chunks(text)[1..] == rest;
      assert text == text[..LINE_LENGTH] + text[LINE_LENGTH..];
    }
  }

  lemma {:induction false} ChunksOf(text: string, p: char -> bool)
    requires forall i | 0 <= i < |text| :: p(text[i])
    ensures forall i, j | 0 <= i < |Chunks(text)| && 0 <= j < |Chunks(text)[i]| :: p(Chunks(text)[i][j])
  {
    if |text| > LINE_LENGTH {
      ChunksOf(text[LINE_LENGTH..], p);
    }
  }

  /** strings.TrimRight with the cutset CR, LF. */
  function TrimRight(s: string): string {
    if s != "" && (s[|s| - 1] == '\r' || s[|s| - 1] == '\n') then TrimRight(s[..|s| - 1]) else s
  }

  lemma TrimOneBreak(s: string)
    requires s != "" && s[|s| - 1] != '\r' && s[|s| - 1] != '\n'
    ensures TrimRight(s + CRLF) == s
  {
    var t := s + "\r";
    assert (s + CRLF)[..|s| + 1] == t;
    assert TrimRight(s + CRLF) == TrimRight(t);
    assert t[..|s|] == s;
    assert TrimRight(t) == TrimRight(s);
  }

  /** Dropping every CR and LF, as a decoder of wrapped base64 does. */
  function Strip(s: string): string {
    if s == "" then "" else (if s[0] == '\r' || s[0] == '\n' then "" else [s[0]]) + Strip(s[1..])
  }

  lemma {:induction false} StripConcat(a: string, b: string)
    ensures Strip(a + b) == Strip(a) + Strip(b)
  {
    if a == "" {
      assert a + b == b;
    } else {
      assert (a + b)[1..] == a[1..] + b;
      StripConcat(a[1..], b);
    }
  }

  lemma {:induction false} StripClean(s: string)
    requires Clean(s)
    ensures Strip(s) == s
  {
    if s != "" {
      StripClean(s[1..]);
      assert s == [s[0]] + s[1..];
    }
  }

  lemma {:induction false} StripJoin(lines: seq<string>)
    requires lines != [] && AllClean(lines)
    ensures Strip(Join(lines)) == Concat(lines)
  {
    StripClean(lines[0]);
    if |lines| == 1 {
      assert lines[1..] == [];
    } else {
      StripJoin(lines[1..]);
      StripConcat(lines[0] + CRLF, Join(lines[1..]));
      StripConcat(lines[0], CRLF);
      StripBreak();
      assert Strip(lines[0] + CRLF) == lines[0];
    }
  }

  lemma StripBreak()
    ensures Strip(CRLF) == ""
  {
    assert CRLF[1..] == "\n";
    assert "\n"[1..] == "";
    assert Strip("\n") == "";
  }

  lemma ChunksClean(data: seq<byte>)
    ensures AllClean(Chunks(Encode(data)))
    ensures forall i, j | 0 <= i < |Chunks(Encode(data))| && 0 <= j < |Chunks(Encode(data))[i]| ::
      InAlphabet(Chunks(Encode(data))[i][j])
  {
    EncodeAlphabet(data);
    ChunksOf(Encode(data), InAlphabet);
  }

  lemma {:induction false} LastOfJoin(lines: seq<string>)
    requires lines != [] && lines[|lines| - 1] != ""
    ensures Join(lines) != "" && var last := lines[|lines| - 1]; Join(lines)[|Join(lines)| - 1] == last[|last| - 1]
  {
    if |lines| > 1 {
      LastOfJoin(lines[1..]);
    }
  }

  /** The text from position `i` on, broken after every full line. */
  function WrapFrom(text: string, i: nat): string
    requires i <= |text|
    decreases |text| - i
  {
    if i + LINE_LENGTH < |text| then text[i..i + LINE_LENGTH] + CRLF + WrapFrom(text, i + LINE_LENGTH)
    else text[i..]
  }

  lemma {:induction false} WrapFromJoins(text: string, i: nat)
    requires i <= |text|
    ensures WrapFrom(text, i) == Join(Chunks(text[i..]))
    decreases |text| - i
  {
    var rest := text[i..];
    if i + LINE_LENGTH < |text| {
      WrapFromJoins(text, i + LINE_LENGTH);
      assert rest[..LINE_LENGTH] == text[i..i + LINE_LENGTH];
      assert rest[LINE_LENGTH..] == text[i + LINE_LENGTH..];
      assert Chunks(rest)[1..] == Chunks(rest[LINE_LENGTH..]);
    }
  }

  lemma EndsClean(data: seq<byte>)
    requires Encode(data) != ""
    ensures var t := Join(Chunks(Encode(data))); t != "" && t[|t| - 1] != '\r' && t[|t| - 1] != '\n'
  {
    var lines := Chunks(Encode(data));
    ChunksWrap(Encode(data));
    ChunksClean(data);
    LastOfJoin(lines);
    assert Clean(lines[|lines| - 1]);
  }

  lemma BreakOne(text: string, i: nat, done: string)
    requires i < |text|
    ensures var end := if i + LINE_LENGTH > |text| then |text| else i + LINE_LENGTH;
      && (i + LINE_LENGTH < |text| ==>
            done + WrapFrom(text, i) == done + text[i..end] + CRLF + WrapFrom(text, i + LINE_LENGTH))
      && (i + LINE_LENGTH >= |text| ==> done + WrapFrom(text, i) + CRLF == done + text[i..end] + CRLF)
  {
    if i + LINE_LENGTH < |text| {
      Assoc4(done, text[i..i + LINE_LENGTH], CRLF, WrapFrom(text, i + LINE_LENGTH));
    } else {
      assert text[i..|text|] == text[i..];
    }
  }

  /** The loop of wrapBase64: every line followed by CRLF. */
  method BreakLines(encoded: string) returns (sb: string)
    requires encoded != ""
    ensures sb == WrapFrom(encoded, 0) + CRLF
  {
    sb := "";
    var i := 0;
    while i < |encoded|
      invariant 0 <= i
      invariant i < |encoded| ==> WrapFrom(encoded, 0) == sb + WrapFrom(encoded, i)
      invariant i >= |encoded| ==> sb == WrapFrom(encoded, 0) + CRLF
      decreases |encoded| - i
    {
      var end := i + LINE_LENGTH;
      if end > |encoded| {
        end := |encoded|;
      }
      BreakOne(encoded, i, sb);
      sb := sb + encoded[i..end];
      sb := sb + CRLF;
      i := i + LINE_LENGTH;
    }
  }

  /** wrapBase64: short text as it is; otherwise broken into lines and trimmed on the right. */
  method WrapBase64(data: seq<byte>) returns (wrapped: string)
    ensures wrapped == Join(Chunks(Encode(data)))
  {
    var encoded := Encode(data);
    if |encoded| <= LINE_LENGTH {
      return encoded;
    }
    var sb := BreakLines(encoded);
    wrapped := TrimRight(sb);
    WrapFromJoins(encoded, 0);
    assert encoded[0..] == encoded;
    EndsClean(data);
    TrimOneBreak(WrapFrom(encoded, 0));
  }

  lemma WrapSplits(data: seq<byte>, lf: bool)
    ensures Split(Join(Chunks(Encode(data))), lf) == Chunks(Encode(data))
  {
    ChunksClean(data);
    CleanOneLine(Chunks(Encode(data)), lf);
    SplitJoin(Chunks(Encode(data)), lf);
  }

  lemma WrapStrips(data: seq<byte>)
    ensures Strip(Join(Chunks(Encode(data)))) == Encode(data)
  {
    ChunksClean(data);
    StripJoin(Chunks(Encode(data)));
    ChunksWrap(Encode(data));
  }

  /**
   * Stripping the line breaks of wrapped base64 and decoding returns the data; every
   * line has at most 76 characters, and all but the last exactly 76.
   */
  lemma WrapRoundTrip(data: seq<byte>, lf: bool)
    ensures var lines := Chunks(Encode(data));
      && Decode(Strip(Join(lines))) == Some(data)
      && Split(Join(lines), lf) == lines
      && (forall i | 0 <= i < |lines| - 1 :: |lines[i]| == 76)
      && |lines[|lines| - 1]| <= 76
  {
    var lines := Chunks(Encode(data));
    WrapSplits(data, lf);
    ChunksWrap(Encode(data));
    WrapStrips(data);
    EncodeDecode(data);
  }
}
