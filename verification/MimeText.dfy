/** The text of an entity as the multipart writer produces it, piece by piece. */
module MimeText {
  import opened MimeLines
  import opened MimeTree
  import opened Base64
  import opened Options
  import opened Sequences

  function HeaderText(fields: seq<Field>): string {
    if fields == [] then "" else HeaderLine(fields[0]) + CRLF + HeaderText(fields[1..])
  }

  function Text(e: Entity): string
    decreases e, 1
  {
    match e
    case Leaf(fields, data) => HeaderText(fields) + CRLF + (Join(Chunks(Encode(data))) + CRLF)
    case Multi(fields, b, parts) =>
      HeaderText(fields) + CRLF + (PartsText(b, true, parts) + (CRLF + CloseDelimiter(b) + CRLF))
  }

  /** One body part: the break before its delimiter belongs to the delimiter, and the first has none. */
  function PartText(b: string, first: bool, e: Entity): string
    decreases e, 2
  {
    (if first then "" else CRLF) + (Delimiter(b) + CRLF + Text(e))
  }

  function PartsText(b: string, first: bool, parts: seq<Entity>): string
    decreases parts, 0
  {
    if parts == [] then "" else PartText(b, first, parts[0]) + PartsText(b, false, parts[1..])
  }

  lemma {:induction false} HeaderTextConcat(a: seq<Field>, b: seq<Field>)
    ensures HeaderText(a + b) == HeaderText(a) + HeaderText(b)
  {
    if a == [] {
      assert a + b == b;
    } else {
      assert (a + b)[1..] == a[1..] + b;
      HeaderTextConcat(a[1..], b);
      Assoc(HeaderLine(a[0]) + CRLF, HeaderText(a[1..]), HeaderText(b));
    }
  }

  lemma {:induction false} HeaderTextJoins(fields: seq<Field>, rest: seq<string>)
    requires rest != []
    ensures HeaderText(fields) + CRLF + Join(rest) == Join(HeaderLines(fields) + [""] + rest)
  {
    var lines := HeaderLines(fields) + [""] + rest;
    if fields == [] {
      assert lines[1..] == rest;
      assert "" + CRLF + Join(rest) == CRLF + Join(rest);
    } else {
      assert lines[1..] == HeaderLines(fields[1..]) + [""] + rest;
      HeaderTextJoins(fields[1..], rest);
      Assoc4(HeaderLine(fields[0]) + CRLF, HeaderText(fields[1..]), CRLF, Join(rest));
    }
  }

  /** The text is the lines of the entity, joined. */
  lemma {:induction false} TextJoins(e: Entity)
    requires WellFormed(e, true) || WellFormed(e, false)
    ensures Text(e) == Join(Lines(e))
    decreases e, 1
  {
    match e
    case Leaf(fields, data) =>
      BlankEnd(Chunks(Encode(data)));
      HeaderTextJoins(fields, Chunks(Encode(data)) + [""]);
    case Multi(fields, b, parts) =>
      PartsTextJoins(b, true, parts);
      CloseEnd(PartLines(b, parts), b);
      HeaderTextJoins(fields, PartLines(b, parts) + [CloseDelimiter(b), ""]);
  }

  lemma BlankEnd(lines: seq<string>)
    requires lines != []
    ensures Join(lines + [""]) == Join(lines) + CRLF
  {
    JoinConcat(lines, [""]);
  }

  lemma CloseEnd(lines: seq<string>, b: string)
    requires lines != []
    ensures Join(lines + [CloseDelimiter(b), ""]) == "" + Join(lines) + (CRLF + CloseDelimiter(b) + CRLF)
  {
    JoinClose(b);
    JoinConcat(lines, [CloseDelimiter(b), ""]);
    Assoc4(Join(lines), CRLF, CloseDelimiter(b), CRLF);
    Assoc(Join(lines) + CRLF, CloseDelimiter(b), CRLF);
  }

  lemma JoinClose(b: string)
    ensures Join([CloseDelimiter(b), ""]) == CloseDelimiter(b) + CRLF
  {
    assert [CloseDelimiter(b), ""][1..] == [""];
    assert CloseDelimiter(b) + CRLF + "" == CloseDelimiter(b) + CRLF;
  }

  lemma {:induction false} PartsTextJoins(b: string, first: bool, parts: seq<Entity>)
    requires parts != [] && PartsWellFormed(parts)
    ensures PartLines(b, parts) != []
    ensures PartsText(b, first, parts) == (if first then "" else CRLF) + Join(PartLines(b, parts))
    decreases parts, 0
  {
    var start := if first then "" else CRLF;
    var here, rest := [Delimiter(b)] + Lines(parts[0]), PartLines(b, parts[1..]);
    TextJoins(parts[0]);
    assert here[1..] == Lines(parts[0]);
    assert PartText(b, first, parts[0]) == start + Join(here);
    if |parts| == 1 {
      assert PartLines(b, parts) == here + rest == here;
      assert PartsText(b, first, parts) == PartText(b, first, parts[0]) + "";
    } else {
      PartsTextJoins(b, false, parts[1..]);
      JoinConcat(here, rest);
      Assoc(start + Join(here), CRLF, Join(rest));
      Assoc4(start, Join(here), CRLF, Join(rest));
    }
  }

  /** Writing one more part. */
  lemma {:induction false} PartsTextSnoc(b: string, first: bool, parts: seq<Entity>, e: Entity)
    ensures PartsText(b, first, parts + [e]) == PartsText(b, first, parts) + PartText(b, first && parts == [], e)
    decreases parts
  {
    if parts == [] {
      assert parts + [e] == [e];
      assert [e][1..] == [];
      assert PartText(b, first, e) + "" == "" + PartText(b, first, e);
    } else {
      assert (parts + [e])[1..] == parts[1..] + [e];
      PartsTextSnoc(b, false, parts[1..], e);
      Assoc(PartText(b, first, parts[0]), PartsText(b, false, parts[1..]), PartText(b, false, e));
    }
  }

  /** A reader gets back exactly the entity that was written, whether or not it also splits at a bare LF. */
  lemma TextRoundTrip(e: Entity, lf: bool)
    requires WellFormed(e, true) && OnOneLine(e, lf)
    ensures Parse(Split(Text(e), lf)) == Some(e)
  {
    TextJoins(e);
    LinesOneLine(e, true, lf);
    SplitJoin(Lines(e), lf);
    ParseLines(e, true);
  }

  lemma ReadsOne(f: Field, lines: seq<string>, h: Header)
    requires FieldOk(f) && ParseHeader(lines) == Some(h)
    ensures ParseHeader([HeaderLine(f)] + lines) == Some(Header([f] + h.fields, h.rest))
  {
    FieldBack(f);
    assert ([HeaderLine(f)] + lines)[1..] == lines;
  }

  lemma HeaderFirst(fields: seq<Field>, body: string, lf: bool)
    requires fields != [] && FieldOk(fields[0]) && OneLine(fields[0].value, lf)
    ensures Split(HeaderText(fields) + CRLF + body, lf)
         == [HeaderLine(fields[0])] + Split(HeaderText(fields[1..]) + CRLF + body, lf)
  {
    var rest := HeaderText(fields[1..]) + CRLF + body;
    Assoc4(HeaderLine(fields[0]) + CRLF, HeaderText(fields[1..]), CRLF, body);
    LineOfField(fields[0], lf);
    SplitLine(HeaderLine(fields[0]), rest, lf);
  }

  /**
   * The header block, split at line breaks and first colons, gives the fields that were
   * written; the body is the rest.
   */
  lemma {:induction false} HeaderReads(fields: seq<Field>, body: string, lf: bool)
    requires FieldsOk(fields, true) && ValuesClean(fields)
    ensures ParseHeader(Split(HeaderText(fields) + CRLF + body, lf)) == Some(Header(fields, Split(body, lf)))
  {
    if fields == [] {
      SplitLine("", body, lf);
      assert "" + CRLF + body == CRLF + body;
    } else {
      HeaderReads(fields[1..], body, lf);
      HeaderFirst(fields, body, lf);
      ReadsOne(fields[0], Split(HeaderText(fields[1..]) + CRLF + body, lf), Header(fields[1..], Split(body, lf)));
      assert fields == [fields[0]] + fields[1..];
    }
  }
}
