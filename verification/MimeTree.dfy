/**
 * MIME entities: how a message with nested multipart bodies is written, and an
 * independent reader that splits it at its delimiter lines (section 5.1.1 of RFC 2046).
 */
module MimeTree {
  import opened Bytes
  import opened Base64
  import opened Options
  import opened MimeLines

  datatype Field = Field(name: string, value: string)

  datatype Entity =
    | Leaf(fields: seq<Field>, data: seq<byte>)
    | Multi(fields: seq<Field>, boundary: string, parts: seq<Entity>)

  // ---- writing, line by line ----

  function HeaderLine(f: Field): string {
    f.name + ": " + f.value
  }

  function HeaderLines(fields: seq<Field>): (lines: seq<string>)
    ensures |lines| == |fields|
  {
    if fields == [] then [] else [HeaderLine(fields[0])] + HeaderLines(fields[1..])
  }

  function Delimiter(boundary: string): string {
    "--" + boundary
  }

  function CloseDelimiter(boundary: string): string {
    "--" + boundary + "--"
  }

  function Lines(e: Entity): (lines: seq<string>)
    ensures lines != []
    decreases e, 1
  {
    match e
    case Leaf(fields, data) => HeaderLines(fields) + [""] + (Chunks(Encode(data)) + [""])
    case Multi(fields, b, parts) => HeaderLines(fields) + [""] + (PartLines(b, parts) + [CloseDelimiter(b), ""])
  }

  function PartLines(b: string, parts: seq<Entity>): seq<string>
    decreases parts, 0
  {
    if parts == [] then [] else [Delimiter(b)] + Lines(parts[0]) + PartLines(b, parts[1..])
  }

  // ---- reading ----

  function IndexOf(s: string, c: char): (i: nat)
    ensures i <= |s| && (i < |s| ==> s[i] == c) && forall j | 0 <= j < i :: s[j] != c
  {
    if s == "" then 0 else if s[0] == c then 0 else 1 + IndexOf(s[1..], c)
  }

  /** A field: the name up to the first colon, then a space, then the value (section 2.2 of RFC 5322). */
  function ParseField(line: string): Option<Field> {
    var i := IndexOf(line, ':');
    if i + 1 < |line| && line[i + 1] == ' ' then Some(Field(line[..i], line[i + 2..])) else None
  }

  datatype Header = Header(fields: seq<Field>, rest: seq<string>)

  /** The fields up to the first empty line. */
  function ParseHeader(lines: seq<string>): (h: Option<Header>)
    ensures h.Some? ==> |h.value.rest| < |lines|
  {
    if lines == [] then None
    else if lines[0] == "" then Some(Header([], lines[1..]))
    else
      match (ParseField(lines[0]), ParseHeader(lines[1..]))
      case (Some(f), Some(h)) => Some(Header([f] + h.fields, h.rest))
      case _ => None
  }

  function Lower(c: char): char {
    if 'A' <= c <= 'Z' then c - 'A' + 'a' else c
  }

  /** Two characters fold together if and only if they are equal or the two cases of one ASCII letter. */
  lemma FoldsTogetherIff(c: char, d: char)
    ensures Lower(c) == Lower(d) <==>
      || c == d
      || (65 <= c as int <= 90 && d as int == c as int + 32)
      || (65 <= d as int <= 90 && c as int == d as int + 32)
  {
  }

  /** Case-insensitive equality of ASCII names. */
  predicate EqualFold(s: string, t: string) {
    |s| == |t| && forall i | 0 <= i < |s| :: Lower(s[i]) == Lower(t[i])
  }

  /** The values of the fields with this name, in order. */
  function Named(fields: seq<Field>, name: string): seq<string> {
    if fields == [] then []
    else (if EqualFold(fields[0].name, name) then [fields[0].value] else []) + Named(fields[1..], name)
  }

  lemma {:induction false} NamedConcat(a: seq<Field>, b: seq<Field>, name: string)
    ensures Named(a + b, name) == Named(a, name) + Named(b, name)
  {
    if a == [] {
      assert a + b == b;
    } else {
      assert (a + b)[1..] == a[1..] + b;
      NamedConcat(a[1..], b, name);
    }
  }

  /** The value of the first field with this name. */
  function Lookup(fields: seq<Field>, name: string): Option<string> {
    var values := Named(fields, name);
    if values == [] then None else Some(values[0])
  }

  /** The text between the first two double quotes. */
  function Quoted(v: string): string {
    var i := IndexOf(v, '"');
    if i == |v| then "" else var rest := v[i + 1..]; rest[..IndexOf(rest, '"')]
  }

  /** Without the spaces and tabs around it. */
  function TrimBlank(s: string): string {
    if s != "" && (s[0] == ' ' || s[0] == '\t') then TrimBlank(s[1..])
    else if s != "" && (s[|s| - 1] == ' ' || s[|s| - 1] == '\t') then TrimBlank(s[..|s| - 1])
    else s
  }

  datatype Encoding = Base64Encoding | Identity | Unknown

  /** The transfer encodings of section 6.1 of RFC 2045, in any case; quoted-printable is not read here. */
  function EncodingNamed(value: string): Encoding {
    var v := TrimBlank(value);
    if EqualFold(v, "base64") then Base64Encoding
    else if EqualFold(v, "7bit") || EqualFold(v, "8bit") || EqualFold(v, "binary") then Identity
    else Unknown
  }

  /** The first Content-Transfer-Encoding counts; without one the encoding is 7bit. */
  function EncodingOf(fields: seq<Field>): Encoding {
    match Lookup(fields, "Content-Transfer-Encoding")
    case Some(v) => EncodingNamed(v)
    case None => Identity
  }

  /** The boundary of a multipart entity, whose encoding must be an identity (section 6.4 of RFC 2045). */
  function Boundary(fields: seq<Field>): Option<string> {
    match Lookup(fields, "Content-Type")
    case Some(v) => if "multipart/" <= v && EncodingOf(fields).Identity? then Some(Quoted(v)) else None
    case None => None
  }

  /** The octets of ASCII text. */
  function Octets(s: string): (r: Option<seq<byte>>)
    ensures r.Some? ==> |r.value| == |s|
  {
    if forall i | 0 <= i < |s| :: s[i] <= '\U{7F}'
    then Some(seq(|s|, i requires 0 <= i < |s| => s[i] as int as byte))
    else None
  }

  /** The content of a leaf, decoded as its header says. */
  function DecodeBody(encoding: Encoding, lines: seq<string>): Option<seq<byte>> {
    match encoding
    case Base64Encoding => Decode(Concat(lines))
    case Identity => if lines == [] then Some([]) else Octets(Join(lines))
    case Unknown => None
  }

  predicate IsDelimiter(line: string, b: string) {
    line == "--" + b || line == "--" + b + "--"
  }

  /** The lines before the next delimiter of `b`, and the rest from it on. */
  function Cut(lines: seq<string>, b: string): (r: (seq<string>, seq<string>))
    ensures |r.0| + |r.1| == |lines|
  {
    if lines == [] then ([], [])
    else if IsDelimiter(lines[0], b) then ([], lines)
    else var r := Cut(lines[1..], b); ([lines[0]] + r.0, r.1)
  }

  function Parse(lines: seq<string>): Option<Entity>
    decreases |lines|, 1
  {
    match ParseHeader(lines)
    case None => None
    case Some(h) =>
      match Boundary(h.fields)
      case None =>
        (match DecodeBody(EncodingOf(h.fields), h.rest)
         case None => None
         case Some(data) => Some(Leaf(h.fields, data)))
      case Some(b) =>
        var body := Cut(h.rest, b).1;
        if body == [] || body[0] != "--" + b then None
        else
          match ParseParts(body[1..], b)
          case None => None
          case Some(parts) => Some(Multi(h.fields, b, parts))
  }

  /** The body parts from just after a delimiter to the closing one. */
  function ParseParts(lines: seq<string>, b: string): Option<seq<Entity>>
    decreases |lines|, 0
  {
    var (part, rest) := Cut(lines, b);
    if rest == [] then None
    else
      match Parse(part)
      case None => None
      case Some(p) =>
        if rest[0] == "--" + b + "--" then Some([p])
        else
          match ParseParts(rest[1..], b)
          case None => None
          case Some(ps) => Some([p] + ps)
  }

  // ---- what can be written and read back ----

  predicate FieldOk(f: Field) {
    && f.name != ""
    && (forall i | 0 <= i < |f.name| :: f.name[i] != ':')
    && Clean(f.name)
  }

  /** Letters and digits only, as the random boundaries are. */
  predicate BoundaryOk(b: string) {
    b != "" && forall i | 0 <= i < |b| :: '0' <= b[i] <= '9' || 'a' <= b[i] <= 'z' || 'A' <= b[i] <= 'Z'
  }

  function Boundaries(e: Entity): set<string>
    decreases e, 1
  {
    match e
    case Leaf(_, _) => {}
    case Multi(_, b, parts) => {b} + PartBoundaries(parts)
  }

  function PartBoundaries(parts: seq<Entity>): set<string>
    decreases parts, 0
  {
    if parts == [] then {} else Boundaries(parts[0]) + PartBoundaries(parts[1..])
  }

  predicate ValuesClean(fields: seq<Field>) {
    forall i | 0 <= i < |fields| :: Clean(fields[i].value)
  }

  predicate FieldsOk(fields: seq<Field>, top: bool) {
    && (forall i | 0 <= i < |fields| :: FieldOk(fields[i]))
    && (top || forall i | 0 <= i < |fields| :: fields[i].name[0] != '-')
  }

  predicate WellFormed(e: Entity, top: bool)
    decreases e, 1
  {
    FieldsOk(e.fields, top) &&
    match e
    case Leaf(fields, _) => EncodingOf(fields).Base64Encoding?
    case Multi(fields, b, parts) =>
      && Boundary(fields) == Some(b) && BoundaryOk(b)
      && parts != [] && b !in PartBoundaries(parts) && PartsWellFormed(parts)
  }

  predicate PartsWellFormed(parts: seq<Entity>)
    decreases parts, 0
  {
    parts == [] || (WellFormed(parts[0], false) && PartsWellFormed(parts[1..]))
  }

  // ---- no line but a delimiter starts with two dashes ----

  /** Lines that start with "--" are delimiters of `bs`. */
  predicate Dashed(lines: seq<string>, bs: set<string>) {
    forall i | 0 <= i < |lines| && "--" <= lines[i] :: exists b | b in bs :: IsDelimiter(lines[i], b)
  }

  lemma DashedConcat(a: seq<string>, b: seq<string>, bs: set<string>)
    requires Dashed(a, bs) && Dashed(b, bs)
    ensures Dashed(a + b, bs)
  {
  }

  lemma {:induction false} HeaderNotDashed(fields: seq<Field>, bs: set<string>)
    requires FieldsOk(fields, false)
    ensures Dashed(HeaderLines(fields), bs)
  {
    if fields != [] {
      HeaderNotDashed(fields[1..], bs);
      assert HeaderLine(fields[0])[0] == fields[0].name[0];
    }
  }

  lemma ChunksNotDashed(data: seq<byte>, bs: set<string>)
    ensures Dashed(Chunks(Encode(data)), bs)
  {
    ChunksClean(data);
    var lines := Chunks(Encode(data));
    forall i | 0 <= i < |lines| ensures !("--" <= lines[i]) {
      if lines[i] != "" {
        assert InAlphabet(lines[i][0]);
      }
    }
  }

  lemma DashedMono(lines: seq<string>, bs: set<string>, cs: set<string>)
    requires Dashed(lines, bs) && bs <= cs
    ensures Dashed(lines, cs)
  {
  }

  lemma DashedOne(line: string, b: string, bs: set<string>)
    requires b in bs && IsDelimiter(line, b)
    ensures Dashed([line], bs)
  {
  }

  lemma {:induction false} LinesDashed(e: Entity)
    requires WellFormed(e, false)
    ensures Dashed(Lines(e), Boundaries(e))
    decreases e, 1
  {
    var bs := Boundaries(e);
    HeaderNotDashed(e.fields, bs);
    assert Dashed([""], bs);
    match e
    case Leaf(fields, data) =>
      ChunksNotDashed(data, bs);
      DashedConcat(Chunks(Encode(data)), [""], bs);
      DashedConcat(HeaderLines(fields), [""], bs);
      DashedConcat(HeaderLines(fields) + [""], Chunks(Encode(data)) + [""], bs);
    case Multi(fields, b, parts) =>
      PartsDashed(b, parts);
      DashedOne(CloseDelimiter(b), b, bs);
      DashedConcat([CloseDelimiter(b)], [""], bs);
      assert [CloseDelimiter(b), ""] == [CloseDelimiter(b)] + [""];
      DashedConcat(PartLines(b, parts), [CloseDelimiter(b), ""], bs);
      DashedConcat(HeaderLines(fields), [""], bs);
      DashedConcat(HeaderLines(fields) + [""], PartLines(b, parts) + [CloseDelimiter(b), ""], bs);
  }

  lemma {:induction false} PartsDashed(b: string, parts: seq<Entity>)
    requires PartsWellFormed(parts)
    ensures Dashed(PartLines(b, parts), {b} + PartBoundaries(parts))
    decreases parts, 0
  {
    if parts != [] {
      var bs := {b} + PartBoundaries(parts);
      LinesDashed(parts[0]);
      PartsDashed(b, parts[1..]);
      DashedMono(Lines(parts[0]), Boundaries(parts[0]), bs);
      DashedMono(PartLines(b, parts[1..]), {b} + PartBoundaries(parts[1..]), bs);
      DashedOne(Delimiter(b), b, bs);
      DashedConcat([Delimiter(b)], Lines(parts[0]), bs);
      DashedConcat([Delimiter(b)] + Lines(parts[0]), PartLines(b, parts[1..]), bs);
    }
  }

  lemma {:induction false} BoundariesOk(e: Entity, top: bool)
    requires WellFormed(e, top)
    ensures forall b | b in Boundaries(e) :: BoundaryOk(b)
    decreases e, 1
  {
    if e.Multi? {
      PartBoundariesOk(e.parts);
    }
  }

  lemma {:induction false} PartBoundariesOk(parts: seq<Entity>)
    requires PartsWellFormed(parts)
    ensures forall b | b in PartBoundaries(parts) :: BoundaryOk(b)
    decreases parts, 0
  {
    if parts != [] {
      BoundariesOk(parts[0], false);
      PartBoundariesOk(parts[1..]);
    }
  }

  /** A delimiter line names its boundary: a closing one is not the opening one of a longer boundary. */
  lemma SameDelimiter(line: string, b: string, c: string)
    requires BoundaryOk(b) && BoundaryOk(c)
    requires IsDelimiter(line, b) && IsDelimiter(line, c)
    ensures b == c
  {
    var tail := line[2..];
    assert Delimiter(b)[2..] == b && Delimiter(c)[2..] == c;
    assert CloseDelimiter(b)[2..] == b + "--" && CloseDelimiter(c)[2..] == c + "--";
    var last := tail[|tail| - 1];
    if line == Delimiter(b) {
      assert last == b[|b| - 1];
      assert tail == c;
    } else {
      assert last == '-';
      assert tail == c + "--";
      assert b == tail[..|tail| - 2] == c;
    }
  }

  lemma NoDelimiter(lines: seq<string>, bs: set<string>, b: string)
    requires Dashed(lines, bs) && b !in bs && BoundaryOk(b)
    requires forall c | c in bs :: BoundaryOk(c)
    ensures forall i | 0 <= i < |lines| :: !IsDelimiter(lines[i], b)
  {
    forall i | 0 <= i < |lines| ensures !IsDelimiter(lines[i], b) {
      if IsDelimiter(lines[i], b) {
        var c :| c in bs && IsDelimiter(lines[i], c);
        SameDelimiter(lines[i], b, c);
      }
    }
  }

  lemma {:induction false} CutAt(part: seq<string>, rest: seq<string>, b: string)
    requires forall i | 0 <= i < |part| :: !IsDelimiter(part[i], b)
    requires rest != [] && IsDelimiter(rest[0], b)
    ensures Cut(part + rest, b) == (part, rest)
  {
    if part == [] {
      assert part + rest == rest;
    } else {
      assert (part + rest)[1..] == part[1..] + rest;
      CutAt(part[1..], rest, b);
      assert part == [part[0]] + part[1..];
    }
  }

  /** A part is cut off just before the delimiter that follows it. */
  lemma CutPart(p: Entity, rest: seq<string>, b: string)
    requires WellFormed(p, false) && BoundaryOk(b) && b !in Boundaries(p)
    requires rest != [] && IsDelimiter(rest[0], b)
    ensures Cut(Lines(p) + rest, b) == (Lines(p), rest)
  {
    LinesDashed(p);
    BoundariesOk(p, false);
    NoDelimiter(Lines(p), Boundaries(p), b);
    CutAt(Lines(p), rest, b);
  }

  // ---- reading undoes writing ----

  lemma FieldBack(f: Field)
    requires FieldOk(f)
    ensures HeaderLine(f) != "" && ParseField(HeaderLine(f)) == Some(f)
  {
    var line := HeaderLine(f);
    var i := IndexOf(line, ':');
    assert line[|f.name|] == ':' && line[|f.name| + 1] == ' ';
    assert forall j | 0 <= j < |f.name| :: line[j] == f.name[j];
    assert i == |f.name|;
    assert line[..i] == f.name && line[i + 2..] == f.value;
  }

  lemma {:induction false} HeaderBack(fields: seq<Field>, rest: seq<string>)
    requires forall i | 0 <= i < |fields| :: FieldOk(fields[i])
    ensures ParseHeader(HeaderLines(fields) + [""] + rest) == Some(Header(fields, rest))
  {
    var lines := HeaderLines(fields) + [""] + rest;
    if fields == [] {
      assert lines[1..] == rest;
    } else {
      assert lines[1..] == HeaderLines(fields[1..]) + [""] + rest;
      HeaderBack(fields[1..], rest);
      FieldBack(fields[0]);
      assert fields == [fields[0]] + fields[1..];
    }
  }

  lemma {:induction false} ConcatBlank(lines: seq<string>)
    ensures Concat(lines + [""]) == Concat(lines)
  {
    if lines == [] {
      assert [""][1..] == [];
    } else {
      assert (lines + [""])[1..] == lines[1..] + [""];
      ConcatBlank(lines[1..]);
    }
  }

  /** Reading the lines of an entity gives it back, however deep its parts are nested. */
  lemma {:induction false} ParseLines(e: Entity, top: bool)
    requires WellFormed(e, top)
    ensures Parse(Lines(e)) == Some(e)
    decreases e, 1
  {
    match e
    case Leaf(fields, data) =>
      HeaderBack(fields, Chunks(Encode(data)) + [""]);
      ConcatBlank(Chunks(Encode(data)));
      ChunksWrap(Encode(data));
      EncodeDecode(data);
    case Multi(fields, b, parts) =>
      var rest := BodyFrom(b, parts, 0);
      var body := [Delimiter(b)] + rest;
      assert parts[0..] == parts;
      BodyLines(b, parts, 0);
      HeaderBack(fields, body);
      assert Cut(body, b).1 == body && body[1..] == rest;
      ParseBody(b, parts, 0);
  }

  /** What stands in a multipart body from its part `i` on. */
  function BodyFrom(b: string, parts: seq<Entity>, i: nat): seq<string>
    requires i < |parts|
    decreases |parts| - i
  {
    Lines(parts[i]) +
    if i + 1 == |parts| then [CloseDelimiter(b), ""] else [Delimiter(b)] + BodyFrom(b, parts, i + 1)
  }

  lemma {:induction false} BodyLines(b: string, parts: seq<Entity>, i: nat)
    requires i < |parts|
    ensures PartLines(b, parts[i..]) + [CloseDelimiter(b), ""] == [Delimiter(b)] + BodyFrom(b, parts, i)
    decreases |parts| - i
  {
    assert parts[i..][1..] == parts[i + 1..];
    if i + 1 < |parts| {
      BodyLines(b, parts, i + 1);
    } else {
      assert parts[i + 1..] == [];
    }
  }

  lemma {:induction false} EachPart(parts: seq<Entity>, i: nat)
    requires PartsWellFormed(parts) && i < |parts|
    ensures WellFormed(parts[i], false) && Boundaries(parts[i]) <= PartBoundaries(parts)
  {
    if i > 0 {
      EachPart(parts[1..], i - 1);
    }
  }

  lemma {:induction false} ParseBody(b: string, parts: seq<Entity>, i: nat)
    requires i < |parts| && BoundaryOk(b) && b !in PartBoundaries(parts) && PartsWellFormed(parts)
    ensures ParseParts(BodyFrom(b, parts, i), b) == Some(parts[i..])
    decreases parts, 0, |parts| - i
  {
    EachPart(parts, i);
    if i + 1 == |parts| {
      LastPart(BodyFrom(b, parts, i), b, parts[i], parts[i..]);
    } else {
      ParseBody(b, parts, i + 1);
      Tail(parts, i);
      NextPart(BodyFrom(b, parts, i), BodyFrom(b, parts, i + 1), b, parts[i], parts[i + 1..], parts[i..]);
    }
  }

  lemma Tail(parts: seq<Entity>, i: nat)
    requires i < |parts|
    ensures parts[i..] == [parts[i]] + parts[i + 1..]
  {
  }

  lemma {:induction false} LastPart(lines: seq<string>, b: string, p: Entity, parts: seq<Entity>)
    requires WellFormed(p, false) && BoundaryOk(b) && b !in Boundaries(p)
    requires lines == Lines(p) + [CloseDelimiter(b), ""] && parts == [p]
    ensures ParseParts(lines, b) == Some(parts)
    decreases p, 2
  {
    ParseLines(p, false);
    CutPart(p, [CloseDelimiter(b), ""], b);
  }

  lemma {:induction false} NextPart(
      lines: seq<string>, after: seq<string>, b: string, p: Entity, ps: seq<Entity>, parts: seq<Entity>)
    requires WellFormed(p, false) && BoundaryOk(b) && b !in Boundaries(p)
    requires lines == Lines(p) + ([Delimiter(b)] + after) && parts == [p] + ps
    requires ParseParts(after, b) == Some(ps)
    ensures ParseParts(lines, b) == Some(parts)
    decreases p, 2
  {
    ParseLines(p, false);
    CutPart(p, [Delimiter(b)] + after, b);
    MoreParts(lines, Lines(p), after, b, p, ps);
  }

  lemma MoreParts(lines: seq<string>, part: seq<string>, after: seq<string>, b: string, p: Entity, ps: seq<Entity>)
    requires Parse(part) == Some(p) && ParseParts(after, b) == Some(ps)
    requires Cut(lines, b) == (part, [Delimiter(b)] + after)
    ensures ParseParts(lines, b) == Some([p] + ps)
  {
    assert Delimiter(b) != CloseDelimiter(b);
    assert ([Delimiter(b)] + after)[1..] == after;
  }

  // ---- line breaks ----

  lemma LineOfField(f: Field, lf: bool)
    requires FieldOk(f) && OneLine(f.value, lf)
    ensures OneLine(HeaderLine(f), lf)
  {
    var line, n := HeaderLine(f), |f.name|;
    forall i | 0 <= i < |line| - 1 ensures line[i] == '\r' ==> line[i + 1] != '\n' {
      if i < n {
        assert line[i] == f.name[i];
      } else if i >= n + 2 {
        assert line[i] == f.value[i - n - 2] && line[i + 1] == f.value[i - n - 1];
      }
    }
  }

  lemma {:induction false} HeaderOneLine(fields: seq<Field>, lf: bool)
    requires forall i | 0 <= i < |fields| :: FieldOk(fields[i]) && OneLine(fields[i].value, lf)
    ensures AllOneLine(HeaderLines(fields), lf)
  {
    if fields != [] {
      HeaderOneLine(fields[1..], lf);
      LineOfField(fields[0], lf);
    }
  }

  lemma {:induction false} LinesOneLine(e: Entity, top: bool, lf: bool)
    requires WellFormed(e, top) && OnOneLine(e, lf)
    ensures AllOneLine(Lines(e), lf)
    decreases e, 1
  {
    HeaderOneLine(e.fields, lf);
    if e.Leaf? {
      ChunksClean(e.data);
      CleanOneLine(Chunks(Encode(e.data)), lf);
    } else {
      PartsOneLine(e.boundary, e.parts, lf);
      assert Clean(CloseDelimiter(e.boundary));
    }
  }

  lemma {:induction false} PartsOneLine(b: string, parts: seq<Entity>, lf: bool)
    requires BoundaryOk(b) && PartsWellFormed(parts) && AllOnOneLine(parts, lf)
    ensures AllOneLine(PartLines(b, parts), lf)
    decreases parts, 0
  {
    if parts != [] {
      LinesOneLine(parts[0], false, lf);
      PartsOneLine(b, parts[1..], lf);
      assert Clean(Delimiter(b));
    }
  }

  /** No field of the tree holds a line break. */
  predicate OnOneLine(e: Entity, lf: bool)
    decreases e, 1
  {
    && (forall i | 0 <= i < |e.fields| :: OneLine(e.fields[i].value, lf))
    && (e.Multi? ==> AllOnOneLine(e.parts, lf))
  }

  predicate AllOnOneLine(parts: seq<Entity>, lf: bool)
    decreases parts, 0
  {
    parts == [] || (OnOneLine(parts[0], lf) && AllOnOneLine(parts[1..], lf))
  }

  lemma {:induction false} ParsedHeader(lines: seq<string>, lf: bool)
    requires AllOneLine(lines, lf)
    ensures match ParseHeader(lines)
      case Some(h) => AllOneLine(h.rest, lf) && forall i | 0 <= i < |h.fields| :: OneLine(h.fields[i].value, lf)
      case None => true
  {
    if lines != [] && lines[0] != "" {
      ParsedHeader(lines[1..], lf);
      assert OneLine(lines[0], lf);
    }
  }

  lemma {:induction false} CutOneLine(lines: seq<string>, b: string, lf: bool)
    requires AllOneLine(lines, lf)
    ensures AllOneLine(Cut(lines, b).0, lf) && AllOneLine(Cut(lines, b).1, lf)
  {
    if lines != [] {
      CutOneLine(lines[1..], b, lf);
    }
  }

  /** Whatever is read from single lines has no line break in a field. */
  lemma {:induction false} ParsedOnOneLine(lines: seq<string>, lf: bool)
    requires AllOneLine(lines, lf)
    ensures Parse(lines).Some? ==> OnOneLine(Parse(lines).value, lf)
    decreases |lines|, 1
  {
    ParsedHeader(lines, lf);
    match ParseHeader(lines)
    case None =>
    case Some(h) =>
      match Boundary(h.fields)
      case None =>
      case Some(b) =>
        CutOneLine(h.rest, b, lf);
        var body := Cut(h.rest, b).1;
        if body != [] {
          ParsedPartsOnOneLine(body[1..], b, lf);
        }
  }

  lemma {:induction false} ParsedPartsOnOneLine(lines: seq<string>, b: string, lf: bool)
    requires AllOneLine(lines, lf)
    ensures ParseParts(lines, b).Some? ==> AllOnOneLine(ParseParts(lines, b).value, lf)
    decreases |lines|, 0
  {
    var (part, rest) := Cut(lines, b);
    CutOneLine(lines, b, lf);
    if rest != [] {
      ParsedOnOneLine(part, lf);
      ParsedPartsOnOneLine(rest[1..], b, lf);
      var p := Parse(part);
      var ps := ParseParts(rest[1..], b);
      if p.Some? && ps.Some? {
        assert ([p.value] + ps.value)[1..] == ps.value;
      }
    }
  }
}
