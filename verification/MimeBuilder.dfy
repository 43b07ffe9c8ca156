/** The MIME tree of a message, and what a reader finds in its text. */
module MimeBuilder {
  import opened Bytes
  import opened Base64
  import opened Options
  import opened MimeLines
  import opened MimeTree
  import opened MimeText
  import opened MimeHeaders

  const PLAIN := "text/plain; charset=UTF-8"
  const HTML := "text/html; charset=UTF-8"
  const BASE64 := Field("Content-Transfer-Encoding", "base64")

  // ---- quoted parameters ----

  /** A character inside Go's quoted form of a string. */
  function QuoteChar(c: char): string {
    if c == '"' then "\\\"" else if c == '\\' then "\\\\"
    else if c == '\t' then "\\t" else if c == '\U{7F}' then "\\x7f" else [c]
  }

  function QuoteChars(s: string): string {
    if s == "" then "" else QuoteChar(s[0]) + QuoteChars(s[1..])
  }

  function Quote(s: string): string {
    "\"" + QuoteChars(s) + "\""
  }

  /**
   * Reading a quoted-string after its opening quote (section 3.2.4 of RFC 5322): a
   * backslash keeps the next character.
   */
  function ReadQuoted(s: string): string {
    if s == "" || s[0] == '"' then ""
    else if s[0] == '\\' && |s| > 1 then [s[1]] + ReadQuoted(s[2..])
    else [s[0]] + ReadQuoted(s[1..])
  }

  /** What a reader makes of one quoted character. */
  function Seen(c: char): string {
    if c == '\t' then "t" else if c == '\U{7F}' then "x7f" else [c]
  }

  lemma ReadOne(c: char, rest: string)
    ensures ReadQuoted(QuoteChar(c) + rest) == Seen(c) + ReadQuoted(rest)
  {
    var s := QuoteChar(c) + rest;
    if c == '\U{7F}' {
      ReadPlain('f', rest);
      ReadPlain('7', "f" + rest);
      assert s[2..] == ['7'] + ("f" + rest);
      assert ReadQuoted(s) == ['x'] + (['7'] + (['f'] + ReadQuoted(rest)));
    } else if c == '"' || c == '\\' || c == '\t' {
      assert s[2..] == rest;
    } else {
      ReadPlain(c, rest);
    }
  }

  lemma ReadPlain(c: char, rest: string)
    requires c != '"' && c != '\\'
    ensures ReadQuoted([c] + rest) == [c] + ReadQuoted(rest)
  {
    assert ([c] + rest)[1..] == rest;
  }

  lemma SeenHead(c: char, back: string, name: string)
    ensures Seen(c) + back == [c] + name <==> c != '\t' && c != '\U{7F}' && back == name
  {
    assert (Seen(c) + back)[0] == Seen(c)[0];
    assert ([c] + name)[1..] == name && ([c] + back)[1..] == back;
  }

  /** A quoted file name reads back as itself if and only if it has neither a tab nor a DEL character. */
  lemma {:induction false} QuoteReadBackIff(name: string, rest: string)
    requires AllPlain(name)
    ensures ReadQuoted(QuoteChars(name) + "\"" + rest) == name
      <==> forall i | 0 <= i < |name| :: name[i] != '\t' && name[i] != '\U{7F}'
  {
    if name == "" {
      assert (QuoteChars(name) + "\"" + rest)[0] == '"';
    } else {
      var more := QuoteChars(name[1..]) + "\"" + rest;
      assert QuoteChars(name) + "\"" + rest == QuoteChar(name[0]) + more;
      ReadOne(name[0], more);
      QuoteReadBackIff(name[1..], rest);
      assert name == [name[0]] + name[1..];
      SeenHead(name[0], ReadQuoted(more), name[1..]);
    }
  }

  /** A tab is written as Go's escape, and read as the letter after the backslash. */
  lemma TabReadsAsLetter()
    ensures ReadQuoted(QuoteChars("\t") + "\"") == "t"
  {
    assert "\t"[1..] == "";
    assert QuoteChars("\t") + "\"" == QuoteChar('\t') + "\"";
    ReadOne('\t', "\"");
  }

  lemma {:induction false} QuoteClean(s: string)
    requires Clean(s)
    ensures Clean(QuoteChars(s))
  {
    if s != "" {
      QuoteClean(s[1..]);
      assert Clean(QuoteChar(s[0]));
    }
  }

  // ---- the tree ----

  function BodyLeaf(contentType: string, data: seq<byte>): Entity {
    Leaf([BASE64, Field("Content-Type", contentType)], data)
  }

  function MultipartType(kind: string, b: string): string {
    "multipart/" + kind + "; boundary=\"" + b + "\""
  }

  function AlternativeParts(e: Email): seq<Entity> {
    (if e.text != [] then [BodyLeaf(PLAIN, e.text)] else [])
    + (if e.html != [] then [BodyLeaf(HTML, e.html)] else [])
  }

  /** Both bodies as alternatives, or the one there is, or an empty plain text. */
  function Body(e: Email, env: Env): Entity {
    if e.text != [] && e.html != [] then
      Multi([Field("Content-Type", MultipartType("alternative", env.alternative))], env.alternative,
            AlternativeParts(e))
    else if e.html != [] then BodyLeaf(HTML, e.html)
    else BodyLeaf(PLAIN, e.text)
  }

  function FileName(a: Attachment, env: Env): string {
    Quote(Strip(Encoded(a.filename, env.bEncode)))
  }

  function AttachmentFields(a: Attachment, env: Env): seq<Field> {
    var contentType := Field("Content-Type", a.contentType + "; name=" + FileName(a, env));
    if a.inline then
      [Field("Content-Disposition", "inline; filename=" + FileName(a, env)),
       Field("Content-Id", "<" + a.contentId + ">"), BASE64, contentType]
    else
      [Field("Content-Disposition", "attachment; filename=" + FileName(a, env)), BASE64, contentType]
  }

  function AttachmentLeaves(atts: seq<Attachment>, env: Env): (leaves: seq<Entity>)
    ensures |leaves| == |atts|
  {
    if atts == [] then []
    else
      var n := |atts| - 1;
      AttachmentLeaves(atts[..n], env) + [Leaf(AttachmentFields(atts[n], env), atts[n].data)]
  }

  function Select(atts: seq<Attachment>, inline: bool): seq<Attachment> {
    if atts == [] then []
    else
      var n := |atts| - 1;
      Select(atts[..n], inline) + if atts[n].inline == inline then [atts[n]] else []
  }

  function RelatedParts(e: Email, env: Env): seq<Entity> {
    [Body(e, env)] + AttachmentLeaves(Select(e.attachments, true), env)
  }

  /** The first part of a mixed message: the body, with the inline attachments if there are any. */
  function MainPart(e: Email, env: Env): Entity {
    if Select(e.attachments, true) != [] then
      Multi([Field("Content-Type", MultipartType("related", env.related))], env.related, RelatedParts(e, env))
    else Body(e, env)
  }

  function MixedParts(e: Email, env: Env): seq<Entity> {
    [MainPart(e, env)] + AttachmentLeaves(Select(e.attachments, false), env)
  }

  function TopMulti(top: seq<Field>, kind: string, b: string, parts: seq<Entity>): Entity {
    Multi(top + [Field("Content-Type", MultipartType(kind, b))], b, parts)
  }

  function TopLeaf(top: seq<Field>, contentType: string, data: seq<byte>): Entity {
    Leaf(top + [Field("Content-Type", contentType), BASE64], data)
  }

  /** The whole message under its top header fields. */
  function Message(top: seq<Field>, e: Email, env: Env): Entity {
    if Select(e.attachments, false) != [] then TopMulti(top, "mixed", env.mixed, MixedParts(e, env))
    else if Select(e.attachments, true) != [] then TopMulti(top, "related", env.related, RelatedParts(e, env))
    else if e.text != [] && e.html != [] then TopMulti(top, "alternative", env.alternative, AlternativeParts(e))
    else if e.html != [] then TopLeaf(top, HTML, e.html)
    else TopLeaf(top, PLAIN, e.text)
  }

  // ---- the tree can be written and read back ----

  /** Three different boundaries of letters and digits, as the random ones are. */
  predicate GoodBoundaries(env: Env) {
    && BoundaryOk(env.mixed) && BoundaryOk(env.related) && BoundaryOk(env.alternative)
    && env.mixed != env.related && env.mixed != env.alternative && env.related != env.alternative
  }

  /**
   * What is written of the attachment as it came, its type and the id of an inline one,
   * holds no line break: no CRLF and, with `lf`, no LF.
   */
  predicate Writable(a: Attachment, lf: bool) {
    OneLine(a.contentType, lf) && (a.inline ==> OneLine(a.contentId, lf))
  }

  predicate AllWritable(atts: seq<Attachment>, lf: bool) {
    forall i | 0 <= i < |atts| :: Writable(atts[i], lf)
  }

  lemma {:induction false} FindQuote(s: string, rest: string)
    requires forall i | 0 <= i < |s| :: s[i] != '"'
    ensures IndexOf(s + "\"" + rest, '"') == |s|
  {
    var t := s + "\"" + rest;
    assert t[|s|] == '"';
    assert forall i | 0 <= i < |s| :: t[i] == s[i];
  }

  lemma QuotedBack(prefix: string, b: string)
    requires forall i | 0 <= i < |prefix| :: prefix[i] != '"'
    requires BoundaryOk(b)
    ensures Quoted(prefix + "\"" + b + "\"") == b
  {
    var v := prefix + "\"" + b + "\"";
    assert v == prefix + "\"" + (b + "\"");
    FindQuote(prefix, b + "\"");
    assert v[|prefix| + 1..] == b + "\"";
    assert b + "\"" == b + "\"" + "";
    FindQuote(b, "");
  }

  predicate Kind(kind: string) {
    kind == "mixed" || kind == "related" || kind == "alternative"
  }

  predicate Unquoted(s: string) {
    Clean(s) && forall i | 0 <= i < |s| :: s[i] != '"'
  }

  lemma UnquotedConcat(s: string, t: string)
    requires Unquoted(s) && Unquoted(t)
    ensures Unquoted(s + t)
  {
  }

  lemma UnquotedPrefix(kind: string)
    requires Kind(kind)
    ensures Unquoted("multipart/" + kind + "; boundary=")
  {
    assert Unquoted("mixed") && Unquoted("related") && Unquoted("alternative");
    UnquotedConcat("multipart/", kind);
    UnquotedConcat("multipart/" + kind, "; boundary=");
  }

  lemma MultipartPrefix(kind: string, b: string)
    ensures MultipartType(kind, b) == "multipart/" + kind + "; boundary=" + "\"" + b + "\""
    ensures "multipart/" <= MultipartType(kind, b)
  {
  }

  lemma BoundaryBack(kind: string, b: string)
    requires Kind(kind) && BoundaryOk(b)
    ensures Quoted(MultipartType(kind, b)) == b
    ensures Clean(MultipartType(kind, b))
  {
    var prefix := "multipart/" + kind + "; boundary=";
    UnquotedPrefix(kind);
    MultipartPrefix(kind, b);
    QuotedBack(prefix, b);
    CleanConcat(prefix, "\"");
    CleanConcat(prefix + "\"", b);
    CleanConcat(prefix + "\"" + b, "\"");
  }

  predicate PartName(name: string) {
    || name == "Content-Disposition" || name == "Content-Id"
    || name == "Content-Transfer-Encoding" || name == "Content-Type"
  }

  lemma PartNames(name: string)
    requires PartName(name)
    ensures ValidName(name) && name[0] == 'C'
  {
  }

  lemma PartFieldOk(name: string, value: string)
    requires PartName(name)
    ensures FieldOk(Field(name, value)) && name[0] != '-'
  {
    PartNames(name);
    assert forall i | 0 <= i < |name| :: NameChar(name[i]);
  }

  lemma NamedBase64()
    ensures EncodingNamed("base64").Base64Encoding?
  {
    assert TrimBlank("base64") == "base64";
  }

  lemma OnlyBase64(fields: seq<Field>)
    requires Named(fields, "Content-Transfer-Encoding") == ["base64"]
    ensures EncodingOf(fields).Base64Encoding?
  {
    NamedBase64();
  }

  lemma PartFieldsOk(fields: seq<Field>)
    requires forall i | 0 <= i < |fields| :: PartName(fields[i].name)
    ensures FieldsOk(fields, false)
  {
    forall i | 0 <= i < |fields| ensures FieldOk(fields[i]) && fields[i].name[0] != '-' {
      PartFieldOk(fields[i].name, fields[i].value);
    }
  }

  /** A body part sent as base64 is read as one, whatever its type says. */
  lemma LeafOk(fields: seq<Field>, data: seq<byte>)
    requires FieldsOk(fields, false)
    requires Named(fields, "Content-Transfer-Encoding") == ["base64"]
    ensures WellFormed(Leaf(fields, data), false)
  {
    OnlyBase64(fields);
  }

  lemma CleanLiterals()
    ensures Clean("base64") && Clean(PLAIN) && Clean(HTML) && Clean("; name=")
    ensures Clean("inline; filename=") && Clean("attachment; filename=") && Clean("<") && Clean(">")
  {
  }

  lemma BodyLeafOk(contentType: string, data: seq<byte>)
    ensures WellFormed(BodyLeaf(contentType, data), false)
  {
    CleanLiterals();
    var fields := [BASE64, Field("Content-Type", contentType)];
    assert fields == [BASE64] + [Field("Content-Type", contentType)];
    NamedConcat([BASE64], [Field("Content-Type", contentType)], "Content-Transfer-Encoding");
    NamedOne("Content-Transfer-Encoding", "base64", "Content-Transfer-Encoding");
    NamedOne("Content-Type", contentType, "Content-Transfer-Encoding");
    PartFieldsOk(fields);
    LeafOk(fields, data);
  }

  lemma FileNameClean(a: Attachment, env: Env)
    ensures Clean(FileName(a, env))
  {
    var name := Strip(Encoded(a.filename, env.bEncode));
    StripLaw(Encoded(a.filename, env.bEncode));
    QuoteClean(name);
    CleanConcat("\"", QuoteChars(name));
    CleanConcat("\"" + QuoteChars(name), "\"");
  }

  /** Text that neither starts nor ends with half a line break, around text that may. */
  lemma OneLineAround(a: string, s: string, b: string, lf: bool)
    requires Clean(a) && Clean(b)
    ensures OneLine(a + s + b, lf) <==> OneLine(s, lf)
  {
    var t := a + s + b;
    forall i | 0 <= i < |s| ensures t[|a| + i] == s[i] {
    }
    if OneLine(t, lf) {
      forall i | 0 <= i < |s| - 1 ensures s[i] == '\r' ==> s[i + 1] != '\n' {
        assert t[|a| + i] == s[i] && t[|a| + i + 1] == s[i + 1];
      }
    }
    if OneLine(s, lf) {
      forall i | 0 <= i < |t| - 1 ensures t[i] == '\r' ==> t[i + 1] != '\n' {
        if |a| <= i < |a| + |s| {
          assert t[i] == s[i - |a|];
          assert i + 1 < |a| + |s| ==> t[i + 1] == s[i + 1 - |a|];
          assert i + 1 >= |a| + |s| ==> t[i + 1] == b[i + 1 - |a| - |s|];
        } else if i < |a| {
          assert t[i] == a[i];
        } else {
          assert t[i] == b[i - |a| - |s|];
        }
      }
    }
  }

  /** The fields of an attachment stay on their lines if and only if it is writable. */
  lemma AttachmentFieldsIff(a: Attachment, env: Env, lf: bool)
    ensures Writable(a, lf) <==> forall f | f in AttachmentFields(a, env) :: OneLine(f.value, lf)
  {
    CleanLiterals();
    FileNameClean(a, env);
    var name := FileName(a, env);
    CleanConcat("; name=", name);
    OneLineAround("", a.contentType, "; name=" + name, lf);
    assert "" + a.contentType + ("; name=" + name) == a.contentType + "; name=" + name;
    CleanConcat("inline; filename=", name);
    CleanConcat("attachment; filename=", name);
    OneLineAround("<", a.contentId, ">", lf);
    var fields := AttachmentFields(a, env);
    assert fields[|fields| - 1] in fields;
    assert a.inline ==> fields[1] in fields;
  }

  lemma AttachmentNamed(a: Attachment, env: Env)
    ensures Named(AttachmentFields(a, env), "Content-Transfer-Encoding") == ["base64"]
    ensures Named(AttachmentFields(a, env), "Content-Type") == [a.contentType + "; name=" + FileName(a, env)]
  {
    var fields := AttachmentFields(a, env);
    var n := |fields| - 2;
    var encoding, contentType := [BASE64], [fields[n + 1]];
    assert fields == fields[..n] + (encoding + contentType);
    NoneNamed(fields[..n], "Content-Transfer-Encoding");
    NoneNamed(fields[..n], "Content-Type");
    NamedConcat(fields[..n], encoding + contentType, "Content-Transfer-Encoding");
    NamedConcat(fields[..n], encoding + contentType, "Content-Type");
    NamedConcat(encoding, contentType, "Content-Transfer-Encoding");
    NamedConcat(encoding, contentType, "Content-Type");
    NamedOne("Content-Transfer-Encoding", "base64", "Content-Transfer-Encoding");
    NamedOne("Content-Transfer-Encoding", "base64", "Content-Type");
    NamedOne("Content-Type", fields[n + 1].value, "Content-Transfer-Encoding");
    NamedOne("Content-Type", fields[n + 1].value, "Content-Type");
  }

  lemma {:induction false} NoneNamed(fields: seq<Field>, name: string)
    requires forall i | 0 <= i < |fields| :: !EqualFold(fields[i].name, name)
    ensures Named(fields, name) == []
  {
    if fields != [] {
      NoneNamed(fields[1..], name);
    }
  }

  lemma AttachmentOk(a: Attachment, env: Env)
    ensures WellFormed(Leaf(AttachmentFields(a, env), a.data), false)
  {
    AttachmentNamed(a, env);
    PartFieldsOk(AttachmentFields(a, env));
    LeafOk(AttachmentFields(a, env), a.data);
  }

  lemma {:induction false} PartsSnoc(parts: seq<Entity>, e: Entity)
    ensures PartsWellFormed(parts + [e]) <==> PartsWellFormed(parts) && WellFormed(e, false)
    ensures PartBoundaries(parts + [e]) == PartBoundaries(parts) + Boundaries(e)
  {
    if parts == [] {
      assert [] + [e] == [e] && [e][1..] == [];
    } else {
      assert (parts + [e])[1..] == parts[1..] + [e];
      PartsSnoc(parts[1..], e);
    }
  }

  lemma {:induction false} LeavesOk(atts: seq<Attachment>, env: Env)
    ensures PartsWellFormed(AttachmentLeaves(atts, env)) && PartBoundaries(AttachmentLeaves(atts, env)) == {}
  {
    if atts != [] {
      var n := |atts| - 1;
      LeavesOk(atts[..n], env);
      AttachmentOk(atts[n], env);
      PartsSnoc(AttachmentLeaves(atts[..n], env), Leaf(AttachmentFields(atts[n], env), atts[n].data));
    }
  }

  lemma PartMultiOk(kind: string, b: string, parts: seq<Entity>)
    requires Kind(kind) && BoundaryOk(b)
    requires parts != [] && b !in PartBoundaries(parts) && PartsWellFormed(parts)
    ensures WellFormed(Multi([Field("Content-Type", MultipartType(kind, b))], b, parts), false)
  {
    var v := MultipartType(kind, b);
    BoundaryBack(kind, b);
    MultipartPrefix(kind, b);
    PartFieldOk("Content-Type", v);
    PartType(v);
  }

  lemma PartType(v: string)
    ensures Lookup([Field("Content-Type", v)], "Content-Type") == Some(v)
    ensures Lookup([Field("Content-Type", v)], "Content-Transfer-Encoding") == None
  {
    NamedOne("Content-Type", v, "Content-Type");
    NamedOne("Content-Type", v, "Content-Transfer-Encoding");
  }

  lemma AlternativeOk(e: Email)
    ensures PartsWellFormed(AlternativeParts(e)) && PartBoundaries(AlternativeParts(e)) == {}
  {
    CleanLiterals();
    BodyLeafOk(PLAIN, e.text);
    BodyLeafOk(HTML, e.html);
    var text := if e.text != [] then [BodyLeaf(PLAIN, e.text)] else [];
    PartsSnoc([], BodyLeaf(PLAIN, e.text));
    assert [] + [BodyLeaf(PLAIN, e.text)] == [BodyLeaf(PLAIN, e.text)];
    PartsSnoc(text, BodyLeaf(HTML, e.html));
  }

  lemma BodyOk(e: Email, env: Env)
    requires GoodBoundaries(env)
    ensures WellFormed(Body(e, env), false) && Boundaries(Body(e, env)) <= {env.alternative}
  {
    CleanLiterals();
    if e.text != [] && e.html != [] {
      AlternativeOk(e);
      PartMultiOk("alternative", env.alternative, AlternativeParts(e));
    } else if e.html != [] {
      BodyLeafOk(HTML, e.html);
    } else {
      BodyLeafOk(PLAIN, e.text);
    }
  }

  lemma FirstThenLeaves(first: Entity, atts: seq<Attachment>, env: Env)
    requires WellFormed(first, false)
    ensures var parts := [first] + AttachmentLeaves(atts, env);
      PartsWellFormed(parts) && PartBoundaries(parts) == Boundaries(first)
  {
    var parts := [first] + AttachmentLeaves(atts, env);
    LeavesOk(atts, env);
    assert parts[1..] == AttachmentLeaves(atts, env);
  }

  lemma MainPartOk(e: Email, env: Env)
    requires GoodBoundaries(env)
    ensures PartsWellFormed(RelatedParts(e, env)) && PartBoundaries(RelatedParts(e, env)) <= {env.alternative}
    ensures WellFormed(MainPart(e, env), false)
    ensures Boundaries(MainPart(e, env)) <= {env.alternative, env.related}
  {
    BodyOk(e, env);
    FirstThenLeaves(Body(e, env), Select(e.attachments, true), env);
    if Select(e.attachments, true) != [] {
      PartMultiOk("related", env.related, RelatedParts(e, env));
    }
  }

  lemma MixedOk(e: Email, env: Env)
    requires GoodBoundaries(env)
    ensures PartsWellFormed(MixedParts(e, env)) && env.mixed !in PartBoundaries(MixedParts(e, env))
  {
    MainPartOk(e, env);
    FirstThenLeaves(MainPart(e, env), Select(e.attachments, false), env);
  }

  // ---- a transfer encoding among the fields the caller set ----

  /** The message is one base64 body: no attachments, and not both bodies. */
  predicate SingleBody(e: Email) {
    e.attachments == [] && (e.text == [] || e.html == [])
  }

  /** The caller's encoding, if there is one, is the one the message has: base64 for a single body, else an identity. */
  predicate EncodingFits(found: Option<string>, single: bool) {
    found.Some? ==> EncodingNamed(found.value) == if single then Base64Encoding else Identity
  }

  lemma TopMultiOk(top: seq<Field>, kind: string, b: string, parts: seq<Entity>)
    requires FieldsOk(top, true) && Named(top, "Content-Type") == []
    requires EncodingFits(Lookup(top, "Content-Transfer-Encoding"), false)
    requires Kind(kind) && BoundaryOk(b)
    requires parts != [] && b !in PartBoundaries(parts) && PartsWellFormed(parts)
    ensures WellFormed(TopMulti(top, kind, b, parts), true)
  {
    BoundaryBack(kind, b);
    MultipartPrefix(kind, b);
    PartFieldOk("Content-Type", MultipartType(kind, b));
    TopType(top, MultipartType(kind, b));
  }

  lemma TopType(top: seq<Field>, v: string)
    ensures Named(top, "Content-Type") == [] ==>
      Lookup(top + [Field("Content-Type", v)], "Content-Type") == Some(v)
    ensures Lookup(top + [Field("Content-Type", v)], "Content-Transfer-Encoding")
         == Lookup(top, "Content-Transfer-Encoding")
  {
    NamedConcat(top, [Field("Content-Type", v)], "Content-Type");
    NamedOne("Content-Type", v, "Content-Type");
    NamedConcat(top, [Field("Content-Type", v)], "Content-Transfer-Encoding");
    NamedOne("Content-Type", v, "Content-Transfer-Encoding");
  }

  lemma TopLeafType(top: seq<Field>, contentType: string)
    requires Named(top, "Content-Type") == []
    ensures Named(top + [Field("Content-Type", contentType), BASE64], "Content-Type") == [contentType]
  {
    var last := [Field("Content-Type", contentType)] + [BASE64];
    assert [Field("Content-Type", contentType), BASE64] == last;
    NamedConcat(top, last, "Content-Type");
    NamedConcat([Field("Content-Type", contentType)], [BASE64], "Content-Type");
    NamedOne("Content-Type", contentType, "Content-Type");
    NamedOne("Content-Transfer-Encoding", "base64", "Content-Type");
  }

  lemma TopLeafEncoding(top: seq<Field>, contentType: string)
    ensures Lookup(top + [Field("Content-Type", contentType), BASE64], "Content-Transfer-Encoding") ==
      var found := Lookup(top, "Content-Transfer-Encoding"); if found.Some? then found else Some("base64")
  {
    var last := [Field("Content-Type", contentType)] + [BASE64];
    assert [Field("Content-Type", contentType), BASE64] == last;
    NamedConcat(top, last, "Content-Transfer-Encoding");
    NamedConcat([Field("Content-Type", contentType)], [BASE64], "Content-Transfer-Encoding");
    NamedOne("Content-Type", contentType, "Content-Transfer-Encoding");
    NamedOne("Content-Transfer-Encoding", "base64", "Content-Transfer-Encoding");
  }

  lemma TopLeafOk(top: seq<Field>, contentType: string, data: seq<byte>)
    requires FieldsOk(top, true) && EncodingFits(Lookup(top, "Content-Transfer-Encoding"), true)
    requires contentType == PLAIN || contentType == HTML
    ensures WellFormed(TopLeaf(top, contentType, data), true)
  {
    PartFieldOk("Content-Type", contentType);
    PartFieldOk("Content-Transfer-Encoding", "base64");
    TopLeafEncoding(top, contentType);
    NamedBase64();
  }

  lemma {:induction false} SelectNone(atts: seq<Attachment>)
    ensures Select(atts, true) == [] == Select(atts, false) <==> atts == []
  {
    if atts != [] {
      SelectNone(atts[..|atts| - 1]);
    }
  }

  lemma MessageOk(top: seq<Field>, e: Email, env: Env)
    requires FieldsOk(top, true) && Named(top, "Content-Type") == []
    requires EncodingFits(Lookup(top, "Content-Transfer-Encoding"), SingleBody(e))
    requires GoodBoundaries(env)
    ensures WellFormed(Message(top, e, env), true)
  {
    MainPartOk(e, env);
    SelectNone(e.attachments);
    if Select(e.attachments, false) != [] {
      MixedOk(e, env);
      TopMultiOk(top, "mixed", env.mixed, MixedParts(e, env));
    } else if Select(e.attachments, true) != [] {
      TopMultiOk(top, "related", env.related, RelatedParts(e, env));
    } else if e.text != [] && e.html != [] {
      AlternativeOk(e);
      TopMultiOk(top, "alternative", env.alternative, AlternativeParts(e));
    } else if e.html != [] {
      TopLeafOk(top, HTML, e.html);
    } else {
      TopLeafOk(top, PLAIN, e.text);
    }
  }

  // ---- exactly when the message reads back ----

  lemma {:induction false} OneLineSnoc(parts: seq<Entity>, e: Entity, lf: bool)
    ensures AllOnOneLine(parts + [e], lf) <==> AllOnOneLine(parts, lf) && OnOneLine(e, lf)
  {
    if parts == [] {
      assert [] + [e] == [e] && [e][1..] == [];
    } else {
      assert (parts + [e])[1..] == parts[1..] + [e];
      OneLineSnoc(parts[1..], e, lf);
    }
  }

  lemma LeafWritable(a: Attachment, env: Env, lf: bool)
    ensures OnOneLine(Leaf(AttachmentFields(a, env), a.data), lf) <==> Writable(a, lf)
  {
    AttachmentFieldsIff(a, env, lf);
    assert forall i | 0 <= i < |AttachmentFields(a, env)| :: AttachmentFields(a, env)[i] in AttachmentFields(a, env);
  }

  lemma {:induction false} LeavesWritable(atts: seq<Attachment>, env: Env, lf: bool)
    ensures AllOnOneLine(AttachmentLeaves(atts, env), lf) <==> AllWritable(atts, lf)
  {
    if atts != [] {
      var n := |atts| - 1;
      OneLineSnoc(AttachmentLeaves(atts[..n], env), Leaf(AttachmentFields(atts[n], env), atts[n].data), lf);
      LeavesWritable(atts[..n], env, lf);
      LeafWritable(atts[n], env, lf);
      LastWritable(atts, lf);
    }
  }

  lemma WritableSnoc(atts: seq<Attachment>, a: Attachment, lf: bool)
    ensures AllWritable(atts + [a], lf) <==> AllWritable(atts, lf) && Writable(a, lf)
  {
    assert (atts + [a])[|atts|] == a;
    assert forall i | 0 <= i < |atts| :: (atts + [a])[i] == atts[i];
  }

  lemma LastWritable(atts: seq<Attachment>, lf: bool)
    requires atts != []
    ensures AllWritable(atts, lf) <==> AllWritable(atts[..|atts| - 1], lf) && Writable(atts[|atts| - 1], lf)
  {
    assert atts == atts[..|atts| - 1] + [atts[|atts| - 1]];
    WritableSnoc(atts[..|atts| - 1], atts[|atts| - 1], lf);
  }

  lemma {:induction false} SelectedWritable(atts: seq<Attachment>, lf: bool)
    ensures AllWritable(Select(atts, true), lf) && AllWritable(Select(atts, false), lf) <==> AllWritable(atts, lf)
  {
    if atts != [] {
      var n := |atts| - 1;
      SelectedWritable(atts[..n], lf);
      WritableSnoc(Select(atts[..n], atts[n].inline), atts[n], lf);
      LastWritable(atts, lf);
      assert Select(atts[..n], !atts[n].inline) + [] == Select(atts[..n], !atts[n].inline);
    }
  }

  lemma FirstThenOneLine(first: Entity, atts: seq<Attachment>, env: Env, lf: bool)
    ensures AllOnOneLine([first] + AttachmentLeaves(atts, env), lf) <==> OnOneLine(first, lf) && AllWritable(atts, lf)
  {
    LeavesWritable(atts, env, lf);
    assert ([first] + AttachmentLeaves(atts, env))[1..] == AttachmentLeaves(atts, env);
  }

  lemma TypeClean(kind: string, b: string, lf: bool)
    requires Kind(kind) && BoundaryOk(b)
    ensures OneLine(MultipartType(kind, b), lf)
  {
    BoundaryBack(kind, b);
    assert Clean(MultipartType(kind, b));
  }

  lemma BodyLeafOneLine(contentType: string, data: seq<byte>, lf: bool)
    requires contentType == PLAIN || contentType == HTML
    ensures OnOneLine(BodyLeaf(contentType, data), lf)
  {
    CleanLiterals();
  }

  lemma AlternativeOneLine(e: Email, lf: bool)
    ensures AllOnOneLine(AlternativeParts(e), lf)
  {
    BodyLeafOneLine(PLAIN, e.text, lf);
    BodyLeafOneLine(HTML, e.html, lf);
    var text := if e.text != [] then [BodyLeaf(PLAIN, e.text)] else [];
    OneLineSnoc([], BodyLeaf(PLAIN, e.text), lf);
    assert [] + [BodyLeaf(PLAIN, e.text)] == [BodyLeaf(PLAIN, e.text)];
    OneLineSnoc(text, BodyLeaf(HTML, e.html), lf);
  }

  lemma BodyOneLine(e: Email, env: Env, lf: bool)
    requires GoodBoundaries(env)
    ensures OnOneLine(Body(e, env), lf)
  {
    AlternativeOneLine(e, lf);
    TypeClean("alternative", env.alternative, lf);
    BodyLeafOneLine(PLAIN, e.text, lf);
    BodyLeafOneLine(HTML, e.html, lf);
  }

  lemma MainOneLine(e: Email, env: Env, lf: bool)
    requires GoodBoundaries(env)
    ensures AllOnOneLine(RelatedParts(e, env), lf) <==> AllWritable(Select(e.attachments, true), lf)
    ensures OnOneLine(MainPart(e, env), lf) <==> AllWritable(Select(e.attachments, true), lf)
  {
    BodyOneLine(e, env, lf);
    FirstThenOneLine(Body(e, env), Select(e.attachments, true), env, lf);
    TypeClean("related", env.related, lf);
  }

  /** The message stays on its lines if and only if its attachments are writable. */
  lemma MessageWritable(top: seq<Field>, e: Email, env: Env, lf: bool)
    requires CleanFields(top) && GoodBoundaries(env)
    ensures OnOneLine(Message(top, e, env), lf) <==> AllWritable(e.attachments, lf)
  {
    var m := Message(top, e, env);
    MessageFieldsOk(top, e, env);
    assert forall i | 0 <= i < |m.fields| :: Clean(m.fields[i].value) && OneLine(m.fields[i].value, lf);
    MainOneLine(e, env, lf);
    SelectedWritable(e.attachments, lf);
    if Select(e.attachments, false) != [] {
      FirstThenOneLine(MainPart(e, env), Select(e.attachments, false), env, lf);
    } else if Select(e.attachments, true) == [] && e.text != [] && e.html != [] {
      AlternativeOneLine(e, lf);
    }
  }

  lemma MessageFieldsOk(top: seq<Field>, e: Email, env: Env)
    requires CleanFields(top) && GoodBoundaries(env)
    ensures CleanFields(Message(top, e, env).fields)
  {
    if Select(e.attachments, false) != [] {
      TypeFieldOk(top, "mixed", env.mixed);
    } else if Select(e.attachments, true) != [] {
      TypeFieldOk(top, "related", env.related);
    } else if e.text != [] && e.html != [] {
      TypeFieldOk(top, "alternative", env.alternative);
    } else if e.html != [] {
      LeafFieldsOk(top, HTML);
    } else {
      LeafFieldsOk(top, PLAIN);
    }
  }

  lemma TypeFieldOk(top: seq<Field>, kind: string, b: string)
    requires CleanFields(top) && Kind(kind) && BoundaryOk(b)
    ensures CleanFields(top + [Field("Content-Type", MultipartType(kind, b))])
  {
    BoundaryBack(kind, b);
    PartFieldOk("Content-Type", MultipartType(kind, b));
  }

  lemma LeafFieldsOk(top: seq<Field>, contentType: string)
    requires CleanFields(top) && (contentType == PLAIN || contentType == HTML)
    ensures CleanFields(top + [Field("Content-Type", contentType), BASE64])
  {
    CleanLiterals();
    PartFieldOk("Content-Type", contentType);
    PartFieldOk("Content-Transfer-Encoding", "base64");
  }

  /**
   * For every email whose custom names are field names: the header block, split at line
   * breaks and first colons, gives exactly the fields that were set, whatever their
   * values hold, and the fields of the body that follow them.
   */
  lemma HeaderBlock(e: Email, env: Env, lf: bool)
    requires Enumerates(env.order, e.headers) && AllValid(e.headers) && CleanEnv(env) && GoodBoundaries(env)
    ensures var m := Message(TopFields(e, env), e, env);
      match ParseHeader(Split(Text(m), lf))
      case Some(h) => h.fields == m.fields && TopFields(e, env) <= h.fields
      case None => false
  {
    TopFieldsOk(e, env);
    var top := TopFields(e, env);
    MessageFieldsOk(top, e, env);
    FieldsFirst(top, e, env);
    TextHeader(Message(top, e, env), lf);
  }

  lemma {:induction false} TextHeader(m: Entity, lf: bool)
    requires CleanFields(m.fields)
    ensures var h := ParseHeader(Split(Text(m), lf)); h.Some? && h.value.fields == m.fields
  {
    match m
    case Leaf(fields, data) => HeaderReads(fields, Join(Chunks(Encode(data))) + CRLF, lf);
    case Multi(fields, b, parts) =>
      HeaderReads(fields, PartsText(b, true, parts) + (CRLF + CloseDelimiter(b) + CRLF), lf);
  }

  /** The encoding of the message: the caller's if there is one. */
  lemma MessageEncoding(top: seq<Field>, e: Email, env: Env)
    ensures var m := Message(top, e, env);
      && (m.Leaf? <==> SingleBody(e))
      && (EncodingFits(Lookup(top, "Content-Transfer-Encoding"), SingleBody(e)) <==>
          EncodingOf(m.fields) == if m.Leaf? then Base64Encoding else Identity)
  {
    SelectNone(e.attachments);
    NamedBase64();
    TopType(top, MultipartType("mixed", env.mixed));
    TopType(top, MultipartType("related", env.related));
    TopType(top, MultipartType("alternative", env.alternative));
    TopLeafEncoding(top, HTML);
    TopLeafEncoding(top, PLAIN);
  }

  lemma {:induction false} ChunksLonger(text: string)
    ensures |Join(Chunks(text))| >= |text|
  {
    if |text| > LINE_LENGTH {
      ChunksLonger(text[LINE_LENGTH..]);
      assert Chunks(text)[1..] == Chunks(text[LINE_LENGTH..]);
    }
  }

  /** Base64 text is longer than what it encodes, so it never reads back when taken as it stands. */
  lemma NotItself(data: seq<byte>, lf: bool)
    ensures var body := Join(Chunks(Encode(data))) + CRLF;
      DecodeBody(Identity, Split(body, lf)) != Some(data) && DecodeBody(Unknown, Split(body, lf)) != Some(data)
  {
    var lines := Chunks(Encode(data)) + [""];
    BlankEnd(Chunks(Encode(data)));
    ChunksClean(data);
    CleanOneLine(lines, lf);
    SplitJoin(lines, lf);
    EncodeAlphabet(data);
    ChunksLonger(Encode(data));
  }

  /** A message that reads back has the encoding its header names first. */
  lemma {:induction false} ReadEncoding(m: Entity, lf: bool)
    requires CleanFields(m.fields) && Parse(Split(Text(m), lf)) == Some(m)
    ensures EncodingOf(m.fields) == if m.Leaf? then Base64Encoding else Identity
  {
    match m
    case Leaf(fields, data) =>
      HeaderReads(fields, Join(Chunks(Encode(data))) + CRLF, lf);
      NotItself(data, lf);
    case Multi(fields, b, parts) =>
      HeaderReads(fields, PartsText(b, true, parts) + (CRLF + CloseDelimiter(b) + CRLF), lf);
  }

  lemma DeliveredIff(top: seq<Field>, e: Email, env: Env, lf: bool)
    requires CleanFields(top) && Named(top, "Content-Type") == []
    requires GoodBoundaries(env)
    ensures Parse(Split(Text(Message(top, e, env)), lf)) == Some(Message(top, e, env)) <==>
      AllWritable(e.attachments, lf) && EncodingFits(Lookup(top, "Content-Transfer-Encoding"), SingleBody(e))
  {
    var m := Message(top, e, env);
    MessageWritable(top, e, env, lf);
    if AllWritable(e.attachments, lf) && EncodingFits(Lookup(top, "Content-Transfer-Encoding"), SingleBody(e)) {
      MessageOk(top, e, env);
      TextRoundTrip(m, lf);
    }
    if Parse(Split(Text(m), lf)) == Some(m) {
      SplitOneLine(Text(m), lf);
      ParsedOnOneLine(Split(Text(m), lf), lf);
      MessageFieldsOk(top, e, env);
      ReadEncoding(m, lf);
      MessageEncoding(top, e, env);
    }
  }

  /** A reader of the text gets the message; with `lf` one that also splits at a bare LF. */
  ghost predicate ReadsBack(e: Email, env: Env, lf: bool)
    requires Enumerates(env.order, e.headers)
  {
    var m := Message(TopFields(e, env), e, env);
    Parse(Split(Text(m), lf)) == Some(m)
  }

  /** The first transfer encoding among the caller's headers, in the order they are walked. */
  function FirstEncoding(e: Email, env: Env): Option<string>
    requires Enumerates(env.order, e.headers)
  {
    var n := FirstKey(env.order, "Content-Transfer-Encoding");
    if n == |env.order| then None else Some(Strip(Encoded(e.headers[env.order[n]], env.bEncode)))
  }

  /**
   * The text of a message, read back line by line, is the message, if and only if no
   * attachment type and no inline content id has a CRLF in it, or an LF where the reader
   * splits at those too, and the first Content-Transfer-Encoding the caller set, if any,
   * is base64 for a single body and an identity for a multipart message.
   */
  lemma MessageRoundTripIff(e: Email, env: Env, lf: bool)
    requires Enumerates(env.order, e.headers) && AllValid(e.headers) && CleanEnv(env) && GoodBoundaries(env)
    ensures ReadsBack(e, env, lf) <==>
      AllWritable(e.attachments, lf) && EncodingFits(FirstEncoding(e, env), SingleBody(e))
  {
    TopFieldsOk(e, env);
    NoContentType(e, env);
    EncodingField(e, env);
    DeliveredIff(TopFields(e, env), e, env, lf);
  }

  ghost function Listing(keys: set<string>): (order: seq<string>)
    ensures forall k :: k in keys <==> k in order
    ensures forall i, j | 0 <= i < j < |order| :: order[i] != order[j]
    decreases |keys|
  {
    if keys == {} then []
    else
      var k :| k in keys;
      [k] + Listing(keys - {k})
  }

  /** An order of the header map that starts with a given key. */
  lemma OrderFrom(headers: map<string, string>, k: string) returns (order: seq<string>)
    requires k in headers
    ensures Enumerates(order, headers) && order != [] && order[0] == k
  {
    order := [k] + Listing(headers.Keys - {k});
    forall o | o in headers ensures o in order {
      if o != k {
        assert o in Listing(headers.Keys - {k});
      }
    }
    forall i | 0 <= i < |order| ensures order[i] in headers {
      assert order[i] in order;
    }
    assert k !in Listing(headers.Keys - {k});
  }

  lemma SomeOrder(headers: map<string, string>) returns (order: seq<string>)
    ensures Enumerates(order, headers)
  {
    order := Listing(headers.Keys);
    forall i | 0 <= i < |order| ensures order[i] in headers {
      assert order[i] in order;
    }
  }

  /** Every transfer encoding the caller set is the one the message has. */
  ghost predicate HeadersFit(e: Email, env: Env) {
    forall k | k in e.headers && EqualFold(k, "Content-Transfer-Encoding") ::
      EncodingFits(Some(Strip(Encoded(e.headers[k], env.bEncode))), SingleBody(e))
  }

  /** It reads back in whatever order the header map is walked, if and only if this holds of each such header. */
  lemma EveryOrderIff(e: Email, env: Env, lf: bool)
    requires AllValid(e.headers) && CleanEnv(env) && GoodBoundaries(env)
    ensures (forall order | Enumerates(order, e.headers) :: ReadsBack(e, env.(order := order), lf))
      <==> AllWritable(e.attachments, lf) && HeadersFit(e, env)
  {
    var fits := AllWritable(e.attachments, lf) && HeadersFit(e, env);
    if fits {
      forall order | Enumerates(order, e.headers) ensures ReadsBack(e, env.(order := order), lf) {
        MessageRoundTripIff(e, env.(order := order), lf);
      }
    } else if AllWritable(e.attachments, lf) {
      var k :| k in e.headers && EqualFold(k, "Content-Transfer-Encoding") &&
        !EncodingFits(Some(Strip(Encoded(e.headers[k], env.bEncode))), SingleBody(e));
      var order := OrderFrom(e.headers, k);
      assert FirstKey(order, "Content-Transfer-Encoding") == 0;
      MessageRoundTripIff(e, env.(order := order), lf);
    } else {
      var order := SomeOrder(e.headers);
      MessageRoundTripIff(e, env.(order := order), lf);
    }
  }

  lemma SevenBitValue(bEncode: string -> string)
    ensures Strip(Encoded("7bit", bEncode)) == "7bit" && EncodingNamed("7bit") == Identity
  {
    assert AllPlain("7bit");
    StripClean("7bit");
    assert TrimBlank("7bit") == "7bit";
  }

  lemma OnlyKey(order: seq<string>, headers: map<string, string>, k: string)
    requires headers.Keys == {k} && Enumerates(order, headers)
    ensures var n := FirstKey(order, k); n < |order| && order[n] == k
  {
    assert k in order && EqualFold(k, k);
    var n := FirstKey(order, k);
    assert order[n] in headers.Keys;
  }

  lemma SevenBitFirst(e: Email, env: Env)
    requires e.headers == map["Content-Transfer-Encoding" := "7bit"] && Enumerates(env.order, e.headers)
    ensures FirstEncoding(e, env) == Some("7bit") && EncodingNamed("7bit") == Identity
  {
    SevenBitValue(env.bEncode);
    assert e.headers.Keys == {"Content-Transfer-Encoding"};
    OnlyKey(env.order, e.headers, "Content-Transfer-Encoding");
  }

  /** A caller's `Content-Transfer-Encoding: 7bit`: the message reads back if and only if it is multipart. */
  lemma SevenBitHeader(e: Email, env: Env, lf: bool)
    requires e.headers == map["Content-Transfer-Encoding" := "7bit"] && Enumerates(env.order, e.headers)
    requires CleanEnv(env) && GoodBoundaries(env) && AllWritable(e.attachments, lf)
    ensures ReadsBack(e, env, lf) <==> !SingleBody(e)
  {
    PartNames("Content-Transfer-Encoding");
    SevenBitFirst(e, env);
    MessageRoundTripIff(e, env, lf);
  }

  lemma FieldsFirst(top: seq<Field>, e: Email, env: Env)
    ensures top <= Message(top, e, env).fields
  {
  }
}
