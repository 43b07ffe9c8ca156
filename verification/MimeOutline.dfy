/** What a reader finds in a message: how its parts are grouped, and what each part says it is. */
module MimeOutline {
  import opened Bytes
  import opened Options
  import opened MimeLines
  import opened MimeTree
  import opened MimeText
  import opened MimeHeaders
  import opened MimeBuilder

  /** A leaf as the reader sees it: its type, disposition and id, and its content. */
  datatype Piece = Piece(contentType: Option<string>, disposition: Option<string>, contentId: Option<string>,
                         data: seq<byte>)

  datatype Outline = Item(piece: Piece) | Group(subtype: string, members: seq<Outline>)

  /** The subtype of a multipart type: what stands between the slash and the semicolon. */
  function Subtype(contentType: string): string {
    var rest := contentType[if "multipart/" <= contentType then 10 else 0..];
    rest[..IndexOf(rest, ';')]
  }

  function SubtypeOf(fields: seq<Field>): string {
    match Lookup(fields, "Content-Type")
    case Some(v) => Subtype(v)
    case None => ""
  }

  /** What the reader makes of a message. */
  function OutlineOf(e: Entity): Outline {
    match e
    case Leaf(fields, data) =>
      Item(Piece(Lookup(fields, "Content-Type"), Lookup(fields, "Content-Disposition"),
                 Lookup(fields, "Content-Id"), data))
    case Multi(fields, _, parts) =>
      Group(SubtypeOf(fields), seq(|parts|, i requires 0 <= i < |parts| => OutlineOf(parts[i])))
  }

  function Outlines(parts: seq<Entity>): seq<Outline> {
    seq(|parts|, i requires 0 <= i < |parts| => OutlineOf(parts[i]))
  }

  // ---- what the email asks for ----

  /** The file name as it stands between its quotes. */
  function NameText(a: Attachment, env: Env): string {
    QuoteChars(Strip(Encoded(a.filename, env.bEncode)))
  }

  function TextPiece(e: Email): Piece {
    Piece(Some("text/plain; charset=UTF-8"), None, None, e.text)
  }

  function HtmlPiece(e: Email): Piece {
    Piece(Some("text/html; charset=UTF-8"), None, None, e.html)
  }

  function AttachmentPiece(a: Attachment, env: Env): Piece {
    Piece(Some(a.contentType + "; name=\"" + NameText(a, env) + "\""),
          Some((if a.inline then "inline" else "attachment") + "; filename=\"" + NameText(a, env) + "\""),
          if a.inline then Some("<" + a.contentId + ">") else None, a.data)
  }

  /** The attachments that are inline, or those that are not, in the order given. */
  function Attached(atts: seq<Attachment>, inline: bool, env: Env): seq<Outline> {
    if atts == [] then []
    else
      var n := |atts| - 1;
      Attached(atts[..n], inline, env)
      + if atts[n].inline == inline then [Item(AttachmentPiece(atts[n], env))] else []
  }

  /** The bodies: both as alternatives, plain text first; or the HTML; or the text, even if it is empty. */
  function Bodies(e: Email): Outline {
    if e.text != [] && e.html != [] then Group("alternative", [Item(TextPiece(e)), Item(HtmlPiece(e))])
    else Item(if e.html != [] then HtmlPiece(e) else TextPiece(e))
  }

  /** A group around the first member, if there are others. */
  function Around(subtype: string, first: Outline, others: seq<Outline>): Outline {
    if others == [] then first else Group(subtype, [first] + others)
  }

  /** Inline attachments are related to the bodies, the others are mixed with that. */
  function Expected(e: Email, env: Env): Outline {
    Around("mixed", Around("related", Bodies(e), Attached(e.attachments, true, env)),
           Attached(e.attachments, false, env))
  }

  // ---- the tree has that outline ----

  lemma KindChars(kind: string)
    requires Kind(kind)
    ensures forall i | 0 <= i < |kind| :: kind[i] != ';'
  {
  }

  lemma KindBack(kind: string, b: string)
    requires Kind(kind)
    ensures Subtype(MultipartType(kind, b)) == kind
  {
    var rest := kind + "; boundary=\"" + b + "\"";
    assert MultipartType(kind, b) == "multipart/" + rest;
    FindSemicolon(kind, rest);
  }

  lemma FindSemicolon(kind: string, rest: string)
    requires Kind(kind) && kind + ";" <= rest
    ensures Subtype("multipart/" + rest) == kind
  {
    var v := "multipart/" + rest;
    KindChars(kind);
    assert v[10..] == rest && rest[|kind|] == ';';
    assert forall i | 0 <= i < |kind| :: rest[i] == kind[i];
  }

  /** A multipart part reads as a group of its kind. */
  lemma PartGroup(kind: string, b: string, parts: seq<Entity>)
    requires Kind(kind)
    ensures OutlineOf(Multi([Field("Content-Type", MultipartType(kind, b))], b, parts)) == Group(kind, Outlines(parts))
  {
    PartType(MultipartType(kind, b));
    KindBack(kind, b);
  }

  lemma TopGroup(top: seq<Field>, kind: string, b: string, parts: seq<Entity>)
    requires Kind(kind) && Named(top, "Content-Type") == []
    ensures OutlineOf(TopMulti(top, kind, b, parts)) == Group(kind, Outlines(parts))
  {
    TopType(top, MultipartType(kind, b));
    KindBack(kind, b);
  }

  lemma BodyItem(contentType: string, data: seq<byte>)
    ensures OutlineOf(BodyLeaf(contentType, data)) == Item(Piece(Some(contentType), None, None, data))
  {
    var fields := [BASE64] + [Field("Content-Type", contentType)];
    assert [BASE64, Field("Content-Type", contentType)] == fields;
    NamedTwo(contentType, "Content-Type");
    NamedTwo(contentType, "Content-Disposition");
    NamedTwo(contentType, "Content-Id");
  }

  lemma NamedTwo(contentType: string, name: string)
    requires name == "Content-Type" || name == "Content-Disposition" || name == "Content-Id"
    ensures Named([BASE64] + [Field("Content-Type", contentType)], name)
         == if name == "Content-Type" then [contentType] else []
  {
    NamedConcat([BASE64], [Field("Content-Type", contentType)], name);
    NamedOne("Content-Transfer-Encoding", "base64", name);
    NamedOne("Content-Type", contentType, name);
  }

  lemma BodyOutline(e: Email, env: Env)
    ensures OutlineOf(Body(e, env)) == Bodies(e)
    ensures e.text != [] && e.html != [] ==> Outlines(AlternativeParts(e)) == [Item(TextPiece(e)), Item(HtmlPiece(e))]
  {
    BodyItem("text/plain; charset=UTF-8", e.text);
    BodyItem("text/html; charset=UTF-8", e.html);
    if e.text != [] && e.html != [] {
      PartGroup("alternative", env.alternative, AlternativeParts(e));
    }
  }

  lemma NamesQuoted(a: Attachment, env: Env)
    ensures FileName(a, env) == "\"" + NameText(a, env) + "\""
    ensures a.contentType + "; name=" + FileName(a, env) == a.contentType + "; name=\"" + NameText(a, env) + "\""
    ensures "inline; filename=" + FileName(a, env) == "inline" + "; filename=\"" + NameText(a, env) + "\""
    ensures "attachment; filename=" + FileName(a, env) == "attachment" + "; filename=\"" + NameText(a, env) + "\""
  {
  }

  /** The fields before the encoding and the type: the disposition, and the id of an inline attachment. */
  lemma DispositionNamed(a: Attachment, env: Env, name: string)
    requires name == "Content-Disposition" || name == "Content-Id"
    ensures Named(AttachmentFields(a, env), name) ==
      if name == "Content-Disposition" then
        [(if a.inline then "inline; filename=" else "attachment; filename=") + FileName(a, env)]
      else if a.inline then ["<" + a.contentId + ">"] else []
  {
    var fields := AttachmentFields(a, env);
    var disposition := (if a.inline then "inline; filename=" else "attachment; filename=") + FileName(a, env);
    var first, last := [Field("Content-Disposition", disposition)], fields[|fields| - 2..];
    var id := When(a.inline, "Content-Id", "<" + a.contentId + ">");
    assert fields == first + id + last;
    NamedConcat(first + id, last, name);
    NoneNamed(last, name);
    NamedMore(first, a.inline, "Content-Id", "<" + a.contentId + ">", name);
    NamedOne("Content-Disposition", disposition, name);
  }

  lemma AttachmentItem(a: Attachment, env: Env)
    ensures OutlineOf(Leaf(AttachmentFields(a, env), a.data)) == Item(AttachmentPiece(a, env))
  {
    AttachmentNamed(a, env);
    DispositionNamed(a, env, "Content-Disposition");
    DispositionNamed(a, env, "Content-Id");
    NamesQuoted(a, env);
  }

  lemma OutlinesSnoc(parts: seq<Entity>, e: Entity)
    ensures Outlines(parts + [e]) == Outlines(parts) + [OutlineOf(e)]
  {
  }

  lemma {:induction false} AttachedLeaves(atts: seq<Attachment>, inline: bool, env: Env)
    ensures Outlines(AttachmentLeaves(Select(atts, inline), env)) == Attached(atts, inline, env)
  {
    if atts != [] {
      var n := |atts| - 1;
      var a, before := atts[n], Select(atts[..n], inline);
      AttachedLeaves(atts[..n], inline, env);
      if a.inline == inline {
        assert (before + [a])[..|before|] == before;
        OutlinesSnoc(AttachmentLeaves(before, env), Leaf(AttachmentFields(a, env), a.data));
        AttachmentItem(a, env);
      } else {
        assert before + [] == before;
      }
    }
  }

  lemma FirstThenAttached(first: Entity, atts: seq<Attachment>, inline: bool, env: Env)
    ensures Outlines([first] + AttachmentLeaves(Select(atts, inline), env))
         == [OutlineOf(first)] + Attached(atts, inline, env)
    ensures Select(atts, inline) == [] <==> Attached(atts, inline, env) == []
  {
    AttachedLeaves(atts, inline, env);
    assert |Attached(atts, inline, env)| == |Select(atts, inline)|;
  }

  lemma MainOutline(e: Email, env: Env)
    ensures Outlines(RelatedParts(e, env)) == [Bodies(e)] + Attached(e.attachments, true, env)
    ensures OutlineOf(MainPart(e, env)) == Around("related", Bodies(e), Attached(e.attachments, true, env))
  {
    BodyOutline(e, env);
    FirstThenAttached(Body(e, env), e.attachments, true, env);
    PartGroup("related", env.related, RelatedParts(e, env));
  }

  /** A message of one body says what it is in its own header, where the caller may have set the rest. */
  lemma TopItem(top: seq<Field>, contentType: string, data: seq<byte>)
    requires Named(top, "Content-Type") == []
    ensures OutlineOf(TopLeaf(top, contentType, data))
         == Item(Piece(Some(contentType), Lookup(top, "Content-Disposition"), Lookup(top, "Content-Id"), data))
  {
    TopLeafType(top, contentType);
    var last := [Field("Content-Type", contentType), BASE64];
    NamedConcat(top, last, "Content-Disposition");
    NamedConcat(top, last, "Content-Id");
    NoneNamed(last, "Content-Disposition");
    NoneNamed(last, "Content-Id");
  }

  lemma MessageOutline(top: seq<Field>, e: Email, env: Env)
    requires Named(top, "Content-Type") == []
    ensures OutlineOf(Message(top, e, env)) == WithHeader(top, Expected(e, env))
  {
    MainOutline(e, env);
    FirstThenAttached(Body(e, env), e.attachments, true, env);
    FirstThenAttached(MainPart(e, env), e.attachments, false, env);
    BodyOutline(e, env);
    if Select(e.attachments, false) != [] {
      TopGroup(top, "mixed", env.mixed, MixedParts(e, env));
    } else if Select(e.attachments, true) != [] {
      TopGroup(top, "related", env.related, RelatedParts(e, env));
    } else if e.text != [] && e.html != [] {
      TopGroup(top, "alternative", env.alternative, AlternativeParts(e));
    } else {
      TopItem(top, "text/html; charset=UTF-8", e.html);
      TopItem(top, "text/plain; charset=UTF-8", e.text);
    }
  }

  /** A single body has the disposition and the id that the message's own header gives it. */
  function WithHeader(top: seq<Field>, o: Outline): Outline {
    match o
    case Item(p) =>
      Item(p.(disposition := Lookup(top, "Content-Disposition"), contentId := Lookup(top, "Content-Id")))
    case Group(_, _) => o
  }

  /**
   * What the reader then has: the header fields that were set, and every body and
   * attachment once, grouped and in order as expected, each with its type, disposition,
   * file name and id, and byte for byte.
   */
  lemma MessageHolds(e: Email, env: Env)
    requires Enumerates(env.order, e.headers)
    ensures var (top, m) := (TopFields(e, env), Message(TopFields(e, env), e, env));
      top <= m.fields && OutlineOf(m) == WithHeader(top, Expected(e, env))
  {
    NoContentType(e, env);
    MessageOutline(TopFields(e, env), e, env);
    FieldsFirst(TopFields(e, env), e, env);
  }

  /** For a message that reads back, that is what a reader of its text finds. */
  lemma ReaderFinds(e: Email, env: Env, lf: bool)
    requires Enumerates(env.order, e.headers) && AllValid(e.headers) && CleanEnv(env) && GoodBoundaries(env)
    requires AllWritable(e.attachments, lf) && EncodingFits(FirstEncoding(e, env), SingleBody(e))
    ensures var top := TopFields(e, env);
      match Parse(Split(Text(Message(top, e, env)), lf))
      case Some(m) => top <= m.fields && OutlineOf(m) == WithHeader(top, Expected(e, env))
      case None => false
  {
    MessageRoundTripIff(e, env, lf);
    MessageHolds(e, env);
  }

  // ---- which subtype when ----

  predicate Is(o: Outline, subtype: string) {
    o.Group? && o.subtype == subtype
  }

  /** The first member of a group of this subtype. */
  predicate Starts(o: Outline, subtype: string, first: string) {
    Is(o, subtype) && o.members != [] && Is(o.members[0], first)
  }

  predicate Both(e: Email) {
    e.text != [] && e.html != []
  }

  predicate Has(e: Email, inline: bool) {
    exists i | 0 <= i < |e.attachments| :: e.attachments[i].inline == inline
  }

  lemma {:induction false} AttachedNone(atts: seq<Attachment>, inline: bool, env: Env)
    ensures Attached(atts, inline, env) == [] <==> forall i | 0 <= i < |atts| :: atts[i].inline != inline
  {
    if atts != [] {
      AttachedNone(atts[..|atts| - 1], inline, env);
    }
  }

  lemma DifferentKinds()
    ensures "mixed" != "related" && "mixed" != "alternative" && "related" != "alternative"
  {
    assert |"mixed"| == 5 && |"related"| == 7 && |"alternative"| == 11;
  }

  /** The grouping of the bodies and the inline attachments. */
  lemma RelatedIff(e: Email, inlines: seq<Outline>)
    ensures var o := Around("related", Bodies(e), inlines);
      && (Is(o, "related") <==> inlines != [])
      && (Is(o, "alternative") <==> inlines == [] && Both(e))
      && (Starts(o, "related", "alternative") <==> inlines != [] && Both(e))
      && !Is(o, "mixed")
  {
    DifferentKinds();
  }

  lemma MixedIff(main: Outline, others: seq<Outline>, kind: string)
    requires kind != "mixed" && !Is(main, "mixed")
    ensures var o := Around("mixed", main, others);
      && (Is(o, "mixed") <==> others != [])
      && (Is(o, kind) <==> others == [] && Is(main, kind))
      && (Starts(o, "mixed", kind) <==> others != [] && Is(main, kind))
      && (Is(o, "mixed") ==> o.members != [] && o.members[0] == main)
      && (!Is(o, "mixed") ==> o == main)
  {
  }

  /**
   * The subtype read from the top header: mixed if and only if some attachment is not
   * inline, related if and only if there are attachments and all are inline, alternative
   * if and only if there are both bodies and no attachment. In a mixed message the first
   * part is related if and only if some attachment is inline, and alternative if and only
   * if none is and there are both bodies; and the first part of a related one, at the top
   * or inside, is alternative if and only if there are both bodies.
   */
  lemma SubtypeIff(e: Email, env: Env)
    requires Enumerates(env.order, e.headers)
    ensures var o := OutlineOf(Message(TopFields(e, env), e, env));
      && (Is(o, "mixed") <==> Has(e, false))
      && (Is(o, "related") <==> Has(e, true) && !Has(e, false))
      && (Is(o, "alternative") <==> Both(e) && !Has(e, true) && !Has(e, false))
      && (Starts(o, "mixed", "related") <==> Has(e, false) && Has(e, true))
      && (Starts(o, "mixed", "alternative") <==> Has(e, false) && !Has(e, true) && Both(e))
      && (Starts(o, "related", "alternative") <==> !Has(e, false) && Has(e, true) && Both(e))
      && (Starts(o, "mixed", "related") ==> (Starts(o.members[0], "related", "alternative") <==> Both(e)))
  {
    var inlines, others := Attached(e.attachments, true, env), Attached(e.attachments, false, env);
    MessageHolds(e, env);
    AttachedNone(e.attachments, true, env);
    AttachedNone(e.attachments, false, env);
    assert (inlines != [] <==> Has(e, true)) && (others != [] <==> Has(e, false));
    RelatedIff(e, inlines);
    DifferentKinds();
    MixedIff(Around("related", Bodies(e), inlines), others, "related");
    MixedIff(Around("related", Bodies(e), inlines), others, "alternative");
    assert Expected(e, env).Group? ==> OutlineOf(Message(TopFields(e, env), e, env)) == Expected(e, env);
  }
}
