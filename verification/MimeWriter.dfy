/** BuildMIME and its helpers, writing into a buffer through nested multipart writers. */
module MimeWriter {
  import opened Bytes
  import opened Options
  import opened Sequences
  import opened MimeLines
  import opened MimeTree
  import opened MimeText
  import opened MimeHeaders
  import opened MimeBuilder

  /** A part's header: one line per field. */
  method FormatFields(fields: seq<Field>) returns (head: string)
    ensures head == HeaderText(fields)
  {
    head := "";
    var i := 0;
    while i < |fields|
      invariant 0 <= i <= |fields|
      invariant head == HeaderText(fields[..i])
    {
      assert fields[..i + 1] == fields[..i] + [fields[i]];
      HeaderTextConcat(fields[..i], [fields[i]]);
      assert [fields[i]][1..] == [];
      head := head + (HeaderLine(fields[i]) + CRLF);
      i := i + 1;
    }
    assert fields[..|fields|] == fields;
  }

  class Buffer {
    var text: string

    constructor ()
      ensures text == ""
    {
      text := "";
    }

    method WriteString(s: string)
      modifies this
      ensures text == old(text) + s
    {
      text := text + s;
    }

    /** One header line. */
    method WriteField(f: Field)
      modifies this
      ensures text == old(text) + HeaderText([f])
    {
      text := text + (HeaderLine(f) + CRLF);
      assert [f][1..] == [];
    }

    /** One header line if the condition holds, after the fields already there. */
    method AddField(c: bool, name: string, value: string, ghost start: string, ghost fields: seq<Field>)
      requires text == start + HeaderText(fields)
      modifies this
      ensures text == start + HeaderText(fields + When(c, name, value))
    {
      if c {
        WriteField(Field(name, value));
        OneMore(start, fields, [Field(name, value)]);
      } else {
        assert fields + [] == fields;
      }
    }
  }

  /** A multipart writer on a buffer; nested writers share it. */
  class MultipartWriter {
    const w: Buffer
    var boundary: string
    var started: bool

    constructor (w: Buffer, random: string)
      ensures this.w == w && boundary == random && !started
    {
      this.w := w;
      boundary := random;
      started := false;
    }

    method SetBoundary(b: string)
      requires !started
      modifies this`boundary
      ensures boundary == b
    {
      boundary := b;
    }

    /** The delimiter, with a line break before it unless it is the first, and the part's header. */
    method CreatePart(fields: seq<Field>)
      modifies this`started, w
      ensures started && w.text == old(w.text)
        + ((if old(started) then CRLF else "") + (Delimiter(boundary) + CRLF + (HeaderText(fields) + CRLF)))
    {
      var head := FormatFields(fields);
      w.WriteString((if started then CRLF else "") + (Delimiter(boundary) + CRLF + (head + CRLF)));
      started := true;
    }

    method Close()
      modifies w
      ensures w.text == old(w.text) + (CRLF + CloseDelimiter(boundary) + CRLF)
    {
      w.WriteString(CRLF + CloseDelimiter(boundary) + CRLF);
    }
  }

  lemma PartTextIs(b: string, first: bool, e: Entity, body: string, before: string)
    requires Text(e) == HeaderText(e.fields) + CRLF + body
    ensures before + ((if first then "" else CRLF) + (Delimiter(b) + CRLF + (HeaderText(e.fields) + CRLF))) + body
         == before + PartText(b, first, e)
  {
    var start := if first then "" else CRLF;
    var open, head := Delimiter(b) + CRLF, HeaderText(e.fields) + CRLF;
    Assoc(open, head, body);
    Assoc(start, open + head, body);
    Assoc(before, start + (open + head), body);
  }

  /** A base64 body part: its header, the wrapped data and a line break. */
  method WriteLeaf(mw: MultipartWriter, fields: seq<Field>, data: seq<byte>)
    modifies mw`started, mw.w
    ensures mw.started
    ensures mw.w.text == old(mw.w.text) + PartText(mw.boundary, !old(mw.started), Leaf(fields, data))
  {
    mw.CreatePart(fields);
    var wrapped := WrapBase64(data);
    mw.w.WriteString(wrapped + CRLF);
    PartTextIs(mw.boundary, !old(mw.started), Leaf(fields, data), wrapped + CRLF, old(mw.w.text));
  }

  method WriteAttachmentPart(mw: MultipartWriter, a: Attachment, env: Env)
    modifies mw`started, mw.w
    ensures mw.started
    ensures mw.w.text
      == old(mw.w.text) + PartText(mw.boundary, !old(mw.started), Leaf(AttachmentFields(a, env), a.data))
  {
    var encoded := EncodeHeader(a.filename, env.bEncode);
    var filename := SanitizeHeaderValue(encoded);
    var contentType := Field("Content-Type", a.contentType + "; name=" + Quote(filename));
    if a.inline {
      WriteLeaf(mw, [Field("Content-Disposition", "inline; filename=" + Quote(filename)),
                     Field("Content-Id", "<" + a.contentId + ">"), BASE64, contentType], a.data);
    } else {
      WriteLeaf(mw, [Field("Content-Disposition", "attachment; filename=" + Quote(filename)),
                     BASE64, contentType], a.data);
    }
  }

  /** The loop over the attachments of one kind, after a first part. */
  method WriteAttachments(mw: MultipartWriter, atts: seq<Attachment>, env: Env)
    requires mw.started
    modifies mw`started, mw.w
    ensures mw.started
    ensures mw.w.text == old(mw.w.text) + PartsText(mw.boundary, false, AttachmentLeaves(atts, env))
  {
    var i := 0;
    while i < |atts|
      invariant 0 <= i <= |atts| && mw.started
      invariant mw.w.text == old(mw.w.text) + PartsText(mw.boundary, false, AttachmentLeaves(atts[..i], env))
    {
      ghost var done := AttachmentLeaves(atts[..i], env);
      ghost var leaf := Leaf(AttachmentFields(atts[i], env), atts[i].data);
      assert atts[..i + 1][..i] == atts[..i];
      PartsTextSnoc(mw.boundary, false, done, leaf);
      Assoc(old(mw.w.text), PartsText(mw.boundary, false, done), PartText(mw.boundary, false, leaf));
      WriteAttachmentPart(mw, atts[i], env);
      i := i + 1;
    }
    assert atts[..|atts|] == atts;
  }

  method WriteAlternativeBodyParts(mw: MultipartWriter, e: Email)
    requires !mw.started
    modifies mw`started, mw.w
    ensures mw.started == (e.text != [] || e.html != [])
    ensures mw.w.text == old(mw.w.text) + PartsText(mw.boundary, true, AlternativeParts(e))
  {
    ghost var text := if e.text != [] then [BodyLeaf(PLAIN, e.text)] else [];
    PartsTextSnoc(mw.boundary, true, [], BodyLeaf(PLAIN, e.text));
    assert [] + [BodyLeaf(PLAIN, e.text)] == [BodyLeaf(PLAIN, e.text)];
    PartsTextSnoc(mw.boundary, true, text, BodyLeaf(HTML, e.html));
    if e.text != [] {
      WriteLeaf(mw, [BASE64, Field("Content-Type", PLAIN)], e.text);
    }
    assert mw.w.text == old(mw.w.text) + PartsText(mw.boundary, true, text);
    if e.html != [] {
      WriteLeaf(mw, [BASE64, Field("Content-Type", HTML)], e.html);
      Assoc(old(mw.w.text), PartsText(mw.boundary, true, text),
                PartText(mw.boundary, text == [], BodyLeaf(HTML, e.html)));
    }
  }

  /** A nested multipart/alternative: a part of the parent, written by a writer of its own. */
  method WriteAlternative(parent: MultipartWriter, e: Email, env: Env)
    requires e.text != [] && e.html != []
    modifies parent`started, parent.w
    ensures parent.started
    ensures parent.w.text == old(parent.w.text) + PartText(parent.boundary, !old(parent.started), Body(e, env))
  {
    var altBuf := new Buffer();
    var altWriter := new MultipartWriter(altBuf, env.alternative);
    parent.CreatePart([Field("Content-Type", MultipartType("alternative", altWriter.boundary))]);
    ghost var before := parent.w.text;
    var sub := new MultipartWriter(parent.w, env.alternative);
    sub.SetBoundary(altWriter.boundary);
    WriteAlternativeBodyParts(sub, e);
    sub.Close();
    ghost var parts := PartsText(env.alternative, true, AlternativeParts(e));
    ghost var close := CRLF + CloseDelimiter(env.alternative) + CRLF;
    Assoc(before, parts, close);
    PartTextIs(parent.boundary, !old(parent.started), Body(e, env), parts + close, old(parent.w.text));
  }

  method WriteAlternativeOrSingle(parent: MultipartWriter, e: Email, env: Env)
    modifies parent`started, parent.w
    ensures parent.started
    ensures parent.w.text == old(parent.w.text) + PartText(parent.boundary, !old(parent.started), Body(e, env))
  {
    if e.text != [] && e.html != [] {
      WriteAlternative(parent, e, env);
    } else if e.html != [] {
      WriteLeaf(parent, [BASE64, Field("Content-Type", HTML)], e.html);
    } else {
      WriteLeaf(parent, [BASE64, Field("Content-Type", PLAIN)], e.text);
    }
  }

  /** The body, the inline attachments and the closing delimiter. */
  method WriteRelatedBody(rel: MultipartWriter, e: Email, env: Env, inline: seq<Attachment>)
    requires !rel.started
    modifies rel`started, rel.w
    ensures rel.w.text == old(rel.w.text)
      + (PartsText(rel.boundary, true, [Body(e, env)] + AttachmentLeaves(inline, env))
         + (CRLF + CloseDelimiter(rel.boundary) + CRLF))
  {
    WriteAlternativeOrSingle(rel, e, env);
    WriteAttachments(rel, inline, env);
    rel.Close();
    FirstThenRest(old(rel.w.text), rel.boundary, Body(e, env), AttachmentLeaves(inline, env),
                  CRLF + CloseDelimiter(rel.boundary) + CRLF);
  }

  lemma FirstThenRest(before: string, b: string, first: Entity, rest: seq<Entity>, close: string)
    ensures before + PartText(b, true, first) + PartsText(b, false, rest) + close
         == before + (PartsText(b, true, [first] + rest) + close)
  {
    assert ([first] + rest)[1..] == rest;
    Assoc4(before, PartText(b, true, first), PartsText(b, false, rest), close);
  }

  /** A nested multipart/related: a part of the mixed message, written by a writer of its own. */
  method WriteRelated(parent: MultipartWriter, e: Email, env: Env, inline: seq<Attachment>)
    requires inline == Select(e.attachments, true) != []
    modifies parent`started, parent.w
    ensures parent.started
    ensures parent.w.text == old(parent.w.text) + PartText(parent.boundary, !old(parent.started), MainPart(e, env))
  {
    var relBuf := new Buffer();
    var relWriter := new MultipartWriter(relBuf, env.related);
    parent.CreatePart([Field("Content-Type", MultipartType("related", relWriter.boundary))]);
    var sub := new MultipartWriter(parent.w, env.related);
    sub.SetBoundary(relWriter.boundary);
    WriteRelatedBody(sub, e, env, inline);
    PartTextIs(parent.boundary, !old(parent.started), MainPart(e, env),
               PartsText(env.related, true, RelatedParts(e, env)) + (CRLF + CloseDelimiter(env.related) + CRLF),
               old(parent.w.text));
  }

  /** The attachments of both kinds, each in its order. */
  method SplitAttachments(atts: seq<Attachment>) returns (inline: seq<Attachment>, regular: seq<Attachment>)
    ensures inline == Select(atts, true) && regular == Select(atts, false)
  {
    inline, regular := [], [];
    var i := 0;
    while i < |atts|
      invariant 0 <= i <= |atts|
      invariant inline == Select(atts[..i], true) && regular == Select(atts[..i], false)
    {
      assert atts[..i + 1][..i] == atts[..i];
      if atts[i].inline {
        inline := inline + [atts[i]];
      } else {
        regular := regular + [atts[i]];
      }
      i := i + 1;
    }
    assert atts[..|atts|] == atts;
  }

  // ---- the header block ----

  method FindMessageId(order: seq<string>) returns (found: bool)
    ensures found == HasMessageId(order)
  {
    found := false;
    var i := 0;
    while i < |order|
      invariant 0 <= i <= |order|
      invariant !found && forall j | 0 <= j < i :: !EqualFold(order[j], "Message-ID")
    {
      if EqualFold(order[i], "Message-ID") {
        return true;
      }
      i := i + 1;
    }
  }

  lemma OneMore(start: string, fields: seq<Field>, more: seq<Field>)
    ensures start + HeaderText(fields) + HeaderText(more) == start + HeaderText(fields + more)
  {
    HeaderTextConcat(fields, more);
    Assoc(start, HeaderText(fields), HeaderText(more));
  }

  /** The fields up to Reply-To. */
  method WriteAddressFields(buf: Buffer, e: Email, env: Env)
    modifies buf
    ensures buf.text == old(buf.text) + HeaderText(AddressFields(e, env))
  {
    var fromAddr := if e.from == "" then env.defaultFrom else e.from;
    var fromName := if e.fromName == "" then env.defaultFromName else e.fromName;
    var v := SanitizeHeaderValue(FormatAddress(fromName, fromAddr, env.bEncode));
    ghost var start, fields := buf.text, [Field("From", v)];
    buf.WriteField(Field("From", v));
    v := SanitizeHeaderValue(CommaJoin(e.to));
    buf.AddField(e.to != [], "To", v, start, fields);
    fields := fields + When(e.to != [], "To", v);
    v := SanitizeHeaderValue(CommaJoin(e.cc));
    buf.AddField(e.cc != [], "Cc", v, start, fields);
    fields := fields + When(e.cc != [], "Cc", v);
    v := SanitizeHeaderValue(e.replyTo);
    buf.AddField(e.replyTo != "", "Reply-To", v, start, fields);
  }

  /** The fields up to MIME-Version. */
  method WriteLeadFields(buf: Buffer, e: Email, env: Env)
    modifies buf
    ensures buf.text == old(buf.text) + HeaderText(LeadFields(e, env))
  {
    ghost var start, fields := buf.text, AddressFields(e, env);
    WriteAddressFields(buf, e, env);
    buf.AddField(true, "Date", env.date, start, fields);
    fields := fields + [Field("Date", env.date)];
    var v := EncodeHeader(e.subject, env.bEncode);
    v := SanitizeHeaderValue(v);
    buf.AddField(true, "Subject", v, start, fields);
    fields := fields + [Field("Subject", v)];
    var hasId := FindMessageId(env.order);
    buf.AddField(!hasId, "Message-ID", MessageId(env), start, fields);
    fields := fields + When(!hasId, "Message-ID", MessageId(env));
    buf.AddField(true, "MIME-Version", "1.0", start, fields);
  }

  predicate ValidTo(n: nat, order: seq<string>)
    requires n <= |order|
  {
    n == 0 || (ValidTo(n - 1, order) && ValidName(order[n - 1]))
  }

  lemma {:induction false} ValidToIff(n: nat, order: seq<string>)
    requires n <= |order|
    ensures ValidTo(n, order) <==> forall i | 0 <= i < n :: ValidName(order[i])
  {
    if n > 0 {
      ValidToIff(n - 1, order);
    }
  }

  lemma StillInvalid(i: nat, order: seq<string>)
    requires i < |order| && !ValidName(order[i])
    ensures !ValidTo(|order|, order)
  {
    ValidToIff(|order|, order);
  }

  /** The caller's own fields; an error at the first name that is not a field name. */
  method WriteCustomFields(buf: Buffer, order: seq<string>, headers: map<string, string>, bEncode: string -> string)
    returns (ok: bool)
    requires forall i | 0 <= i < |order| :: order[i] in headers
    modifies buf
    ensures ok <==> ValidTo(|order|, order)
    ensures ok ==> buf.text == old(buf.text) + HeaderText(CustomFields(order, headers, bEncode))
  {
    ok := WriteCandidates(buf, order, headers, bEncode, Candidates(order, headers, bEncode));
  }

  /** The loop over the caller's headers, given as the fields they would be. */
  method WriteCandidates(buf: Buffer, order: seq<string>, headers: map<string, string>, bEncode: string -> string,
                         ghost fs: seq<Field>) returns (ok: bool)
    requires |fs| == |order|
    requires forall i | 0 <= i < |order| ::
      order[i] in headers && fs[i] == Field(order[i], Strip(Encoded(headers[order[i]], bEncode)))
    modifies buf
    ensures ok <==> ValidTo(|order|, order)
    ensures ok ==> buf.text == old(buf.text) + HeaderText(Kept(|order|, fs, Reserved))
  {
    ghost var start := buf.text;
    var i := 0;
    while i < |order|
      invariant 0 <= i <= |order|
      invariant ValidTo(i, order)
      invariant buf.text == start + HeaderText(Kept(i, fs, Reserved))
    {
      ok := WriteCustom(buf, order[i], headers[order[i]], bEncode, start, i, fs);
      if !ok {
        StillInvalid(i, order);
        return;
      }
      i := i + 1;
    }
    ok := true;
  }

  /** The field of one key, unless its name is reserved; an error if it is not a field name. */
  method WriteCustom(buf: Buffer, k: string, value: string, bEncode: string -> string,
                     ghost start: string, ghost i: nat, ghost fs: seq<Field>) returns (ok: bool)
    requires i < |fs| && fs[i] == Field(k, Strip(Encoded(value, bEncode)))
    requires buf.text == start + HeaderText(Kept(i, fs, Reserved))
    modifies buf
    ensures ok <==> ValidName(k)
    ensures ok ==> buf.text == start + HeaderText(Kept(i + 1, fs, Reserved))
  {
    ok := ValidName(k);
    if ok {
      var v := EncodeHeader(value, bEncode);
      v := SanitizeHeaderValue(v);
      buf.AddField(!Reserved(k), k, v, start, Kept(i, fs, Reserved));
    }
  }

  method WriteHeader(buf: Buffer, e: Email, env: Env) returns (ok: bool)
    requires Enumerates(env.order, e.headers)
    modifies buf
    ensures ok <==> AllValid(e.headers)
    ensures ok ==> buf.text == old(buf.text) + HeaderText(TopFields(e, env))
  {
    WriteLeadFields(buf, e, env);
    ok := WriteCustomFields(buf, env.order, e.headers, env.bEncode);
    ValidToIff(|env.order|, env.order);
    assert forall k | k in e.headers :: k in env.order;
    OneMore(old(buf.text), LeadFields(e, env), CustomFields(env.order, e.headers, env.bEncode));
  }

  // ---- the message ----

  lemma WholeText(e: Entity, top: seq<Field>, last: seq<Field>, body: string)
    requires e.fields == top + last && Text(e) == HeaderText(e.fields) + CRLF + body
    ensures HeaderText(top) + HeaderText(last) + CRLF + body == Text(e)
  {
    HeaderTextConcat(top, last);
  }

  /** The Content-Type line of a multipart message and the empty line after the header. */
  method OpenMultipart(buf: Buffer, kind: string, b: string) returns (mw: MultipartWriter)
    modifies buf
    ensures fresh(mw) && mw.w == buf && mw.boundary == b && !mw.started
    ensures buf.text == old(buf.text) + HeaderText([Field("Content-Type", MultipartType(kind, b))]) + CRLF
  {
    mw := new MultipartWriter(buf, b);
    buf.WriteField(Field("Content-Type", MultipartType(kind, mw.boundary)));
    buf.WriteString(CRLF);
  }

  /** multipart/mixed: the body with its inline attachments, then the other attachments. */
  method WriteMixed(buf: Buffer, ghost top: seq<Field>, e: Email, env: Env,
                    inline: seq<Attachment>, regular: seq<Attachment>)
    requires buf.text == HeaderText(top)
    requires inline == Select(e.attachments, true) && regular == Select(e.attachments, false) != []
    modifies buf
    ensures buf.text == Text(Message(top, e, env))
  {
    var mixed := OpenMultipart(buf, "mixed", env.mixed);
    ghost var before := buf.text;
    if |inline| > 0 {
      WriteRelated(mixed, e, env, inline);
    } else {
      WriteAlternativeOrSingle(mixed, e, env);
    }
    WriteAttachments(mixed, regular, env);
    mixed.Close();
    ghost var close := CRLF + CloseDelimiter(env.mixed) + CRLF;
    FirstThenRest(before, env.mixed, MainPart(e, env), AttachmentLeaves(regular, env), close);
    WholeText(Message(top, e, env), top, [Field("Content-Type", MultipartType("mixed", env.mixed))],
              PartsText(env.mixed, true, MixedParts(e, env)) + close);
  }

  /** multipart/related: the body and its inline attachments. */
  method WriteTopRelated(buf: Buffer, ghost top: seq<Field>, e: Email, env: Env, inline: seq<Attachment>)
    requires buf.text == HeaderText(top)
    requires inline == Select(e.attachments, true) != [] && Select(e.attachments, false) == []
    modifies buf
    ensures buf.text == Text(Message(top, e, env))
  {
    var rel := OpenMultipart(buf, "related", env.related);
    WriteRelatedBody(rel, e, env, inline);
    WholeText(Message(top, e, env), top, [Field("Content-Type", MultipartType("related", env.related))],
              PartsText(env.related, true, RelatedParts(e, env)) + (CRLF + CloseDelimiter(env.related) + CRLF));
  }

  /** No attachments: multipart/alternative, or one base64 body. */
  method WriteBodies(buf: Buffer, ghost top: seq<Field>, e: Email, env: Env)
    requires buf.text == HeaderText(top)
    requires Select(e.attachments, true) == [] == Select(e.attachments, false)
    modifies buf
    ensures buf.text == Text(Message(top, e, env))
  {
    if e.text != [] && e.html != [] {
      var alt := OpenMultipart(buf, "alternative", env.alternative);
      ghost var before := buf.text;
      WriteAlternativeBodyParts(alt, e);
      alt.Close();
      ghost var parts := PartsText(env.alternative, true, AlternativeParts(e));
      ghost var close := CRLF + CloseDelimiter(env.alternative) + CRLF;
      Assoc(before, parts, close);
      WholeText(Message(top, e, env), top, [Field("Content-Type", MultipartType("alternative", env.alternative))],
                parts + close);
    } else if e.html != [] {
      WriteSingle(buf, top, HTML, e.html);
    } else {
      WriteSingle(buf, top, PLAIN, e.text);
    }
  }

  method WriteSingle(buf: Buffer, ghost top: seq<Field>, contentType: string, data: seq<byte>)
    requires buf.text == HeaderText(top)
    modifies buf
    ensures buf.text == Text(TopLeaf(top, contentType, data))
  {
    buf.WriteField(Field("Content-Type", contentType));
    buf.WriteField(BASE64);
    buf.WriteString(CRLF);
    var wrapped := WrapBase64(data);
    buf.WriteString(wrapped);
    buf.WriteString(CRLF);
    ghost var last := [Field("Content-Type", contentType)] + [BASE64];
    assert [Field("Content-Type", contentType), BASE64] == last;
    OneMore(HeaderText(top), [Field("Content-Type", contentType)], [BASE64]);
    Assoc(HeaderText(top) + HeaderText(last) + CRLF, wrapped, CRLF);
    WholeText(TopLeaf(top, contentType, data), top, last, wrapped + CRLF);
  }

  /** Not a field name: empty, or with a colon or a character outside the codes 33 to 126. */
  predicate BadName(k: string) {
    k == "" || exists i | 0 <= i < |k| :: k[i] == ':' || !(33 <= k[i] as int <= 126)
  }

  lemma BadNameIff(k: string)
    ensures BadName(k) <==> !ValidName(k)
  {
    forall i | 0 <= i < |k| ensures NameChar(k[i]) <==> k[i] != ':' && 33 <= k[i] as int <= 126 {
    }
  }

  lemma BadNamesIff(headers: map<string, string>)
    ensures (exists k | k in headers :: BadName(k)) <==> !AllValid(headers)
  {
    forall k | k in headers ensures BadName(k) <==> !ValidName(k) {
      BadNameIff(k);
    }
  }

  /** The text of the message, or an error if and only if some custom header name is invalid. */
  method BuildMime(e: Email, env: Env) returns (r: Option<string>)
    requires Enumerates(env.order, e.headers)
    ensures r.Some? ==> r.value == Text(Message(TopFields(e, env), e, env))
    ensures r.None? <==> exists k | k in e.headers :: BadName(k)
  {
    BadNamesIff(e.headers);
    var buf := new Buffer();
    var ok := WriteHeader(buf, e, env);
    if !ok {
      return None;
    }
    ghost var top := TopFields(e, env);
    assert buf.text == "" + HeaderText(top) == HeaderText(top);
    WriteMessage(buf, top, e, env);
    r := Some(buf.text);
  }

  method WriteMessage(buf: Buffer, ghost top: seq<Field>, e: Email, env: Env)
    requires buf.text == HeaderText(top)
    modifies buf
    ensures buf.text == Text(Message(top, e, env))
  {
    var inline, regular := SplitAttachments(e.attachments);
    if |regular| > 0 {
      WriteMixed(buf, top, e, env, inline, regular);
    } else if |inline| > 0 {
      WriteTopRelated(buf, top, e, env, inline);
    } else {
      WriteBodies(buf, top, e, env);
    }
  }
}
