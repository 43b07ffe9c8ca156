/**
 * The header block of a message: which fields it has, in which order, and that every
 * value stays on its own line whatever the caller put in it.
 */
module MimeHeaders {
  import opened Bytes
  import opened Options
  import opened MimeLines
  import opened MimeTree

  datatype Attachment =
    Attachment(filename: string, contentType: string, contentId: string, inline: bool, data: seq<byte>)

  datatype Email = Email(
    from: string, fromName: string, replyTo: string, to: seq<string>, cc: seq<string>, bcc: seq<string>,
    subject: string, text: seq<byte>, html: seq<byte>, headers: map<string, string>, attachments: seq<Attachment>)

  /**
   * What a call takes from outside: the formatted time, the host name, the random id and
   * boundaries, the RFC 2047 encoder, the order in which the header map is walked, and
   * the sender account's default address.
   */
  datatype Env = Env(
    date: string, host: string, id: string, bEncode: string -> string, order: seq<string>,
    mixed: string, related: string, alternative: string, defaultFrom: string, defaultFromName: string)

  /** Every key of the header map once. */
  predicate Enumerates(order: seq<string>, headers: map<string, string>) {
    && (forall i | 0 <= i < |order| :: order[i] in headers)
    && (forall k | k in headers :: k in order)
    && (forall i, j | 0 <= i < j < |order| :: order[i] != order[j])
  }

  /** Time, host and id hold no line break. */
  predicate CleanEnv(env: Env) {
    Clean(env.date) && Clean(env.host) && Clean(env.id)
  }

  // ---- names and values ----

  /** A printable ASCII character other than the colon (section 2.2 of RFC 5322). */
  predicate NameChar(c: char) {
    '\U{21}' <= c <= '\U{39}' || '\U{3B}' <= c <= '\U{7E}'
  }

  predicate ValidName(s: string) {
    s != "" && forall i | 0 <= i < |s| :: NameChar(s[i])
  }

  predicate Plain(c: char) {
    c <= '\U{7F}' && (c >= ' ' || c == '\t')
  }

  predicate AllPlain(s: string) {
    forall i | 0 <= i < |s| :: Plain(s[i])
  }

  function Encoded(s: string, bEncode: string -> string): string {
    if AllPlain(s) then s else bEncode(s)
  }

  /** Text of tabs and the character codes 32 to 127 is left alone, anything else is encoded. */
  method EncodeHeader(s: string, bEncode: string -> string) returns (r: string)
    ensures r == Encoded(s, bEncode)
    ensures (forall i | 0 <= i < |s| :: s[i] == '\t' || 32 <= s[i] as int <= 127) ==> r == s
    ensures (exists i | 0 <= i < |s| :: s[i] != '\t' && !(32 <= s[i] as int <= 127)) ==> r == bEncode(s)
  {
    var isAscii := true;
    var i := 0;
    while i < |s|
      invariant 0 <= i <= |s|
      invariant isAscii
      invariant forall j | 0 <= j < i :: Plain(s[j])
    {
      if s[i] > '\U{7F}' || (s[i] < ' ' && s[i] != '\t') {
        isAscii := false;
        break;
      }
      i := i + 1;
    }
    if isAscii {
      return s;
    }
    r := bEncode(s);
  }

  lemma {:induction false} StripSnoc(s: string, i: nat)
    requires i < |s|
    ensures Strip(s[..i + 1]) == Strip(s[..i]) + if s[i] == '\r' || s[i] == '\n' then "" else [s[i]]
  {
    assert s[..i + 1] == s[..i] + [s[i]];
    StripConcat(s[..i], [s[i]]);
    assert [s[i]][1..] == "";
  }

  /** Stripping leaves no line break, and leaves alone what has none. */
  lemma StripLaw(s: string)
    ensures Clean(Strip(s))
    ensures Clean(s) <==> Strip(s) == s
  {
    StripShort(s);
    if Clean(s) {
      StripClean(s);
    }
  }

  lemma {:induction false} StripShort(s: string)
    ensures Clean(Strip(s))
  {
    if s != "" {
      StripShort(s[1..]);
    }
  }

  /** Stripping takes out every CR and LF and nothing else, wherever it stands. */
  lemma StripExact(s: string, c: char, t: string)
    ensures Strip(s + [c] + t) == Strip(s) + (if c == '\r' || c == '\n' then "" else [c]) + Strip(t)
    ensures Strip("") == ""
  {
    StripConcat(s + [c], t);
    StripConcat(s, [c]);
    assert [c][1..] == "";
  }

  method SanitizeHeaderValue(v: string) returns (r: string)
    ensures r == Strip(v)
  {
    if forall i | 0 <= i < |v| :: v[i] != '\r' && v[i] != '\n' {
      StripClean(v);
      return v;
    }
    r := "";
    var i := 0;
    while i < |v|
      invariant 0 <= i <= |v|
      invariant r == Strip(v[..i])
    {
      StripSnoc(v, i);
      if v[i] != '\r' && v[i] != '\n' {
        r := r + [v[i]];
      }
      i := i + 1;
    }
    assert v[..|v|] == v;
  }

  function FormatAddress(name: string, address: string, bEncode: string -> string): string {
    if name == "" then address else Encoded(name, bEncode) + " <" + address + ">"
  }

  function CommaJoin(list: seq<string>): string {
    if list == [] then "" else if |list| == 1 then list[0] else list[0] + ", " + CommaJoin(list[1..])
  }

  // ---- the fields ----

  function Sender(e: Email, env: Env): string {
    FormatAddress(if e.fromName == "" then env.defaultFromName else e.fromName,
                  if e.from == "" then env.defaultFrom else e.from, env.bEncode)
  }

  predicate HasMessageId(keys: seq<string>) {
    exists i | 0 <= i < |keys| :: EqualFold(keys[i], "Message-ID")
  }

  function MessageId(env: Env): string {
    "<" + env.id + "@" + (if env.host == "" then "mailbaby.local" else env.host) + ">"
  }

  function When(c: bool, name: string, value: string): seq<Field> {
    if c then [Field(name, value)] else []
  }

  function AddressFields(e: Email, env: Env): seq<Field> {
    [Field("From", Strip(Sender(e, env)))]
    + When(e.to != [], "To", Strip(CommaJoin(e.to)))
    + When(e.cc != [], "Cc", Strip(CommaJoin(e.cc)))
    + When(e.replyTo != "", "Reply-To", Strip(e.replyTo))
  }

  function LeadFields(e: Email, env: Env): seq<Field> {
    AddressFields(e, env)
    + [Field("Date", env.date)]
    + [Field("Subject", Strip(Encoded(e.subject, env.bEncode)))]
    + When(!HasMessageId(env.order), "Message-ID", MessageId(env))
    + [Field("MIME-Version", "1.0")]
  }

  /** The names a custom header may not take. */
  const RESERVED :=
    ["From", "To", "Cc", "Bcc", "Subject", "Date", "Reply-To", "MIME-Version", "Content-Type"]

  predicate OneOf(k: string, names: seq<string>) {
    names != [] && (EqualFold(k, names[0]) || OneOf(k, names[1..]))
  }

  lemma {:induction false} OneOfIff(k: string, names: seq<string>)
    ensures OneOf(k, names) <==> exists i | 0 <= i < |names| :: EqualFold(k, names[i])
  {
    if names != [] {
      OneOfIff(k, names[1..]);
      if EqualFold(k, names[0]) {
      } else if i :| 0 <= i < |names| && EqualFold(k, names[i]) {
        assert names[1..][i - 1] == names[i];
      }
    }
  }

  predicate Reserved(k: string) {
    OneOf(k, RESERVED)
  }

  /** The caller's headers as fields, in the order walked. */
  function Candidates(order: seq<string>, headers: map<string, string>, bEncode: string -> string): (fs: seq<Field>)
    requires forall i | 0 <= i < |order| :: order[i] in headers
    ensures |fs| == |order|
    ensures forall i | 0 <= i < |order| :: fs[i] == Field(order[i], Strip(Encoded(headers[order[i]], bEncode)))
  {
    seq(|order|, i requires 0 <= i < |order| => Field(order[i], Strip(Encoded(headers[order[i]], bEncode))))
  }

  /** Of the first `n` fields, those whose name is not to be skipped. */
  function Kept(n: nat, fs: seq<Field>, skip: string -> bool): seq<Field>
    requires n <= |fs|
  {
    if n == 0 then [] else Kept(n - 1, fs, skip) + When(!skip(fs[n - 1].name), fs[n - 1].name, fs[n - 1].value)
  }

  function CustomFields(order: seq<string>, headers: map<string, string>, bEncode: string -> string): seq<Field>
    requires forall i | 0 <= i < |order| :: order[i] in headers
  {
    Kept(|order|, Candidates(order, headers, bEncode), Reserved)
  }

  function TopFields(e: Email, env: Env): seq<Field>
    requires Enumerates(env.order, e.headers)
  {
    LeadFields(e, env) + CustomFields(env.order, e.headers, env.bEncode)
  }

  predicate AllValid(headers: map<string, string>) {
    forall k | k in headers :: ValidName(k)
  }

  // ---- laws of the header block ----

  lemma {:induction false} KeptExact(n: nat, fs: seq<Field>, skip: string -> bool, f: Field)
    requires n <= |fs|
    ensures f in Kept(n, fs, skip) <==> f in fs[..n] && !skip(f.name)
  {
    if n > 0 {
      KeptExact(n - 1, fs, skip, f);
      assert fs[..n] == fs[..n - 1] + [fs[n - 1]];
    }
  }

  /** A custom field is written if and only if its name is none of the nine, in any case, with its own value. */
  lemma CustomExact(order: seq<string>, headers: map<string, string>, bEncode: string -> string, f: Field)
    requires Enumerates(order, headers)
    ensures f in CustomFields(order, headers, bEncode) <==>
      && f.name in headers && f.value == Strip(Encoded(headers[f.name], bEncode))
      && forall r | r in ["From", "To", "Cc", "Bcc", "Subject", "Date", "Reply-To", "MIME-Version", "Content-Type"]
           :: !EqualFold(f.name, r)
  {
    OneOfIff(f.name, RESERVED);
    var fs := Candidates(order, headers, bEncode);
    KeptExact(|order|, fs, Reserved, f);
    assert fs[..|order|] == fs;
    if f.name in headers {
      var i :| 0 <= i < |order| && order[i] == f.name;
      assert fs[i] in fs;
    }
  }

  lemma {:induction false} KeptSkips(n: nat, fs: seq<Field>, skip: string -> bool, name: string)
    requires n <= |fs|
    requires forall i | 0 <= i < n :: EqualFold(fs[i].name, name) ==> skip(fs[i].name)
    ensures Named(Kept(n, fs, skip), name) == []
  {
    if n > 0 {
      KeptSkips(n - 1, fs, skip, name);
      NamedMore(Kept(n - 1, fs, skip), !skip(fs[n - 1].name), fs[n - 1].name, fs[n - 1].value, name);
    }
  }

  lemma NamedOne(k: string, value: string, name: string)
    ensures Named([Field(k, value)], name) == if EqualFold(k, name) then [value] else []
  {
    assert [Field(k, value)][1..] == [];
  }

  function Pick(c: bool, k: string, value: string, name: string): seq<string> {
    if c && EqualFold(k, name) then [value] else []
  }

  lemma NamedMore(fields: seq<Field>, c: bool, k: string, value: string, name: string)
    ensures Named(fields + When(c, k, value), name) == Named(fields, name) + Pick(c, k, value, name)
  {
    NamedConcat(fields, When(c, k, value), name);
    NamedOne(k, value, name);
  }

  lemma NamedLead(e: Email, env: Env, name: string)
    ensures Named(LeadFields(e, env), name) ==
      Pick(true, "From", Strip(Sender(e, env)), name)
      + Pick(e.to != [], "To", Strip(CommaJoin(e.to)), name)
      + Pick(e.cc != [], "Cc", Strip(CommaJoin(e.cc)), name)
      + Pick(e.replyTo != "", "Reply-To", Strip(e.replyTo), name)
      + Pick(true, "Date", env.date, name)
      + Pick(true, "Subject", Strip(Encoded(e.subject, env.bEncode)), name)
      + Pick(!HasMessageId(env.order), "Message-ID", MessageId(env), name)
      + Pick(true, "MIME-Version", "1.0", name)
  {
    var f1 := [Field("From", Strip(Sender(e, env)))];
    NamedOne("From", Strip(Sender(e, env)), name);
    NamedMore(f1, e.to != [], "To", Strip(CommaJoin(e.to)), name);
    var f2 := f1 + When(e.to != [], "To", Strip(CommaJoin(e.to)));
    NamedMore(f2, e.cc != [], "Cc", Strip(CommaJoin(e.cc)), name);
    var f3 := f2 + When(e.cc != [], "Cc", Strip(CommaJoin(e.cc)));
    NamedMore(f3, e.replyTo != "", "Reply-To", Strip(e.replyTo), name);
    var f4 := f3 + When(e.replyTo != "", "Reply-To", Strip(e.replyTo));
    NamedMore(f4, true, "Date", env.date, name);
    var f5 := f4 + When(true, "Date", env.date);
    NamedMore(f5, true, "Subject", Strip(Encoded(e.subject, env.bEncode)), name);
    var f6 := f5 + When(true, "Subject", Strip(Encoded(e.subject, env.bEncode)));
    NamedMore(f6, !HasMessageId(env.order), "Message-ID", MessageId(env), name);
    var f7 := f6 + When(!HasMessageId(env.order), "Message-ID", MessageId(env));
    NamedMore(f7, true, "MIME-Version", "1.0", name);
  }

  lemma ReservedLaw(e: Email, env: Env, name: string)
    requires Enumerates(env.order, e.headers)
    requires name in RESERVED
    ensures Named(TopFields(e, env), name) == Named(LeadFields(e, env), name)
  {
    var fs := Candidates(env.order, e.headers, env.bEncode);
    forall i | 0 <= i < |fs| && EqualFold(fs[i].name, name) ensures Reserved(fs[i].name) {
      OneOfIff(fs[i].name, RESERVED);
    }
    KeptSkips(|fs|, fs, Reserved, name);
    NamedConcat(LeadFields(e, env), CustomFields(env.order, e.headers, env.bEncode), name);
  }

  lemma ApartNames(a: string, b: string)
    requires a != "" && b != "" && Lower(a[0]) != Lower(b[0])
    ensures !EqualFold(a, b)
  {
  }

  lemma FieldLaw(e: Email, env: Env, name: string)
    requires Enumerates(env.order, e.headers)
    requires name in RESERVED
    ensures Named(TopFields(e, env), name) ==
      Pick(true, "From", Strip(Sender(e, env)), name)
      + Pick(e.to != [], "To", Strip(CommaJoin(e.to)), name)
      + Pick(e.cc != [], "Cc", Strip(CommaJoin(e.cc)), name)
      + Pick(e.replyTo != "", "Reply-To", Strip(e.replyTo), name)
      + Pick(true, "Date", env.date, name)
      + Pick(true, "Subject", Strip(Encoded(e.subject, env.bEncode)), name)
      + Pick(!HasMessageId(env.order), "Message-ID", MessageId(env), name)
      + Pick(true, "MIME-Version", "1.0", name)
  {
    ReservedLaw(e, env, name);
    NamedLead(e, env, name);
  }

  /** Whatever headers the caller sets, one From: that of the message itself. */
  lemma FromField(e: Email, env: Env)
    requires Enumerates(env.order, e.headers)
    ensures Named(TopFields(e, env), "From") == [Strip(Sender(e, env))]
  {
    ApartNames("Date", "From");
    FieldLaw(e, env, "From");
  }

  lemma DateField(e: Email, env: Env)
    requires Enumerates(env.order, e.headers)
    ensures Named(TopFields(e, env), "Date") == [env.date]
  {
    ApartNames("From", "Date");
    FieldLaw(e, env, "Date");
  }

  lemma SubjectField(e: Email, env: Env)
    requires Enumerates(env.order, e.headers)
    ensures Named(TopFields(e, env), "Subject") == [Strip(Encoded(e.subject, env.bEncode))]
  {
    FieldLaw(e, env, "Subject");
  }

  lemma VersionField(e: Email, env: Env)
    requires Enumerates(env.order, e.headers)
    ensures Named(TopFields(e, env), "MIME-Version") == ["1.0"]
  {
    FieldLaw(e, env, "MIME-Version");
  }

  lemma NoBcc(e: Email, env: Env)
    requires Enumerates(env.order, e.headers)
    ensures Named(TopFields(e, env), "Bcc") == []
  {
    FieldLaw(e, env, "Bcc");
  }

  lemma NoContentType(e: Email, env: Env)
    requires Enumerates(env.order, e.headers)
    ensures Named(TopFields(e, env), "Content-Type") == []
  {
    ApartNames("MIME-Version", "Content-Type");
    FieldLaw(e, env, "Content-Type");
  }

  lemma ToField(e: Email, env: Env)
    requires Enumerates(env.order, e.headers)
    ensures Named(TopFields(e, env), "To") == if e.to == [] then [] else [Strip(CommaJoin(e.to))]
  {
    ApartNames("Cc", "To");
    FieldLaw(e, env, "To");
  }

  lemma CcField(e: Email, env: Env)
    requires Enumerates(env.order, e.headers)
    ensures Named(TopFields(e, env), "Cc") == if e.cc == [] then [] else [Strip(CommaJoin(e.cc))]
  {
    ApartNames("To", "Cc");
    FieldLaw(e, env, "Cc");
  }

  lemma ReplyField(e: Email, env: Env)
    requires Enumerates(env.order, e.headers)
    ensures Named(TopFields(e, env), "Reply-To") == if e.replyTo == "" then [] else [Strip(e.replyTo)]
  {
    FieldLaw(e, env, "Reply-To");
  }

  /** A name whose length is that of no reserved name. */
  lemma Unreserved(k: string, name: string)
    requires EqualFold(k, name) && (name == "Message-ID" || name == "Content-Transfer-Encoding")
    ensures !Reserved(k)
  {
    OneOfIff(k, RESERVED);
    assert forall i | 0 <= i < |RESERVED| :: |RESERVED[i]| != |k|;
  }

  /** The position of the first key with this name, or the length. */
  function FirstKey(order: seq<string>, name: string): (n: nat)
    ensures n <= |order| && (n < |order| ==> EqualFold(order[n], name))
    ensures forall i | 0 <= i < n :: !EqualFold(order[i], name)
  {
    if order == [] || EqualFold(order[0], name) then 0 else 1 + FirstKey(order[1..], name)
  }

  lemma {:induction false} KeptFirst(n: nat, i: nat, fs: seq<Field>, skip: string -> bool, name: string)
    requires i < n <= |fs| && EqualFold(fs[i].name, name) && !skip(fs[i].name)
    requires forall j | 0 <= j < i :: !EqualFold(fs[j].name, name)
    ensures Named(Kept(n, fs, skip), name) != [] && Named(Kept(n, fs, skip), name)[0] == fs[i].value
  {
    NamedMore(Kept(n - 1, fs, skip), !skip(fs[n - 1].name), fs[n - 1].name, fs[n - 1].value, name);
    if i < n - 1 {
      KeptFirst(n - 1, i, fs, skip, name);
    } else {
      KeptSkips(n - 1, fs, skip, name);
    }
  }

  lemma NoEncodingInLead(e: Email, env: Env)
    ensures Named(LeadFields(e, env), "Content-Transfer-Encoding") == []
  {
    NamedLead(e, env, "Content-Transfer-Encoding");
  }

  /**
   * Content-Transfer-Encoding is not reserved: the first one the caller sets, in the order
   * walked, comes before the one of the body.
   */
  lemma EncodingField(e: Email, env: Env)
    requires Enumerates(env.order, e.headers)
    ensures var n := FirstKey(env.order, "Content-Transfer-Encoding");
      Lookup(TopFields(e, env), "Content-Transfer-Encoding") ==
      if n == |env.order| then None else Some(Strip(Encoded(e.headers[env.order[n]], env.bEncode)))
  {
    NoEncodingInLead(e, env);
    CustomEncoding(env.order, e.headers, env.bEncode);
    NamedConcat(LeadFields(e, env), CustomFields(env.order, e.headers, env.bEncode), "Content-Transfer-Encoding");
  }

  lemma CustomEncoding(order: seq<string>, headers: map<string, string>, bEncode: string -> string)
    requires forall i | 0 <= i < |order| :: order[i] in headers
    ensures var n := FirstKey(order, "Content-Transfer-Encoding");
      var values := Named(CustomFields(order, headers, bEncode), "Content-Transfer-Encoding");
      if n == |order| then values == []
      else values != [] && values[0] == Strip(Encoded(headers[order[n]], bEncode))
  {
    var fs := Candidates(order, headers, bEncode);
    var n := FirstKey(order, "Content-Transfer-Encoding");
    if n < |order| {
      Unreserved(order[n], "Content-Transfer-Encoding");
      KeptFirst(|order|, n, fs, Reserved, "Content-Transfer-Encoding");
    } else {
      KeptSkips(|order|, fs, Reserved, "Content-Transfer-Encoding");
    }
  }

  lemma NoEncodingIff(e: Email, env: Env)
    requires Enumerates(env.order, e.headers)
    ensures Named(TopFields(e, env), "Content-Transfer-Encoding") == []
      <==> forall k | k in e.headers :: !EqualFold(k, "Content-Transfer-Encoding")
  {
    EncodingField(e, env);
    var n := FirstKey(env.order, "Content-Transfer-Encoding");
    if n < |env.order| {
      assert env.order[n] in e.headers;
    } else {
      forall k | k in e.headers ensures !EqualFold(k, "Content-Transfer-Encoding") {
        assert k in env.order;
      }
    }
  }

  /**
   * Whatever headers the caller sets: one From, Date, Subject and MIME-Version, each with
   * the value of the message itself; To, Cc and Reply-To exactly when the message has
   * them; no Bcc, and no Content-Type but the one of the body that follows. The same is
   * true of Content-Transfer-Encoding if and only if the caller sets none.
   */
  lemma StandardFields(e: Email, env: Env)
    requires Enumerates(env.order, e.headers)
    ensures var values := name => Named(TopFields(e, env), name);
      var (name, address) := (if e.fromName != "" then e.fromName else env.defaultFromName,
                              if e.from != "" then e.from else env.defaultFrom);
      && values("From") ==
         [Strip(if name == "" then address else Encoded(name, env.bEncode) + " <" + address + ">")]
      && values("Date") == [env.date]
      && values("Subject") == [Strip(Encoded(e.subject, env.bEncode))]
      && values("MIME-Version") == ["1.0"]
      && values("To") == (if e.to == [] then [] else [Strip(CommaJoin(e.to))])
      && values("Cc") == (if e.cc == [] then [] else [Strip(CommaJoin(e.cc))])
      && values("Reply-To") == (if e.replyTo == "" then [] else [Strip(e.replyTo)])
      && values("Bcc") == [] && values("Content-Type") == []
      && (values("Content-Transfer-Encoding") == [] <==>
          forall k | k in e.headers :: !EqualFold(k, "Content-Transfer-Encoding"))
  {
    FromField(e, env);
    DateField(e, env);
    SubjectField(e, env);
    VersionField(e, env);
    ToField(e, env);
    CcField(e, env);
    ReplyField(e, env);
    NoBcc(e, env);
    NoContentType(e, env);
    NoEncodingIff(e, env);
  }

  lemma {:induction false} KeptFinds(n: nat, i: nat, fs: seq<Field>, skip: string -> bool, name: string)
    requires i < n <= |fs| && EqualFold(fs[i].name, name) && !skip(fs[i].name)
    ensures Named(Kept(n, fs, skip), name) != []
  {
    NamedMore(Kept(n - 1, fs, skip), !skip(fs[n - 1].name), fs[n - 1].name, fs[n - 1].value, name);
    if i < n - 1 {
      KeptFinds(n - 1, i, fs, skip, name);
    }
  }

  lemma CustomIds(order: seq<string>, headers: map<string, string>, bEncode: string -> string)
    requires forall i | 0 <= i < |order| :: order[i] in headers
    ensures Named(CustomFields(order, headers, bEncode), "Message-ID") != [] <==> HasMessageId(order)
  {
    var fs := Candidates(order, headers, bEncode);
    if HasMessageId(order) {
      var i :| 0 <= i < |order| && EqualFold(order[i], "Message-ID");
      Unreserved(order[i], "Message-ID");
      KeptFinds(|order|, i, fs, Reserved, "Message-ID");
    } else {
      assert forall i | 0 <= i < |order| :: !EqualFold(order[i], "Message-ID");
      KeptSkips(|order|, fs, Reserved, "Message-ID");
    }
  }

  /** There is always a Message-ID: the caller's own, or else exactly one generated. */
  lemma MessageIdLaw(e: Email, env: Env)
    requires Enumerates(env.order, e.headers)
    ensures var ids := Named(TopFields(e, env), "Message-ID");
      && ids != []
      && (HasMessageId(env.order) ==> ids == Named(CustomFields(env.order, e.headers, env.bEncode), "Message-ID"))
      && (!HasMessageId(env.order) ==>
          ids == ["<" + env.id + "@" + (if env.host == "" then "mailbaby.local" else env.host) + ">"])
  {
    NamedLead(e, env, "Message-ID");
    CustomIds(env.order, e.headers, env.bEncode);
    NamedConcat(LeadFields(e, env), CustomFields(env.order, e.headers, env.bEncode), "Message-ID");
  }

  /** Proper field names, and no line break of either kind in a value. */
  predicate CleanFields(fields: seq<Field>) {
    FieldsOk(fields, true) && ValuesClean(fields)
  }

  /** No value, however it was set, reaches past its own line. */
  lemma TopFieldsOk(e: Email, env: Env)
    requires Enumerates(env.order, e.headers) && AllValid(e.headers) && CleanEnv(env)
    ensures CleanFields(TopFields(e, env))
  {
    LeadFieldsOk(e, env);
    CustomFieldsOk(env.order, e.headers, env.bEncode);
  }

  lemma OneMoreOk(fields: seq<Field>, c: bool, name: string, value: string)
    requires CleanFields(fields) && ValidName(name) && Clean(value)
    ensures CleanFields(fields + When(c, name, value))
  {
    assert forall i | 0 <= i < |name| :: NameChar(name[i]);
    assert FieldOk(Field(name, value));
  }

  lemma LeadNames()
    ensures ValidName("From") && ValidName("To") && ValidName("Cc") && ValidName("Reply-To")
    ensures ValidName("Date") && ValidName("Subject") && ValidName("Message-ID") && ValidName("MIME-Version")
  {
  }

  lemma LeadFieldsOk(e: Email, env: Env)
    requires CleanEnv(env)
    ensures CleanFields(LeadFields(e, env))
  {
    LeadNames();
    var f1 := When(true, "From", Strip(Sender(e, env)));
    StripLaw(Sender(e, env));
    OneMoreOk([], true, "From", Strip(Sender(e, env)));
    assert [] + f1 == f1;
    StripLaw(CommaJoin(e.to));
    OneMoreOk(f1, e.to != [], "To", Strip(CommaJoin(e.to)));
    var f2 := f1 + When(e.to != [], "To", Strip(CommaJoin(e.to)));
    StripLaw(CommaJoin(e.cc));
    OneMoreOk(f2, e.cc != [], "Cc", Strip(CommaJoin(e.cc)));
    var f3 := f2 + When(e.cc != [], "Cc", Strip(CommaJoin(e.cc)));
    StripLaw(e.replyTo);
    OneMoreOk(f3, e.replyTo != "", "Reply-To", Strip(e.replyTo));
    var f4 := f3 + When(e.replyTo != "", "Reply-To", Strip(e.replyTo));
    OneMoreOk(f4, true, "Date", env.date);
    var f5 := f4 + When(true, "Date", env.date);
    StripLaw(Encoded(e.subject, env.bEncode));
    OneMoreOk(f5, true, "Subject", Strip(Encoded(e.subject, env.bEncode)));
    var f6 := f5 + When(true, "Subject", Strip(Encoded(e.subject, env.bEncode)));
    CleanId(env);
    OneMoreOk(f6, !HasMessageId(env.order), "Message-ID", MessageId(env));
    var f7 := f6 + When(!HasMessageId(env.order), "Message-ID", MessageId(env));
    OneMoreOk(f7, true, "MIME-Version", "1.0");
  }

  lemma CleanConcat(a: string, b: string)
    requires Clean(a) && Clean(b)
    ensures Clean(a + b)
  {
  }

  lemma CleanId(env: Env)
    requires CleanEnv(env)
    ensures Clean(MessageId(env))
  {
    var host := if env.host == "" then "mailbaby.local" else env.host;
    CleanConcat("<", env.id);
    CleanConcat("<" + env.id, "@");
    CleanConcat("<" + env.id + "@", host);
    CleanConcat("<" + env.id + "@" + host, ">");
  }

  lemma {:induction false} KeptOk(n: nat, fs: seq<Field>, skip: string -> bool)
    requires n <= |fs| && forall i | 0 <= i < |fs| :: ValidName(fs[i].name) && Clean(fs[i].value)
    ensures CleanFields(Kept(n, fs, skip))
  {
    if n > 0 {
      KeptOk(n - 1, fs, skip);
      OneMoreOk(Kept(n - 1, fs, skip), !skip(fs[n - 1].name), fs[n - 1].name, fs[n - 1].value);
    }
  }

  lemma CustomFieldsOk(order: seq<string>, headers: map<string, string>, bEncode: string -> string)
    requires forall i | 0 <= i < |order| :: order[i] in headers
    requires AllValid(headers)
    ensures CleanFields(CustomFields(order, headers, bEncode))
  {
    var fs := Candidates(order, headers, bEncode);
    forall i | 0 <= i < |fs| ensures ValidName(fs[i].name) && Clean(fs[i].value) {
      StripLaw(Encoded(headers[order[i]], bEncode));
    }
    KeptOk(|order|, fs, Reserved);
  }
}
