/** The address lists of a header: joined with commas, and split again. */
module MimeAddresses {
  import opened MimeLines
  import opened MimeTree
  import opened MimeHeaders

  /** The text before the first ", ", and from there on the rest. */
  function SplitComma(s: string): (list: seq<string>)
    ensures list != []
  {
    if s == "" then [""]
    else if ", " <= s then [""] + SplitComma(s[2..])
    else
      var rest := SplitComma(s[1..]);
      [[s[0]] + rest[0]] + rest[1..]
  }

  /** No comma is followed by a space. */
  predicate OneAddress(s: string) {
    forall i | 0 <= i < |s| - 1 :: s[i] == ',' ==> s[i + 1] != ' '
  }

  lemma {:induction false} SplitOne(s: string, rest: string)
    requires OneAddress(s)
    ensures SplitComma(s) == [s]
    ensures SplitComma(s + ", " + rest) == [s] + SplitComma(rest)
  {
    var t := s + ", " + rest;
    if s == "" {
      assert t[2..] == rest;
    } else {
      SplitOne(s[1..], rest);
      assert t[1..] == s[1..] + ", " + rest;
      assert t[0] == s[0] && t[1] == if |s| > 1 then s[1] else ',';
      assert s == [s[0]] + s[1..];
    }
  }

  lemma {:induction false} SplitParts(s: string)
    ensures forall i | 0 <= i < |SplitComma(s)| :: OneAddress(SplitComma(s)[i])
    ensures s != "" && SplitComma(s)[0] != "" ==> SplitComma(s)[0][0] == s[0]
  {
    if s == "" {
    } else if ", " <= s {
      SplitParts(s[2..]);
    } else {
      SplitParts(s[1..]);
      var rest := SplitComma(s[1..]);
      assert SplitComma(s)[0] == [s[0]] + rest[0];
      assert OneAddress([s[0]] + rest[0]);
    }
  }

  lemma {:induction false} SplitJoined(list: seq<string>)
    requires list != [] && forall i | 0 <= i < |list| :: OneAddress(list[i])
    ensures SplitComma(CommaJoin(list)) == list
  {
    if |list| == 1 {
      SplitOne(list[0], "");
    } else {
      SplitJoined(list[1..]);
      SplitOne(list[0], CommaJoin(list[1..]));
      assert list == [list[0]] + list[1..];
    }
  }

  /** A joined list splits into the list again if and only if no element holds a comma and a space. */
  lemma CommaJoinIff(list: seq<string>)
    requires list != []
    ensures SplitComma(CommaJoin(list)) == list <==> forall i | 0 <= i < |list| :: OneAddress(list[i])
  {
    if forall i | 0 <= i < |list| :: OneAddress(list[i]) {
      SplitJoined(list);
    }
    SplitParts(CommaJoin(list));
  }

  function Stripped(list: seq<string>): seq<string> {
    seq(|list|, i requires 0 <= i < |list| => Strip(list[i]))
  }

  lemma {:induction false} StripJoined(list: seq<string>)
    ensures Strip(CommaJoin(list)) == CommaJoin(Stripped(list))
  {
    if |list| > 1 {
      StripJoined(list[1..]);
      StripConcat(list[0] + ", ", CommaJoin(list[1..]));
      StripConcat(list[0], ", ");
      StripClean(", ");
      assert Stripped(list)[1..] == Stripped(list[1..]);
    }
  }

  /**
   * The To and Cc lines, split at ", ", are the recipients in order, each without its line
   * breaks, if and only if none of them then holds a comma followed by a space.
   */
  lemma RecipientsIff(e: Email, env: Env)
    requires Enumerates(env.order, e.headers)
    ensures e.to != [] ==>
      var to := Named(TopFields(e, env), "To");
      |to| == 1 && (SplitComma(to[0]) == Stripped(e.to) <==> forall i | 0 <= i < |e.to| :: OneAddress(Strip(e.to[i])))
    ensures e.cc != [] ==>
      var cc := Named(TopFields(e, env), "Cc");
      |cc| == 1 && (SplitComma(cc[0]) == Stripped(e.cc) <==> forall i | 0 <= i < |e.cc| :: OneAddress(Strip(e.cc[i])))
  {
    if e.to != [] {
      ToField(e, env);
      StripJoined(e.to);
      CommaJoinIff(Stripped(e.to));
      assert forall i | 0 <= i < |e.to| :: Stripped(e.to)[i] == Strip(e.to[i]);
    }
    if e.cc != [] {
      CcField(e, env);
      StripJoined(e.cc);
      CommaJoinIff(Stripped(e.cc));
      assert forall i | 0 <= i < |e.cc| :: Stripped(e.cc)[i] == Strip(e.cc[i]);
    }
  }
}
