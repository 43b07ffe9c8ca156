/** Base64 (section 4 of RFC 4648): an encoder, and a decoder that stands on its own. */
module Base64 {
  import opened Bytes
  import opened Options

  /** The character for six bits: the standard's alphabet, by character code. */
  function Symbol(v: nat): (c: char)
    requires v < 64
    ensures c as int == if v < 26 then 65 + v else if v < 52 then 71 + v else if v < 62 then v - 4
                        else if v == 62 then 43 else 47
  {
    if v < 26 then 'A' + v as char
    else if v < 52 then 'a' + (v - 26) as char
    else if v < 62 then '0' + (v - 52) as char
    else if v == 62 then '+'
    else '/'
  }

  /** The six bits of a character, -1 for a character outside the alphabet. */
  function Value(c: char): (v: int)
    ensures -1 <= v < 64
  {
    if 'A' <= c <= 'Z' then c as int - 'A' as int
    else if 'a' <= c <= 'z' then c as int - 'a' as int + 26
    else if '0' <= c <= '9' then c as int - '0' as int + 52
    else if c == '+' then 62
    else if c == '/' then 63
    else -1
  }

  lemma SymbolValue(v: nat)
    requires v < 64
    ensures Value(Symbol(v)) == v
  {
  }

  predicate InAlphabet(c: char) {
    c == '=' || Value(c) >= 0
  }

  /** The four characters for the first one, two or three bytes. */
  function Quad(data: seq<byte>): (t: string)
    requires data != []
    ensures |t| == 4
  {
    var a := data[0] as nat;
    var b := if |data| > 1 then data[1] as nat else 0;
    var c := if |data| > 2 then data[2] as nat else 0;
    [Symbol(a / 4), Symbol(a % 4 * 16 + b / 16),
     if |data| > 1 then Symbol(b % 16 * 4 + c / 64) else '=',
     if |data| > 2 then Symbol(c % 64) else '=']
  }

  function Encode(data: seq<byte>): string {
    if data == [] then ""
    else if |data| <= 3 then Quad(data)
    else Quad(data) + Encode(data[3..])
  }

  /** Four characters to one, two or three bytes; padding is allowed in the last group only. */
  function Group(p: char, q: char, r: char, s: char, last: bool): Option<seq<byte>> {
    if Value(p) < 0 || Value(q) < 0 then None
    else if r == '=' then
      if s == '=' && last then Some([First(p, q)]) else None
    else if Value(r) < 0 then None
    else if s == '=' then
      if last then Some([First(p, q), Second(q, r)]) else None
    else if Value(s) < 0 then None
    else Some([First(p, q), Second(q, r), Third(r, s)])
  }

  function First(p: char, q: char): byte
    requires Value(p) >= 0 && Value(q) >= 0
  {
    (Value(p) * 4 + Value(q) / 16) as byte
  }

  function Second(q: char, r: char): byte
    requires Value(q) >= 0 && Value(r) >= 0
  {
    (Value(q) % 16 * 16 + Value(r) / 4) as byte
  }

  function Third(r: char, s: char): byte
    requires Value(r) >= 0 && Value(s) >= 0
  {
    (Value(r) % 4 * 64 + Value(s)) as byte
  }

  function Decode(text: string): Option<seq<byte>> {
    if text == "" then Some([])
    else if |text| < 4 then None
    else
      match Group(text[0], text[1], text[2], text[3], |text| == 4)
      case None => None
      case Some(bytes) =>
        match Decode(text[4..])
        case None => None
        case Some(rest) => Some(bytes + rest)
  }

  lemma ThreeBytes(a: nat, b: nat, c: nat)
    requires a < 256 && b < 256 && c < 256
    ensures var (p, q, r, s) := (a / 4, a % 4 * 16 + b / 16, b % 16 * 4 + c / 64, c % 64);
      && p < 64 && q < 64 && r < 64 && s < 64
      && p * 4 + q / 16 == a
      && q % 16 * 16 + r / 4 == b
      && r % 4 * 64 + s == c
  {
  }

  /** The three bytes back from their four symbols. */
  lemma Unpack(a: nat, b: nat, c: nat)
    requires a < 256 && b < 256 && c < 256
    ensures var (p, q) := (Symbol(a / 4), Symbol(a % 4 * 16 + b / 16));
      Value(p) >= 0 && Value(q) >= 0 && First(p, q) as nat == a
    ensures var (q, r) := (Symbol(a % 4 * 16 + b / 16), Symbol(b % 16 * 4 + c / 64));
      Value(q) >= 0 && Value(r) >= 0 && Second(q, r) as nat == b
    ensures var (r, s) := (Symbol(b % 16 * 4 + c / 64), Symbol(c % 64));
      Value(r) >= 0 && Value(s) >= 0 && Third(r, s) as nat == c
  {
    ThreeBytes(a, b, c);
    SymbolValue(a / 4);
    SymbolValue(a % 4 * 16 + b / 16);
    SymbolValue(b % 16 * 4 + c / 64);
    SymbolValue(c % 64);
  }

  lemma NotPadding(v: nat)
    requires v < 64
    ensures Symbol(v) != '='
  {
  }

  lemma GroupThree(a: byte, b: byte, c: byte, last: bool)
    ensures Group(Symbol(a as nat / 4), Symbol(a as nat % 4 * 16 + b as nat / 16),
                  Symbol(b as nat % 16 * 4 + c as nat / 64), Symbol(c as nat % 64), last) == Some([a, b, c])
  {
    Unpack(a as nat, b as nat, c as nat);
    NotPadding(b as nat % 16 * 4 + c as nat / 64);
    NotPadding(c as nat % 64);
  }

  lemma GroupTwo(a: byte, b: byte)
    ensures Group(Symbol(a as nat / 4), Symbol(a as nat % 4 * 16 + b as nat / 16),
                  Symbol(b as nat % 16 * 4), '=', true) == Some([a, b])
  {
    Unpack(a as nat, b as nat, 0);
    NotPadding(b as nat % 16 * 4);
  }

  lemma GroupOne(a: byte)
    ensures Group(Symbol(a as nat / 4), Symbol(a as nat % 4 * 16), '=', '=', true) == Some([a])
  {
    Unpack(a as nat, 0, 0);
  }

  lemma FirstGroup(data: seq<byte>)
    requires data != []
    ensures var t := Quad(data);
      Group(t[0], t[1], t[2], t[3], |data| <= 3) == Some(if |data| > 3 then data[..3] else data)
  {
    if |data| == 1 {
      GroupOne(data[0]);
      assert data == [data[0]];
    } else if |data| == 2 {
      GroupTwo(data[0], data[1]);
      assert data == [data[0], data[1]];
    } else {
      FullGroup(data);
    }
  }

  lemma FullGroup(data: seq<byte>)
    requires |data| >= 3
    ensures var t := Quad(data); Group(t[0], t[1], t[2], t[3], |data| <= 3) == Some(data[..3])
    ensures |data| == 3 ==> data[..3] == data
  {
    GroupThree(data[0], data[1], data[2], |data| <= 3);
    assert data[..3] == [data[0], data[1], data[2]];
  }

  /** Decoding undoes encoding, for every byte string. */
  lemma {:induction false} EncodeDecode(data: seq<byte>)
    ensures Decode(Encode(data)) == Some(data)
  {
    if data != [] {
      var text := Encode(data);
      FirstGroup(data);
      if |data| > 3 {
        NotEmpty(data[3..]);
        EncodeDecode(data[3..]);
        assert text[4..] == Encode(data[3..]);
        assert data == data[..3] + data[3..];
      } else {
        assert text[4..] == "";
        assert data + [] == data;
      }
    }
  }

  lemma NotEmpty(data: seq<byte>)
    requires data != []
    ensures |Encode(data)| >= 4
  {
  }

  /** The encoding uses the alphabet and padding only, in groups of four. */
  lemma {:induction false} EncodeAlphabet(data: seq<byte>)
    ensures |Encode(data)| == (|data| + 2) / 3 * 4
    ensures forall i | 0 <= i < |Encode(data)| :: InAlphabet(Encode(data)[i])
  {
    if |data| > 3 {
      EncodeAlphabet(data[3..]);
      assert (|data| + 2) / 3 == 1 + (|data| - 3 + 2) / 3;
    }
  }
}
