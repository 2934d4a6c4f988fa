/**
 * UTF-8 as `std::str::from_utf8` accepts it (RFC 3629, section 4): shortest forms
 * only, no surrogate code points, nothing above U+10FFFF. A Dafny `char` is a
 * Unicode scalar value, so a decoded string is exactly a sequence of them.
 */
module Utf8 {
  import opened Wrappers

  newtype byte = x: int | 0 <= x < 256

  /** A continuation byte, `10xxxxxx`. */
  predicate IsCont(b: byte)
  {
    0x80 <= b <= 0xBF
  }

  /** A code point that is a Unicode scalar value. */
  predicate IsScalar(n: int)
  {
    0 <= n < 0xD800 || 0xE000 <= n < 0x11_0000
  }

  /** The continuation byte carrying the low six bits of `x`. */
  function Cont(x: nat): byte
  {
    (0x80 + x % 64) as byte
  }

  /** The bytes of one scalar value, in the shortest form. */
  function EncodeChar(c: char): (bytes: seq<byte>)
    ensures 1 <= |bytes| <= 4
  {
    var n := c as int;
    if n < 0x80 then [n as byte]
    else if n < 0x800 then [(0xC0 + n / 64) as byte, Cont(n)]
    else if n < 0x1_0000 then [(0xE0 + n / 64 / 64) as byte, Cont(n / 64), Cont(n)]
    else [(0xF0 + n / 64 / 64 / 64) as byte, Cont(n / 64 / 64), Cont(n / 64), Cont(n)]
  }

  /**
   * The first scalar value of `b` and the number of bytes it takes, when `b` starts
   * with a well-formed sequence (Table 3-7 of the Unicode Standard).
   */
  function DecodeChar(b: seq<byte>): Option<(char, nat)>
  {
    if b == [] then None
    else
      var b0 := b[0];
      if b0 < 0x80 then Some((b0 as char, 1))
      else if 0xC2 <= b0 <= 0xDF then
        if |b| >= 2 && IsCont(b[1]) then
          var n := (b0 as int - 0xC0) * 64 + (b[1] as int - 0x80);
          Some((n as char, 2))
        else None
      else if 0xE0 <= b0 <= 0xEF then
        if |b| >= 3 && IsCont(b[1]) && IsCont(b[2])
           && (b0 != 0xE0 || b[1] >= 0xA0) && (b0 != 0xED || b[1] <= 0x9F) then
          var n := ((b0 as int - 0xE0) * 64 + (b[1] as int - 0x80)) * 64 + (b[2] as int - 0x80);
          Some((n as char, 3))
        else None
      else if 0xF0 <= b0 <= 0xF4 then
        if |b| >= 4 && IsCont(b[1]) && IsCont(b[2]) && IsCont(b[3])
           && (b0 != 0xF0 || b[1] >= 0x90) && (b0 != 0xF4 || b[1] <= 0x8F) then
          var n := (((b0 as int - 0xF0) * 64 + (b[1] as int - 0x80)) * 64 + (b[2] as int - 0x80)) * 64 + (b[3] as int - 0x80);
          Some((n as char, 4))
        else None
      else None
  }

  /** `std::str::from_utf8`: the string when every byte belongs to a well-formed sequence, `None` otherwise. */
  function Decode(b: seq<byte>): (r: Option<string>)
    ensures r.Some? ==> |r.value| <= |b|
    decreases |b|
  {
    if b == [] then Some("")
    else match DecodeChar(b)
      case None => None
      case Some(cn) =>
        if cn.1 <= |b| then
          match Decode(b[cn.1..])
          case None => None
          case Some(s) => Some([cn.0] + s)
        else None
  }

  /** The UTF-8 encoding of a string. */
  function Encode(s: string): seq<byte>
  {
    if s == "" then [] else EncodeChar(s[0]) + Encode(s[1..])
  }

  /** Division by 64 of a number given as quotient and remainder. */
  lemma DivMod64(n: int, q: int, r: int)
    requires n == q * 64 + r && 0 <= r < 64
    ensures n / 64 == q && n % 64 == r
  {
  }

  /** Decoding the encoding of a character, whatever follows, gives the character back and its length. */
  lemma DecodeEncodeChar(c: char, rest: seq<byte>)
    ensures DecodeChar(EncodeChar(c) + rest) == Some((c, |EncodeChar(c)|))
  {
    var n := c as int;
    if n < 0x80 {
    } else if n < 0x800 {
      DecodeEncode2(c, rest);
    } else if n < 0x1_0000 {
      DecodeEncode3(c, rest);
    } else {
      DecodeEncode4(c, rest);
    }
  }

  lemma DecodeEncode2(c: char, rest: seq<byte>)
    requires 0x80 <= c as int < 0x800
    ensures DecodeChar(EncodeChar(c) + rest) == Some((c, 2))
  {
    var n := c as int;
    var b := EncodeChar(c) + rest;
    assert b[0] as int == 0xC0 + n / 64 && b[1] as int == 0x80 + n % 64;
  }

  lemma DecodeEncode3(c: char, rest: seq<byte>)
    requires 0x800 <= c as int < 0x1_0000
    ensures DecodeChar(EncodeChar(c) + rest) == Some((c, 3))
  {
    var n := c as int;
    var m1 := n / 64;
    var m2 := m1 / 64;
    var b := EncodeChar(c) + rest;
    assert b[0] as int == 0xE0 + m2 && b[1] as int == 0x80 + m1 % 64 && b[2] as int == 0x80 + n % 64;
    assert n == (m2 * 64 + m1 % 64) * 64 + n % 64;
  }

  lemma DecodeEncode4(c: char, rest: seq<byte>)
    requires 0x1_0000 <= c as int
    ensures DecodeChar(EncodeChar(c) + rest) == Some((c, 4))
  {
    var n := c as int;
    var m1 := n / 64;
    var m2 := m1 / 64;
    var m3 := m2 / 64;
    var b := EncodeChar(c) + rest;
    assert b[0] as int == 0xF0 + m3 && b[1] as int == 0x80 + m2 % 64;
    assert b[2] as int == 0x80 + m1 % 64 && b[3] as int == 0x80 + n % 64;
    assert n == ((m3 * 64 + m2 % 64) * 64 + m1 % 64) * 64 + n % 64;
  }

  /** A well-formed sequence is the encoding of the character it decodes to: there is no second spelling. */
  lemma EncodeDecodeChar(b: seq<byte>)
    requires DecodeChar(b).Some?
    ensures var cn := DecodeChar(b).value;
      cn.1 <= |b| && b[..cn.1] == EncodeChar(cn.0)
  {
    var cn := DecodeChar(b).value;
    if cn.1 == 2 {
      EncodeDecode2(b);
    } else if cn.1 == 3 {
      EncodeDecode3(b);
    } else if cn.1 == 4 {
      EncodeDecode4(b);
    } else {
      assert b[..1] == [b[0]];
    }
  }

  lemma EncodeDecode2(b: seq<byte>)
    requires DecodeChar(b).Some? && DecodeChar(b).value.1 == 2
    ensures b[..2] == EncodeChar(DecodeChar(b).value.0)
  {
    var n := DecodeChar(b).value.0 as int;
    DivMod64(n, b[0] as int - 0xC0, b[1] as int - 0x80);
    assert b[..2] == [b[0], b[1]];
  }

  lemma EncodeDecode3(b: seq<byte>)
    requires DecodeChar(b).Some? && DecodeChar(b).value.1 == 3
    ensures b[..3] == EncodeChar(DecodeChar(b).value.0)
  {
    var n := DecodeChar(b).value.0 as int;
    var x0, x1, x2 := b[0] as int - 0xE0, b[1] as int - 0x80, b[2] as int - 0x80;
    DivMod64(n, x0 * 64 + x1, x2);
    DivMod64(x0 * 64 + x1, x0, x1);
    assert b[..3] == [b[0], b[1], b[2]];
  }

  lemma EncodeDecode4(b: seq<byte>)
    requires DecodeChar(b).Some? && DecodeChar(b).value.1 == 4
    ensures b[..4] == EncodeChar(DecodeChar(b).value.0)
  {
    var n := DecodeChar(b).value.0 as int;
    var x0, x1, x2, x3 := b[0] as int - 0xF0, b[1] as int - 0x80, b[2] as int - 0x80, b[3] as int - 0x80;
    DivMod64(n, (x0 * 64 + x1) * 64 + x2, x3);
    DivMod64((x0 * 64 + x1) * 64 + x2, x0 * 64 + x1, x2);
    DivMod64(x0 * 64 + x1, x0, x1);
    assert b[..4] == [b[0], b[1], b[2], b[3]];
  }

  /** Every string survives encoding and decoding. */
  lemma {:induction false} DecodeEncode(s: string)
    ensures Decode(Encode(s)) == Some(s)
    decreases |s|
  {
    if s != "" {
      DecodeEncode(s[1..]);
      DecodeAfterChar(s[0], Encode(s[1..]));
      assert [s[0]] + s[1..] == s;
    }
  }

  /** Decoding the encoding of a character followed by more bytes decodes the character, then the rest. */
  lemma DecodeAfterChar(c: char, rest: seq<byte>)
    ensures Decode(EncodeChar(c) + rest) == match Decode(rest)
      case None => None
      case Some(s) => Some([c] + s)
  {
    var e := EncodeChar(c);
    DecodeEncodeChar(c, rest);
    assert (e + rest)[|e|..] == rest;
  }

  /** Bytes that decode are the encoding of what they decode to. */
  lemma {:induction false} EncodeDecode(b: seq<byte>)
    requires Decode(b).Some?
    ensures Encode(Decode(b).value) == b
    decreases |b|
  {
    if b != [] {
      DecodeFirst(b);
      var cn := DecodeChar(b).value;
      EncodeDecodeChar(b);
      EncodeDecode(b[cn.1..]);
      EncodeJoin(b, cn.0, cn.1, Decode(b[cn.1..]).value);
    }
  }

  /** Bytes that decode start with a well-formed sequence, and the rest decodes too. */
  lemma DecodeFirst(b: seq<byte>)
    requires b != [] && Decode(b).Some?
    ensures DecodeChar(b).Some? && DecodeChar(b).value.1 <= |b|
    ensures Decode(b[DecodeChar(b).value.1..]).Some?
    ensures Decode(b).value == [DecodeChar(b).value.0] + Decode(b[DecodeChar(b).value.1..]).value
  {
  }

  /** Bytes that are the encoding of `c` followed by the encoding of `t` are the encoding of `[c] + t`. */
  lemma EncodeJoin(b: seq<byte>, c: char, k: nat, t: string)
    requires k <= |b| && b[..k] == EncodeChar(c) && Encode(t) == b[k..]
    ensures Encode([c] + t) == b
  {
    assert ([c] + t)[0] == c && ([c] + t)[1..] == t;
    assert b == b[..k] + b[k..];
  }

  /** ASCII bytes decode to the same characters. */
  lemma {:induction false} AsciiDecodes(b: seq<byte>)
    requires forall i :: 0 <= i < |b| ==> b[i] < 0x80
    ensures Decode(b).Some? && |Decode(b).value| == |b|
    ensures forall i :: 0 <= i < |b| ==> Decode(b).value[i] as int == b[i] as int
    decreases |b|
  {
    if b != [] {
      AsciiDecodes(b[1..]);
    }
  }

  /** A lone continuation byte, a surrogate's encoding and an overlong form are all rejected. */
  lemma Rejected()
    ensures Decode([0x80]).None?
    ensures Decode([0xED, 0xA0, 0x80]).None?
    ensures Decode([0xC0, 0x80]).None?
    ensures Decode([0xF4, 0x90, 0x80, 0x80]).None?
  {
  }
}
