/** Unpadded base64url (sections 3.2 and 5 of RFC 4648) and the lenient decoder of the platform.

    The decoder drops characters outside the alphabet, takes both spellings of the last two
    characters and stops at padding, so many texts decode to the same bytes; comparing the
    re-encoding with the text leaves one. */
module Base64Url {
  import opened Outcomes
  import opened Values

  type sextet = v: int | 0 <= v < 64

  function Symbol(v: sextet): char {
    if v < 26 then ('A' as int + v) as char
    else if v < 52 then ('a' as int + (v - 26)) as char
    else if v < 62 then ('0' as int + (v - 52)) as char
    else if v == 62 then '-'
    else '_'
  }

  /** The value of an accepted character, in either alphabet. */
  function SymbolValue(c: char): Option<sextet> {
    if 'A' <= c <= 'Z' then Some(c as int - 'A' as int)
    else if 'a' <= c <= 'z' then Some(c as int - 'a' as int + 26)
    else if '0' <= c <= '9' then Some(c as int - '0' as int + 52)
    else if c == '-' || c == '+' then Some(62)
    else if c == '_' || c == '/' then Some(63)
    else None
  }

  lemma SymbolRoundTrip(v: sextet)
    ensures SymbolValue(Symbol(v)) == Some(v) && Symbol(v) != '=' && Symbol(v) < 128 as char
  {
  }

  /** `urlsafe_b64encode(raw).rstrip("=")` */
  function Encode(raw: seq<byte>): string {
    if raw == [] then ""
    else if |raw| == 1 then [Symbol(raw[0] / 4), Symbol(raw[0] % 4 * 16)]
    else if |raw| == 2 then [Symbol(raw[0] / 4), Symbol(raw[0] % 4 * 16 + raw[1] / 16), Symbol(raw[1] % 16 * 4)]
    else [Symbol(raw[0] / 4), Symbol(raw[0] % 4 * 16 + raw[1] / 16), Symbol(raw[1] % 16 * 4 + raw[2] / 64),
          Symbol(raw[2] % 64)]
         + Encode(raw[3..])
  }

  function Padding(length: nat): string {
    seq((4 - length % 4) % 4, _ => '=')
  }

  /** The decoder's state is the number of characters read of the current group of four, the bits
      left over from the last one, and the padding seen since. */
  function DecodeFrom(s: string, group: nat, left: nat, pads: nat): Option<seq<byte>>
    requires group < 4 && left < 64
    decreases |s|
  {
    if s == [] then (if group == 0 then Some([]) else None)
    else if s[0] == '=' then
      if group >= 2 && group + pads + 1 >= 4 then Some([])
      else DecodeFrom(s[1..], group, left, if group >= 2 then pads + 1 else pads)
    else if SymbolValue(s[0]).None? then DecodeFrom(s[1..], group, left, pads)
    else
      var v := SymbolValue(s[0]).value;
      match group
      case 0 => DecodeFrom(s[1..], 1, v, 0)
      case 1 => Emit(left * 4 % 256 + v / 16, DecodeFrom(s[1..], 2, v % 16, 0))
      case 2 => Emit(left * 16 % 256 + v / 4, DecodeFrom(s[1..], 3, v % 4, 0))
      case _ => Emit(left * 64 % 256 + v, DecodeFrom(s[1..], 0, 0, 0))
  }

  function Emit(b: nat, rest: Option<seq<byte>>): Option<seq<byte>> {
    if rest.None? || b >= 256 then None else Some([b] + rest.value)
  }

  /** `urlsafe_b64decode(body + "=" * (-len(body) % 4))` */
  function Decode(body: string): Option<seq<byte>> {
    DecodeFrom(body + Padding(|body|), 0, 0, 0)
  }

  /** The bytes of a token body, if it is the one body those bytes have. */
  function Unframe(body: string): Option<seq<byte>> {
    var raw := Decode(body);
    if raw.Some? && Encode(raw.value) == body then raw else None
  }

  /** Reading one character of the alphabet. */
  lemma DecodeSymbol(v: sextet, rest: string, group: nat, left: nat)
    requires group < 4 && left < 64
    ensures DecodeFrom([Symbol(v)] + rest, group, left, 0) ==
            match group
            case 0 => DecodeFrom(rest, 1, v, 0)
            case 1 => Emit(left * 4 % 256 + v / 16, DecodeFrom(rest, 2, v % 16, 0))
            case 2 => Emit(left * 16 % 256 + v / 4, DecodeFrom(rest, 3, v % 4, 0))
            case _ => Emit(left * 64 % 256 + v, DecodeFrom(rest, 0, 0, 0))
  {
    SymbolRoundTrip(v);
    assert ([Symbol(v)] + rest)[1..] == rest;
  }

  /** Reading two characters at the start of a group. */
  lemma DecodePair(a: sextet, b: sextet, rest: string)
    ensures DecodeFrom([Symbol(a), Symbol(b)] + rest, 0, 0, 0)
      == Emit(a * 4 % 256 + b / 16, DecodeFrom(rest, 2, b % 16, 0))
  {
    assert [Symbol(a), Symbol(b)] + rest == [Symbol(a)] + ([Symbol(b)] + rest);
    DecodeSymbol(a, [Symbol(b)] + rest, 0, 0);
    DecodeSymbol(b, rest, 1, a);
  }

  lemma DecodeGroup(a: sextet, b: sextet, c: sextet, d: sextet, rest: string)
    ensures DecodeFrom([Symbol(a), Symbol(b), Symbol(c), Symbol(d)] + rest, 0, 0, 0)
         == Emit(a * 4 % 256 + b / 16, Emit(b % 16 * 16 % 256 + c / 4,
                                            Emit(c % 4 * 64 % 256 + d, DecodeFrom(rest, 0, 0, 0))))
  {
    var tail := [Symbol(d)] + rest;
    assert [Symbol(a), Symbol(b), Symbol(c), Symbol(d)] + rest == [Symbol(a), Symbol(b)] + ([Symbol(c)] + tail);
    DecodePair(a, b, [Symbol(c)] + tail);
    DecodeSymbol(c, tail, 2, b % 16);
    DecodeSymbol(d, rest, 3, c % 4);
  }

  lemma DecodeTwo(a: sextet, b: sextet)
    ensures DecodeFrom([Symbol(a), Symbol(b)] + "==", 0, 0, 0) == Emit(a * 4 % 256 + b / 16, Some([]))
  {
    DecodePair(a, b, "==");
    assert "=="[1..] == "=";
    assert DecodeFrom("=", 2, b % 16, 1) == Some([]);
  }

  lemma DecodeThree(a: sextet, b: sextet, c: sextet)
    ensures DecodeFrom([Symbol(a), Symbol(b), Symbol(c)] + "=", 0, 0, 0)
         == Emit(a * 4 % 256 + b / 16, Emit(b % 16 * 16 % 256 + c / 4, Some([])))
  {
    assert [Symbol(a), Symbol(b), Symbol(c)] + "=" == [Symbol(a), Symbol(b)] + ([Symbol(c)] + "=");
    DecodePair(a, b, [Symbol(c)] + "=");
    DecodeSymbol(c, "=", 2, b % 16);
    assert DecodeFrom("=", 3, c % 4, 0) == Some([]);
  }

  /** The length of an encoding: 4 characters for 3 bytes, 2 or 3 for a remainder of 1 or 2. */
  lemma {:induction false} EncodeLength(raw: seq<byte>)
    ensures |Encode(raw)| == (4 * |raw| + 2) / 3
  {
    if |raw| >= 3 {
      EncodeLength(raw[3..]);
    }
  }

  lemma {:induction false} EncodeAscii(raw: seq<byte>)
    ensures forall i :: 0 <= i < |Encode(raw)| ==> Encode(raw)[i] < 128 as char
  {
    if |raw| >= 3 {
      EncodeAscii(raw[3..]);
    }
  }

  /** Regrouping eight-bit bytes into six-bit values loses nothing. */
  lemma Regroup(x: byte, y: byte, z: byte)
    ensures x / 4 * 4 % 256 + (x % 4 * 16 + y / 16) / 16 == x
    ensures (x % 4 * 16 + y / 16) % 16 * 16 % 256 + (y % 16 * 4 + z / 64) / 4 == y
    ensures (y % 16 * 4 + z / 64) % 4 * 64 % 256 + z % 64 == z
  {
    CarryFour(x % 4, y / 16);
    CarryTwo(y % 16, z / 64);
  }

  /** High bits and four low bits packed together come apart again. */
  lemma CarryFour(high: nat, low: nat)
    requires low < 16
    ensures (high * 16 + low) / 16 == high && (high * 16 + low) % 16 == low
  {
  }

  /** High bits and two low bits packed together come apart again. */
  lemma CarryTwo(high: nat, low: nat)
    requires low < 4
    ensures (high * 4 + low) / 4 == high && (high * 4 + low) % 4 == low
  {
  }

  lemma DecodeOneByte(x: byte)
    ensures Decode(Encode([x])) == Some([x])
  {
    assert Padding(2) == "==";
    DecodeTwo(x / 4, x % 4 * 16);
    Regroup(x, 0, 0);
    assert [x] + [] == [x];
  }

  lemma DecodeTwoBytes(x: byte, y: byte)
    ensures Decode(Encode([x, y])) == Some([x, y])
  {
    assert Padding(3) == "=";
    DecodeThree(x / 4, x % 4 * 16 + y / 16, y % 16 * 4);
    Regroup(x, y, 0);
    assert [x] + ([y] + []) == [x, y];
  }

  function Group(x: byte, y: byte, z: byte): string {
    [Symbol(x / 4), Symbol(x % 4 * 16 + y / 16), Symbol(y % 16 * 4 + z / 64), Symbol(z % 64)]
  }

  lemma EncodeGroup(x: byte, y: byte, z: byte, rest: seq<byte>)
    ensures Encode([x, y, z] + rest) == Group(x, y, z) + Encode(rest)
  {
    assert ([x, y, z] + rest)[3..] == rest;
  }

  lemma DecodeBytes(x: byte, y: byte, z: byte, tail: string)
    ensures DecodeFrom(Group(x, y, z) + tail, 0, 0, 0) == Emit(x, Emit(y, Emit(z, DecodeFrom(tail, 0, 0, 0))))
  {
    DecodeGroup(x / 4, x % 4 * 16 + y / 16, y % 16 * 4 + z / 64, z % 64, tail);
    Regroup(x, y, z);
  }

  lemma DecodeThreeBytes(x: byte, y: byte, z: byte, rest: seq<byte>)
    requires Decode(Encode(rest)) == Some(rest)
    ensures Decode(Encode([x, y, z] + rest)) == Some([x, y, z] + rest)
  {
    EncodeGroup(x, y, z, rest);
    DecodeAfterGroup(x, y, z, Encode(rest));
    assert [x] + ([y] + ([z] + rest)) == [x, y, z] + rest;
  }

  lemma DecodeAfterGroup(x: byte, y: byte, z: byte, tail: string)
    ensures Decode(Group(x, y, z) + tail) == Emit(x, Emit(y, Emit(z, Decode(tail))))
  {
    var body := Group(x, y, z) + tail;
    assert Padding(|body|) == Padding(|tail|);
    assert body + Padding(|tail|) == Group(x, y, z) + (tail + Padding(|tail|));
    DecodeBytes(x, y, z, tail + Padding(|tail|));
  }

  /** Decoding restores what was encoded. */
  lemma {:induction false} DecodeEncode(raw: seq<byte>)
    ensures Decode(Encode(raw)) == Some(raw)
  {
    if raw == [] {
      assert "" + Padding(0) == [];
    } else if |raw| == 1 {
      assert raw == [raw[0]];
      DecodeOneByte(raw[0]);
    } else if |raw| == 2 {
      assert raw == [raw[0], raw[1]];
      DecodeTwoBytes(raw[0], raw[1]);
    } else {
      DecodeEncode(raw[3..]);
      assert raw == [raw[0], raw[1], raw[2]] + raw[3..];
      DecodeThreeBytes(raw[0], raw[1], raw[2], raw[3..]);
    }
  }

  /** MAIN RESULT. Every byte string has exactly one accepted body. */
  lemma OneBodyPerByteString(raw: seq<byte>, body: string)
    ensures Unframe(body) == Some(raw) <==> body == Encode(raw)
  {
    DecodeEncode(raw);
  }
}
