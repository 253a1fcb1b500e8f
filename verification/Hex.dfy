/** Lower-case hexadecimal, as Go's encoding/hex prints it and reads it in either case. */
module Hex {
  import opened Basics

  type nibble = x: int | 0 <= x < 16

  function Digit(x: nibble): byte {
    if x < 10 then x + 48 else x + 87
  }

  function DigitValue(c: byte): Option<nibble> {
    if 48 <= c <= 57 then Some(c - 48)
    else if 97 <= c <= 102 then Some(c - 87)
    else if 65 <= c <= 70 then Some(c - 55)
    else None
  }

  function Encode(s: Bytes): (r: Bytes)
    ensures |r| == 2 * |s|
  {
    if s == [] then [] else [Digit(s[0] / 16), Digit(s[0] % 16)] + Encode(s[1..])
  }

  function Decode(s: Bytes): (r: Option<Bytes>)
    ensures r.Some? ==> |s| == 2 * |r.value|
  {
    if s == [] then Some([])
    else if |s| == 1 then None
    else
      match (DigitValue(s[0]), DigitValue(s[1]), Decode(s[2..]))
      case (Some(a), Some(b), Some(rest)) =>
        var x: byte := 16 * (a as int) + b as int;
        Some([x] + rest)
      case _ => None
  }

  function LowerByte(c: byte): byte {
    if 65 <= c <= 90 then c + 32 else c
  }

  /** strings.ToLower on ASCII text. */
  function Lower(s: Bytes): (r: Bytes)
    ensures |r| == |s|
    ensures forall i | 0 <= i < |s| :: r[i] == LowerByte(s[i])
  {
    seq(|s|, i requires 0 <= i < |s| => LowerByte(s[i]))
  }

  lemma LowerAppend(a: Bytes, b: Bytes)
    ensures Lower(a + b) == Lower(a) + Lower(b)
  {
  }

  lemma {:induction false} DecodeEncode(s: Bytes)
    ensures Decode(Encode(s)) == Some(s)
    ensures forall c | c in Encode(s) :: c != 47
  {
    if s != [] {
      DecodeEncode(s[1..]);
      assert Encode(s)[2..] == Encode(s[1..]);
      assert s == [s[0]] + s[1..];
    }
  }

  lemma {:induction false} EncodeDecode(s: Bytes)
    requires Decode(s).Some?
    ensures Encode(Decode(s).value) == Lower(s)
  {
    if s != [] {
      EncodeDecode(s[2..]);
      assert s == s[..2] + s[2..];
      var v := Decode(s).value;
      assert v[1..] == Decode(s[2..]).value;
      assert Encode(v)[..2] == Lower(s)[..2];
      assert Lower(s)[2..] == Lower(s[2..]);
      assert Encode(v) == Encode(v)[..2] + Encode(v)[2..];
    }
  }

  // ---------------------------------------------------------------- the digits themselves

  /** The character c is the lower-case digit for x. */
  predicate IsDigit(x: int, c: byte) {
    || (0 <= x < 10 && c == '0' as int + x)
    || (10 <= x < 16 && c == 'a' as int + (x - 10))
  }

  /** Two digits a byte, the high one first. */
  lemma {:induction false} EncodeIsDigits(s: Bytes, i: nat)
    requires i < |s|
    ensures IsDigit(s[i] / 16, Encode(s)[2 * i]) && IsDigit(s[i] % 16, Encode(s)[2 * i + 1])
  {
    if i > 0 {
      EncodeIsDigits(s[1..], i - 1);
      assert Encode(s)[2 * i] == Encode(s[1..])[2 * (i - 1)];
      assert Encode(s)[2 * i + 1] == Encode(s[1..])[2 * (i - 1) + 1];
    }
  }

  lemma LowerLetter(c: byte)
    ensures LowerByte(c) == if 'A' as int <= c <= 'Z' as int then c - 'A' as int + 'a' as int else c
  {
  }

  lemma LowerDigit(c: byte, x: nibble)
    ensures DigitValue(c) == Some(x) <==> LowerByte(c) == Digit(x)
  {
  }

  /** What a text decodes to: the bytes that print as the text in lower case, and nothing if there are none. */
  lemma {:induction false} DecodeMeans(s: Bytes, v: Bytes)
    ensures Decode(s) == Some(v) <==> Lower(s) == Encode(v)
  {
    if Decode(s) == Some(v) {
      EncodeDecode(s);
    }
    if Lower(s) == Encode(v) {
      LowerDecodes(s, v);
    }
  }

  lemma {:induction false} LowerDecodes(s: Bytes, v: Bytes)
    requires Lower(s) == Encode(v)
    ensures Decode(s) == Some(v)
  {
    if v != [] {
      assert Lower(s)[0] == LowerByte(s[0]) == Digit(v[0] / 16);
      assert Lower(s)[1] == LowerByte(s[1]) == Digit(v[0] % 16);
      assert Encode(v)[2..] == Encode(v[1..]);
      assert Lower(s[2..]) == Lower(s)[2..];
      LowerDecodes(s[2..], v[1..]);
      LowerDigit(s[0], v[0] / 16);
      LowerDigit(s[1], v[0] % 16);
      assert 16 * (v[0] / 16) + v[0] % 16 == v[0];
      assert v == [v[0]] + v[1..];
    }
  }
}
