/** Unpadded base64url, section 5 of RFC 4648, as Go's base64.RawURLEncoding reads and writes it. */
module Base64Url {
  import opened Basics

  type sextet = x: int | 0 <= x < 64

  function Letter(x: sextet): byte {
    if x < 26 then x + 65
    else if x < 52 then x + 71
    else if x < 62 then x - 4
    else if x == 62 then 45
    else 95
  }

  function Value(c: byte): Option<sextet> {
    if 65 <= c <= 90 then Some(c - 65)
    else if 97 <= c <= 122 then Some(c - 71)
    else if 48 <= c <= 57 then Some(c + 4)
    else if c == 45 then Some(62)
    else if c == 95 then Some(63)
    else None
  }

  lemma LetterValue(x: sextet)
    ensures Value(Letter(x)) == Some(x)
    ensures !LineBreak(Letter(x)) && Letter(x) != 63
  {
  }

  predicate LineBreak(c: byte) {
    c == 10 || c == 13
  }

  /** The low bits of one sextet followed by the high bits of the next. */
  function Glue(high: int, low: int, shift: int, drop: int): int
    requires drop > 0
  {
    high * shift + low / drop
  }

  function Quad(x: byte, y: byte, z: byte): (r: Bytes)
    ensures |r| == 4
  {
    [Letter(x / 4), Letter(x % 4 * 16 + y / 16), Letter(y % 16 * 4 + z / 64), Letter(z % 64)]
  }

  /** A short final group prints only the letters its bytes reach into. */
  function Encode(s: Bytes): (r: Bytes) {
    if s == [] then []
    else if |s| == 1 then Quad(s[0], 0, 0)[..2]
    else if |s| == 2 then Quad(s[0], s[1], 0)[..3]
    else Quad(s[0], s[1], s[2]) + Encode(s[3..])
  }

  /** Go's decoder skips line breaks wherever they stand. */
  function DropLineBreaks(s: Bytes): (r: Bytes)
    ensures |r| <= |s|
  {
    if s == [] then []
    else if LineBreak(s[0]) then DropLineBreaks(s[1..])
    else [s[0]] + DropLineBreaks(s[1..])
  }

  /** The bits left over in a short final group are ignored; a lone final letter is an error. */
  function DecodeGroups(s: Bytes): Option<Bytes> {
    if s == [] then Some([])
    else if |s| == 1 then None
    else
      match (Value(s[0]), Value(s[1]))
      case (Some(a), Some(b)) =>
        var x: byte := Glue(a, b, 4, 16);
        if |s| == 2 then Some([x])
        else (
          match Value(s[2])
          case Some(c) =>
            var y: byte := Glue(b % 16, c, 16, 4);
            if |s| == 3 then Some([x, y])
            else (
              match (Value(s[3]), DecodeGroups(s[4..]))
              case (Some(d), Some(rest)) =>
                var z: byte := Glue(c % 4, d, 64, 1);
                Some([x, y, z] + rest)
              case _ => None
            )
          case None => None
        )
      case _ => None
  }

  function Decode(s: Bytes): Option<Bytes> {
    DecodeGroups(DropLineBreaks(s))
  }

  ghost predicate IsLetterOf(c: byte, x: sextet) {
    c == Letter(x)
  }

  lemma QuadIsLetters(x: byte, y: byte, z: byte)
    ensures forall c | c in Quad(x, y, z) :: exists i :: IsLetterOf(c, i)
  {
    assert IsLetterOf(Quad(x, y, z)[0], x / 4);
    assert IsLetterOf(Quad(x, y, z)[1], x % 4 * 16 + y / 16);
    assert IsLetterOf(Quad(x, y, z)[2], y % 16 * 4 + z / 64);
    assert IsLetterOf(Quad(x, y, z)[3], z % 64);
  }

  lemma {:induction false} EncodeIsLetters(s: Bytes)
    ensures forall c | c in Encode(s) :: exists i :: IsLetterOf(c, i)
  {
    if s == [] {
    } else if |s| == 1 {
      QuadIsLetters(s[0], 0, 0);
      assert forall c | c in Encode(s) :: c in Quad(s[0], 0, 0);
    } else if |s| == 2 {
      QuadIsLetters(s[0], s[1], 0);
      assert forall c | c in Encode(s) :: c in Quad(s[0], s[1], 0);
    } else {
      QuadIsLetters(s[0], s[1], s[2]);
      EncodeIsLetters(s[3..]);
    }
  }

  lemma EncodeHasNoLineBreaks(s: Bytes)
    ensures DropLineBreaks(Encode(s)) == Encode(s)
    ensures forall c | c in Encode(s) :: c != 63
  {
    EncodeIsLetters(s);
    forall c | c in Encode(s)
      ensures !LineBreak(c) && c != 63
    {
      var x :| IsLetterOf(c, x);
      LetterValue(x);
    }
    KeepAll(Encode(s));
  }

  lemma {:induction false} KeepAll(s: Bytes)
    requires forall c | c in s :: !LineBreak(c)
    ensures DropLineBreaks(s) == s
  {
    if s != [] {
      KeepAll(s[1..]);
    }
  }

  lemma FullGroup(a: sextet, b: sextet, c: sextet, d: sextet, text: Bytes)
    requires DecodeGroups(text).Some?
    ensures DecodeGroups([Letter(a), Letter(b), Letter(c), Letter(d)] + text) ==
            Some([Glue(a, b, 4, 16) as byte, Glue(b % 16, c, 16, 4) as byte, Glue(c % 4, d, 64, 1) as byte]
                 + DecodeGroups(text).value)
  {
    LetterValue(a);
    LetterValue(b);
    LetterValue(c);
    LetterValue(d);
    assert ([Letter(a), Letter(b), Letter(c), Letter(d)] + text)[4..] == text;
  }

  /** Four sextets hold three bytes. */
  lemma Sextets(x: byte, y: byte, z: byte)
    ensures Glue(x / 4, x % 4 * 16 + y / 16, 4, 16) == x
    ensures Glue((x % 4 * 16 + y / 16) % 16, y % 16 * 4 + z / 64, 16, 4) == y
    ensures Glue((y % 16 * 4 + z / 64) % 4, z % 64, 64, 1) == z
  {
  }

  lemma ShortGroups(a: sextet, b: sextet, c: sextet, d: sextet)
    ensures var letters := [Letter(a), Letter(b), Letter(c), Letter(d)];
            && DecodeGroups(letters[..2]) == Some([Glue(a, b, 4, 16) as byte])
            && DecodeGroups(letters[..3]) == Some([Glue(a, b, 4, 16) as byte, Glue(b % 16, c, 16, 4) as byte])
  {
    LetterValue(a);
    LetterValue(b);
    LetterValue(c);
  }

  lemma QuadDecodes(x: byte, y: byte, z: byte, text: Bytes)
    requires DecodeGroups(text).Some?
    ensures DecodeGroups(Quad(x, y, z) + text) == Some([x, y, z] + DecodeGroups(text).value)
  {
    Sextets(x, y, z);
    FullGroup(x / 4, x % 4 * 16 + y / 16, y % 16 * 4 + z / 64, z % 64, text);
  }

  /** Of a cut group only the whole bytes are read, whatever the bits after them are. */
  lemma ShortQuadDecodes(x: byte, y: byte, z: byte)
    ensures DecodeGroups(Quad(x, y, z)[..2]) == Some([x])
    ensures DecodeGroups(Quad(x, y, z)[..3]) == Some([x, y])
  {
    Sextets(x, y, z);
    ShortGroups(x / 4, x % 4 * 16 + y / 16, y % 16 * 4 + z / 64, z % 64);
  }

  lemma {:induction false} DecodeEncodeGroups(s: Bytes)
    ensures DecodeGroups(Encode(s)) == Some(s)
  {
    if s == [] {
    } else if |s| == 1 {
      ShortQuadDecodes(s[0], 0, 0);
      assert s == [s[0]];
    } else if |s| == 2 {
      ShortQuadDecodes(s[0], s[1], 0);
      assert s == [s[0], s[1]];
    } else {
      DecodeEncodeGroups(s[3..]);
      QuadDecodes(s[0], s[1], s[2], Encode(s[3..]));
      assert s[..3] == [s[0], s[1], s[2]];
      Rejoin(s, 3);
    }
  }

  lemma DecodeEncode(s: Bytes)
    ensures Decode(Encode(s)) == Some(s)
  {
    EncodeHasNoLineBreaks(s);
    DecodeEncodeGroups(s);
  }

  // ---------------------------------------------------------------- the encoding, bit by bit

  /** Table 2 of RFC 4648: the character c stands for the number i. */
  predicate InTable(i: int, c: byte) {
    || (0 <= i < 26 && c == 'A' as int + i)
    || (26 <= i < 52 && c == 'a' as int + (i - 26))
    || (52 <= i < 62 && c == '0' as int + (i - 52))
    || (i == 62 && c == '-' as int)
    || (i == 63 && c == '_' as int)
  }

  lemma LetterInTable(x: sextet)
    ensures InTable(x, Letter(x))
  {
  }

  lemma ValueIsPosition(c: byte, i: sextet)
    ensures Value(c) == Some(i) <==> InTable(i, c)
  {
  }

  /** Bit j of a byte, the highest first. */
  function HighBit(x: byte, j: nat): (b: nat)
    requires j < 8
    ensures b <= 1
  {
    if j == 0 then x / 128 % 2
    else if j == 1 then x / 64 % 2
    else if j == 2 then x / 32 % 2
    else if j == 3 then x / 16 % 2
    else if j == 4 then x / 8 % 2
    else if j == 5 then x / 4 % 2
    else if j == 6 then x / 2 % 2
    else x % 2
  }

  /** Bit k of a byte string, and zeros after its end. */
  function BitAt(s: Bytes, k: nat): (b: nat)
    ensures b <= 1
  {
    if k / 8 < |s| then HighBit(s[k / 8], k % 8) else 0
  }

  /** The number that the six bits from k on spell. */
  function SixBits(s: Bytes, k: nat): sextet {
    32 * BitAt(s, k) + 16 * BitAt(s, k + 1) + 8 * BitAt(s, k + 2)
    + 4 * BitAt(s, k + 3) + 2 * BitAt(s, k + 4) + BitAt(s, k + 5)
  }

  /** A text spells numbers if each of its letters stands for the one at its place. */
  ghost predicate Spells(number: nat -> int, text: Bytes) {
    forall i: nat | i < |text| :: InTable(number(i), text[i])
  }

  /** The numbers a byte string is made of, six bits each. */
  function Numbers(s: Bytes): nat -> int {
    (i: nat) => SixBits(s, 6 * i)
  }

  /** The letters six bits at a time, the last ones filled up with zeros, and no more than the bits need. */
  ghost predicate SpellsBits(s: Bytes, text: Bytes) {
    |text| == (8 * |s| + 5) / 6 && Spells(Numbers(s), text)
  }

  /** Each bit doubles the number above it. */
  lemma BitChain(x: byte)
    ensures x / 128 == HighBit(x, 0) && x / 64 == 2 * (x / 128) + HighBit(x, 1)
    ensures x / 32 == 2 * (x / 64) + HighBit(x, 2) && x / 16 == 2 * (x / 32) + HighBit(x, 3)
    ensures x / 8 == 2 * (x / 16) + HighBit(x, 4) && x / 4 == 2 * (x / 8) + HighBit(x, 5)
    ensures x / 2 == 2 * (x / 4) + HighBit(x, 6) && x == 2 * (x / 2) + HighBit(x, 7)
  {
    assert x / 64 / 2 == x / 128 && x / 32 / 2 == x / 64 && x / 16 / 2 == x / 32;
    assert x / 8 / 2 == x / 16 && x / 4 / 2 == x / 8 && x / 2 / 2 == x / 4;
  }

  lemma Remainders(x: byte)
    ensures x == 4 * (x / 4) + x % 4 && x == 16 * (x / 16) + x % 16 && x == 64 * (x / 64) + x % 64
  {
  }

  function ByteOr0(s: Bytes, i: nat): byte {
    if i < |s| then s[i] else 0
  }

  lemma BitOf(s: Bytes, i: nat, j: nat)
    requires j < 8
    ensures BitAt(s, 8 * i + j) == HighBit(ByteOr0(s, i), j)
  {
    assert (8 * i + j) / 8 == i && (8 * i + j) % 8 == j;
  }

  lemma BitsOf(s: Bytes, i: nat)
    ensures forall j: nat | j < 8 :: BitAt(s, 8 * i + j) == HighBit(ByteOr0(s, i), j)
  {
    forall j: nat | j < 8
      ensures BitAt(s, 8 * i + j) == HighBit(ByteOr0(s, i), j)
    {
      BitOf(s, i, j);
    }
  }

  /** The four numbers of a group, with zeros for bytes that are not there. */
  lemma GroupBits(s: Bytes)
    ensures var x, y, z := ByteOr0(s, 0), ByteOr0(s, 1), ByteOr0(s, 2);
            && SixBits(s, 0) == x / 4
            && SixBits(s, 6) == x % 4 * 16 + y / 16
            && SixBits(s, 12) == y % 16 * 4 + z / 64
            && SixBits(s, 18) == z % 64
  {
    var x, y, z := ByteOr0(s, 0), ByteOr0(s, 1), ByteOr0(s, 2);
    BitsOf(s, 0);
    BitsOf(s, 1);
    BitsOf(s, 2);
    BitChain(x);
    BitChain(y);
    BitChain(z);
    Remainders(x);
    Remainders(y);
    Remainders(z);
  }

  lemma LaterBits(s: Bytes, k: nat)
    requires |s| >= 3
    ensures SixBits(s[3..], k) == SixBits(s, k + 24)
  {
    LaterBit(s, k);
    LaterBit(s, k + 1);
    LaterBit(s, k + 2);
    LaterBit(s, k + 3);
    LaterBit(s, k + 4);
    LaterBit(s, k + 5);
  }

  lemma LaterBit(s: Bytes, k: nat)
    requires |s| >= 3
    ensures BitAt(s[3..], k) == BitAt(s, k + 24)
  {
    assert (k + 24) / 8 == k / 8 + 3 && (k + 24) % 8 == k % 8;
  }

  /** A group spells the first four numbers, or as many as its bytes reach into. */
  lemma QuadSpells(s: Bytes, n: nat)
    requires n <= 4
    ensures Spells(Numbers(s), Quad(ByteOr0(s, 0), ByteOr0(s, 1), ByteOr0(s, 2))[..n])
  {
    var x, y, z := ByteOr0(s, 0), ByteOr0(s, 1), ByteOr0(s, 2);
    var number := Numbers(s);
    assert number(0) == x / 4 && number(1) == x % 4 * 16 + y / 16
           && number(2) == y % 16 * 4 + z / 64 && number(3) == z % 64 by {
      GroupBits(s);
    }
    QuadInTable(x, y, z);
    FourSpell(number, Quad(x, y, z), n);
  }

  lemma FourSpell(number: nat -> int, quad: Bytes, n: nat)
    requires n <= 4 == |quad|
    requires InTable(number(0), quad[0]) && InTable(number(1), quad[1])
    requires InTable(number(2), quad[2]) && InTable(number(3), quad[3])
    ensures Spells(number, quad[..n])
  {
    forall i: nat | i < n
      ensures InTable(number(i), quad[..n][i])
    {
      assert i == 0 || i == 1 || i == 2 || i == 3;
    }
  }

  lemma SpellsAppend(number: nat -> int, later: nat -> int, quad: Bytes, rest: Bytes)
    requires |quad| == 4 && Spells(number, quad) && Spells(later, rest)
    requires forall i: nat :: later(i) == number(i + 4)
    ensures Spells(number, quad + rest)
  {
    forall i: nat | i < 4 + |rest|
      ensures InTable(number(i), (quad + rest)[i])
    {
      if i < 4 {
        assert InTable(number(i), quad[i]);
      } else {
        assert InTable(later(i - 4), rest[i - 4]);
      }
    }
  }

  lemma LaterNumbers(s: Bytes)
    requires |s| >= 3
    ensures forall i: nat :: Numbers(s[3..])(i) == Numbers(s)(i + 4)
  {
    forall i: nat
      ensures Numbers(s[3..])(i) == Numbers(s)(i + 4)
    {
      LaterBits(s, 6 * i);
    }
  }

  lemma LongSpells(s: Bytes, rest: Bytes)
    requires |s| >= 3 && Spells(Numbers(s[3..]), rest)
    ensures Spells(Numbers(s), Quad(s[0], s[1], s[2]) + rest)
  {
    var quad := Quad(s[0], s[1], s[2]);
    QuadSpells(s, 4);
    assert quad[..4] == quad;
    LaterNumbers(s);
    SpellsAppend(Numbers(s), Numbers(s[3..]), quad, rest);
  }

  /** The encoding is the one of the standard: six bits a letter, from its table. */
  lemma {:induction false} EncodeSpellsBits(s: Bytes)
    ensures SpellsBits(s, Encode(s))
  {
    if |s| >= 3 {
      EncodeSpellsBits(s[3..]);
      LongSpells(s, Encode(s[3..]));
    } else if s != [] {
      QuadSpells(s, |s| + 1);
    }
  }

  lemma QuadInTable(x: byte, y: byte, z: byte)
    ensures InTable(x / 4, Quad(x, y, z)[0]) && InTable(x % 4 * 16 + y / 16, Quad(x, y, z)[1])
    ensures InTable(y % 16 * 4 + z / 64, Quad(x, y, z)[2]) && InTable(z % 64, Quad(x, y, z)[3])
  {
    LetterInTable(x / 4);
    LetterInTable(x % 4 * 16 + y / 16);
    LetterInTable(y % 16 * 4 + z / 64);
    LetterInTable(z % 64);
  }

  // ---------------------------------------------------------------- what the decoder accepts, and as what

  predicate IsLetter(c: byte) {
    exists i: sextet :: InTable(i, c)
  }

  lemma HasValue(c: byte)
    ensures IsLetter(c) <==> Value(c).Some?
    ensures Value(c).Some? ==> InTable(Value(c).value, c)
  {
    if Value(c).Some? {
      ValueIsPosition(c, Value(c).value);
    }
    if i: sextet :| InTable(i, c) {
      ValueIsPosition(c, i);
    }
  }

  predicate Known(c: byte) {
    Value(c).Some?
  }

  ghost predicate AllKnown(t: Bytes) {
    forall c | c in t :: Known(c)
  }

  lemma FirstKnown(t: Bytes)
    requires t != []
    ensures AllKnown(t) <==> Known(t[0]) && AllKnown(t[1..])
  {
    assert t == [t[0]] + t[1..];
  }

  /** The first letters of a text, up to four, and the rest. */
  lemma GroupKnown(t: Bytes)
    ensures |t| == 1 ==> (AllKnown(t) <==> Known(t[0]))
    ensures |t| == 2 ==> (AllKnown(t) <==> Known(t[0]) && Known(t[1]))
    ensures |t| == 3 ==> (AllKnown(t) <==> Known(t[0]) && Known(t[1]) && Known(t[2]))
    ensures |t| >= 4 ==>
              (AllKnown(t) <==> Known(t[0]) && Known(t[1]) && Known(t[2]) && Known(t[3]) && AllKnown(t[4..]))
  {
    if |t| >= 1 {
      FirstKnown(t);
    }
    if |t| >= 2 {
      FirstKnown(t[1..]);
      assert t[1..][1..] == t[2..];
    }
    if |t| >= 3 {
      FirstKnown(t[2..]);
      assert t[2..][1..] == t[3..];
    }
    if |t| >= 4 {
      FirstKnown(t[3..]);
      assert t[3..][1..] == t[4..];
    }
  }

  lemma DecodeShort(t: Bytes)
    requires |t| == 2 || |t| == 3
    ensures DecodeGroups(t).Some? <==> Known(t[0]) && Known(t[1]) && (|t| == 3 ==> Known(t[2]))
    ensures |t| == 2 && DecodeGroups(t).Some? ==>
              DecodeGroups(t).value == [Glue(Value(t[0]).value, Value(t[1]).value, 4, 16)]
    ensures |t| == 3 && DecodeGroups(t).Some? ==>
              DecodeGroups(t).value == [Glue(Value(t[0]).value, Value(t[1]).value, 4, 16),
                                        Glue(Value(t[1]).value % 16, Value(t[2]).value, 16, 4)]
  {
  }

  lemma DecodeLong(t: Bytes)
    requires |t| >= 4
    ensures DecodeGroups(t).Some? <==>
            Known(t[0]) && Known(t[1]) && Known(t[2]) && Known(t[3]) && DecodeGroups(t[4..]).Some?
    ensures DecodeGroups(t).Some? ==>
              var b, c := Value(t[1]).value, Value(t[2]).value;
              DecodeGroups(t).value == [Glue(Value(t[0]).value, b, 4, 16), Glue(b % 16, c, 16, 4),
                                        Glue(c % 4, Value(t[3]).value, 64, 1)] + DecodeGroups(t[4..]).value
  {
  }

  lemma LongKnown(t: Bytes, rest: Bytes, accepted: bool)
    requires |t| >= 4 && rest == t[4..] && accepted == DecodeGroups(rest).Some?
    requires accepted <==> AllKnown(rest) && |rest| % 4 != 1
    ensures DecodeGroups(t).Some? <==> AllKnown(t) && |t| % 4 != 1
  {
    GroupKnown(t);
    DecodeLong(t);
    assert |rest| % 4 == |t| % 4;
  }

  lemma {:induction false} GroupsKnown(t: Bytes)
    ensures DecodeGroups(t).Some? <==> AllKnown(t) && |t| % 4 != 1
  {
    if |t| >= 4 {
      var rest := t[4..];
      GroupsKnown(rest);
      LongKnown(t, rest, DecodeGroups(rest).Some?);
    } else {
      GroupKnown(t);
      if |t| >= 2 {
        DecodeShort(t);
      }
    }
  }

  lemma GroupsAccepted(t: Bytes)
    ensures DecodeGroups(t).Some? <==> (forall c | c in t :: IsLetter(c)) && |t| % 4 != 1
  {
    GroupsKnown(t);
    forall c: byte
      ensures IsLetter(c) <==> Known(c)
    {
      HasValue(c);
    }
  }

  /** Line breaks apart, a text is accepted exactly if it is all in the table and no letter stands alone at its end. */
  lemma DecodeAccepts(s: Bytes)
    ensures var t := DropLineBreaks(s);
            Decode(s).Some? <==> (forall c | c in t :: IsLetter(c)) && |t| % 4 != 1
  {
    GroupsAccepted(DropLineBreaks(s));
  }

  /** A line feed or a carriage return changes nothing, wherever it stands. */
  lemma {:induction false} LineBreakIsInvisible(a: Bytes, c: byte, b: Bytes)
    requires c == 10 || c == 13
    ensures DropLineBreaks(a + [c] + b) == DropLineBreaks(a + b)
  {
    if a == [] {
      assert a + [c] + b == [c] + b && a + b == b;
      assert ([c] + b)[1..] == b;
    } else {
      LineBreakIsInvisible(a[1..], c, b);
      assert (a + [c] + b)[1..] == a[1..] + [c] + b;
      assert (a + b)[1..] == a[1..] + b;
    }
  }

  /** Nothing else is dropped. */
  lemma OthersStay(s: Bytes)
    requires forall c | c in s :: c != 10 && c != 13
    ensures DropLineBreaks(s) == s
  {
    KeepAll(s);
  }

  /**
   * The bytes read from a text spell its letters; the bits of a last letter that reach into no byte are
   * taken as zero.
   */
  ghost predicate SpellsText(r: Bytes, t: Bytes) {
    |r| == 6 * |t| / 8 && SpellsLetters(Numbers(r), t)
  }

  ghost predicate SpellsLetters(number: nat -> int, t: Bytes) {
    && (|t| % 4 == 0 ==> Spells(number, t))
    && (|t| % 4 >= 2 ==>
          && Spells(number, t[..|t| - 1])
          && SpellsRest(number(|t| - 1), t[|t| - 1], if |t| % 4 == 2 then 16 else 4))
  }

  ghost predicate SpellsRest(n: int, c: byte, unused: nat)
    requires unused > 0
  {
    exists v: sextet :: InTable(v, c) && n == v - v % unused
  }

  lemma Glued(a: sextet, b: sextet, c: sextet, d: sextet)
    ensures var x, y, z := Glue(a, b, 4, 16), Glue(b % 16, c, 16, 4), Glue(c % 4, d, 64, 1);
            && x / 4 == a && x % 4 * 16 + y / 16 == b && y % 16 * 4 + z / 64 == c && z % 64 == d
            && x % 4 * 16 == b - b % 16 && y % 16 * 4 == c - c % 4
  {
  }

  lemma TwoSpell(number: nat -> int, t: Bytes, a: sextet, b: sextet)
    requires |t| == 2 && InTable(a, t[0]) && InTable(b, t[1])
    requires number(0) == a && number(1) == b - b % 16
    ensures SpellsLetters(number, t)
  {
    assert t[..1] == [t[0]];
    assert SpellsRest(number(1), t[1], 16);
  }

  lemma OneByte(r: Bytes)
    requires |r| == 1
    ensures Numbers(r)(0) == r[0] / 4 && Numbers(r)(1) == r[0] % 4 * 16
  {
    GroupBits(r);
  }

  lemma TwoBytes(r: Bytes)
    requires |r| == 2
    ensures Numbers(r)(0) == r[0] / 4 && Numbers(r)(1) == r[0] % 4 * 16 + r[1] / 16 && Numbers(r)(2) == r[1] % 16 * 4
  {
    GroupBits(r);
  }

  lemma GluedTwo(a: sextet, b: sextet)
    ensures Glue(a, b, 4, 16) / 4 == a && Glue(a, b, 4, 16) % 4 * 16 == b - b % 16
  {
    assert Glue(a, b, 4, 16) == a * 4 + b / 16;
  }

  lemma TwoNumbers(t: Bytes, a: sextet, b: sextet)
    requires |t| == 2 && Value(t[0]) == Some(a) && Value(t[1]) == Some(b)
    ensures DecodeGroups(t).Some? && |DecodeGroups(t).value| == 1
    ensures var number := Numbers(DecodeGroups(t).value);
            number(0) == a && number(1) == b - b % 16
  {
    DecodeShort(t);
    GluedTwo(a, b);
    OneByte(DecodeGroups(t).value);
  }

  lemma TwoLetters(t: Bytes)
    requires |t| == 2 && DecodeGroups(t).Some?
    ensures SpellsText(DecodeGroups(t).value, t)
  {
    DecodeShort(t);
    HasValue(t[0]);
    HasValue(t[1]);
    var a, b := Value(t[0]).value, Value(t[1]).value;
    TwoNumbers(t, a, b);
    TwoSpell(Numbers(DecodeGroups(t).value), t, a, b);
  }

  lemma ThreeSpell(number: nat -> int, t: Bytes, a: sextet, b: sextet, c: sextet)
    requires |t| == 3 && InTable(a, t[0]) && InTable(b, t[1]) && InTable(c, t[2])
    requires number(0) == a && number(1) == b && number(2) == c - c % 4
    ensures SpellsLetters(number, t)
  {
    assert t[..2] == [t[0], t[1]];
    forall i: nat | i < 2
      ensures InTable(number(i), t[..2][i])
    {
      assert i == 0 || i == 1;
    }
    assert SpellsRest(number(2), t[2], 4);
  }

  lemma ThreeLetters(t: Bytes)
    requires |t| == 3 && DecodeGroups(t).Some?
    ensures SpellsText(DecodeGroups(t).value, t)
  {
    var a, b, c := Value(t[0]).value, Value(t[1]).value, Value(t[2]).value;
    var r := DecodeGroups(t).value;
    var number := Numbers(r);
    assert InTable(a, t[0]) && InTable(b, t[1]) && InTable(c, t[2]) by {
      HasValue(t[0]);
      HasValue(t[1]);
      HasValue(t[2]);
    }
    assert |r| == 2 && number(0) == a && number(1) == b && number(2) == c - c % 4 by {
      DecodeShort(t);
      Glued(a, b, c, 0);
      TwoBytes(r);
    }
    ThreeSpell(number, t, a, b, c);
  }

  lemma FourNumbers(r: Bytes, a: sextet, b: sextet, c: sextet, d: sextet)
    requires |r| >= 3 && r[0] == Glue(a, b, 4, 16) && r[1] == Glue(b % 16, c, 16, 4) && r[2] == Glue(c % 4, d, 64, 1)
    ensures var number := Numbers(r);
            number(0) == a && number(1) == b && number(2) == c && number(3) == d
  {
    Glued(a, b, c, d);
    GroupBits(r);
  }

  lemma FourLetters(t: Bytes)
    requires |t| >= 4 && DecodeGroups(t).Some?
    ensures var r := DecodeGroups(t).value;
            && DecodeGroups(t[4..]).Some? && |r| >= 3 && r[3..] == DecodeGroups(t[4..]).value
            && Spells(Numbers(r), t[..4])
  {
    DecodeLong(t);
    var r, rest := DecodeGroups(t).value, DecodeGroups(t[4..]).value;
    assert r[3..] == rest;
    HasValue(t[0]);
    HasValue(t[1]);
    HasValue(t[2]);
    HasValue(t[3]);
    FourNumbers(r, Value(t[0]).value, Value(t[1]).value, Value(t[2]).value, Value(t[3]).value);
    FourSpell(Numbers(r), t[..4], 4);
    assert t[..4][..4] == t[..4];
  }

  lemma LongerWhole(number: nat -> int, later: nat -> int, t: Bytes)
    requires |t| >= 4 && Spells(number, t[..4]) && Spells(later, t[4..])
    requires forall i: nat :: later(i) == number(i + 4)
    ensures Spells(number, t)
  {
    SpellsAppend(number, later, t[..4], t[4..]);
    assert t[..4] + t[4..] == t;
  }

  lemma LongerSpell(number: nat -> int, later: nat -> int, t: Bytes)
    requires |t| >= 4 && Spells(number, t[..4]) && SpellsLetters(later, t[4..])
    requires forall i: nat :: later(i) == number(i + 4)
    ensures SpellsLetters(number, t)
  {
    var rest := t[4..];
    assert |rest| % 4 == |t| % 4;
    if |t| % 4 == 0 {
      LongerWhole(number, later, t);
    } else if |t| % 4 >= 2 {
      var front := t[..|t| - 1];
      assert front[..4] == t[..4] && front[4..] == rest[..|rest| - 1];
      LongerWhole(number, later, front);
      assert rest[|rest| - 1] == t[|t| - 1];
      assert later(|rest| - 1) == number(|t| - 1);
    }
  }

  lemma {:induction false} GroupsSpellText(t: Bytes)
    requires DecodeGroups(t).Some?
    ensures SpellsText(DecodeGroups(t).value, t)
  {
    if |t| >= 4 {
      FourLetters(t);
      GroupsSpellText(t[4..]);
      LaterNumbers(DecodeGroups(t).value);
      LongerSpell(Numbers(DecodeGroups(t).value), Numbers(DecodeGroups(t[4..]).value), t);
    } else if |t| == 3 {
      ThreeLetters(t);
    } else if |t| == 2 {
      TwoLetters(t);
    }
  }

  /** What is accepted is read six bits a letter, by the same table. */
  lemma DecodeSpellsText(s: Bytes)
    requires Decode(s).Some?
    ensures SpellsText(Decode(s).value, DropLineBreaks(s))
  {
    GroupsSpellText(DropLineBreaks(s));
  }
}
