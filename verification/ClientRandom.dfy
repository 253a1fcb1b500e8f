/** The "prefix/mask" notation for TLS client randoms: tturl/client_random.go. */
module ClientRandom {
  import opened Basics
  import Hex

  datatype RandomPrefix = RandomPrefix(prefix: Bytes, mask: Bytes) {
    predicate IsEmpty() {
      prefix == [] && mask == []
    }

    function Print(): Bytes {
      Hex.Encode(prefix) + if mask != [] then [SLASH] + Hex.Encode(mask) else []
    }
  }

  const SLASH: byte := 47
  const MAX_RANDOM_PREFIX_LEN: int := 32
  const NO_PREFIX := RandomPrefix([], [])

  /** strings.Cut: what stands before and after the first separator, and whether there is one. */
  function Cut(s: Bytes, separator: byte): (r: (Bytes, Bytes, bool))
    ensures r.2 ==> s == r.0 + [separator] + r.1
    ensures !r.2 ==> s == r.0 && r.1 == []
    ensures separator !in r.0
  {
    if s == [] then ([], [], false)
    else if s[0] == separator then ([], s[1..], true)
    else
      var (before, after, found) := Cut(s[1..], separator);
      ([s[0]] + before, after, found)
  }

  function DecodeHex(s: Bytes): Option<Bytes> {
    match Hex.Decode(s)
    case None => None
    case Some(v) => if |v| > MAX_RANDOM_PREFIX_LEN then None else Some(v)
  }

  function Parse(raw: Bytes): Option<RandomPrefix> {
    var (prefixHex, maskHex, hasMask) := Cut(raw, SLASH);
    match DecodeHex(prefixHex)
    case None => None
    case Some(prefix) =>
      if !hasMask then Some(RandomPrefix(prefix, []))
      else if maskHex == [] then None
      else
        match DecodeHex(maskHex)
        case None => None
        case Some(mask) => Some(RandomPrefix(prefix, mask))
  }

  /** What the notation can carry: at most 32 bytes on either side. */
  predicate Fits(c: RandomPrefix) {
    |c.prefix| <= MAX_RANDOM_PREFIX_LEN && |c.mask| <= MAX_RANDOM_PREFIX_LEN
  }

  lemma {:induction false} CutAtFirst(before: Bytes, after: Bytes, separator: byte)
    requires separator !in before
    ensures Cut(before + [separator] + after, separator) == (before, after, true)
    ensures Cut(before, separator) == (before, [], false)
  {
    var s := before + [separator] + after;
    if before == [] {
      assert s[1..] == after;
    } else {
      CutAtFirst(before[1..], after, separator);
      assert s[1..] == before[1..] + [separator] + after;
      assert before == [before[0]] + before[1..];
    }
  }

  /** Printing then parsing gives the value back exactly when both sides fit; otherwise it is refused. */
  lemma ParsePrint(c: RandomPrefix)
    ensures Parse(c.Print()) == if Fits(c) then Some(c) else None
  {
    Hex.DecodeEncode(c.prefix);
    Hex.DecodeEncode(c.mask);
    CutAtFirst(Hex.Encode(c.prefix), Hex.Encode(c.mask), SLASH);
    assert c.mask != [] ==> c.Print() == Hex.Encode(c.prefix) + [SLASH] + Hex.Encode(c.mask);
    assert c.mask == [] ==> c.Print() == Hex.Encode(c.prefix);
  }

  lemma LowerSides(prefixHex: Bytes, maskHex: Bytes)
    ensures Hex.Lower(prefixHex + [SLASH] + maskHex) == Hex.Lower(prefixHex) + ([SLASH] + Hex.Lower(maskHex))
  {
    Hex.LowerAppend(prefixHex + [SLASH], maskHex);
    Hex.LowerAppend(prefixHex, [SLASH]);
    assert Hex.Lower([SLASH]) == [SLASH];
    Regroup(Hex.Lower(prefixHex), [SLASH], Hex.Lower(maskHex));
  }

  lemma SidePrintParse(hex: Bytes)
    requires DecodeHex(hex).Some?
    ensures |DecodeHex(hex).value| <= MAX_RANDOM_PREFIX_LEN && Hex.Encode(DecodeHex(hex).value) == Hex.Lower(hex)
    ensures hex != [] ==> DecodeHex(hex).value != []
  {
    Hex.EncodeDecode(hex);
  }

  /** Everything the parser accepts fits, and prints as the same text in lower case. */
  lemma PrintParse(raw: Bytes)
    requires Parse(raw).Some?
    ensures Fits(Parse(raw).value)
    ensures Parse(raw).value.Print() == Hex.Lower(raw)
  {
    var (prefixHex, maskHex, hasMask) := Cut(raw, SLASH);
    SidePrintParse(prefixHex);
    if hasMask {
      SidePrintParse(maskHex);
      LowerSides(prefixHex, maskHex);
    }
  }

  /** Hex, and a mask behind a slash if there is one. */
  lemma PrintMeans(c: RandomPrefix)
    ensures c.mask == [] ==> c.Print() == Hex.Encode(c.prefix)
    ensures c.mask != [] ==> c.Print() == Hex.Encode(c.prefix) + ['/' as int] + Hex.Encode(c.mask)
  {
  }

  /** A text is accepted as c exactly if c has at most 32 bytes on either side and prints as that text in lower case. */
  lemma ParseMeans(raw: Bytes, c: RandomPrefix)
    ensures Parse(raw) == Some(c) <==> |c.prefix| <= 32 && |c.mask| <= 32 && Hex.Lower(raw) == c.Print()
  {
    if Parse(raw) == Some(c) {
      PrintParse(raw);
    }
    if |c.prefix| <= 32 && |c.mask| <= 32 && Hex.Lower(raw) == c.Print() {
      LowerParses(raw, c);
    }
  }

  lemma HexHasNoSlash(hex: Bytes, v: Bytes)
    requires Hex.Lower(hex) == Hex.Encode(v)
    ensures SLASH !in hex
  {
    Hex.DecodeEncode(v);
    forall i | 0 <= i < |hex|
      ensures hex[i] != SLASH
    {
      assert Hex.Lower(hex)[i] in Hex.Encode(v);
    }
  }

  lemma PrefixParses(raw: Bytes, prefix: Bytes)
    requires |prefix| <= MAX_RANDOM_PREFIX_LEN && Hex.Lower(raw) == Hex.Encode(prefix)
    ensures Parse(raw) == Some(RandomPrefix(prefix, []))
  {
    HexHasNoSlash(raw, prefix);
    Hex.DecodeMeans(raw, prefix);
    CutAtFirst(raw, [], SLASH);
  }

  lemma MaskParses(front: Bytes, back: Bytes, c: RandomPrefix)
    requires Fits(c) && c.mask != []
    requires Hex.Lower(front) == Hex.Encode(c.prefix) && Hex.Lower(back) == Hex.Encode(c.mask)
    ensures Parse(front + [SLASH] + back) == Some(c)
  {
    HexHasNoSlash(front, c.prefix);
    Hex.DecodeMeans(front, c.prefix);
    Hex.DecodeMeans(back, c.mask);
    CutAtFirst(front, back, SLASH);
  }

  lemma SplitLower(raw: Bytes, a: Bytes, b: Bytes)
    requires Hex.Lower(raw) == a + [SLASH] + b
    ensures |raw| > |a| && raw == raw[..|a|] + [SLASH] + raw[|a| + 1..]
    ensures Hex.Lower(raw[..|a|]) == a && Hex.Lower(raw[|a| + 1..]) == b
  {
    assert Hex.Lower(raw)[|a|] == Hex.LowerByte(raw[|a|]) == SLASH;
  }

  lemma LowerParses(raw: Bytes, c: RandomPrefix)
    requires Fits(c) && Hex.Lower(raw) == c.Print()
    ensures Parse(raw) == Some(c)
  {
    var a, b := Hex.Encode(c.prefix), Hex.Encode(c.mask);
    if c.mask == [] {
      assert c.Print() == a;
      PrefixParses(raw, c.prefix);
    } else {
      assert c.Print() == a + [SLASH] + b;
      SplitLower(raw, a, b);
      MaskParses(raw[..|a|], raw[|a| + 1..], c);
    }
  }
}
