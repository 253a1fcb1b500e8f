/** Bytes, results and the few sequence facts the other modules share. */
module Basics {

  type byte = b: int | 0 <= b < 256

  /** Go strings and byte slices alike: the model never looks below bytes. */
  type Bytes = seq<byte>

  const TWO_32: int := 0x1_0000_0000
  const TWO_64: int := 0x1_0000_0000_0000_0000

  datatype Option<+T> = None | Some(value: T)

  /** A Go (value, error) pair; usable with `:-`. */
  datatype Result<+T, +E> = Ok(value: T) | Err(error: E) {
    predicate IsFailure() {
      Err?
    }

    function PropagateFailure<U>(): Result<U, E>
      requires Err?
    {
      Err(error)
    }

    function Extract(): T
      requires Ok?
    {
      value
    }
  }

  /** The prefix test of Go's strings.HasPrefix and strings.CutPrefix. */
  predicate HasPrefix(s: Bytes, prefix: Bytes) {
    |prefix| <= |s| && s[..|prefix|] == prefix
  }

  function Max(a: int, b: int): int {
    if a < b then b else a
  }

  lemma Rejoin<T>(s: seq<T>, i: nat)
    requires i <= |s|
    ensures s[..i] + s[i..] == s
    ensures i == 1 ==> s[..i] == [s[0]]
  {
  }

  lemma SliceOfSlice<T>(s: seq<T>, n: nat, m: nat)
    requires n <= m <= |s|
    ensures s[n..][..m - n] == s[..m][n..] == s[n..m]
  {
  }

  lemma Regroup<T>(a: seq<T>, b: seq<T>, c: seq<T>)
    ensures a + b + c == a + (b + c)
  {
  }

  /** 256 to the power k, the weight of a byte k places from the right. */
  function Pow256(k: nat): (p: int)
    ensures p >= 1
  {
    if k == 0 then 1 else 256 * Pow256(k - 1)
  }

  /** The unsigned big-endian number a byte string spells. */
  function BigEndian(s: Bytes): nat {
    if s == [] then 0 else 256 * BigEndian(s[..|s| - 1]) + s[|s| - 1]
  }

  /** The low n bytes of v, most significant first. */
  function ToBytes(v: nat, n: nat): (s: Bytes)
    ensures |s| == n
  {
    if n == 0 then [] else ToBytes(v / 256, n - 1) + [v % 256]
  }

  lemma {:induction false} BigEndianToBytes(v: nat, n: nat)
    requires v < Pow256(n)
    ensures BigEndian(ToBytes(v, n)) == v
  {
    if n > 0 {
      BigEndianToBytes(v / 256, n - 1);
      var s := ToBytes(v, n);
      assert s[..n - 1] == ToBytes(v / 256, n - 1);
    }
  }

  lemma {:induction false} BigEndianBound(s: Bytes)
    ensures BigEndian(s) < Pow256(|s|)
  {
    if s != [] {
      BigEndianBound(s[..|s| - 1]);
    }
  }

  /** The first byte carries the highest weight. */
  lemma {:induction false} BigEndianHead(s: Bytes)
    requires s != []
    ensures BigEndian(s) == s[0] * Pow256(|s| - 1) + BigEndian(s[1..])
  {
    if |s| == 1 {
      assert s[..0] == [];
    } else {
      var init := s[..|s| - 1];
      BigEndianHead(init);
      assert s[1..][..|s| - 2] == init[1..];
      var w := Pow256(|s| - 2);
      assert Pow256(|s| - 1) == 256 * w;
      calc {
        BigEndian(s);
        256 * (s[0] * w + BigEndian(init[1..])) + s[|s| - 1];
        256 * (s[0] * w) + (256 * BigEndian(init[1..]) + s[|s| - 1]);
        256 * (s[0] * w) + BigEndian(s[1..]);
        { assert 256 * (s[0] * w) == s[0] * (256 * w); }
        s[0] * Pow256(|s| - 1) + BigEndian(s[1..]);
      }
    }
  }
}
