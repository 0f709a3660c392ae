/** Byte strings and the big-endian integer codec of Python's
    `int.to_bytes(width, "big")` and `int.from_bytes(s, "big", signed=False)`,
    plus the slicing rules of Python byte arrays. */
module Bytes {

  type Byte = b: int | 0 <= b < 256

  type Bytes = seq<Byte>

  function Pow256(n: nat): (r: nat)
    ensures r > 0
  {
    if n == 0 then 1 else 256 * Pow256(n - 1)
  }

  lemma Pow256Values()
    ensures Pow256(1) == 256 && Pow256(2) == 0x1_0000 && Pow256(4) == 0x1_0000_0000
    ensures Pow256(8) == 0x1_0000_0000_0000_0000
  {
    assert Pow256(2) == 256 * Pow256(1);
    assert Pow256(3) == 256 * Pow256(2);
    assert Pow256(4) == 256 * Pow256(3);
    assert Pow256(8) == 256 * 256 * 256 * 256 * Pow256(4);
  }

  /** `n.to_bytes(width, "big")`, defined where Python does not raise OverflowError. */
  function ToBigEndian(n: nat, width: nat): (r: Bytes)
    requires n < Pow256(width)
    ensures |r| == width
  {
    if width == 0 then [] else ToBigEndian(n / 256, width - 1) + [n % 256]
  }

  /** `int.from_bytes(s, "big", signed=False)`: an empty string reads as 0. */
  function FromBigEndian(s: Bytes): (r: nat)
    ensures r < Pow256(|s|)
  {
    if s == [] then 0 else FromBigEndian(s[..|s| - 1]) * 256 + s[|s| - 1]
  }

  /** Encoding then decoding gives the number back. */
  lemma {:induction false} FromToBigEndian(n: nat, width: nat)
    requires n < Pow256(width)
    ensures FromBigEndian(ToBigEndian(n, width)) == n
  {
    if width > 0 {
      var s := ToBigEndian(n, width);
      assert s[..|s| - 1] == ToBigEndian(n / 256, width - 1);
      FromToBigEndian(n / 256, width - 1);
    }
  }

  /** Decoding then encoding at the same width gives the bytes back. */
  lemma {:induction false} ToFromBigEndian(s: Bytes)
    ensures ToBigEndian(FromBigEndian(s), |s|) == s
  {
    if s != [] {
      var init, last := s[..|s| - 1], s[|s| - 1];
      ToFromBigEndian(init);
      var n := FromBigEndian(s);
      assert n == FromBigEndian(init) * 256 + last;
      DivModByte(FromBigEndian(init), last);
      assert ToBigEndian(n, |s|) == ToBigEndian(FromBigEndian(init), |init|) + [last];
      assert s == init + [last];
    }
  }

  /** A number written with one more low byte gives that byte and the
      number back. */
  lemma DivModByte(q: nat, b: Byte)
    ensures (q * 256 + b) / 256 == q && (q * 256 + b) % 256 == b
  {
  }

  /** Two bytes read big-endian. */
  lemma FromBigEndian2(s: Bytes)
    requires |s| == 2
    ensures FromBigEndian(s) == s[0] as int * 256 + s[1]
  {
    assert s[..1][..0] == [];
  }

  /** Two bytes written big-endian. */
  lemma ToBigEndian2(n: nat)
    requires n < 0x1_0000
    ensures Pow256(2) == 0x1_0000
    ensures ToBigEndian(n, 2) == [n / 256, n % 256]
  {
    Pow256Values();
  }

  /** Python's `s[lo:hi]` for non-negative bounds: both ends are clipped to
      the length, and an empty slice results when lo passes hi. */
  function Slice(s: Bytes, lo: nat, hi: nat): (r: Bytes)
    ensures lo <= hi <= |s| ==> r == s[lo..hi]
    ensures hi <= |s| ==> |r| == if lo <= hi then hi - lo else 0
    ensures |r| <= |s|
  {
    var h := if hi < |s| then hi else |s|;
    var l := if lo < h then lo else h;
    s[l..h]
  }

  /** Python's `s[lo:]`. */
  function Drop(s: Bytes, lo: nat): (r: Bytes)
    ensures lo <= |s| ==> r == s[lo..]
    ensures lo >= |s| ==> r == []
  {
    if lo < |s| then s[lo..] else []
  }

  /** Dropping the head of a concatenation drops it from the left part. */
  lemma TailAppend<T>(a: seq<T>, b: seq<T>)
    requires |a| >= 1
    ensures (a + b)[1..] == a[1..] + b
  {
  }

  /** Concatenation is associative; stated once so that proofs need not
      compare long sequences element by element. */
  lemma ConcatAssoc<T>(a: seq<T>, b: seq<T>, c: seq<T>)
    ensures (a + b) + c == a + (b + c)
  {
  }

  /** The four parts of a four-part concatenation, found back by offset. */
  lemma Split4<T>(s: seq<T>, a: seq<T>, b: seq<T>, c: seq<T>, d: seq<T>)
    requires s == a + b + c + d
    ensures s[..|a|] == a && s[|a|..|a| + |b|] == b
    ensures s[|a| + |b|..|a| + |b| + |c|] == c && s[|a| + |b| + |c|..|s|] == d
  {
    assert s == a + (b + (c + d));
    assert s[|a|..] == b + (c + d);
    assert s[|a| + |b|..] == c + d;
  }

  /** The middle part of a concatenation, found back by offset. */
  lemma Middle<T>(pre: seq<T>, mid: seq<T>, post: seq<T>)
    ensures (pre + (mid + post))[|pre|..|pre| + |mid|] == mid
    ensures |mid| > 0 ==> (pre + (mid + post))[|pre|] == mid[0]
    ensures |mid| == 0 && |post| > 0 ==> (pre + (mid + post))[|pre|] == post[0]
  {
    assert (pre + (mid + post))[|pre|..] == mid + post;
  }

  /** A slice of a suffix is a slice of the whole. */
  lemma SliceOfSuffix<T>(r: seq<T>, k: nat, i: nat, j: nat)
    requires k <= |r| && i <= j <= |r| - k
    ensures r[k..][i..j] == r[k + i..k + j]
  {
  }
}
