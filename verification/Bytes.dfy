/**
 Bytes, the bit fields the relay reads out of them, and big-endian integers.

 A byte is an integer, so that lengths and bytes live in one arithmetic. The masks of the
 Go code become quotients and remainders; the four `Mask...` lemmas show, over 8-bit
 vectors, that each of them is the mask it stands for.
 */
module Bytes {

  type Byte = b: int | 0 <= b < 256

  const TWO16: nat := 0x1_0000
  const TWO32: nat := 0x1_0000_0000

  /** The results of `f` on each element, end to end. */
  function FlatMap<A, B>(f: A -> seq<B>, s: seq<A>): seq<B> {
    if s == [] then [] else f(s[0]) + FlatMap(f, s[1..])
  }

  lemma {:induction false} FlatMapAppend<A, B>(f: A -> seq<B>, a: seq<A>, b: seq<A>)
    ensures FlatMap(f, a + b) == FlatMap(f, a) + FlatMap(f, b)
  {
    if a == [] {
      assert a + b == b;
    } else {
      var x, rest := f(a[0]), a[1..];
      calc {
        FlatMap(f, a + b);
        { assert (a + b)[0] == a[0] && (a + b)[1..] == rest + b; }
        x + FlatMap(f, rest + b);
        { FlatMapAppend(f, rest, b); }
        x + (FlatMap(f, rest) + FlatMap(f, b));
        (x + FlatMap(f, rest)) + FlatMap(f, b);
      }
    }
  }

  lemma {:induction false} FlatMapOne<A, B>(f: A -> seq<B>, x: A)
    ensures FlatMap(f, [x]) == f(x)
  {
    assert FlatMap(f, [x]) == f(x) + FlatMap(f, [x][1..]) == f(x) + [];
  }

  /** The state after taking in each element in turn. */
  function Fold<S, A>(next: (S, A) -> S, state: S, s: seq<A>): S
    decreases |s|
  {
    if s == [] then state else Fold(next, next(state, s[0]), s[1..])
  }

  /** What each element gives in the state it finds, end to end. */
  function Scan<S, A, B>(next: (S, A) -> S, gives: (S, A) -> seq<B>, state: S, s: seq<A>): seq<B>
    decreases |s|
  {
    if s == [] then [] else gives(state, s[0]) + Scan(next, gives, next(state, s[0]), s[1..])
  }

  lemma {:induction false} FoldAppend<S, A>(next: (S, A) -> S, state: S, a: seq<A>, b: seq<A>)
    ensures Fold(next, state, a + b) == Fold(next, Fold(next, state, a), b)
    decreases |a|
  {
    if a == [] {
      assert a + b == b;
    } else {
      FoldAppend(next, next(state, a[0]), a[1..], b);
      assert (a + b)[0] == a[0] && (a + b)[1..] == a[1..] + b;
    }
  }

  lemma {:induction false} ScanAppend<S, A, B>(next: (S, A) -> S, gives: (S, A) -> seq<B>, state: S,
                                               a: seq<A>, b: seq<A>)
    ensures Scan(next, gives, state, a + b) ==
            Scan(next, gives, state, a) + Scan(next, gives, Fold(next, state, a), b)
    decreases |a|
  {
    if a == [] {
      assert a + b == b;
    } else {
      var state1, x, rest := next(state, a[0]), gives(state, a[0]), a[1..];
      calc {
        Scan(next, gives, state, a + b);
        { assert (a + b)[0] == a[0] && (a + b)[1..] == rest + b; }
        x + Scan(next, gives, state1, rest + b);
        { ScanAppend(next, gives, state1, rest, b); }
        x + (Scan(next, gives, state1, rest) + Scan(next, gives, Fold(next, state1, rest), b));
        (x + Scan(next, gives, state1, rest)) + Scan(next, gives, Fold(next, state1, rest), b);
      }
    }
  }

  lemma {:induction false} FoldOne<S, A>(next: (S, A) -> S, state: S, x: A)
    ensures Fold(next, state, [x]) == next(state, x)
  {
    assert [x][1..] == [];
    assert Fold(next, next(state, x), [x][1..]) == next(state, x);
  }

  lemma {:induction false} ScanOne<S, A, B>(next: (S, A) -> S, gives: (S, A) -> seq<B>, state: S, x: A)
    ensures Scan(next, gives, state, [x]) == gives(state, x)
  {
    assert Scan(next, gives, state, [x]) == gives(state, x) + Scan(next, gives, next(state, x), [x][1..]);
  }

  /** `b & 0x1f`: the NAL unit type. */
  function Low5(b: Byte): Byte {
    b % 32
  }

  /** `(a & 0xe0) | (b & 0x1f)`: the three high bits of `a` over the five low bits of `b`. */
  function Splice(a: Byte, b: Byte): Byte {
    a / 32 * 32 + b % 32
  }

  /** `b & 0x80 != 0`: the start bit of an FU header. */
  predicate Bit7(b: Byte) {
    128 <= b
  }

  /** `b & 0x40 != 0`: the end bit of an FU header. */
  predicate Bit6(b: Byte) {
    b / 64 % 2 == 1
  }

  lemma {:induction false} MaskLow5(b: bv8)
    ensures (b & 0x1f) as int == Low5(b as int)
  {
  }

  lemma {:induction false} MaskBit7(b: bv8)
    ensures b & 0x80 != 0 <==> Bit7(b as int)
  {
  }

  lemma {:induction false} MaskBit6(b: bv8)
    ensures b & 0x40 != 0 <==> Bit6(b as int)
  {
  }

  lemma {:induction false} MaskHigh3(b: bv8)
    ensures (b & 0xe0) as int == b as int / 32 * 32
  {
  }

  lemma {:induction false} MaskSplice(a: bv8, b: bv8)
    ensures ((a & 0xe0) | (b & 0x1f)) as int == Splice(a as int, b as int)
  {
    MaskHigh3(a);
    MaskLow5(b);
    assert (a & 0xe0) | (b & 0x1f) == (a & 0xe0) + (b & 0x1f);
  }

  /** A 16-bit big-endian integer, as `int(hi)<<8 | int(lo)`. */
  function U16(hi: Byte, lo: Byte): (n: nat)
    ensures n < TWO16
  {
    hi * 256 + lo
  }

  function PutU16(n: nat): (s: seq<Byte>)
    requires n < TWO16
    ensures |s| == 2 && U16(s[0], s[1]) == n
  {
    [n / 256, n % 256]
  }

  function Pow256(k: nat): (p: nat)
    ensures 1 <= p
  {
    if k == 0 then 1 else 256 * Pow256(k - 1)
  }

  lemma {:induction false} Pow256Of4()
    ensures Pow256(4) == TWO32
  {
    assert Pow256(1) == 256;
    assert Pow256(2) == 0x1_0000;
    assert Pow256(3) == 0x100_0000;
  }

  /** The integer a big-endian byte string spells. */
  function BigEndian(s: seq<Byte>): nat {
    if s == [] then 0 else BigEndian(s[..|s| - 1]) * 256 + s[|s| - 1]
  }

  /** The low `k` bytes of `n`, most significant first; higher bytes of `n` are cut off. */
  function PutBigEndian(n: nat, k: nat): (s: seq<Byte>)
    ensures |s| == k
    decreases n, k
  {
    if k == 0 then [] else PutBigEndian(n / 256, k - 1) + [n % 256]
  }

  lemma {:induction false} BigEndianBound(s: seq<Byte>)
    ensures BigEndian(s) < Pow256(|s|)
  {
    if s != [] {
      BigEndianBound(s[..|s| - 1]);
    }
  }

  lemma {:induction false} PutThenRead(n: nat, k: nat)
    requires n < Pow256(k)
    ensures BigEndian(PutBigEndian(n, k)) == n
    decreases k
  {
    if k != 0 {
      PutThenRead(n / 256, k - 1);
      assert PutBigEndian(n, k)[..k - 1] == PutBigEndian(n / 256, k - 1);
    }
  }

  lemma {:induction false} ReadThenPut(s: seq<Byte>)
    ensures PutBigEndian(BigEndian(s), |s|) == s
  {
    if s != [] {
      var front, last := s[..|s| - 1], s[|s| - 1];
      ReadThenPut(front);
      assert BigEndian(s) / 256 == BigEndian(front) && BigEndian(s) % 256 == last;
      assert s == front + [last];
    }
  }

  lemma {:induction false} PutInjective(m: nat, n: nat, k: nat)
    requires m < Pow256(k) && n < Pow256(k)
    requires PutBigEndian(m, k) == PutBigEndian(n, k)
    ensures m == n
  {
    PutThenRead(m, k);
    PutThenRead(n, k);
  }

  /** Four bytes in network order, as binary.BigEndian reads and writes them. */
  lemma {:induction false} NetworkOrder(a: Byte, b: Byte, c: Byte, d: Byte)
    ensures BigEndian([a, b, c, d]) == ((a * 256 + b) * 256 + c) * 256 + d
    ensures PutBigEndian(((a * 256 + b) * 256 + c) * 256 + d, 4) == [a, b, c, d]
  {
    FourBytes(a, b, c, d);
    ReadThenPut([a, b, c, d]);
  }

  lemma {:induction false} FourBytes(a: Byte, b: Byte, c: Byte, d: Byte)
    ensures BigEndian([a, b, c, d]) == ((a * 256 + b) * 256 + c) * 256 + d
  {
    BigEndianSnoc([], a);
    BigEndianSnoc([a], b);
    BigEndianSnoc([a, b], c);
    BigEndianSnoc([a, b, c], d);
    assert [] + [a] == [a] && [a] + [b] == [a, b] && [a, b] + [c] == [a, b, c];
    assert [a, b, c] + [d] == [a, b, c, d];
  }

  lemma {:induction false} BigEndianSnoc(s: seq<Byte>, b: Byte)
    ensures BigEndian(s + [b]) == BigEndian(s) * 256 + b
  {
    assert (s + [b])[..|s|] == s && (s + [b])[|s|] == b;
  }
}
