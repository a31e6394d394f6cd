/** Bytes, little-endian numbers in them, and overwriting a part of them. */
module Bytes {

  type Byte = x: int | 0 <= x < 256

  const PAGE_SIZE: nat := 4096

  /** How many numbers fit in `n` bytes. */
  function Range(n: nat): (r: nat)
    ensures r > 0
  {
    if n == 0 then 1 else 256 * Range(n - 1)
  }

  /** The number that the bytes stand for, lowest byte first. */
  function Load(b: seq<Byte>): (v: nat)
    ensures v < Range(|b|)
  {
    if b == [] then 0 else b[0] + 256 * Load(b[1..])
  }

  /** The lowest `n` bytes of a number. */
  function Store(v: nat, n: nat): (b: seq<Byte>)
    ensures |b| == n
  {
    if n == 0 then [] else [v % 256] + Store(v / 256, n - 1)
  }

  /** Byte `k` is the one worth 256 to the power of `k`. */
  lemma {:induction false} StoredByte(v: nat, n: nat, k: nat)
    requires k < n
    ensures Store(v, n)[k] == (v / Range(k)) % 256
  {
    if k > 0 {
      var m, j, w := n - 1, k - 1, v / 256;
      StoredByte(w, m, j);
      DividedTwice(v, 256, Range(j));
      assert Store(v, n)[k] == Store(w, m)[j];
    }
  }

  lemma DividedTwice(v: nat, a: nat, b: nat)
    requires a > 0 && b > 0
    ensures a * b > 0 && v / a / b == v / (a * b)
  {
    var q, x := v / a, v % a;
    var r, y := q / b, q % b;
    DivMod(v, a);
    DivMod(q, b);
    Below(a, b, x, y);
    Joined(a, b, q, r, y);
    Quotient(v, a * b, r, a * y + x);
  }

  lemma DivMod(v: nat, a: nat)
    requires a > 0
    ensures v == a * (v / a) + v % a && 0 <= v % a < a
  {
  }

  lemma Joined(a: nat, b: nat, q: nat, r: nat, y: nat)
    requires q == b * r + y
    ensures a * q == a * b * r + a * y
  {
  }

  lemma Below(a: nat, b: nat, x: nat, y: nat)
    requires x < a && y < b
    ensures a * y + x < a * b
  {
    var m := b - 1;
    assert a * y <= a * m;
    assert a * b == a * m + a;
  }

  lemma Quotient(v: nat, d: nat, q: nat, r: nat)
    requires d > 0 && v == d * q + r && r < d
    ensures v / d == q
  {
    var k, s := v / d, v % d;
    assert v == d * k + s && 0 <= s < d;
    if k < q { Scaled(d, k, q - k - 1); }
    if q < k { Scaled(d, q, k - q - 1); }
  }

  lemma Scaled(d: nat, a: nat, c: nat)
    ensures d * (a + 1 + c) >= d * a + d
  {
    assert d * (a + 1 + c) == d * a + d + d * c;
  }

  lemma {:induction false} StoreThenLoad(v: nat, n: nat)
    requires v < Range(n)
    ensures Load(Store(v, n)) == v
  {
    if n > 0 {
      var m := n - 1;
      StoreThenLoad(v / 256, m);
      assert Store(v, n)[1..] == Store(v / 256, m);
    }
  }

  lemma {:induction false} LoadThenStore(b: seq<Byte>)
    ensures Store(Load(b), |b|) == b
  {
    if b != [] {
      var rest := b[1..];
      LoadThenStore(rest);
      var low, high := b[0], Load(rest);
      assert Load(b) == low + 256 * high;
      LowAndHigh(low, high);
      assert b == [low] + rest;
    }
  }

  lemma LowAndHigh(low: Byte, high: nat)
    ensures (low + 256 * high) % 256 == low && (low + 256 * high) / 256 == high
  {
  }

  lemma RangesAre()
    ensures Range(2) == 0x1_0000 && Range(4) == 0x1_0000_0000 && Range(8) == 0x1_0000_0000_0000_0000
  {
    assert Range(2) == 256 * Range(1) == 256 * 256;
    assert Range(4) == 256 * Range(3) == 256 * 256 * Range(2);
    assert Range(6) == 256 * Range(5) == 256 * 256 * Range(4);
    assert Range(8) == 256 * Range(7) == 256 * 256 * Range(6);
  }

  /** A number of `n` bytes at an offset. */
  function Field(b: seq<Byte>, offset: nat, n: nat): (v: nat)
    requires offset + n <= |b|
    ensures v < Range(n)
  {
    Load(b[offset..offset + n])
  }

  /** The bytes with a part overwritten. */
  function Put(b: seq<Byte>, offset: nat, data: seq<Byte>): (r: seq<Byte>)
    requires offset + |data| <= |b|
    ensures |r| == |b|
    ensures r[offset..offset + |data|] == data
    ensures forall k :: 0 <= k < |b| ==> r[k] == if offset <= k < offset + |data| then data[k - offset] else b[k]
  {
    b[..offset] + data + b[offset + |data|..]
  }

  /** The two agree on a part. */
  ghost predicate Same(b: seq<Byte>, c: seq<Byte>, lo: nat, hi: nat) {
    lo <= hi <= |b| == |c| && forall k :: lo <= k < hi ==> b[k] == c[k]
  }

  lemma SameField(b: seq<Byte>, c: seq<Byte>, offset: nat, n: nat)
    requires Same(b, c, offset, offset + n)
    ensures Field(b, offset, n) == Field(c, offset, n)
    ensures b[offset..offset + n] == c[offset..offset + n]
  {
    assert b[offset..offset + n] == c[offset..offset + n];
  }

  lemma PutField(b: seq<Byte>, offset: nat, v: nat, n: nat)
    requires offset + n <= |b| && v < Range(n)
    ensures Field(Put(b, offset, Store(v, n)), offset, n) == v
  {
    StoreThenLoad(v, n);
  }

  // ----- the same, in place -----

  /** Copies bytes to an offset, one after another. */
  method CopyTo(a: array<Byte>, offset: nat, data: seq<Byte>)
    requires offset + |data| <= a.Length
    modifies a
    ensures a[..] == Put(old(a[..]), offset, data)
  {
    var i := 0;
    while i < |data|
      invariant 0 <= i <= |data|
      invariant forall k :: 0 <= k < a.Length ==>
                  a[k] == if offset <= k < offset + i then data[k - offset] else old(a[..])[k]
    {
      a[offset + i] := data[i];
      i := i + 1;
    }
    assert a[..] == Put(old(a[..]), offset, data);
  }

  method StoreField(a: array<Byte>, offset: nat, v: nat, n: nat)
    requires offset + n <= a.Length
    modifies a
    ensures a[..] == Put(old(a[..]), offset, Store(v, n))
  {
    CopyTo(a, offset, Store(v, n));
  }

  method FillZero(a: array<Byte>, lo: nat, hi: nat)
    requires lo <= hi <= a.Length
    modifies a
    ensures a[..] == Put(old(a[..]), lo, seq(hi - lo, _ => 0))
  {
    var i := lo;
    while i < hi
      invariant lo <= i <= hi
      invariant forall k :: 0 <= k < a.Length ==> a[k] == if lo <= k < i then 0 else old(a[..])[k]
    {
      a[i] := 0;
      i := i + 1;
    }
    assert a[..] == Put(old(a[..]), lo, seq(hi - lo, _ => 0));
  }
}
