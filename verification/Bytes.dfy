/** Byte strings, fixed-width little-endian integers and positional file writes. */
module Bytes {

  type byte = x: int | 0 <= x < 256
  type bytes = seq<byte>

  const U32_LIMIT: int := 0x1_0000_0000
  const U64_LIMIT: int := 0x1_0000_0000_0000_0000

  type u32 = x: int | 0 <= x < U32_LIMIT
  type u64 = x: int | 0 <= x < U64_LIMIT

  datatype Option<+T> = None | Some(value: T)

  function Zeros(n: nat): (z: bytes)
    ensures |z| == n
  {
    seq(n, _ => 0)
  }

  function Pow256(n: nat): (p: nat)
    ensures p > 0
  {
    if n == 0 then 1 else 256 * Pow256(n - 1)
  }

  /** The n low-order bytes of v, least significant first; higher bits are dropped. */
  function LE(v: nat, n: nat): (b: bytes)
    ensures |b| == n
  {
    if n == 0 then [] else [v % 256] + LE(v / 256, n - 1)
  }

  function UnLE(b: bytes): (v: nat)
    ensures v < Pow256(|b|)
  {
    if b == [] then 0 else b[0] + 256 * UnLE(b[1..])
  }

  /** Byte i of a field is its digit for 256 to the power i. */
  lemma {:induction false} LEAt(v: nat, n: nat, i: nat)
    requires i < n
    ensures LE(v, n)[i] == (v / Pow256(i)) % 256
  {
    if i > 0 {
      LEAt(v / 256, n - 1, i - 1);
      DivStep(v, Pow256(i - 1));
    }
  }

  lemma DivStep(v: nat, p: nat)
    requires p > 0
    ensures v / (256 * p) == (v / 256) / p
  {
    var q, r := v / 256, v % 256;
    var k, m := q / p, q % p;
    assert v == (256 * p) * k + (256 * m + r) by {
      assert q == p * k + m;
      assert 256 * (p * k) == (256 * p) * k;
    }
    assert 0 <= 256 * m + r < 256 * p;
    DivUnique(v, 256 * p, k, 256 * m + r);
  }

  lemma DivUnique(v: nat, d: nat, k: nat, r: nat)
    requires d > 0 && r < d && v == d * k + r
    ensures v / d == k
  {
    var k', r' := v / d, v % d;
    assert d * (k' - k) == r - r';
    MulGap(d, k' - k);
  }

  /** In reading, too, the byte at position i weighs 256 to the power i. */
  lemma {:induction false} UnLEMore(b: bytes, x: byte)
    ensures UnLE(b + [x]) == UnLE(b) + Pow256(|b|) * x
  {
    if b == [] {
      assert ([] + [x])[1..] == [];
    } else {
      assert (b + [x])[1..] == b[1..] + [x];
      UnLEMore(b[1..], x);
      assert 256 * (Pow256(|b| - 1) * x) == (256 * Pow256(|b| - 1)) * x;
    }
  }

  lemma {:induction false} UnLEofLE(v: nat, n: nat)
    ensures UnLE(LE(v, n)) == v % Pow256(n)
  {
    if n != 0 {
      UnLEofLE(v / 256, n - 1);
      assert LE(v, n)[1..] == LE(v / 256, n - 1);
      DivModStep(v, Pow256(n - 1));
    }
  }

  lemma DivModStep(v: nat, p: nat)
    requires p > 0
    ensures v % (256 * p) == v % 256 + 256 * ((v / 256) % p)
  {
    var q, r := v / 256, v % 256;
    var k, m := q / p, q % p;
    assert v == (256 * p) * k + (256 * m + r) by {
      assert q == p * k + m;
      assert 256 * (p * k) == (256 * p) * k;
    }
    assert 0 <= 256 * m + r < 256 * p;
    ModUnique(v, 256 * p, k, 256 * m + r);
  }

  lemma ModUnique(v: nat, d: nat, k: nat, r: nat)
    requires d > 0 && r < d && v == d * k + r
    ensures v % d == r
  {
    var k', r' := v / d, v % d;
    assert d * (k' - k) == r - r';
    MulGap(d, k' - k);
  }

  lemma MulGap(d: int, j: int)
    requires d > 0
    ensures j >= 1 ==> d * j >= d
    ensures j <= -1 ==> d * j <= -d
  {
    if j >= 1 {
      assert d * j == d + d * (j - 1);
    } else if j <= -1 {
      assert d * j == -d + d * (j + 1);
    }
  }

  lemma Pow256Values()
    ensures Pow256(4) == U32_LIMIT && Pow256(8) == U64_LIMIT
  {
    assert Pow256(2) == 0x1_0000;
    assert Pow256(4) == 256 * (256 * Pow256(2));
    assert Pow256(6) == 256 * (256 * Pow256(4));
    assert Pow256(8) == 256 * (256 * Pow256(6));
  }

  /** Writing and reading back a 32- or 64-bit field loses nothing that fits, and truncates the rest. */
  lemma LE32(v: nat)
    ensures UnLE(LE(v, 4)) == v % U32_LIMIT
  {
    UnLEofLE(v, 4);
    Pow256Values();
  }

  lemma LE64(v: nat)
    ensures UnLE(LE(v, 8)) == v % U64_LIMIT
  {
    UnLEofLE(v, 8);
    Pow256Values();
  }

  /** The file after `data` is written at `off`; a gap before `off` reads as zeros. */
  function Splice(f: bytes, off: nat, data: bytes): (r: bytes)
    ensures |r| == if data == [] then |f| else if |f| < off + |data| then off + |data| else |f|
  {
    if data == [] then f
    else
      var g := if |f| < off + |data| then f + Zeros(off + |data| - |f|) else f;
      g[..off] + data + g[off + |data|..]
  }

  lemma SpliceAt(f: bytes, off: nat, data: bytes)
    ensures var r := Splice(f, off, data);
            forall i: nat {:trigger r[i]} | i < |r| ::
              r[i] == if off <= i < off + |data| then data[i - off] else if i < |f| then f[i] else 0
  {
  }

  lemma SpliceReads(f: bytes, off: nat, data: bytes)
    requires data != []
    ensures Splice(f, off, data)[off..off + |data|] == data
  {
    SpliceAt(f, off, data);
  }

  lemma SpliceKeeps(f: bytes, off: nat, data: bytes, lo: nat, hi: nat)
    requires lo <= hi <= |f|
    requires hi <= off || off + |data| <= lo
    ensures Splice(f, off, data)[lo..hi] == f[lo..hi]
  {
    SpliceAt(f, off, data);
  }

  /** Writing a range in two consecutive pieces is writing it at once. */
  lemma SpliceTwice(f: bytes, off: nat, a: bytes, b: bytes)
    ensures Splice(Splice(f, off, a), off + |a|, b) == Splice(f, off, a + b)
  {
    var l, r := Splice(Splice(f, off, a), off + |a|, b), Splice(f, off, a + b);
    SpliceAt(f, off, a);
    SpliceAt(Splice(f, off, a), off + |a|, b);
    SpliceAt(f, off, a + b);
    assert |l| == |r|;
    assert forall i | 0 <= i < |l| :: l[i] == r[i];
  }
}
