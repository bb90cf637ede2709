/** Bytes and fixed-width little-endian integers, as encoding/binary reads and writes them. */
module Bytes {

  newtype byte = x: int | 0 <= x < 256
  type Bytes = seq<byte>

  const TWO_32: nat := 0x1_0000_0000
  const TWO_64: nat := 0x1_0000_0000_0000_0000

  type uint32 = x: int | 0 <= x < TWO_32
  type uint64 = x: int | 0 <= x < TWO_64

  datatype Option<+T> = None | Some(value: T)

  function Min(a: nat, b: nat): nat {
    if a < b then a else b
  }

  function Pow256(k: nat): (p: nat)
    ensures p > 0
  {
    if k == 0 then 1 else 256 * Pow256(k - 1)
  }

  /** The low `k` bytes of `n`, least significant first; higher bytes are dropped. */
  function LE(n: nat, k: nat): (s: Bytes)
    ensures |s| == k
  {
    if k == 0 then [] else [(n % 256) as byte] + LE(n / 256, k - 1)
  }

  function FromLE(s: Bytes): (n: nat)
    ensures n < Pow256(|s|)
  {
    if s == [] then 0 else s[0] as nat + 256 * FromLE(s[1..])
  }

  lemma {:induction false} FromLEOfLE(n: nat, k: nat)
    ensures FromLE(LE(n, k)) == n % Pow256(k)
  {
    if k != 0 {
      FromLEOfLE(n / 256, k - 1);
      assert LE(n, k)[1..] == LE(n / 256, k - 1);
      ModSplit(n, Pow256(k - 1));
    }
  }

  lemma ModSplit(n: nat, m: nat)
    requires m > 0
    ensures n % (256 * m) == n % 256 + 256 * ((n / 256) % m)
  {
    var q, r := n / 256 / m, n / 256 % m;
    assert n == 256 * m * q + (n % 256 + 256 * r) by {
      assert n / 256 == m * q + r;
      assert 256 * (m * q) == 256 * m * q;
    }
    DivModUnique(n, 256 * m, q, n % 256 + 256 * r);
  }

  lemma DivModUnique(n: nat, d: nat, q: nat, r: nat)
    requires d > 0 && r < d && n == d * q + r
    ensures n % d == r && n / d == q
  {
    var gap := n / d - q;
    assert d * gap == d * (n / d) - d * q == r - n % d;
    SmallMultiple(d, gap);
  }

  lemma SmallMultiple(d: int, gap: int)
    requires -d < d * gap < d
    ensures gap == 0
  {
  }

  lemma {:induction false} LEOfFromLE(s: Bytes)
    ensures LE(FromLE(s), |s|) == s
  {
    if s != [] {
      var rest := FromLE(s[1..]);
      LEOfFromLE(s[1..]);
      DivModUnique(FromLE(s), 256, rest, s[0] as nat);
      assert LE(FromLE(s), |s|) == [s[0]] + LE(rest, |s| - 1);
      assert s == [s[0]] + s[1..];
    }
  }

  lemma Widths()
    ensures Pow256(4) == TWO_32 && Pow256(8) == TWO_64
  {
  }

  function U32(n: nat): (s: Bytes)
    ensures |s| == 4
  {
    LE(n, 4)
  }

  function U64(n: nat): (s: Bytes)
    ensures |s| == 8
  {
    LE(n, 8)
  }

  function GetU32(s: Bytes): (n: uint32)
    requires |s| == 4
  {
    Widths();
    FromLE(s)
  }

  function GetU64(s: Bytes): (n: uint64)
    requires |s| == 8
  {
    Widths();
    FromLE(s)
  }

  /** Reading back a written word: exact below the width, truncated above it. */
  lemma RoundTrip32(n: nat)
    ensures GetU32(U32(n)) == n % TWO_32
  {
    Widths();
    FromLEOfLE(n, 4);
  }

  lemma RoundTrip64(n: nat)
    ensures GetU64(U64(n)) == n % TWO_64
  {
    Widths();
    FromLEOfLE(n, 8);
  }

  lemma Inverse32(s: Bytes)
    requires |s| == 4
    ensures U32(GetU32(s)) == s
  {
    LEOfFromLE(s);
  }

  lemma Inverse64(s: Bytes)
    requires |s| == 8
    ensures U64(GetU64(s)) == s
  {
    LEOfFromLE(s);
  }

  /** copy(buf[off:], src), for a source that fits. */
  method Copy(buf: array<byte>, off: nat, src: Bytes)
    requires off + |src| <= buf.Length
    modifies buf
    ensures buf[..] == old(buf[..off]) + src + old(buf[off + |src|..])
  {
    for i := 0 to |src|
      invariant buf[..off] == old(buf[..off]) && buf[off + |src|..] == old(buf[off + |src|..])
      invariant buf[off..off + i] == src[..i]
    {
      buf[off + i] := src[i];
      assert buf[off..off + i + 1] == buf[off..off + i] + [src[i]];
    }
    assert buf[..] == buf[..off] + buf[off..off + |src|] + buf[off + |src|..];
  }

  /** binary.LittleEndian.PutUint32 and PutUint64: the low `k` bytes of `n` at `off`. */
  method Put(buf: array<byte>, off: nat, n: nat, k: nat)
    requires off + k <= buf.Length
    modifies buf
    ensures buf[..] == old(buf[..off]) + LE(n, k) + old(buf[off + k..])
  {
    Copy(buf, off, LE(n, k));
  }

  lemma Assoc(a: Bytes, b: Bytes, c: Bytes)
    ensures (a + b) + c == a + (b + c)
  {
  }

  lemma SliceOfSlice(s: Bytes, a: nat, b: nat, i: nat, j: nat)
    requires a <= b <= |s| && i <= j <= b - a
    ensures s[a..b][i..j] == s[a + i..a + j]
  {
    var t := s[a..b];
    assert forall k :: i <= k < j ==> t[k] == s[a + k];
    assert |t[i..j]| == |s[a + i..a + j]|;
  }

  lemma SliceOfDrop(s: Bytes, a: nat, i: nat, j: nat)
    requires a <= |s| && i <= j <= |s| - a
    ensures s[a..][i..j] == s[a + i..a + j]
  {
  }

  /** The slices of four pieces laid end to end. */
  lemma Slices4(a: Bytes, b: Bytes, c: Bytes, d: Bytes, rest: Bytes)
    ensures var s := a + b + c + d + rest; var i := |a|; var j := i + |b|; var k := j + |c|; var l := k + |d|;
      s[..i] == a && s[i..j] == b && s[j..k] == c && s[k..l] == d && s[l..] == rest
  {
  }
}
