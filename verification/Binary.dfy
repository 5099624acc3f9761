/** Fixed-width integers and their byte orders. */
module Binary {

  type byte = x: nat | x < 0x100
  type uint16 = x: nat | x < 0x1_0000
  type uint32 = x: nat | x < 0x1_0000_0000
  type Bytes = seq<byte>

  function Pow256(k: nat): nat { if k == 0 then 1 else 256 * Pow256(k - 1) }

  /** The low `k` bytes of `n`, most significant first. */
  function BigEndian(n: nat, k: nat): (s: Bytes)
    ensures |s| == k
  {
    if k == 0 then [] else BigEndian(n / 256, k - 1) + [n % 256]
  }

  function FromBigEndian(s: Bytes): nat {
    if s == [] then 0 else 256 * FromBigEndian(s[..|s| - 1]) + s[|s| - 1]
  }

  /** The low `k` bytes of `n`, least significant first. */
  function LittleEndian(n: nat, k: nat): (s: Bytes)
    ensures |s| == k
  {
    if k == 0 then [] else [n % 256] + LittleEndian(n / 256, k - 1)
  }

  function FromLittleEndian(s: Bytes): nat {
    if s == [] then 0 else s[0] + 256 * FromLittleEndian(s[1..])
  }

  lemma {:induction false} RoundTrips(n: nat, k: nat)
    requires n < Pow256(k)
    ensures FromBigEndian(BigEndian(n, k)) == n && FromLittleEndian(LittleEndian(n, k)) == n
  {
    if k > 0 {
      assert n / 256 < Pow256(k - 1);
      RoundTrips(n / 256, k - 1);
      assert BigEndian(n, k)[..k - 1] == BigEndian(n / 256, k - 1);
      assert LittleEndian(n, k)[1..] == LittleEndian(n / 256, k - 1);
    }
  }

  /** Which end comes first. */
  lemma {:induction false} ByteOrders(n: nat, k: nat)
    requires k > 0
    ensures BigEndian(n, k)[k - 1] == n % 256 && LittleEndian(n, k)[0] == n % 256
    ensures BigEndian(n, k)[..k - 1] == BigEndian(n / 256, k - 1)
    ensures LittleEndian(n, k)[1..] == LittleEndian(n / 256, k - 1)
  {
  }

  lemma {:induction false} Bounds(s: Bytes)
    ensures FromBigEndian(s) < Pow256(|s|)
  {
    if s != [] { Bounds(s[..|s| - 1]); }
  }

  lemma {:induction false} Powers()
    ensures Pow256(2) == 0x1_0000 && Pow256(4) == 0x1_0000_0000 && Pow256(8) == 0x1_0000_0000_0000_0000
  {
    assert Pow256(6) == 0x1_0000_0000_0000;
  }

  /** Whole turns do not show in a counter that wraps. */
  lemma {:induction false} Turns16(r: int, k: int)
    ensures (r + 0x1_0000 * k) % 0x1_0000 == r % 0x1_0000
  {
  }

  lemma {:induction false} Turns32(r: int, k: int)
    ensures (r + 0x1_0000_0000 * k) % 0x1_0000_0000 == r % 0x1_0000_0000
  {
  }
}
