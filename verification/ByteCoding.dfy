/** Big-endian integers and fixed-size byte arrays. */
module ByteCoding {
  import opened Common

  type Bytes = seq<byte>
  type Bytes16 = b: Bytes | |b| == 16 witness seq(16, _ => 0)
  type Bytes32 = b: Bytes | |b| == 32 witness seq(32, _ => 0)
  type Bytes64 = b: Bytes | |b| == 64 witness seq(64, _ => 0)

  function Zeros(n: nat): (z: Bytes)
    ensures |z| == n && forall i :: 0 <= i < n ==> z[i] == 0
  {
    seq(n, _ => 0)
  }

  function Power256(k: nat): (p: nat)
    ensures p > 0
  {
    if k == 0 then 1 else 0x100 * Power256(k - 1)
  }

  /** The `k` low bytes of `n`, most significant first. */
  function ToBytes(n: nat, k: nat): (b: Bytes)
    ensures |b| == k
  {
    if k == 0 then [] else ToBytes(n / 0x100, k - 1) + [n % 0x100]
  }

  function FromBytes(b: Bytes): (n: nat)
    ensures n < Power256(|b|)
  {
    if |b| == 0 then 0 else FromBytes(b[..|b| - 1]) * 0x100 + b[|b| - 1]
  }

  lemma {:induction false} FromToBytes(n: nat, k: nat)
    requires n < Power256(k)
    ensures FromBytes(ToBytes(n, k)) == n
    decreases k
  {
    if k > 0 {
      FromToBytes(n / 0x100, k - 1);
      assert ToBytes(n, k)[..k - 1] == ToBytes(n / 0x100, k - 1);
    }
  }

  lemma {:induction false} ToFromBytes(b: Bytes)
    ensures ToBytes(FromBytes(b), |b|) == b
  {
    if |b| > 0 {
      ToFromBytes(b[..|b| - 1]);
    }
  }

  lemma {:induction false} Powers()
    ensures Power256(1) == 0x100 && Power256(2) == 0x1_0000 && Power256(4) == U32_MAX + 1 && Power256(8) == U64_MAX + 1
  {
    assert Power256(2) == 0x1_0000;
    assert Power256(3) == 0x100_0000;
    assert Power256(4) == U32_MAX + 1;
    assert Power256(5) == 0x100_0000_0000;
    assert Power256(6) == 0x1_0000_0000_0000;
    assert Power256(7) == 0x100_0000_0000_0000;
  }

  function U16Bytes(n: u16): (b: Bytes)
    ensures |b| == 2 && FromBytes(b) == n
  {
    Powers();
    FromToBytes(n, 2);
    ToBytes(n, 2)
  }

  function U32Bytes(n: u32): (b: Bytes)
    ensures |b| == 4 && FromBytes(b) == n
  {
    Powers();
    FromToBytes(n, 4);
    ToBytes(n, 4)
  }

  lemma {:induction false} SameU32(a: u32, b: u32)
    requires U32Bytes(a) == U32Bytes(b)
    ensures a == b
  {
  }

  function U64Bytes(n: u64): (b: Bytes)
    ensures |b| == 8 && FromBytes(b) == n
  {
    Powers();
    FromToBytes(n, 8);
    ToBytes(n, 8)
  }

  function U16At(b: Bytes, at: nat): (n: u16)
    requires at + 2 <= |b|
    ensures U16Bytes(n) == b[at..at + 2]
  {
    Powers();
    ToFromBytes(b[at..at + 2]);
    FromBytes(b[at..at + 2])
  }

  function U32At(b: Bytes, at: nat): (n: u32)
    requires at + 4 <= |b|
    ensures U32Bytes(n) == b[at..at + 4]
  {
    Powers();
    ToFromBytes(b[at..at + 4]);
    FromBytes(b[at..at + 4])
  }

  function U64At(b: Bytes, at: nat): (n: u64)
    requires at + 8 <= |b|
    ensures U64Bytes(n) == b[at..at + 8]
  {
    Powers();
    ToFromBytes(b[at..at + 8]);
    FromBytes(b[at..at + 8])
  }
}
