/** The byte strings that are hashed to identifiers and that separate key derivations. */
module Kdf {
  import opened Common
  import opened ByteCoding

  /** `MEF-26` */
  const PROTOCOL_ID: Bytes := [0x4D, 0x45, 0x46, 0x2D, 0x32, 0x36]
  /** `blake3-id` */
  const IDENTIFIER_KIND: Bytes := [0x62, 0x6C, 0x61, 0x6B, 0x65, 0x33, 0x2D, 0x69, 0x64]

  predicate NoNul(b: Bytes) {
    forall i :: 0 <= i < |b| ==> b[i] != 0
  }

  predicate PartsFit(parts: seq<Bytes>) {
    forall i :: 0 <= i < |parts| ==> |parts[i]| <= MAX_CIPHERTEXT_LEN
  }

  /** `MEF-26`, a zero byte, the kind, a zero byte, the label. */
  function DomainBytes(kind: Bytes, text: Bytes): Bytes {
    PROTOCOL_ID + [0] + kind + [0] + text
  }

  method DomainLabel(kind: Bytes, text: Bytes) returns (info: Bytes)
    ensures info == DomainBytes(kind, text)
  {
    info := PROTOCOL_ID;
    info := info + [0];
    info := info + kind;
    info := info + [0];
    info := info + text;
  }

  /** Each part after its 64-bit length. */
  function PartsBytes(parts: seq<Bytes>): Bytes
    requires PartsFit(parts)
  {
    if |parts| == 0 then []
    else
      var last := parts[|parts| - 1];
      PartsBytes(parts[..|parts| - 1]) + U64Bytes(|last|) + last
  }

  /** What `blake3_id` hashes, or why it refuses. */
  function HashInput(text: Bytes, parts: seq<Bytes>): Result<Bytes> {
    if |text| == 0 || |text| > 255 || !PartsFit(parts) then Err(InvalidLength)
    else Ok(DomainBytes(IDENTIFIER_KIND, text) + PartsBytes(parts))
  }

  lemma {:induction false} PartsGrow(parts: seq<Bytes>, i: nat)
    requires PartsFit(parts) && i < |parts|
    ensures PartsBytes(parts[..i + 1]) == PartsBytes(parts[..i]) + U64Bytes(|parts[i]|) + parts[i]
  {
    assert parts[..i + 1][..i] == parts[..i];
  }

  method Blake3Id(hash: Bytes -> Bytes32, text: Bytes, parts: seq<Bytes>) returns (r: Result<Bytes32>)
    ensures r == match HashInput(text, parts)
                 case Err(e) => Err(e)
                 case Ok(input) => Ok(hash(input))
  {
    if |text| == 0 || |text| > 255 || exists i :: 0 <= i < |parts| && |parts[i]| > MAX_CIPHERTEXT_LEN {
      return Err(InvalidLength);
    }
    hide U64Bytes;
    assert PartsBytes(parts[..0]) == [];
    hide PartsBytes;
    var hashed: Bytes := PROTOCOL_ID;
    hashed := hashed + [0];
    hashed := hashed + IDENTIFIER_KIND;
    hashed := hashed + [0];
    hashed := hashed + text;
    for i := 0 to |parts|
      invariant hashed == DomainBytes(IDENTIFIER_KIND, text) + PartsBytes(parts[..i])
    {
      PartsGrow(parts, i);
      hashed := hashed + U64Bytes(|parts[i]|);
      hashed := hashed + parts[i];
    }
    assert parts[..|parts|] == parts;
    return Ok(hash(hashed));
  }

  // ---- injectivity --------------------------------------------------------------------------

  lemma {:induction false} TopByteZero(n: nat, k: nat)
    requires k > 0 && n < Power256(k - 1)
    ensures ToBytes(n, k)[0] == 0
  {
    if k > 1 {
      TopByteZero(n / 0x100, k - 1);
    }
  }

  /** A length within the limit starts with a zero byte. */
  lemma {:induction false} LengthStartsWithZero(n: nat)
    requires n <= MAX_CIPHERTEXT_LEN
    ensures U64Bytes(n)[0] == 0
  {
    assert Power256(2) == 0x1_0000;
    assert Power256(4) == 0x1_0000_0000;
    assert Power256(7) == 0x1_000000 * Power256(4);
    TopByteZero(n, 8);
  }

  /** The bytes of a non-empty list start with its first part. */
  lemma {:induction false} PartsFromFront(parts: seq<Bytes>)
    requires PartsFit(parts) && |parts| > 0
    ensures PartsBytes(parts) == U64Bytes(|parts[0]|) + parts[0] + PartsBytes(parts[1..])
    decreases |parts|
  {
    hide U64Bytes;
    var n := |parts| - 1;
    if n > 0 {
      PartsFromFront(parts[..n]);
      assert parts[1..][n - 1] == parts[n];
      assert parts[..n][1..] == parts[1..][..n - 1];
    }
  }

  lemma {:induction false} FramedInjective(x: Bytes, r: Bytes, y: Bytes, s: Bytes)
    requires |x| <= MAX_CIPHERTEXT_LEN && |y| <= MAX_CIPHERTEXT_LEN
    requires U64Bytes(|x|) + x + r == U64Bytes(|y|) + y + s
    ensures x == y && r == s
  {
    var a, b := U64Bytes(|x|) + x + r, U64Bytes(|y|) + y + s;
    assert a[..8] == U64Bytes(|x|) && b[..8] == U64Bytes(|y|);
    assert FromBytes(a[..8]) == |x| && FromBytes(b[..8]) == |y|;
    var n := 8 + |x|;
    assert a[8..n] == x && b[8..n] == y;
    assert a[n..] == r && b[n..] == s;
  }

  lemma {:induction false} PartsInjective(p: seq<Bytes>, q: seq<Bytes>)
    requires PartsFit(p) && PartsFit(q) && PartsBytes(p) == PartsBytes(q)
    ensures p == q
    decreases |p|
  {
    hide U64Bytes;
    if |p| > 0 && |q| > 0 {
      PartsFromFront(p);
      PartsFromFront(q);
      FramedInjective(p[0], PartsBytes(p[1..]), q[0], PartsBytes(q[1..]));
      PartsInjective(p[1..], q[1..]);
      assert p == [p[0]] + p[1..] && q == [q[0]] + q[1..];
    } else if |p| > 0 {
      PartsFromFront(p);
    } else if |q| > 0 {
      PartsFromFront(q);
    }
  }

  /** A label without zero bytes ends where the parts begin. */
  lemma {:induction false} LabelNotLonger(l1: Bytes, p1: seq<Bytes>, l2: Bytes, p2: seq<Bytes>)
    requires NoNul(l2) && PartsFit(p1) && PartsFit(p2)
    requires l1 + PartsBytes(p1) == l2 + PartsBytes(p2)
    ensures |l2| <= |l1|
  {
    if |p1| > 0 {
      ZeroAfterLabel(l1, p1);
    }
    var b := l2 + PartsBytes(p2);
    assert forall i :: 0 <= i < |l2| ==> b[i] == l2[i];
  }

  lemma {:induction false} ZeroAfterLabel(text: Bytes, parts: seq<Bytes>)
    requires PartsFit(parts) && |parts| > 0
    ensures |PartsBytes(parts)| > 0 && (text + PartsBytes(parts))[|text|] == 0
  {
    PartsFromFront(parts);
    LengthStartsWithZero(|parts[0]|);
  }

  /** For labels without zero bytes, the hashed bytes determine the label and the whole list of parts. */
  lemma {:induction false} HashInputInjective(l1: Bytes, p1: seq<Bytes>, l2: Bytes, p2: seq<Bytes>)
    requires NoNul(l1) && NoNul(l2)
    requires HashInput(l1, p1).Ok? && HashInput(l1, p1) == HashInput(l2, p2)
    ensures l1 == l2 && p1 == p2
  {
    hide PartsBytes, NoNul;
    var a, b := HashInput(l1, p1).value, HashInput(l2, p2).value;
    var x, y := a[17..], b[17..];
    assert x == l1 + PartsBytes(p1) && y == l2 + PartsBytes(p2);
    LabelNotLonger(l1, p1, l2, p2);
    LabelNotLonger(l2, p2, l1, p1);
    hide DomainBytes;
    assert l1 == x[..|l1|] && l2 == y[..|l1|];
    assert PartsBytes(p1) == x[|l1|..] && PartsBytes(p2) == y[|l1|..];
    PartsInjective(p1, p2);
  }

  /** With zero bytes in a label it does not hold: a label may end in what another takes as an empty part. */
  lemma {:induction false} NulLabelCollides(text: Bytes)
    requires 0 < |text| <= 247
    ensures HashInput(text, [[]]).Ok? && HashInput(text + Zeros(8), []) == HashInput(text, [[]])
  {
    var empty: Bytes := [];
    PartsFromFront([empty]);
    ZeroLength();
    assert [empty][1..] == [];
    assert PartsBytes([empty]) == Zeros(8);
    assert DomainBytes(IDENTIFIER_KIND, text) + Zeros(8) == DomainBytes(IDENTIFIER_KIND, text + Zeros(8)) + [];
  }

  lemma {:induction false} ZeroLength()
    ensures U64Bytes(0) == Zeros(8)
  {
    ZeroBytes(8);
  }

  lemma {:induction false} ZeroBytes(k: nat)
    ensures ToBytes(0, k) == Zeros(k)
  {
    if k > 0 {
      ZeroBytes(k - 1);
    }
  }

  /** Kind and label of a key derivation are determined by its domain bytes, for kinds without zero bytes. */
  lemma {:induction false} DomainInjective(k1: Bytes, l1: Bytes, k2: Bytes, l2: Bytes)
    requires NoNul(k1) && NoNul(k2) && DomainBytes(k1, l1) == DomainBytes(k2, l2)
    ensures k1 == k2 && l1 == l2
  {
    var x, y := DomainBytes(k1, l1)[7..], DomainBytes(k2, l2)[7..];
    assert x == k1 + [0] + l1 && y == k2 + [0] + l2;
    assert x[|k1|] == 0 && y[|k2|] == 0;
    assert forall i :: 0 <= i < |k1| ==> x[i] == k1[i];
    assert forall i :: 0 <= i < |k2| ==> y[i] == k2[i];
    assert k1 == x[..|k1|] && k2 == y[..|k2|] && l1 == x[|k1| + 1..] && l2 == y[|k2| + 1..];
  }
}
