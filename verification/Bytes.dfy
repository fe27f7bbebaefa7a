/** Byte strings in `bytes.Compare` order, and the 8-byte ID prefix that places a route on the ring. */
module Bytes {
  import opened Machine
  import Sorting

  type ByteString = seq<byte>

  /** `bytes.Compare(a, b) < 0`; also Go's order on strings and `memcmp(a, b) < 0` on equal lengths. */
  predicate Less(a: ByteString, b: ByteString)
  {
    if b == [] then false
    else if a == [] then true
    else if a[0] != b[0] then a[0] < b[0]
    else Less(a[1..], b[1..])
  }

  /** `bytes.Compare(a, b) <= 0`. */
  predicate AtMost(a: ByteString, b: ByteString)
  {
    !Less(b, a)
  }

  lemma {:induction false} AtMostAntisymmetric(a: ByteString, b: ByteString)
    requires AtMost(a, b) && AtMost(b, a)
    ensures a == b
  {
    if a != [] && b != [] && a[0] == b[0] {
      AtMostAntisymmetric(a[1..], b[1..]);
      assert a == [a[0]] + a[1..] && b == [b[0]] + b[1..];
    }
  }

  lemma {:induction false} AtMostTotal(a: ByteString, b: ByteString)
    ensures AtMost(a, b) || AtMost(b, a)
  {
    if a != [] && b != [] && a[0] == b[0] {
      AtMostTotal(a[1..], b[1..]);
    }
  }

  lemma {:induction false} AtMostTransitive(a: ByteString, b: ByteString, c: ByteString)
    requires AtMost(a, b) && AtMost(b, c)
    ensures AtMost(a, c)
  {
    if a != [] && b != [] && c != [] && a[0] == b[0] == c[0] {
      AtMostTransitive(a[1..], b[1..], c[1..]);
    }
  }

  /** `AtMost` is a total order, as sorting needs. */
  lemma {:induction false} ByteOrder()
    ensures Sorting.TotalOrder(AtMost)
  {
    forall x, y ensures AtMost(x, y) || AtMost(y, x) {
      AtMostTotal(x, y);
    }
    forall x, y | AtMost(x, y) && AtMost(y, x) ensures x == y {
      AtMostAntisymmetric(x, y);
    }
    forall x, y, z | AtMost(x, y) && AtMost(y, z) ensures AtMost(x, z) {
      AtMostTransitive(x, y, z);
    }
  }

  /** The big-endian number the first eight bytes of an ID spell, as `Finalize` shifts them together. */
  function Prefix(id: ByteString): (r: uint64)
    requires 8 <= |id|
  {
    0x100_0000_0000_0000 * (id[0] as int) + 0x1_0000_0000_0000 * (id[1] as int)
    + 0x100_0000_0000 * (id[2] as int) + 0x1_0000_0000 * (id[3] as int)
    + 0x100_0000 * (id[4] as int) + 0x1_0000 * (id[5] as int)
    + 0x100 * (id[6] as int) + (id[7] as int)
  }

  /** Horner's reading of a whole byte string. */
  ghost function Number(s: ByteString): nat
  {
    if s == [] then 0 else Number(s[..|s| - 1]) * 256 + s[|s| - 1]
  }

  lemma {:induction false} PrefixIsNumber(id: ByteString)
    requires 8 <= |id|
    ensures Prefix(id) == Number(id[..8])
  {
    NumberOfFour(id, 0);
    NumberOfFour(id, 4);
    assert Number(id[..0]) == 0;
  }

  lemma {:induction false} NumberOfFour(id: ByteString, k: nat)
    requires k + 4 <= |id|
    ensures Number(id[..k + 4])
            == Number(id[..k]) * 0x1_0000_0000
               + 0x100_0000 * (id[k] as int) + 0x1_0000 * (id[k + 1] as int)
               + 0x100 * (id[k + 2] as int) + (id[k + 3] as int)
  {
    NumberStep(id, k + 1);
    NumberStep(id, k + 2);
    NumberStep(id, k + 3);
    NumberStep(id, k + 4);
  }

  lemma {:induction false} NumberStep(id: ByteString, k: nat)
    requires 0 < k <= |id|
    ensures Number(id[..k]) == Number(id[..k - 1]) * 256 + id[k - 1]
  {
    assert id[..k][..k - 1] == id[..k - 1];
  }

  lemma {:induction false} LessHasWitness(a: ByteString, b: ByteString) returns (d: nat)
    requires Less(a, b)
    ensures d <= |a| && d < |b| && a[..d] == b[..d]
    ensures d < |a| ==> a[d] < b[d]
  {
    if a == [] || a[0] != b[0] {
      d := 0;
    } else {
      var e := LessHasWitness(a[1..], b[1..]);
      d := e + 1;
      assert a[..d] == [a[0]] + a[1..][..e] && b[..d] == [b[0]] + b[1..][..e];
    }
  }

  /** Once two equally long strings differ, later digits cannot reverse the order of the numbers. */
  lemma {:induction false} NumberOrder(a: ByteString, b: ByteString, d: nat, k: nat)
    requires d < k <= |a| && k <= |b|
    requires a[..d] == b[..d] && a[d] < b[d]
    ensures Number(a[..k]) < Number(b[..k])
    decreases k
  {
    NumberStep(a, k);
    NumberStep(b, k);
    if d + 1 < k {
      NumberOrder(a, b, d, k - 1);
    }
  }

  lemma {:induction false} NumberInjective(a: ByteString, b: ByteString)
    requires |a| == |b| && Number(a) == Number(b)
    ensures a == b
  {
    if a != [] {
      var n := |a| - 1;
      NumberInjective(a[..n], b[..n]);
      assert a == a[..n] + [a[n]] && b == b[..n] + [b[n]];
    }
  }

  /** The prefix is monotone in byte order, and two prefixes agree exactly when the first eight bytes do. */
  lemma {:induction false} PrefixMonotone(a: ByteString, b: ByteString)
    requires 8 <= |a| && 8 <= |b|
    ensures AtMost(a, b) ==> Prefix(a) <= Prefix(b)
    ensures Prefix(a) == Prefix(b) <==> a[..8] == b[..8]
  {
    PrefixIsNumber(a);
    PrefixIsNumber(b);
    if Number(a[..8]) == Number(b[..8]) {
      NumberInjective(a[..8], b[..8]);
    }
    if AtMost(a, b) {
      AtMostTotal(a, b);
      if Less(a, b) {
        var d := LessHasWitness(a, b);
        if d < 8 {
          NumberOrder(a, b, d, 8);
        } else {
          assert a[..8] == a[..d][..8] == b[..8];
        }
      } else {
        AtMostAntisymmetric(a, b);
      }
    }
  }
}
