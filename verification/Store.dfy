/** A stored object as a byte string that can be written at any offset. */
module Store {
  import opened Machine

  type Bytes = seq<byte>

  ghost function Padding(n: nat): (r: Bytes)
    ensures |r| == n
  {
    seq(n, _ => 0)
  }

  /** Write `data` at `offset`, zero-filling a gap and keeping what lies outside the written range. */
  ghost function WriteAt(store: Bytes, offset: nat, data: Bytes): Bytes
  {
    (if offset <= |store| then store[..offset] else store + Padding(offset - |store|))
    + data
    + (if offset + |data| < |store| then store[offset + |data|..] else [])
  }

  /** Two adjoining writes are one. */
  lemma {:induction false} WriteAdjoining(store: Bytes, offset: nat, a: Bytes, b: Bytes)
    ensures WriteAt(WriteAt(store, offset, a), offset + |a|, b) == WriteAt(store, offset, a + b)
  {
    var once := WriteAt(store, offset, a);
    var front := if offset <= |store| then store[..offset] else store + Padding(offset - |store|);
    assert once[..offset + |a|] == front + a;
    if offset + |a| + |b| < |once| {
      assert once[offset + |a| + |b|..] == store[offset + |a| + |b|..];
    }
    assert front + a + b == front + (a + b);
  }

  /** What was written can be read back in place, and the object reaches at least that far. */
  lemma {:induction false} ReadBack(store: Bytes, offset: nat, data: Bytes)
    ensures offset + |data| <= |WriteAt(store, offset, data)|
    ensures WriteAt(store, offset, data)[offset..offset + |data|] == data
    ensures offset == 0 && |store| <= |data| ==> WriteAt(store, offset, data) == data
  {
  }
}
