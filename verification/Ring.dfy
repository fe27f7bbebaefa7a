/**
 The ID ring, point by point. Every route claims the position its ID prefix spells; a point belongs to
 the greatest claimed position at or below it, and points below every claim wrap to the largest one.
 Nothing here mentions how `Finalize` adds up its differences.
 */
module Ring {
  import opened Machine

  /** Position `p` holds point `v`. */
  ghost predicate Holds(ids: set<uint64>, p: uint64, v: nat)
  {
    && p in ids
    && (|| (p <= v && forall q :: q in ids && q <= v ==> q <= p)
        || (forall q :: q in ids ==> v < q && q <= p))
  }

  ghost predicate HeldBy<K>(own: map<uint64, K>, k: K, v: nat)
  {
    exists p :: p in own && own[p] == k && Holds(own.Keys, p, v)
  }

  /** The points below `n` that belong to `k`. */
  ghost function PointsBelow<K>(own: map<uint64, K>, k: K, n: nat): set<nat>
  {
    set v: nat | v < n && HeldBy(own, k, v)
  }

  /** The number of ring points in [0, MaxUint64) that belong to `k`. */
  ghost function Share<K>(own: map<uint64, K>, k: K): nat
  {
    |PointsBelow(own, k, MAX_UINT64)|
  }

  ghost predicate From(lo: nat, v: nat)
  {
    lo <= v
  }

  ghost function Range(lo: nat, hi: nat): set<nat>
  {
    set v: nat | v < hi && From(lo, v)
  }

  lemma {:induction false} RangeSize(lo: nat, hi: nat)
    requires lo <= hi
    ensures |Range(lo, hi)| == hi - lo
    decreases hi
  {
    if lo < hi {
      RangeSize(lo, hi - 1);
      assert Range(lo, hi) == Range(lo, hi - 1) + {hi - 1};
    } else {
      assert Range(lo, hi) == {};
    }
  }

  lemma {:induction false} HolderUnique(ids: set<uint64>, p: uint64, q: uint64, v: nat)
    requires Holds(ids, p, v) && Holds(ids, q, v)
    ensures p == q
  {
  }

  lemma {:induction false} GreatestBelow(ids: set<uint64>, bound: nat) returns (p: uint64)
    requires exists q :: q in ids && q <= bound
    ensures p in ids && p <= bound && forall q :: q in ids && q <= bound ==> q <= p
  {
    var p0 :| p0 in ids && p0 <= bound;
    var rest := ids - {p0};
    if exists q :: q in rest && q <= bound {
      var p1 := GreatestBelow(rest, bound);
      p := if p0 < p1 then p1 else p0;
      forall q | q in ids && q <= bound ensures q <= p {
        assert q == p0 || q in rest;
      }
    } else {
      p := p0;
      forall q | q in ids && q <= bound ensures q <= p {
        assert q == p0 || q in rest;
      }
    }
  }

  /** Every point has a holder as soon as one position is claimed. */
  lemma {:induction false} HolderExists(ids: set<uint64>, v: nat) returns (p: uint64)
    requires ids != {}
    ensures Holds(ids, p, v)
  {
    if exists q :: q in ids && q <= v {
      p := GreatestBelow(ids, v);
    } else {
      var q :| q in ids;
      p := GreatestBelow(ids, MAX_UINT64);
    }
  }

  /** Extending the bound over a stretch held by one position credits its owner and nobody else. */
  lemma {:induction false} Stretch<K>(own: map<uint64, K>, k: K, p: uint64, lo: nat, hi: nat)
    requires lo <= hi && p in own
    requires forall v: nat :: lo <= v < hi ==> Holds(own.Keys, p, v)
    ensures |PointsBelow(own, k, hi)| == |PointsBelow(own, k, lo)| + (if own[p] == k then hi - lo else 0)
  {
    var added := if own[p] == k then Range(lo, hi) else {};
    forall v: nat | lo <= v < hi ensures HeldBy(own, k, v) <==> own[p] == k {
      assert Holds(own.Keys, p, v);
      if HeldBy(own, k, v) {
        var q :| q in own && own[q] == k && Holds(own.Keys, q, v);
        HolderUnique(own.Keys, p, q, v);
      }
    }
    assert PointsBelow(own, k, hi) == PointsBelow(own, k, lo) + added;
    assert PointsBelow(own, k, lo) * added == {};
    RangeSize(lo, hi);
  }

  lemma {:induction false} PointsBelowSize<K>(own: map<uint64, K>, k: K, n: nat)
    ensures |PointsBelow(own, k, n)| <= n
  {
    RangeSize(0, n);
    assert PointsBelow(own, k, n) <= Range(0, n);
    SubsetSize(PointsBelow(own, k, n), Range(0, n));
  }

  lemma {:induction false} SubsetSize<T>(a: set<T>, b: set<T>)
    requires a <= b
    ensures |a| <= |b|
    ensures a != b ==> |a| < |b|
  {
    assert b == a + (b - a);
    assert |b| == |a| + |b - a|;
    if a != b {
      assert b - a != {};
    }
  }

  // ---------------------------------------------------------------- conservation

  ghost predicate Distinct<T>(s: seq<T>)
  {
    forall i, j :: 0 <= i < j < |s| ==> s[i] != s[j]
  }

  ghost function TotalShare<K>(own: map<uint64, K>, ks: seq<K>): nat
  {
    if ks == [] then 0 else TotalShare(own, ks[..|ks| - 1]) + Share(own, ks[|ks| - 1])
  }

  ghost predicate HeldByAny<K>(own: map<uint64, K>, ks: seq<K>, v: nat)
  {
    exists p :: p in own && own[p] in ks && Holds(own.Keys, p, v)
  }

  ghost function PointsOfAny<K>(own: map<uint64, K>, ks: seq<K>): set<nat>
  {
    set v: nat | v < MAX_UINT64 && HeldByAny(own, ks, v)
  }

  lemma {:induction false} SplitLast<K>(own: map<uint64, K>, front: seq<K>, k: K, v: nat)
    requires k !in front
    ensures HeldByAny(own, front + [k], v) <==> HeldByAny(own, front, v) || HeldBy(own, k, v)
    ensures !(HeldByAny(own, front, v) && HeldBy(own, k, v))
  {
    if HeldByAny(own, front, v) && HeldBy(own, k, v) {
      var p :| p in own && own[p] in front && Holds(own.Keys, p, v);
      var q :| q in own && own[q] == k && Holds(own.Keys, q, v);
      HolderUnique(own.Keys, p, q, v);
      assert false;
    }
  }

  lemma {:induction false} TotalShareCounts<K>(own: map<uint64, K>, ks: seq<K>)
    requires Distinct(ks)
    ensures TotalShare(own, ks) == |PointsOfAny(own, ks)|
  {
    if ks == [] {
      assert PointsOfAny(own, ks) == {};
    } else {
      var n := |ks| - 1;
      var front, k := ks[..n], ks[n];
      TotalShareCounts(own, front);
      var mine := PointsBelow(own, k, MAX_UINT64);
      assert ks == front + [k];
      forall v: nat
        ensures HeldByAny(own, ks, v) <==> HeldByAny(own, front, v) || HeldBy(own, k, v)
        ensures !(HeldByAny(own, front, v) && HeldBy(own, k, v))
      {
        SplitLast(own, front, k, v);
      }
      assert PointsOfAny(own, ks) == PointsOfAny(own, front) + mine;
      assert PointsOfAny(own, front) * mine == {};
    }
  }

  /** Conservation: the shares of any complete list of owners add up to the whole ring. */
  lemma {:induction false} SharesCoverRing<K>(own: map<uint64, K>, ks: seq<K>)
    requires Distinct(ks) && forall p :: p in own ==> own[p] in ks
    ensures TotalShare(own, ks) == if own == map[] then 0 else MAX_UINT64
  {
    TotalShareCounts(own, ks);
    if own == map[] {
      assert PointsOfAny(own, ks) == {};
    } else {
      forall v: nat | v < MAX_UINT64 ensures v in PointsOfAny(own, ks) {
        assert own.Keys != {} by {
          var p :| p in own;
        }
        var p := HolderExists(own.Keys, v);
      }
      assert PointsOfAny(own, ks) == Range(0, MAX_UINT64);
      RangeSize(0, MAX_UINT64);
    }
  }

  // ---------------------------------------------------------------- order of claims

  /** `k` claims the positions in `ids` that nobody claimed before. */
  ghost function Claim<K>(own: map<uint64, K>, k: K, ids: set<uint64>): map<uint64, K>
  {
    map p | p in own.Keys + ids :: if p in own then own[p] else k
  }

  /** Who owns which position when the backends are visited in the given order. */
  ghost function Owners<K>(order: seq<K>, claims: map<K, set<uint64>>): map<uint64, K>
    requires forall k :: k in order ==> k in claims
  {
    if order == [] then map[]
    else
      var n := |order| - 1;
      Claim(Owners(order[..n], claims), order[n], claims[order[n]])
  }

  /** A position is owned exactly when some visited backend claims it, and its owner does claim it. */
  lemma {:induction false} OwnersClaim<K>(order: seq<K>, claims: map<K, set<uint64>>)
    requires forall k :: k in order ==> k in claims
    ensures forall p :: p in Owners(order, claims) <==> exists k :: k in order && p in claims[k]
    ensures forall p :: p in Owners(order, claims) ==>
              Owners(order, claims)[p] in order && p in claims[Owners(order, claims)[p]]
  {
    if order != [] {
      var n := |order| - 1;
      OwnersClaim(order[..n], claims);
      assert order == order[..n] + [order[n]];
    }
  }

  /** The first backend visited owns everything it claims. */
  lemma {:induction false} FirstOwns<K>(order: seq<K>, claims: map<K, set<uint64>>, p: uint64)
    requires forall k :: k in order ==> k in claims
    requires order != [] && p in claims[order[0]]
    ensures p in Owners(order, claims) && Owners(order, claims)[p] == order[0]
  {
    var n := |order| - 1;
    if n == 0 {
      assert Owners(order[..n], claims) == map[];
    } else {
      FirstOwns(order[..n], claims, p);
    }
  }

  ghost predicate Enumerates<K>(order: seq<K>, keys: set<K>)
  {
    Distinct(order) && (forall k :: k in order ==> k in keys) && (forall k :: k in keys ==> k in order)
  }

  lemma {:induction false} Enumeration<K>(keys: set<K>) returns (order: seq<K>)
    ensures Enumerates(order, keys)
  {
    if keys == {} {
      order := [];
    } else {
      var k :| k in keys;
      var rest := Enumeration(keys - {k});
      order := [k] + rest;
      assert forall x :: x in order <==> x == k || x in rest;
    }
  }

  /** Every two visiting orders give `k` the same share. */
  ghost predicate SameShares<K(!new)>(claims: map<K, set<uint64>>, o1: seq<K>, o2: seq<K>)
    requires Enumerates(o1, claims.Keys) && Enumerates(o2, claims.Keys)
  {
    forall k :: k in claims ==> Share(Owners(o1, claims), k) == Share(Owners(o2, claims), k)
  }

  ghost predicate OrderIndependent<K(!new)>(claims: map<K, set<uint64>>)
  {
    forall o1, o2 :: Enumerates(o1, claims.Keys) && Enumerates(o2, claims.Keys) ==> SameShares(claims, o1, o2)
  }

  /** Some backend claims position 0. */
  ghost predicate ZeroClaimed<K(!new)>(claims: map<K, set<uint64>>)
  {
    exists k :: k in claims && 0 in claims[k]
  }

  /**
   No two backends claim the same position, except possibly the topmost one while position 0 is claimed too:
   that position holds no point at all.
   */
  ghost predicate Uncontested<K(!new)>(claims: map<K, set<uint64>>)
  {
    forall k1, k2, p ::
      k1 in claims && k2 in claims && k1 != k2 && p in claims[k1] && p in claims[k2]
      ==> p == MAX_UINT64 && ZeroClaimed(claims)
  }

  /** Position `p` holds at least one point. */
  ghost predicate Populated(ids: set<uint64>, p: uint64)
  {
    exists v: nat :: v < MAX_UINT64 && Holds(ids, p, v)
  }

  /** Only the topmost position can be empty, and it is so exactly when position 0 is claimed as well. */
  lemma {:induction false} PopulatedIff(ids: set<uint64>, p: uint64)
    requires p in ids
    ensures Populated(ids, p) <==> !(p == MAX_UINT64 && 0 in ids)
  {
    if p != MAX_UINT64 {
      assert Holds(ids, p, p);
    } else if 0 !in ids {
      assert Holds(ids, p, 0);
    }
  }

  lemma {:induction false} PointsTransfer<K>(own1: map<uint64, K>, own2: map<uint64, K>, k: K)
    requires own1.Keys == own2.Keys
    requires forall p :: p in own1 && own1[p] == k && Populated(own1.Keys, p) ==> own2[p] == k
    ensures PointsBelow(own1, k, MAX_UINT64) <= PointsBelow(own2, k, MAX_UINT64)
  {
    forall v: nat | v < MAX_UINT64 && HeldBy(own1, k, v) ensures HeldBy(own2, k, v) {
      var p :| p in own1 && own1[p] == k && Holds(own1.Keys, p, v);
      assert Populated(own1.Keys, p);
    }
  }

  /** All visiting orders agree on which positions are claimed. */
  lemma {:induction false} SameKeys<K>(claims: map<K, set<uint64>>, o1: seq<K>, o2: seq<K>)
    requires Enumerates(o1, claims.Keys) && Enumerates(o2, claims.Keys)
    ensures Owners(o1, claims).Keys == Owners(o2, claims).Keys
  {
    OwnersClaim(o1, claims);
    OwnersClaim(o2, claims);
  }

  lemma {:induction false} OwnerOf<K>(claims: map<K, set<uint64>>, order: seq<K>, p: uint64)
    requires Enumerates(order, claims.Keys)
    ensures p in Owners(order, claims) <==> exists k :: k in claims && p in claims[k]
    ensures p in Owners(order, claims) ==>
              Owners(order, claims)[p] in claims && p in claims[Owners(order, claims)[p]]
  {
    OwnersClaim(order, claims);
  }

  lemma {:induction false} UncontestedShares<K(!new)>(claims: map<K, set<uint64>>, o1: seq<K>, o2: seq<K>, k: K)
    requires Uncontested(claims) && k in claims
    requires Enumerates(o1, claims.Keys) && Enumerates(o2, claims.Keys)
    ensures PointsBelow(Owners(o1, claims), k, MAX_UINT64) <= PointsBelow(Owners(o2, claims), k, MAX_UINT64)
  {
    var own1, own2 := Owners(o1, claims), Owners(o2, claims);
    SameKeys(claims, o1, o2);
    forall p | p in own1 && own1[p] == k && Populated(own1.Keys, p) ensures own2[p] == k {
      OwnerOf(claims, o1, p);
      OwnerOf(claims, o2, p);
      OwnerOf(claims, o1, 0);
      PopulatedIff(own1.Keys, p);
    }
    PointsTransfer(own1, own2, k);
  }

  lemma {:induction false} PairFirst<K>(keys: set<K>, k1: K, k2: K, rest: seq<K>)
    requires k1 in keys && k2 in keys && k1 != k2
    requires Enumerates(rest, keys - {k1, k2})
    ensures Enumerates([k1, k2] + rest, keys)
  {
    var o := [k1, k2] + rest;
    assert forall x :: x in o <==> x == k1 || x == k2 || x in rest;
  }

  /** Visiting a backend first cannot shrink its share, and a contested populated position makes it strictly larger. */
  lemma {:induction false} GoingFirstPays<K>(claims: map<K, set<uint64>>, o1: seq<K>, o2: seq<K>, p: uint64)
    requires Enumerates(o1, claims.Keys) && Enumerates(o2, claims.Keys)
    requires o1 != [] && o2 != [] && o1[0] != o2[0]
    requires p in claims[o1[0]] && p in claims[o2[0]]
    requires Populated(Owners(o1, claims).Keys, p)
    ensures Share(Owners(o2, claims), o1[0]) < Share(Owners(o1, claims), o1[0])
  {
    var own1, own2, k := Owners(o1, claims), Owners(o2, claims), o1[0];
    SameKeys(claims, o1, o2);
    forall q | q in own2 && own2[q] == k ensures own1[q] == k {
      OwnerOf(claims, o2, q);
      FirstOwns(o1, claims, q);
    }
    PointsTransfer(own2, own1, k);
    FirstOwns(o1, claims, p);
    FirstOwns(o2, claims, p);
    LosesPoint(own1, own2, k, p);
  }

  lemma {:induction false} LosesPoint<K>(own1: map<uint64, K>, own2: map<uint64, K>, k: K, p: uint64)
    requires own1.Keys == own2.Keys && p in own1 && own1[p] == k && own2[p] != k
    requires PointsBelow(own2, k, MAX_UINT64) <= PointsBelow(own1, k, MAX_UINT64)
    requires Populated(own1.Keys, p)
    ensures Share(own2, k) < Share(own1, k)
  {
    var w: nat :| w < MAX_UINT64 && Holds(own1.Keys, p, w);
    if HeldBy(own2, k, w) {
      var q :| q in own2 && own2[q] == k && Holds(own2.Keys, q, w);
      HolderUnique(own2.Keys, p, q, w);
      assert false;
    }
    assert w in PointsBelow(own1, k, MAX_UINT64) && w !in PointsBelow(own2, k, MAX_UINT64);
    SubsetSize(PointsBelow(own2, k, MAX_UINT64), PointsBelow(own1, k, MAX_UINT64));
  }

  lemma {:induction false} ContestedDiffers<K(!new)>(claims: map<K, set<uint64>>, k1: K, k2: K, p: uint64)
    requires k1 in claims && k2 in claims && k1 != k2 && p in claims[k1] && p in claims[k2]
    requires p != MAX_UINT64 || !ZeroClaimed(claims)
    ensures !OrderIndependent(claims)
  {
    var rest := Enumeration(claims.Keys - {k1, k2});
    var o1, o2 := [k1, k2] + rest, [k2, k1] + rest;
    PairFirst(claims.Keys, k1, k2, rest);
    assert claims.Keys - {k1, k2} == claims.Keys - {k2, k1};
    PairFirst(claims.Keys, k2, k1, rest);
    OwnerOf(claims, o1, p);
    OwnerOf(claims, o1, 0);
    PopulatedIff(Owners(o1, claims).Keys, p);
    GoingFirstPays(claims, o1, o2, p);
    assert !SameShares(claims, o1, o2);
  }

  /** Shares do not depend on map iteration order if and only if no position that holds points is contested. */
  lemma {:induction false} OrderIndependenceIff<K(!new)>(claims: map<K, set<uint64>>)
    ensures OrderIndependent(claims) <==> Uncontested(claims)
  {
    if Uncontested(claims) {
      forall o1, o2 | Enumerates(o1, claims.Keys) && Enumerates(o2, claims.Keys)
        ensures SameShares(claims, o1, o2)
      {
        forall k | k in claims ensures Share(Owners(o1, claims), k) == Share(Owners(o2, claims), k) {
          UncontestedShares(claims, o1, o2, k);
          UncontestedShares(claims, o2, o1, k);
          assert PointsBelow(Owners(o1, claims), k, MAX_UINT64) == PointsBelow(Owners(o2, claims), k, MAX_UINT64);
        }
      }
    } else {
      var k1, k2, p :|
        k1 in claims && k2 in claims && k1 != k2 && p in claims[k1] && p in claims[k2]
        && !(p == MAX_UINT64 && ZeroClaimed(claims));
      ContestedDiffers(claims, k1, k2, p);
    }
  }
}
