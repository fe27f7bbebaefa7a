/** Backends of one group and the computation of their ring shares (elliptics/stat.go). */
module Stat {
  import opened Machine
  import opened Bytes
  import Pid
  import Ring
  import Sorting

  datatype DnetAddr = DnetAddr(addr: ByteString, family: nat)

  /** A fixed-size, comparable form of an address: 32 bytes, of which the first `len` count. */
  datatype RawAddr = RawAddr(addr: ByteString, len: nat, family: nat)
  {
    /** `RawAddr.DnetAddr`: cut the array back to its meaningful bytes. */
    function ToDnetAddr(): DnetAddr
      requires len <= |addr|
    {
      DnetAddr(addr[..len], family)
    }
  }

  datatype AddressBackend = AddressBackend(addr: RawAddr, backend: int)

  const RAW_ADDR_SIZE: nat := 32

  function Zeros(n: nat): (r: ByteString)
    ensures |r| == n
  {
    seq(n, _ => 0)
  }

  /** The table key of a backend; `None` where the source aborts because the address does not fit. */
  function NewAddressBackend(addr: DnetAddr, backend: int): (r: Option<AddressBackend>)
    ensures r.None? <==> |addr.addr| > 32
  {
    if |addr.addr| > RAW_ADDR_SIZE then None
    else Some(AddressBackend(
           RawAddr(addr.addr + Zeros(RAW_ADDR_SIZE - |addr.addr|), |addr.addr|, addr.family), backend))
  }

  /** `DnetAddr` undoes the encoding, so keys are equal exactly when address, family and backend are. */
  lemma {:induction false} AddressBackendFaithful(a: DnetAddr, x: int, b: DnetAddr, y: int)
    requires |a.addr| <= RAW_ADDR_SIZE && |b.addr| <= RAW_ADDR_SIZE
    ensures NewAddressBackend(a, x).value.addr.len <= |NewAddressBackend(a, x).value.addr.addr| == 32
    ensures NewAddressBackend(a, x).value.addr.ToDnetAddr() == a
    ensures NewAddressBackend(a, x) == NewAddressBackend(b, y) <==> a == b && x == y
  {
    var ka, kb := NewAddressBackend(a, x).value, NewAddressBackend(b, y).value;
    assert ka.addr.addr[..|a.addr|] == a.addr;
    assert kb.addr.addr[..|b.addr|] == b.addr;
  }

  // What statistics replies fill in; the ring computation never looks at it.

  datatype VFS = VFS(total: uint64, avail: uint64, limit: uint64, removedSize: uint64, usedSize: uint64,
                     recordsTotal: uint64, recordsRemoved: uint64, recordsCorrupted: uint64)

  datatype Defrag = Defrag(state: int, stateName: string, started: uint64, completed: uint64, status: int)

  /** Monotone counters of one command. */
  datatype Counters = Counters(success: uint64, failures: uint64, bytes: uint64)

  datatype Reading = Reading(error: int, vfs: VFS, defrag: Defrag, readOnly: bool, delay: nat,
                             writeSectors: uint64, readSectors: uint64, ioTicks: uint64, commands: map<string, Counters>)

  const NO_READING: Reading :=
    Reading(0, VFS(0, 0, 0, 0, 0, 0, 0, 0), Defrag(0, "", 0, 0, 0), false, 0, 0, 0, 0, map[])

  /** Differences of counters between two snapshots, per second. */
  datatype CommandRates = CommandRates(success: Float, failures: Float, bytes: Float)

  const NO_COMMAND_RATES: CommandRates := CommandRates(Num(0.0), Num(0.0), Num(0.0))

  datatype Rates = Rates(written: Float, read: Float, util: Float, commands: map<string, CommandRates>)

  const NO_RATES: Rates := Rates(Num(0.0), Num(0.0), Num(0.0), map[])

  /** What statistics know of one backend. */
  datatype Note = Note(reading: Reading, rates: Rates, pid: Pid.Controller)

  function NewNote(): Note
  {
    Note(NO_READING, NO_RATES, Pid.NEW)
  }

  class StatBackend {
    var id: seq<ByteString>   // all range starts of this backend
    var sum: uint64           // ring points they cover
    var percentage: real
    var note: Note            // what statistics know of it

    constructor ()
      ensures id == [] && sum == 0 && percentage == 0.0 && note == NewNote()
    {
      id, sum, percentage, note := [], 0, 0.0, NewNote();
    }

    /** `PIDUpdate`, `dt` seconds after the last one. */
    method PidUpdate(e: real, dt: real)
      modifies this`note
      ensures note == old(note).(pid := Pid.Update(old(note.pid), e, dt))
    {
      var pid := note.pid;
      var integral := e * dt + pid.integral;
      var pain := pid.pain;
      if dt == 0.0 {
        if e > pid.error {
          pain := Infinite;
        } else if e == pid.error {
          pain := NaN;
        } else {
          pain := Pid.Relaxed(pain);
        }
      } else {
        var slope := (e - pid.error) / dt;
        var force := e * Pid.KE + integral * Pid.KI + slope * Pid.KD;
        pain := if force <= 0.0 then Pid.Relaxed(pain) else Num(force);
      }
      note := note.(pid := Pid.Controller(e, integral, pain));
    }
  }

  ghost predicate LongIds(ids: seq<ByteString>)
  {
    forall i :: 0 <= i < |ids| ==> 8 <= |ids[i]|
  }

  ghost function Prefixes(ids: seq<ByteString>): set<uint64>
    requires LongIds(ids)
  {
    set i | 0 <= i < |ids| :: Prefix(ids[i])
  }

  /** Sorting a backend's IDs keeps the positions they claim and lists them in ring order. */
  lemma {:induction false} SortedPrefixes(ids: seq<ByteString>)
    requires LongIds(ids)
    ensures LongIds(Sorting.Sort(ids, AtMost))
    ensures Prefixes(Sorting.Sort(ids, AtMost)) == Prefixes(ids)
    ensures var s := Sorting.Sort(ids, AtMost);
            forall i, j :: 0 <= i < j < |s| ==> Prefix(s[i]) <= Prefix(s[j])
  {
    ByteOrder();
    Sorting.SortSorts(ids, AtMost);
    var s := Sorting.Sort(ids, AtMost);
    forall x ensures x in s <==> x in ids {
      assert x in multiset(s) <==> x in multiset(ids);
    }
    forall i | 0 <= i < |s| ensures 8 <= |s[i]| {
      assert s[i] in ids;
    }
    forall p | p in Prefixes(s) ensures p in Prefixes(ids) {
      var i :| 0 <= i < |s| && Prefix(s[i]) == p;
      assert s[i] in ids;
    }
    forall p | p in Prefixes(ids) ensures p in Prefixes(s) {
      var i :| 0 <= i < |ids| && Prefix(ids[i]) == p;
      assert ids[i] in s;
    }
    forall i, j | 0 <= i < j < |s| ensures Prefix(s[i]) <= Prefix(s[j]) {
      PrefixMonotone(s[i], s[j]);
    }
  }

  predicate NumberAtMost(a: uint64, b: uint64)
  {
    a <= b
  }

  ghost predicate Ascending(ids: seq<uint64>)
  {
    forall i, j :: 0 <= i < j < |ids| ==> ids[i] < ids[j]
  }

  lemma {:induction false} AscendingSort(ids: seq<uint64>, keys: set<uint64>)
    requires Ring.Enumerates(ids, keys)
    ensures Ascending(Sorting.Sort(ids, NumberAtMost))
    ensures Ring.Enumerates(Sorting.Sort(ids, NumberAtMost), keys)
  {
    Sorting.SortSorts(ids, NumberAtMost);
    var s := Sorting.Sort(ids, NumberAtMost);
    forall x ensures x in s <==> x in keys {
      assert x in multiset(s) <==> x in multiset(ids);
    }
    forall i, j | 0 <= i < j < |s| ensures s[i] != s[j] {
      if s[i] == s[j] {
        Repeated(s, i, j);
        assert multiset(ids)[s[i]] >= 2;
        NoRepeats(ids, s[i]);
      }
    }
  }

  lemma {:induction false} Repeated<T>(s: seq<T>, i: nat, j: nat)
    requires i < j < |s| && s[i] == s[j]
    ensures multiset(s)[s[i]] >= 2
  {
    assert s == s[..i] + [s[i]] + s[i + 1..j] + [s[j]] + s[j + 1..];
  }

  lemma {:induction false} NoRepeats<T>(s: seq<T>, x: T)
    requires Ring.Distinct(s)
    ensures multiset(s)[x] <= 1
  {
    if s != [] {
      assert s == [s[0]] + s[1..];
      NoRepeats(s[1..], x);
      if s[0] == x {
        assert x !in s[1..];
        assert multiset(s[1..])[x] == 0;
      }
    }
  }

  /** One backend's turn in the collecting loop: it takes the positions nobody took before. */
  method TakePositions(backend: StatBackend, list: seq<ByteString>, taken: map<uint64, StatBackend>, ids: seq<uint64>)
    returns (taken': map<uint64, StatBackend>, ids': seq<uint64>)
    requires LongIds(list)
    requires Ring.Enumerates(ids, taken.Keys)
    ensures taken'.Keys == taken.Keys + Prefixes(list) && Ring.Enumerates(ids', taken'.Keys)
    ensures forall p :: p in taken' ==> taken'[p] == if p in taken then taken[p] else backend
  {
    taken', ids' := taken, ids;
    for i := 0 to |list|
      invariant taken'.Keys == taken.Keys + Prefixes(list[..i])
      invariant Ring.Enumerates(ids', taken'.Keys)
      invariant forall p :: p in taken' ==> taken'[p] == if p in taken then taken[p] else backend
    {
      var val := Prefix(list[i]);
      assert Prefixes(list[..i + 1]) == Prefixes(list[..i]) + {val} by {
        assert list[..i + 1][i] == list[i];
        assert forall j :: 0 <= j < i ==> list[..i + 1][j] == list[..i][j];
      }
      if val !in taken' {
        taken' := taken'[val := backend];
        ids' := ids' + [val];
      }
    }
    assert list[..|list|] == list;
  }

  /** In an ascending list, the stretch up to `ids[i]` is held by the position before it (the last one for i = 0). */
  lemma {:induction false} StretchHolder(ids: seq<uint64>, keys: set<uint64>, i: nat, v: nat)
    requires Ascending(ids) && Ring.Enumerates(ids, keys) && i < |ids|
    requires (if i == 0 then 0 else ids[i - 1]) <= v < ids[i]
    ensures Ring.Holds(keys, ids[if i == 0 then |ids| - 1 else i - 1], v)
  {
    forall q | q in keys ensures exists j :: 0 <= j < |ids| && ids[j] == q {
      assert q in ids;
    }
  }

  lemma {:induction false} LastHolder(ids: seq<uint64>, keys: set<uint64>, v: nat)
    requires Ascending(ids) && Ring.Enumerates(ids, keys) && ids != []
    requires ids[|ids| - 1] <= v
    ensures Ring.Holds(keys, ids[|ids| - 1], v)
  {
    forall q | q in keys ensures exists j :: 0 <= j < |ids| && ids[j] == q {
      assert q in ids;
    }
  }

  type IdLists = map<AddressBackend, seq<ByteString>>
  type Sums = map<AddressBackend, uint64>
  type Positions = map<uint64, AddressBackend>

  ghost predicate Injective(ab: StatGroup)
  {
    forall k1, k2 :: k1 in ab && k2 in ab && ab[k1] == ab[k2] ==> k1 == k2
  }

  ghost predicate AllLong(lists: IdLists)
  {
    forall k :: k in lists ==> LongIds(lists[k])
  }

  /** The ring positions each backend's route IDs claim. */
  ghost function ClaimsOf(lists: IdLists): map<AddressBackend, set<uint64>>
    requires AllLong(lists)
  {
    map k | k in lists :: Prefixes(lists[k])
  }

  ghost function SortExcept(lists: IdLists, todo: set<AddressBackend>): IdLists
  {
    map k | k in lists :: if k in todo then lists[k] else Sorting.Sort(lists[k], AtMost)
  }

  lemma {:induction false} SortKeepsClaims(lists: IdLists, todo: set<AddressBackend>)
    requires AllLong(lists)
    ensures AllLong(SortExcept(lists, todo)) && ClaimsOf(SortExcept(lists, todo)) == ClaimsOf(lists)
  {
    forall k | k in lists
      ensures LongIds(SortExcept(lists, todo)[k]) && Prefixes(SortExcept(lists, todo)[k]) == Prefixes(lists[k])
    {
      SortedPrefixes(lists[k]);
    }
  }

  /** Every base plus the ring points below `n` its backend owns, truncated to 64 bits. */
  ghost function Credited(base: Sums, own: Positions, n: nat): Sums
  {
    map k | k in base :: Wrap(base[k] + |Ring.PointsBelow(own, k, n)|)
  }

  ghost function Fractions(sums: Sums): map<AddressBackend, real>
  {
    map k | k in sums :: sums[k] as real / MAX_UINT64 as real
  }

  lemma {:induction false} CreditedStart(base: Sums, own: Positions, n: nat)
    requires n == 0 || own == map[]
    ensures Credited(base, own, n) == base
  {
    forall k | k in base ensures Credited(base, own, n)[k] == base[k] {
      assert Ring.PointsBelow(own, k, n) == {};
    }
  }

  lemma {:induction false} CreditedStretchAt(base: uint64, own: Positions, k: AddressBackend, p: uint64, lo: nat, hi: nat)
    requires p in own && lo <= hi < TWO_64
    requires forall v: nat :: lo <= v < hi ==> Ring.Holds(own.Keys, p, v)
    ensures var was := Wrap(base + |Ring.PointsBelow(own, k, lo)|);
            Wrap(base + |Ring.PointsBelow(own, k, hi)|) == if own[p] == k then Add64(was, hi - lo) else was
  {
    Ring.Stretch(own, k, p, lo, hi);
    WrapAdd(base + |Ring.PointsBelow(own, k, lo)|, hi - lo);
  }

  lemma {:induction false} CreditedStretch(base: Sums, own: Positions, p: uint64, lo: nat, hi: nat)
    requires p in own && own[p] in base && lo <= hi < TWO_64
    requires forall v: nat :: lo <= v < hi ==> Ring.Holds(own.Keys, p, v)
    ensures var was := Credited(base, own, lo);
            Credited(base, own, hi) == was[own[p] := Add64(was[own[p]], hi - lo)]
  {
    hide Ring.PointsBelow, Ring.Holds, Wrap;
    var was := Credited(base, own, lo);
    var now := was[own[p] := Add64(was[own[p]], hi - lo)];
    forall k | k in base ensures Credited(base, own, hi)[k] == now[k] {
      CreditedStretchAt(base[k], own, k, p, lo, hi);
    }
  }

  /** The backends of one group, by address and backend number. */
  type StatGroup = map<AddressBackend, StatBackend>

  ghost function Ids(ab: StatGroup): (r: IdLists)
    reads ab.Values`id
    ensures r.Keys == ab.Keys
  {
    map k | k in ab :: ab[k].id
  }

  ghost function Sum(ab: StatGroup): (r: Sums)
    reads ab.Values`sum
    ensures r.Keys == ab.Keys
  {
    map k | k in ab :: ab[k].sum
  }

  ghost function Percent(ab: StatGroup): (r: map<AddressBackend, real>)
    reads ab.Values`percentage
    ensures r.Keys == ab.Keys
  {
    map k | k in ab :: ab[k].percentage
  }

  ghost function Notes(ab: StatGroup): (r: map<AddressBackend, Note>)
    reads ab.Values`note
    ensures r.Keys == ab.Keys
  {
    map k | k in ab :: ab[k].note
  }

  ghost predicate Valid(ab: StatGroup)
    reads ab.Values`id
  {
    Injective(ab) && AllLong(Ids(ab))
  }

  /** The collecting loop: visit every backend once, in some order, sorting its IDs and taking positions. */
  method Collect(ab: StatGroup) returns (taken: map<uint64, StatBackend>, ids: seq<uint64>, ghost order: seq<AddressBackend>)
    requires Valid(ab)
    modifies ab.Values`id
    ensures Ids(ab) == SortExcept(old(Ids(ab)), {}) && Sum(ab) == old(Sum(ab))
    ensures Ring.Enumerates(order, ab.Keys)
    ensures Took(taken, ids, ab, order, ClaimsOf(old(Ids(ab))))
  {
    taken, ids, order := map[], [], [];
    ghost var lists := Ids(ab);
    ghost var claims := ClaimsOf(lists);
    var todo := ab.Keys;
    assert Ids(ab) == SortExcept(lists, todo);
    assert Ring.Enumerates(order, ab.Keys - todo);
    hide Took, Ring.Owners, Ring.Enumerates, ClaimsOf;
    TookStart(ab, claims);
    while todo != {}
      invariant todo <= ab.Keys
      invariant Ids(ab) == SortExcept(lists, todo) && Sum(ab) == old(Sum(ab))
      invariant Ring.Enumerates(order, ab.Keys - todo)
      invariant Took(taken, ids, ab, order, claims)
    {
      var k :| k in todo;
      taken, ids := Visit(ab, ab[k], taken, ids, k, lists, order, todo);
      VisitedStep(order, ab.Keys, todo, k);
      order, todo := order + [k], todo - {k};
    }
    assert ab.Keys - todo == ab.Keys;
  }

  /** One turn of the collecting loop: sort the backend's IDs, then take the positions nobody took before. */
  method Visit(ab: StatGroup, backend: StatBackend, taken: map<uint64, StatBackend>, ids: seq<uint64>,
               ghost k: AddressBackend, ghost lists: IdLists, ghost order: seq<AddressBackend>, ghost todo: set<AddressBackend>)
    returns (taken': map<uint64, StatBackend>, ids': seq<uint64>)
    requires Injective(ab) && k in ab && backend == ab[k] && k in todo
    requires AllLong(lists) && Ids(ab) == SortExcept(lists, todo)
    requires Took(taken, ids, ab, order, ClaimsOf(lists))
    modifies backend`id
    ensures Ids(ab) == SortExcept(lists, todo - {k}) && Sum(ab) == old(Sum(ab))
    ensures Took(taken', ids', ab, order + [k], ClaimsOf(lists))
  {
    hide Took, Prefixes, Ring.Enumerates, SortExcept, Sorting.Sort;
    SortIds(ab, backend, k, lists, todo);
    SortedPrefixes(lists[k]);
    TookEnumerates(taken, ids, ab, order, ClaimsOf(lists));
    taken', ids' := TakePositions(backend, backend.id, taken, ids);
    TookStep(taken, ids, ab, order, ClaimsOf(lists), k, taken', ids');
  }

  /** `sort.Sort(backend)`. */
  method SortIds(ab: StatGroup, backend: StatBackend, ghost k: AddressBackend, ghost lists: IdLists, ghost todo: set<AddressBackend>)
    requires Injective(ab) && k in ab && backend == ab[k] && k in todo
    requires Ids(ab) == SortExcept(lists, todo)
    modifies backend`id
    ensures k in lists && backend.id == Sorting.Sort(lists[k], AtMost)
    ensures Ids(ab) == SortExcept(lists, todo - {k})
  {
    assert backend.id == Ids(ab)[k] == lists[k];
    backend.id := Sorting.Sort(backend.id, AtMost);
  }

  /** One addition of the adding loop: the difference `to - from` is added to a sum of `before`. */
  datatype Addition = Addition(from: uint64, to: uint64, before: uint64)

  /** Nothing wraps: neither the difference nor, if all sums started at 0, the addition. */
  ghost predicate Fits(a: Addition, base: Sums)
  {
    a.from <= a.to && ((forall k :: k in base ==> base[k] == 0) ==> a.before + (a.to - a.from) < TWO_64)
  }

  /**
   The adding loop: each difference between neighbouring positions goes to the lower one's backend. The ghost result
   lists the additions it makes.
   */
  method AddDifferences(ab: StatGroup, taken: map<uint64, StatBackend>, ids: seq<uint64>, ghost own: Positions)
    returns (ghost additions: seq<Addition>)
    requires Injective(ab) && Ascending(ids) && Ring.Enumerates(ids, own.Keys) && taken.Keys == own.Keys
    requires forall p :: p in own ==> own[p] in ab && taken[p] == ab[own[p]]
    modifies ab.Values`sum
    ensures Ids(ab) == old(Ids(ab)) && Sum(ab) == Credited(old(Sum(ab)), own, MAX_UINT64)
    ensures |additions| == if ids == [] then 0 else |ids| + 1
    ensures forall i :: 0 <= i < |additions| ==> Fits(additions[i], old(Sum(ab)))
  {
    hide Credited, Ring.Holds, Injective, Fits;
    ghost var base := Sum(ab);
    ghost var bound: nat := 0;
    additions := [];
    CreditedStart(base, own, 0);
    for i := 0 to |ids|
      invariant bound == if i == 0 then 0 else ids[i - 1]
      invariant Sum(ab) == Credited(base, own, bound)
      invariant |additions| == i && forall j :: 0 <= j < i ==> Fits(additions[j], base)
    {
      var prevVal, prevIdx := 0, 0;
      if i == 0 {
        prevIdx := |ids| - 1;
        prevVal := 0;
      } else {
        prevIdx := i - 1;
        prevVal := ids[prevIdx];
      }
      var diff := Sub64(ids[i], prevVal);
      forall v: nat | bound <= v < ids[i] ensures Ring.Holds(own.Keys, ids[prevIdx], v) {
        StretchHolder(ids, own.Keys, i, v);
      }
      ghost var made := Credit(ab, taken[ids[prevIdx]], diff, own, base, ids[prevIdx], bound, ids[i]);
      additions := additions + [made];
      bound := ids[i];
    }
    if |ids| > 0 {
      var lastId := ids[|ids| - 1];
      forall v: nat | lastId <= v < MAX_UINT64 ensures Ring.Holds(own.Keys, lastId, v) {
        LastHolder(ids, own.Keys, v);
      }
      ghost var made := Credit(ab, taken[lastId], Sub64(MAX_UINT64, lastId), own, base, lastId, lastId, MAX_UINT64);
      additions := additions + [made];
    } else {
      assert own.Keys == {};
      CreditedStart(base, own, MAX_UINT64);
    }
  }

  /** One addition: only the backend holding the stretch gains, and it gains the stretch's points. */
  method Credit(ab: StatGroup, backend: StatBackend, diff: uint64, ghost own: Positions, ghost base: Sums,
                ghost p: uint64, ghost lo: nat, ghost hi: nat)
    returns (ghost made: Addition)
    requires Injective(ab) && p in own && own[p] in ab && backend == ab[own[p]]
    requires base.Keys == ab.Keys && Sum(ab) == Credited(base, own, lo)
    requires lo <= hi < TWO_64 && diff == hi - lo
    requires forall v: nat :: lo <= v < hi ==> Ring.Holds(own.Keys, p, v)
    modifies backend`sum
    ensures Sum(ab) == Credited(base, own, hi)
    ensures made == Addition(lo, hi, old(backend.sum)) && Fits(made, base)
  {
    hide Credited, Ring.Holds, Fits;
    CreditedStretch(base, own, p, lo, hi);
    assert backend.sum == Sum(ab)[own[p]];
    made := Addition(lo, hi, backend.sum);
    CreditFits(base, own, own[p], lo, hi);
    backend.sum := Add64(backend.sum, diff);
  }

  /** Below `lo` there are at most `lo` points to have been credited before. */
  lemma {:induction false} CreditFits(base: Sums, own: Positions, k: AddressBackend, lo: nat, hi: nat)
    requires k in base && lo <= hi < TWO_64
    ensures Fits(Addition(lo, hi, Credited(base, own, lo)[k]), base)
  {
    hide Wrap;
    Ring.PointsBelowSize(own, k, lo);
    WrapSmall(|Ring.PointsBelow(own, k, lo)|);
  }

  /**
   `StatGroup.Finalize`. For some visiting order of the backends, every sum grows by exactly the number of ring
   points its backend owns, modulo 2^64, and the percentage is that sum over MaxUint64.
   */
  method Finalize(ab: StatGroup) returns (ghost order: seq<AddressBackend>)
    requires Valid(ab)
    modifies ab.Values`id, ab.Values`sum, ab.Values`percentage
    ensures Valid(ab) && Ids(ab) == SortExcept(old(Ids(ab)), {}) && ClaimsOf(Ids(ab)) == ClaimsOf(old(Ids(ab)))
    ensures Ring.Enumerates(order, ab.Keys)
    ensures Sum(ab) == Credited(old(Sum(ab)), Ring.Owners(order, ClaimsOf(old(Ids(ab)))), MAX_UINT64)
    ensures Percent(ab) == Fractions(Sum(ab))
  {
    SortKeepsClaims(Ids(ab), {});
    order := ShareRing(ab);
    SetPercentages(ab);
  }

  /** `Finalize` up to the percentages. */
  method ShareRing(ab: StatGroup) returns (ghost order: seq<AddressBackend>)
    requires Valid(ab)
    modifies ab.Values`id, ab.Values`sum
    ensures Ids(ab) == SortExcept(old(Ids(ab)), {})
    ensures Ring.Enumerates(order, ab.Keys)
    ensures Sum(ab) == Credited(old(Sum(ab)), Ring.Owners(order, ClaimsOf(old(Ids(ab)))), MAX_UINT64)
  {
    hide Took, Ring.Holds, Credited, SortExcept;
    ghost var claims := ClaimsOf(Ids(ab));
    var taken, ids;
    taken, ids, order := Collect(ab);
    TookSorted(taken, ids, ab, order, claims);
    ghost var additions := AddDifferences(ab, taken, Sorting.Sort(ids, NumberAtMost), Ring.Owners(order, claims));
  }

  method SetPercentages(ab: StatGroup)
    modifies ab.Values`percentage
    ensures Ids(ab) == old(Ids(ab)) && Sum(ab) == old(Sum(ab))
    ensures Percent(ab) == Fractions(Sum(ab))
  {
    var todo := ab.Keys;
    while todo != {}
      invariant todo <= ab.Keys
      invariant forall k :: k in ab && k !in todo ==> ab[k].percentage == ab[k].sum as real / MAX_UINT64 as real
    {
      var k :| k in todo;
      ab[k].percentage := ab[k].sum as real / MAX_UINT64 as real;
      todo := todo - {k};
    }
  }

  /** The concrete claim table agrees with the owners the visiting order determines. */
  ghost predicate Took(taken: map<uint64, StatBackend>, ids: seq<uint64>, ab: StatGroup,
                       order: seq<AddressBackend>, claims: map<AddressBackend, set<uint64>>)
  {
    && (forall k :: k in order ==> k in claims)
    && taken.Keys == Ring.Owners(order, claims).Keys && Ring.Enumerates(ids, taken.Keys)
    && forall p :: p in taken ==>
         Ring.Owners(order, claims)[p] in ab && taken[p] == ab[Ring.Owners(order, claims)[p]]
  }

  lemma {:induction false} VisitedStep(order: seq<AddressBackend>, keys: set<AddressBackend>, todo: set<AddressBackend>, k: AddressBackend)
    requires Ring.Enumerates(order, keys - todo) && todo <= keys && k in todo
    ensures Ring.Enumerates(order + [k], keys - (todo - {k}))
  {
    assert forall x :: x in order + [k] <==> x in order || x == k;
  }

  lemma {:induction false} TookStart(ab: StatGroup, claims: map<AddressBackend, set<uint64>>)
    ensures Took(map[], [], ab, [], claims)
  {
  }

  lemma {:induction false} TookEnumerates(taken: map<uint64, StatBackend>, ids: seq<uint64>, ab: StatGroup,
                       order: seq<AddressBackend>, claims: map<AddressBackend, set<uint64>>)
    requires Took(taken, ids, ab, order, claims)
    ensures Ring.Enumerates(ids, taken.Keys)
  {
  }

  lemma {:induction false} TookSorted(taken: map<uint64, StatBackend>, ids: seq<uint64>, ab: StatGroup,
                   order: seq<AddressBackend>, claims: map<AddressBackend, set<uint64>>)
    requires Took(taken, ids, ab, order, claims)
    ensures Ascending(Sorting.Sort(ids, NumberAtMost))
    ensures Ring.Enumerates(Sorting.Sort(ids, NumberAtMost), Ring.Owners(order, claims).Keys)
    ensures var own := Ring.Owners(order, claims);
            taken.Keys == own.Keys && forall p :: p in own ==> own[p] in ab && taken[p] == ab[own[p]]
  {
    AscendingSort(ids, taken.Keys);
  }

  lemma {:induction false} TookStep(taken: map<uint64, StatBackend>, ids: seq<uint64>, ab: StatGroup,
                 order: seq<AddressBackend>, claims: map<AddressBackend, set<uint64>>, k: AddressBackend,
                 taken': map<uint64, StatBackend>, ids': seq<uint64>)
    requires Took(taken, ids, ab, order, claims) && k in ab && k in claims
    requires taken'.Keys == taken.Keys + claims[k] && Ring.Enumerates(ids', taken'.Keys)
    requires forall p :: p in taken' ==> taken'[p] == if p in taken then taken[p] else ab[k]
    ensures Took(taken', ids', ab, order + [k], claims)
  {
    var order' := order + [k];
    assert order'[..|order|] == order;
    assert Ring.Owners(order', claims) == Ring.Claim(Ring.Owners(order, claims), k, claims[k]);
  }
}
