/** The per-group table of backends: how routes and statistics fill it (elliptics/route.go, elliptics/stat.go). */
module Routes {
  import opened Machine
  import opened Bytes
  import opened Stat
  import Pid
  import Ring
  import Sorting

  type Table<V> = map<nat, map<AddressBackend, V>>

  datatype RouteEntry = RouteEntry(id: ByteString, addr: DnetAddr, group: nat, backend: int)
  {
    /** A route the C side can hand over: IDs are full-size and addresses fit the fixed array. */
    ghost predicate WellFormed()
    {
      8 <= |id| && |addr.addr| <= RAW_ADDR_SIZE
    }

    function Key(): AddressBackend
      requires |addr.addr| <= RAW_ADDR_SIZE
    {
      NewAddressBackend(addr, backend).value
    }
  }

  /** The table with an entry for `(g, k)`, new entries starting at `zero`. */
  ghost function Touch<V>(t: Table<V>, g: nat, k: AddressBackend, zero: V): Table<V>
  {
    var row := if g in t then t[g] else map[];
    t[g := if k in row then row else row[k := zero]]
  }

  ghost function Open<V>(t: Table<V>, g: nat): Table<V>
  {
    if g in t then t else t[g := map[]]
  }

  ghost function Append(t: Table<seq<ByteString>>, g: nat, k: AddressBackend, id: ByteString): Table<seq<ByteString>>
    requires g in t && k in t[g]
  {
    t[g := t[g][k := t[g][k] + [id]]]
  }

  ghost function AddRoute(t: Table<seq<ByteString>>, e: RouteEntry): Table<seq<ByteString>>
    requires e.WellFormed()
  {
    Append(Touch(t, e.group, e.Key(), []), e.group, e.Key(), e.id)
  }

  lemma {:induction false} AddRouteLong(t: Table<seq<ByteString>>, e: RouteEntry)
    requires LongTable(t) && e.WellFormed()
    ensures LongTable(AddRoute(t, e))
  {
  }

  /** Old entries are untouched and every new one is `zero`. */
  ghost predicate Extends<V>(t: Table<V>, u: Table<V>, zero: V)
  {
    && (forall g :: g in t ==> g in u)
    && (forall g, k :: g in t && k in t[g] ==> k in u[g] && u[g][k] == t[g][k])
    && (forall g, k :: g in u && k in u[g] ==> (g in t && k in t[g]) || u[g][k] == zero)
  }

  lemma {:induction false} TouchExtends<V>(t: Table<V>, g: nat, k: AddressBackend, zero: V)
    ensures Extends(t, Touch(t, g, k, zero), zero)
  {
  }

  lemma {:induction false} ExtendsSelf<V>(t: Table<V>, zero: V)
    ensures Extends(t, t, zero)
  {
  }

  datatype Tables = Tables(lists: Table<seq<ByteString>>, sums: Table<uint64>, percents: Table<real>)

  /** From `a` to `b` no ID list, sum or percentage has changed; new backends have none, 0 and 0. */
  ghost predicate Grown(a: Tables, b: Tables)
  {
    Extends(a.lists, b.lists, []) && Extends(a.sums, b.sums, 0) && Extends(a.percents, b.percents, 0.0)
  }

  lemma {:induction false} GrownSelf(a: Tables)
    ensures Grown(a, a)
  {
    ExtendsSelf(a.lists, []);
    ExtendsSelf(a.sums, 0);
    ExtendsSelf(a.percents, 0.0);
  }

  lemma {:induction false} GrownTransitive(a: Tables, b: Tables, c: Tables)
    requires Grown(a, b) && Grown(b, c)
    ensures Grown(a, c)
  {
    ExtendsTransitive(a.lists, b.lists, c.lists, []);
    ExtendsTransitive(a.sums, b.sums, c.sums, 0);
    ExtendsTransitive(a.percents, b.percents, c.percents, 0.0);
  }

  lemma {:induction false} TouchGrown(a: Tables, g: nat, k: AddressBackend)
    ensures Grown(a, Tables(Touch(a.lists, g, k, []), Touch(a.sums, g, k, 0), Touch(a.percents, g, k, 0.0)))
  {
    TouchExtends(a.lists, g, k, []);
    TouchExtends(a.sums, g, k, 0);
    TouchExtends(a.percents, g, k, 0.0);
  }

  lemma {:induction false} ExtendsTransitive<V>(t: Table<V>, u: Table<V>, w: Table<V>, zero: V)
    requires Extends(t, u, zero) && Extends(u, w, zero)
    ensures Extends(t, w, zero)
  {
  }

  // ---------------------------------------------------------------- the table a list of routes builds

  ghost predicate AllWellFormed(entries: seq<RouteEntry>)
  {
    forall i :: 0 <= i < |entries| ==> entries[i].WellFormed()
  }

  ghost function AddRoutes(t: Table<seq<ByteString>>, entries: seq<RouteEntry>): Table<seq<ByteString>>
    requires AllWellFormed(entries)
  {
    if entries == [] then t
    else AddRoute(AddRoutes(t, entries[..|entries| - 1]), entries[|entries| - 1])
  }

  /** The IDs of exactly the entries for `(g, k)`, in order. */
  ghost function RoutesFor(entries: seq<RouteEntry>, g: nat, k: AddressBackend): seq<ByteString>
    requires AllWellFormed(entries)
  {
    if entries == [] then []
    else
      var front, e := entries[..|entries| - 1], entries[|entries| - 1];
      RoutesFor(front, g, k) + if e.group == g && e.Key() == k then [e.id] else []
  }

  ghost predicate RoutesTo(entries: seq<RouteEntry>, g: nat)
  {
    exists i :: 0 <= i < |entries| && entries[i].group == g
  }

  /** The table refines the plain list: a key is present exactly when some entry names it, with those entries' IDs in order. */
  lemma {:induction false} TableIsFilter(entries: seq<RouteEntry>, g: nat, k: AddressBackend)
    requires AllWellFormed(entries)
    ensures var t := AddRoutes(map[], entries);
            && (g in t <==> RoutesTo(entries, g))
            && (g in t && k in t[g] <==> RoutesFor(entries, g, k) != [])
            && (g in t && k in t[g] ==> t[g][k] == RoutesFor(entries, g, k))
  {
    if entries != [] {
      var front, e := entries[..|entries| - 1], entries[|entries| - 1];
      TableIsFilter(front, g, k);
      assert RoutesTo(entries, g) <==> RoutesTo(front, g) || e.group == g by {
        if RoutesTo(front, g) {
          var i :| 0 <= i < |front| && front[i].group == g;
          assert entries[i].group == g;
        }
        if RoutesTo(entries, g) && e.group != g {
          var i :| 0 <= i < |entries| && entries[i].group == g;
          assert front[i].group == g;
        }
      }
    }
  }

  /** A group that has a route has at least one claimed ring position. */
  lemma {:induction false} RoutedGroupClaims(entries: seq<RouteEntry>, g: nat)
    requires AllWellFormed(entries) && RoutesTo(entries, g)
    ensures var t := AddRoutes(map[], entries);
            g in t && exists k :: k in t[g] && t[g][k] != []
  {
    var i :| 0 <= i < |entries| && entries[i].group == g;
    var k := entries[i].Key();
    RoutesForMember(entries, i);
    TableIsFilter(entries, g, k);
  }

  lemma {:induction false} RoutesForMember(entries: seq<RouteEntry>, i: nat)
    requires AllWellFormed(entries) && i < |entries|
    ensures RoutesFor(entries, entries[i].group, entries[i].Key()) != []
  {
    if i < |entries| - 1 {
      RoutesForMember(entries[..|entries| - 1], i);
    }
  }

  // ---------------------------------------------------------------- sharing out the rings of all groups

  type Orders = map<nat, seq<AddressBackend>>

  /**
   What finalizing one group does to its lists, sums and percentages: the lists are sorted, every sum grows by the
   ring points its backend owns under some visiting order, and the percentages are the sums over MaxUint64.
   */
  ghost predicate Finalized(lists: IdLists, sums: Sums, order: seq<AddressBackend>,
                            lists': IdLists, sums': Sums, percents': map<AddressBackend, real>)
  {
    && AllLong(lists) && Ring.Enumerates(order, lists.Keys)
    && lists' == SortExcept(lists, {})
    && sums' == Credited(sums, Ring.Owners(order, ClaimsOf(lists)), MAX_UINT64)
    && percents' == Fractions(sums')
  }

  /** The tables `L`, `S` and `P` after the groups in `orders`, and no others, have been finalized. */
  ghost predicate Progress(lists: Table<seq<ByteString>>, sums: Table<uint64>, orders: Orders,
                           L: Table<seq<ByteString>>, S: Table<uint64>, P: Table<real>)
  {
    && lists.Keys == sums.Keys == L.Keys == S.Keys == P.Keys
    && forall g :: g in lists ==>
         if g in orders then Finalized(lists[g], sums[g], orders[g], L[g], S[g], P[g])
         else L[g] == lists[g] && S[g] == sums[g]
  }

  lemma {:induction false} ProgressStep(lists: Table<seq<ByteString>>, sums: Table<uint64>, orders: Orders,
                     L: Table<seq<ByteString>>, S: Table<uint64>, P: Table<real>,
                     g: nat, order: seq<AddressBackend>,
                     L': Table<seq<ByteString>>, S': Table<uint64>, P': Table<real>)
    requires Progress(lists, sums, orders, L, S, P) && g in lists && g !in orders
    requires L'.Keys == S'.Keys == P'.Keys == lists.Keys
    requires forall h :: h in lists && h != g ==> L'[h] == L[h] && S'[h] == S[h] && P'[h] == P[h]
    requires Finalized(lists[g], sums[g], order, L'[g], S'[g], P'[g])
    ensures Progress(lists, sums, orders[g := order], L', S', P')
  {
    hide Finalized;
  }

  lemma {:induction false} ListRows(gs: Groups)
    ensures forall h :: h in gs ==> ListsOf(gs)[h] == Ids(gs[h])
  {
  }

  lemma {:induction false} Rows(gs: Groups)
    ensures forall h :: h in gs ==> ListsOf(gs)[h] == Ids(gs[h])
    ensures forall h :: h in gs ==> SumsOf(gs)[h] == Sum(gs[h])
    ensures forall h :: h in gs ==> PercentsOf(gs)[h] == Percent(gs[h])
  {
  }

  lemma {:induction false} Alone(gs: Groups, g: nat, backend: StatBackend)
    requires Separate(gs) && g in gs && backend in gs[g].Values
    ensures Injective(gs[g])
    ensures forall h :: h in gs && h != g ==> backend !in gs[h].Values
  {
  }

  lemma {:induction false} ListsUpdate(gs: Groups, was: Table<seq<ByteString>>, g: nat, k: AddressBackend, id: ByteString)
    requires was.Keys == gs.Keys && g in gs && k in was[g]
    requires Ids(gs[g]) == was[g][k := was[g][k] + [id]]
    requires forall h :: h in gs && h != g ==> Ids(gs[h]) == was[h]
    ensures ListsOf(gs) == Append(was, g, k, id)
  {
  }

  lemma {:induction false} RowInBackends(gs: Groups, g: nat)
    requires g in gs
    ensures gs[g].Values <= BackendsOf(gs)
  {
  }

  lemma {:induction false} ProgressStart(lists: Table<seq<ByteString>>, sums: Table<uint64>, P: Table<real>)
    requires lists.Keys == sums.Keys == P.Keys
    ensures Progress(lists, sums, map[], lists, sums, P)
  {
  }

  /** The groups still to visit are exactly the keys without an order. */
  ghost predicate Pending(orders: Orders, keys: set<nat>, todo: set<nat>)
  {
    todo <= keys && orders.Keys == keys - todo
  }

  lemma {:induction false} AllVisited(orders: Orders, keys: set<nat>)
    requires Pending(orders, keys, {})
    ensures orders.Keys == keys
  {
  }

  lemma {:induction false} KeysStep(orders: Orders, g: nat, order: seq<AddressBackend>, keys: set<nat>, todo: set<nat>)
    requires Pending(orders, keys, todo) && g in todo
    ensures g in keys && g !in orders && Pending(orders[g := order], keys, todo - {g})
  {
  }

  lemma {:induction false} ProgressLong(lists: Table<seq<ByteString>>, sums: Table<uint64>, orders: Orders,
                     L: Table<seq<ByteString>>, S: Table<uint64>, P: Table<real>)
    requires Progress(lists, sums, orders, L, S, P) && LongTable(lists)
    ensures LongTable(L)
    ensures L.Keys == S.Keys == P.Keys == lists.Keys == sums.Keys
    ensures forall g :: g in lists && g !in orders ==> L[g] == lists[g] && S[g] == sums[g]
  {
    forall g | g in L ensures AllLong(L[g]) {
      SortKeepsClaims(lists[g], {});
    }
  }

  ghost function GroupTotal(sums: Sums, ks: seq<AddressBackend>): nat
    requires forall k :: k in ks ==> k in sums
  {
    if ks == [] then 0 else GroupTotal(sums, ks[..|ks| - 1]) + sums[ks[|ks| - 1]]
  }

  lemma {:induction false} TotalsAgree(sums: Sums, own: Positions, ks: seq<AddressBackend>)
    requires forall k :: k in ks ==> k in sums && sums[k] == Ring.Share(own, k)
    ensures GroupTotal(sums, ks) == Ring.TotalShare(own, ks)
  {
    if ks != [] {
      TotalsAgree(sums, own, ks[..|ks| - 1]);
    }
  }

  ghost function PercentTotal(percents: map<AddressBackend, real>, ks: seq<AddressBackend>): real
    requires forall k :: k in ks ==> k in percents
  {
    if ks == [] then 0.0 else PercentTotal(percents, ks[..|ks| - 1]) + percents[ks[|ks| - 1]]
  }

  /** Percentages computed from sums that cover the ring add up to exactly 1. */
  lemma {:induction false} PercentsFollowSums(sums: Sums, ks: seq<AddressBackend>)
    requires forall k :: k in ks ==> k in sums
    ensures PercentTotal(Fractions(sums), ks) == GroupTotal(sums, ks) as real / MAX_UINT64 as real
  {
    if ks != [] {
      PercentsFollowSums(sums, ks[..|ks| - 1]);
    }
  }

  /** Sums that are exactly the shares add up to the whole ring, in whatever order they are added. */
  lemma {:induction false} GroupTotalIsRing(sums: Sums, own: Positions, ks: seq<AddressBackend>)
    requires Ring.Enumerates(ks, sums.Keys)
    requires forall k :: k in sums ==> sums[k] == Ring.Share(own, k)
    requires forall p :: p in own ==> own[p] in sums
    ensures GroupTotal(sums, ks) == if own == map[] then 0 else MAX_UINT64
  {
    TotalsAgree(sums, own, ks);
    Ring.SharesCoverRing(own, ks);
  }

  // ---------------------------------------------------------------- what statistics leave alone

  /** One backend of a parsed monitoring reply. */
  datatype VNode = VNode(enabled: bool, group: nat, backend: int, error: int,
                         frSize: uint64, blocks: uint64, bFree: uint64, bSize: uint64,
                         removedSize: uint64, baseSize: uint64,
                         recordsTotal: uint64, recordsRemoved: uint64, recordsCorrupted: uint64,
                         blobSizeLimit: uint64, blobFlags: uint64,
                         sortStarted: uint64, sortCompleted: uint64, sortStatus: int,
                         defragState: int, readOnly: bool, delay: nat,
                         writeSectors: uint64, readSectors: uint64, ioTicks: uint64, commands: map<string, Counters>)

  function DefragName(state: int): string
  {
    if state == 0 then "not-started" else if state == 1 then "in-progress" else ""
  }

  /** Sizes in bytes; the limit is the blob's own unless it has none or bit 4 of its flags switches size checks off. */
  function Space(v: VNode): VFS
  {
    var total := Wrap(v.frSize * v.blocks);
    VFS(total, Wrap(v.bFree * v.bSize),
        if v.blobSizeLimit != 0 && v.blobFlags / 16 % 2 == 0 then v.blobSizeLimit else total,
        v.removedSize, v.baseSize, v.recordsTotal, v.recordsRemoved, v.recordsCorrupted)
  }

  /** The reading that a reply without error leaves: commands it does not name stay. */
  function Measured(was: Reading, v: VNode): Reading
  {
    Reading(0, Space(v), Defrag(v.defragState, DefragName(v.defragState), v.sortStarted, v.sortCompleted, v.sortStatus),
            v.readOnly, v.delay, v.writeSectors, v.readSectors, v.ioTicks, was.commands + v.commands)
  }

  /** Commands that a reply replaces lose their rates; everything else about the rates stays. */
  function Reset(was: Rates, v: VNode): Rates
  {
    was.(commands := was.commands + map c | c in v.commands :: NO_COMMAND_RATES)
  }

  /** What a reply leaves behind: with an error code only the code. */
  function Merged(was: Note, v: VNode): Note
  {
    if v.error != 0 then was.(reading := was.reading.(error := v.error))
    else Note(Measured(was.reading, v), Reset(was.rates, v), was.pid)
  }

  ghost function SetAt<V>(t: Table<V>, g: nat, k: AddressBackend, v: V): Table<V>
    requires g in t
  {
    t[g := t[g][k := v]]
  }

  /** One enabled backend of a reply, on the table of notes. */
  ghost function ApplyNode(t: Table<Note>, addr: DnetAddr, v: VNode): Table<Note>
    requires |addr.addr| <= RAW_ADDR_SIZE
  {
    if !v.enabled then t
    else
      var k := NewAddressBackend(addr, v.backend).value;
      var u := Touch(t, v.group, k, NewNote());
      SetAt(u, v.group, k, Merged(u[v.group][k], v))
  }

  /** The first `n` backends of a reply, in turn. */
  ghost function ApplyNodes(t: Table<Note>, addr: DnetAddr, vnodes: seq<VNode>, n: nat): Table<Note>
    requires |addr.addr| <= RAW_ADDR_SIZE && n <= |vnodes|
  {
    if n == 0 then t else ApplyNode(ApplyNodes(t, addr, vnodes, n - 1), addr, vnodes[n - 1])
  }

  lemma {:induction false} NodesStep(t: Table<Note>, addr: DnetAddr, vnodes: seq<VNode>, n: nat)
    requires |addr.addr| <= RAW_ADDR_SIZE && n <= |vnodes|
    ensures n == 0 ==> ApplyNodes(t, addr, vnodes, n) == t
    ensures n < |vnodes| ==>
              ApplyNodes(t, addr, vnodes, n + 1) == ApplyNode(ApplyNodes(t, addr, vnodes, n), addr, vnodes[n])
  {
  }

  /** A parsed monitoring reply of one server, with the server's time. */
  datatype StatEntry = StatEntry(addr: DnetAddr, time: real, monitoring: bool, vnodes: seq<VNode>)

  ghost predicate AllFit(replies: seq<StatEntry>)
  {
    forall i :: 0 <= i < |replies| ==> |replies[i].addr.addr| <= RAW_ADDR_SIZE
  }

  ghost function ApplyEntry(t: Table<Note>, e: StatEntry): Table<Note>
    requires |e.addr.addr| <= RAW_ADDR_SIZE
  {
    if e.monitoring then ApplyNodes(t, e.addr, e.vnodes, |e.vnodes|) else t
  }

  /** The first `n` replies, in turn. */
  ghost function ApplyEntries(t: Table<Note>, replies: seq<StatEntry>, n: nat): Table<Note>
    requires AllFit(replies) && n <= |replies|
  {
    if n == 0 then t else ApplyEntry(ApplyEntries(t, replies, n - 1), replies[n - 1])
  }

  lemma {:induction false} EntriesStep(t: Table<Note>, replies: seq<StatEntry>, n: nat)
    requires AllFit(replies) && n <= |replies|
    ensures n == 0 ==> ApplyEntries(t, replies, n) == t
    ensures n < |replies| ==>
              ApplyEntries(t, replies, n + 1) == ApplyEntry(ApplyEntries(t, replies, n), replies[n])
  {
  }

  /** A note that no join has touched: no rates, one slot for each command, and a new controller. */
  ghost predicate Unjoined(n: Note)
  {
    n.rates == NO_RATES.(commands := map c | c in n.reading.commands :: NO_COMMAND_RATES) && n.pid == Pid.NEW
  }

  ghost predicate AllUnjoined(t: Table<Note>)
  {
    forall g, k :: g in t && k in t[g] ==> Unjoined(t[g][k])
  }

  lemma {:induction false} NewIsUnjoined()
    ensures Unjoined(NewNote())
  {
    assert (map c | c in NO_READING.commands :: NO_COMMAND_RATES) == map[];
  }

  lemma {:induction false} MergedUnjoined(was: Note, v: VNode)
    requires Unjoined(was)
    ensures Unjoined(Merged(was, v))
  {
    if v.error == 0 {
      var now := Merged(was, v);
      assert now.rates.commands == map c | c in now.reading.commands :: NO_COMMAND_RATES;
    }
  }

  lemma {:induction false} NodeUnjoined(t: Table<Note>, addr: DnetAddr, v: VNode)
    requires |addr.addr| <= RAW_ADDR_SIZE && AllUnjoined(t)
    ensures AllUnjoined(ApplyNode(t, addr, v))
  {
    if v.enabled {
      NewIsUnjoined();
      var k := NewAddressBackend(addr, v.backend).value;
      var u := Touch(t, v.group, k, NewNote());
      hide Unjoined, Merged, NewAddressBackend, NewNote;
      assert AllUnjoined(u);
      MergedUnjoined(u[v.group][k], v);
    }
  }

  lemma {:induction false} NodesUnjoined(t: Table<Note>, addr: DnetAddr, vnodes: seq<VNode>, n: nat)
    requires |addr.addr| <= RAW_ADDR_SIZE && n <= |vnodes| && AllUnjoined(t)
    ensures AllUnjoined(ApplyNodes(t, addr, vnodes, n))
  {
    hide AllUnjoined, ApplyNode;
    if n > 0 {
      NodesUnjoined(t, addr, vnodes, n - 1);
      NodeUnjoined(ApplyNodes(t, addr, vnodes, n - 1), addr, vnodes[n - 1]);
    }
  }

  /** Collecting statistics joins nothing. */
  lemma {:induction false} EntriesUnjoined(t: Table<Note>, replies: seq<StatEntry>, n: nat)
    requires AllFit(replies) && n <= |replies| && AllUnjoined(t)
    ensures AllUnjoined(ApplyEntries(t, replies, n))
  {
    hide AllUnjoined, ApplyNodes;
    if n > 0 {
      EntriesUnjoined(t, replies, n - 1);
      var e := replies[n - 1];
      NodesUnjoined(ApplyEntries(t, replies, n - 1), e.addr, e.vnodes, |e.vnodes|);
    }
  }

  lemma {:induction false} RoutedUnjoined(t: Table<Note>)
    requires Extends(map[], t, NewNote())
    ensures AllUnjoined(t)
  {
    NewIsUnjoined();
    hide Unjoined, NewNote;
  }

  /** `Finalize` adds without resetting: a sum comes out as its backend's share if and only if it went in as 0. */
  lemma {:induction false} FreshCredit(sums: Sums, own: Positions, k: AddressBackend)
    requires k in sums
    ensures Credited(sums, own, MAX_UINT64)[k] == Ring.Share(own, k) <==> sums[k] == 0
  {
    Ring.PointsBelowSize(own, k, MAX_UINT64);
    WrapSmall(Ring.Share(own, k));
    var total := sums[k] + Ring.Share(own, k);
    if total >= TWO_64 {
      ModShift(total - TWO_64, 1);
      WrapSmall(total - TWO_64);
    } else {
      WrapSmall(total);
    }
  }

  /** Finalized twice, whatever the visiting orders, a fresh sum is the latest share if and only if the first one was 0. */
  lemma {:induction false} FinalizedTwice(sums: Sums, own: Positions, again: Positions, k: AddressBackend)
    requires k in sums && sums[k] == 0
    ensures Credited(Credited(sums, own, MAX_UINT64), again, MAX_UINT64)[k] == Ring.Share(again, k)
            <==> Ring.Share(own, k) == 0
  {
    FreshCredit(sums, own, k);
    FreshCredit(Credited(sums, own, MAX_UINT64), again, k);
  }

  /** A backend that holds the whole ring comes out of a second `Finalize` one point short of it. */
  lemma {:induction false} SecondFinalize(k: AddressBackend)
    ensures var own: Positions := map[0 := k];
            && Credited(map[k := 0], own, MAX_UINT64)[k] == MAX_UINT64
            && Credited(Credited(map[k := 0], own, MAX_UINT64), own, MAX_UINT64)[k] == MAX_UINT64 - 1
  {
    var own: Positions, sums: Sums := map[0 := k], map[k := 0];
    Ring.SharesCoverRing(own, [k]);
    FreshCredit(sums, own, k);
    assert [k][|[k]| - 1] == k && [k][..0] == [] && 0 in own;
    assert Ring.TotalShare(own, []) == 0;
    assert Ring.TotalShare(own, [k]) == Ring.TotalShare(own, []) + Ring.Share(own, k);
    assert Ring.Share(own, k) == MAX_UINT64;
    var once := Credited(sums, own, MAX_UINT64);
    assert |Ring.PointsBelow(own, k, MAX_UINT64)| == MAX_UINT64;
    ModShift(MAX_UINT64 - 1, 1);
    WrapSmall(MAX_UINT64 - 1);
  }

  lemma {:induction false} NoShare(own: Positions, k: AddressBackend)
    requires forall p :: p in own ==> own[p] != k
    ensures Ring.Share(own, k) == 0
  {
    assert Ring.PointsBelow(own, k, MAX_UINT64) == {};
  }

  /** After routes on a fresh table and any later growth by zero entries, every sum is exactly its backend's share. */
  lemma {:induction false} SumsAreShares(lists: IdLists, sums: Sums, order: seq<AddressBackend>, lists': IdLists, sums': Sums,
                      percents': map<AddressBackend, real>, later: Sums, k: AddressBackend)
    requires Finalized(lists, sums, order, lists', sums', percents') && lists.Keys == sums.Keys
    requires forall j :: j in sums ==> sums[j] == 0
    requires k in later && later[k] == if k in sums' then sums'[k] else 0
    ensures later[k] == Ring.Share(Ring.Owners(order, ClaimsOf(lists)), k)
  {
    var own := Ring.Owners(order, ClaimsOf(lists));
    if k in sums {
      FreshCredit(sums, own, k);
    } else {
      Ring.OwnersClaim(order, ClaimsOf(lists));
      NoShare(own, k);
    }
  }

  lemma {:induction false} FinalizedOwners(lists: IdLists, order: seq<AddressBackend>)
    requires AllLong(lists) && Ring.Enumerates(order, lists.Keys)
    ensures var own := Ring.Owners(order, ClaimsOf(lists));
            && (forall p :: p in own ==> own[p] in lists)
            && ((exists k :: k in lists && lists[k] != []) ==> own != map[])
  {
    var own := Ring.Owners(order, ClaimsOf(lists));
    Ring.OwnersClaim(order, ClaimsOf(lists));
    if k :| k in lists && lists[k] != [] {
      assert Prefix(lists[k][0]) in Prefixes(lists[k]);
      assert Prefix(lists[k][0]) in own;
    }
  }

  /**
   Ring shares survive statistics: whatever entries statistics add afterwards, the sums of a group total the
   whole ring if some route names the group, and 0 if the group was first created by statistics.
   */
  lemma {:induction false} RoutedTotals(entries: seq<RouteEntry>, sums: Table<uint64>, orders: Orders,
                     L: Table<seq<ByteString>>, S: Table<uint64>, P: Table<real>, later: Table<uint64>,
                     g: nat, ks: seq<AddressBackend>)
    requires AllWellFormed(entries)
    requires Extends(map[], sums, 0) && Keyed(AddRoutes(map[], entries), sums)
    requires orders.Keys == sums.Keys && Progress(AddRoutes(map[], entries), sums, orders, L, S, P)
    requires Extends(S, later, 0) && g in later && Ring.Enumerates(ks, later[g].Keys)
    ensures GroupTotal(later[g], ks) == if RoutesTo(entries, g) then MAX_UINT64 else 0
  {
    var lists := AddRoutes(map[], entries);
    TableIsFilter(entries, g, AddressBackend(RawAddr([], 0, 0), 0));
    if g in lists {
      RoutedGroupClaims(entries, g);
      var own := Ring.Owners(orders[g], ClaimsOf(lists[g]));
      FinalizedOwners(lists[g], orders[g]);
      forall k | k in later[g] ensures later[g][k] == Ring.Share(own, k) {
        SumsAreShares(lists[g], sums[g], orders[g], L[g], S[g], P[g], later[g], k);
      }
      GroupTotalIsRing(later[g], own, ks);
    } else {
      forall k | k in later[g] ensures later[g][k] == Ring.Share(map[], k) {
        NoShare(map[], k);
      }
      GroupTotalIsRing(later[g], map[], ks);
    }
  }

  /** The route IDs of every key, sorted, survive statistics as well. */
  lemma {:induction false} RoutedLists(entries: seq<RouteEntry>, sums: Table<uint64>, orders: Orders,
                    L: Table<seq<ByteString>>, S: Table<uint64>, P: Table<real>, later: Table<seq<ByteString>>,
                    g: nat, k: AddressBackend)
    requires AllWellFormed(entries)
    requires orders.Keys == sums.Keys && Progress(AddRoutes(map[], entries), sums, orders, L, S, P)
    requires Extends(L, later, []) && g in later && k in later[g]
    ensures later[g][k] == Sorting.Sort(RoutesFor(entries, g, k), AtMost)
  {
    TableIsFilter(entries, g, k);
  }

  /** In every group the sums total the whole ring if some route names the group, and 0 otherwise. */
  ghost predicate RingComplete(routes: seq<RouteEntry>, sums: Table<uint64>)
  {
    forall g, ks :: g in sums && Ring.Enumerates(ks, sums[g].Keys) ==>
                      GroupTotal(sums[g], ks) == if RoutesTo(routes, g) then MAX_UINT64 else 0
  }

  /** And their percentages total exactly 1, respectively 0. */
  ghost predicate PercentComplete(routes: seq<RouteEntry>, percents: Table<real>)
  {
    forall g, ks :: g in percents && Ring.Enumerates(ks, percents[g].Keys) ==>
                      PercentTotal(percents[g], ks) == if RoutesTo(routes, g) then 1.0 else 0.0
  }

  lemma {:induction false} ProgressFractions(lists: Table<seq<ByteString>>, sums: Table<uint64>, orders: Orders, tables: Tables, g: nat)
    requires orders.Keys == sums.Keys && g in tables.sums
    requires Progress(lists, sums, orders, tables.lists, tables.sums, tables.percents)
    ensures g in tables.percents && tables.percents[g] == Fractions(tables.sums[g])
  {
    hide Credited, Fractions, SortExcept, ClaimsOf, Ring.Owners, Ring.Enumerates, AllLong;
  }

  /** Statistics keep every percentage equal to its sum over MaxUint64. */
  lemma {:induction false} LaterFractions(tables: Tables, later: Tables, g: nat)
    requires g in tables.sums ==> g in tables.percents && tables.percents[g] == Fractions(tables.sums[g])
    requires tables.sums.Keys == tables.percents.Keys
    requires Grown(tables, later) && Keyed(later.sums, later.percents) && g in later.sums
    ensures later.percents[g] == Fractions(later.sums[g])
  {
    var fractions := Fractions(later.sums[g]);
    forall k | k in later.sums[g] ensures later.percents[g][k] == fractions[k] {
      if g in tables.sums && k in tables.sums[g] {
        assert tables.percents[g][k] == Fractions(tables.sums[g])[k];
      }
    }
  }

  /** Under every key stand exactly the IDs announced for it, sorted. */
  ghost predicate ListsSorted(routes: seq<RouteEntry>, lists: Table<seq<ByteString>>)
    requires AllWellFormed(routes)
  {
    forall g, k :: g in lists && k in lists[g] ==> lists[g][k] == Sorting.Sort(RoutesFor(routes, g, k), AtMost)
  }

  lemma {:induction false} CollectResult(routes: seq<RouteEntry>, sums: Table<uint64>, orders: Orders, tables: Tables, later: Tables)
    requires AllWellFormed(routes)
    requires Extends(map[], sums, 0) && Keyed(AddRoutes(map[], routes), sums)
    requires orders.Keys == sums.Keys
    requires Progress(AddRoutes(map[], routes), sums, orders, tables.lists, tables.sums, tables.percents)
    requires Grown(tables, later) && Keyed(later.sums, later.percents) && Keyed(tables.sums, tables.percents)
    ensures RingComplete(routes, later.sums) && ListsSorted(routes, later.lists) && PercentComplete(routes, later.percents)
  {
    forall g, ks | g in later.sums && Ring.Enumerates(ks, later.sums[g].Keys)
      ensures GroupTotal(later.sums[g], ks) == if RoutesTo(routes, g) then MAX_UINT64 else 0
    {
      RoutedTotals(routes, sums, orders, tables.lists, tables.sums, tables.percents, later.sums, g, ks);
    }
    forall g, ks | g in later.percents && Ring.Enumerates(ks, later.percents[g].Keys)
      ensures PercentTotal(later.percents[g], ks) == if RoutesTo(routes, g) then 1.0 else 0.0
    {
      if g in tables.sums {
        ProgressFractions(AddRoutes(map[], routes), sums, orders, tables, g);
      }
      LaterFractions(tables, later, g);
      PercentsFollowSums(later.sums[g], ks);
    }
    forall g, k | g in later.lists && k in later.lists[g]
      ensures later.lists[g][k] == Sorting.Sort(RoutesFor(routes, g, k), AtMost)
    {
      RoutedLists(routes, sums, orders, tables.lists, tables.sums, tables.percents, later.lists, g, k);
    }
  }

  /** Every sum is its backend's share of its group's ring, under that group's visiting order; groups without routes have none. */
  ghost predicate SharedOut(routes: seq<RouteEntry>, orders: Orders, sums: Table<uint64>)
    requires AllWellFormed(routes)
  {
    var lists := AddRoutes(map[], routes);
    && LongTable(lists)
    && forall g, k :: g in sums && k in sums[g] ==>
         if g in lists then g in orders && HasShare(lists[g], orders[g], k, sums[g][k]) else sums[g][k] == 0
  }

  /** `sum` is the backend's share of the ring that these IDs form, its backends visited in this order. */
  ghost predicate HasShare(lists: IdLists, order: seq<AddressBackend>, k: AddressBackend, sum: uint64)
    requires AllLong(lists)
  {
    Ring.Enumerates(order, lists.Keys) && sum == Ring.Share(Ring.Owners(order, ClaimsOf(lists)), k)
  }

  lemma {:induction false} CollectShares(routes: seq<RouteEntry>, sums: Table<uint64>, orders: Orders, tables: Tables, later: Tables)
    requires AllWellFormed(routes)
    requires Extends(map[], sums, 0) && Keyed(AddRoutes(map[], routes), sums)
    requires orders.Keys == sums.Keys
    requires Progress(AddRoutes(map[], routes), sums, orders, tables.lists, tables.sums, tables.percents)
    requires Grown(tables, later)
    ensures SharedOut(routes, orders, later.sums)
  {
    hide AddRoutes, AllWellFormed, HasShare, Ring.Enumerates, AllLong, Finalized;
    var lists := AddRoutes(map[], routes);
    forall g | g in lists ensures AllLong(lists[g]) {
      FinalizedLong(lists[g], sums[g], orders[g], tables.lists[g], tables.sums[g], tables.percents[g]);
    }
    forall g, k | g in later.sums && k in later.sums[g] && g in lists
      ensures HasShare(lists[g], orders[g], k, later.sums[g][k])
    {
      SumHasShare(lists[g], sums[g], orders[g], tables.lists[g], tables.sums[g], tables.percents[g], later.sums[g], k);
    }
  }

  lemma {:induction false} FinalizedLong(lists: IdLists, sums: Sums, order: seq<AddressBackend>, lists': IdLists, sums': Sums,
                      percents': map<AddressBackend, real>)
    requires Finalized(lists, sums, order, lists', sums', percents')
    ensures AllLong(lists)
  {
  }

  lemma {:induction false} SumHasShare(lists: IdLists, sums: Sums, order: seq<AddressBackend>, lists': IdLists, sums': Sums,
                    percents': map<AddressBackend, real>, later: Sums, k: AddressBackend)
    requires Finalized(lists, sums, order, lists', sums', percents') && lists.Keys == sums.Keys
    requires forall j :: j in sums ==> sums[j] == 0
    requires k in later && later[k] == if k in sums' then sums'[k] else 0
    ensures HasShare(lists, order, k, later[k])
  {
    SumsAreShares(lists, sums, order, lists', sums', percents', later, k);
  }

  lemma {:induction false} SameKeys(gs: Groups)
    ensures Keyed(SumsOf(gs), PercentsOf(gs)) && Keyed(ListsOf(gs), SumsOf(gs))
  {
  }

  lemma {:induction false} EmptyTables()
    ensures BackendsOf(map[]) == {} && ListsOf(map[]) == map[] && SumsOf(map[]) == map[] && NotesOf(map[]) == map[]
  {
  }

  ghost predicate Keyed<V, W>(t: Table<V>, u: Table<W>)
  {
    t.Keys == u.Keys && forall g :: g in t ==> t[g].Keys == u[g].Keys
  }

  lemma {:induction false} TouchOpen<V>(t: Table<V>, g: nat, k: AddressBackend, zero: V)
    ensures Touch(Open(t, g), g, k, zero) == Touch(t, g, k, zero)
  {
  }

  lemma {:induction false} TouchLong(t: Table<seq<ByteString>>, g: nat, k: AddressBackend)
    requires LongTable(t)
    ensures LongTable(Touch(t, g, k, []))
  {
  }

  lemma {:induction false} SplitDifference<T>(a: set<T>, b: set<T>, c: set<T>)
    ensures a - c <= (a - b) + (b - c)
  {
  }

  type Groups = map<nat, StatGroup>

  ghost function BackendsOf(gs: Groups): set<StatBackend>
  {
    set g, k | g in gs && k in gs[g] :: gs[g][k]
  }

  ghost function ListsOf(gs: Groups): (t: Table<seq<ByteString>>)
    reads BackendsOf(gs)`id
    ensures t.Keys == gs.Keys
  {
    map g | g in gs :: Ids(gs[g])
  }

  ghost function SumsOf(gs: Groups): (t: Table<uint64>)
    reads BackendsOf(gs)`sum
    ensures t.Keys == gs.Keys
  {
    map g | g in gs :: Sum(gs[g])
  }

  ghost function PercentsOf(gs: Groups): (t: Table<real>)
    reads BackendsOf(gs)`percentage
    ensures t.Keys == gs.Keys
  {
    map g | g in gs :: Percent(gs[g])
  }

  ghost function NotesOf(gs: Groups): (t: Table<Note>)
    reads BackendsOf(gs)`note
    ensures t.Keys == gs.Keys
  {
    map g | g in gs :: Notes(gs[g])
  }

  /** No object stands under two keys, within a group or across groups. */
  ghost predicate Separate(gs: Groups)
  {
    && (forall g :: g in gs ==> Injective(gs[g]))
    && (forall g, h :: g in gs && h in gs && g != h ==> gs[g].Values !! gs[h].Values)
  }

  ghost predicate LongTable(t: Table<seq<ByteString>>)
  {
    forall g :: g in t ==> AllLong(t[g])
  }

  function Put(gs: Groups, g: nat, k: AddressBackend, backend: StatBackend): Groups
    requires g in gs
  {
    gs[g := gs[g][k := backend]]
  }

  lemma {:induction false} PutSeparate(gs: Groups, g: nat, k: AddressBackend, backend: StatBackend)
    requires Separate(gs) && g in gs && k !in gs[g] && backend !in BackendsOf(gs)
    ensures Separate(Put(gs, g, k, backend))
    ensures BackendsOf(Put(gs, g, k, backend)) == BackendsOf(gs) + {backend}
  {
    var row, fuller := gs[g], Put(gs, g, k, backend);
    assert fuller[g].Values == row.Values + {backend} by {
      forall b | b in row.Values ensures b in fuller[g].Values {
        var j :| j in row && row[j] == b;
        assert j in fuller[g] && fuller[g][j] == b;
      }
      assert fuller[g][k] == backend;
    }
    forall b | b in BackendsOf(gs) + {backend} ensures b in BackendsOf(fuller) {
      if b == backend {
        assert fuller[g][k] == b;
      } else {
        var h, j :| h in gs && j in gs[h] && gs[h][j] == b;
        assert h in fuller && j in fuller[h] && fuller[h][j] == b;
      }
    }
    forall b | b in BackendsOf(fuller) ensures b in BackendsOf(gs) + {backend} {
      var h, j :| h in fuller && j in fuller[h] && fuller[h][j] == b;
      assert b != backend ==> h in gs && j in gs[h] && gs[h][j] == b;
    }
  }

  lemma {:induction false} PutViews(gs: Groups, g: nat, k: AddressBackend, backend: StatBackend)
    requires g in gs && k !in gs[g]
    requires backend.id == [] && backend.sum == 0 && backend.percentage == 0.0
    ensures ListsOf(Put(gs, g, k, backend)) == Touch(ListsOf(gs), g, k, [])
    ensures SumsOf(Put(gs, g, k, backend)) == Touch(SumsOf(gs), g, k, 0)
    ensures PercentsOf(Put(gs, g, k, backend)) == Touch(PercentsOf(gs), g, k, 0.0)
  {
    var row := gs[g];
    assert Ids(row[k := backend]) == Ids(row)[k := []];
    assert Sum(row[k := backend]) == Sum(row)[k := 0];
    assert Percent(row[k := backend]) == Percent(row)[k := 0.0];
    hide Ids, Sum, Percent, BackendsOf;
  }

  lemma {:induction false} PutNotes(gs: Groups, g: nat, k: AddressBackend, backend: StatBackend, note: Note)
    requires g in gs && k !in gs[g] && backend.note == note
    ensures NotesOf(Put(gs, g, k, backend)) == Touch(NotesOf(gs), g, k, note)
  {
    var row := gs[g];
    assert Notes(row[k := backend]) == Notes(row)[k := note];
    hide Notes, BackendsOf;
  }

  lemma {:induction false} OpenSeparate(gs: Groups, g: nat)
    requires g !in gs
    ensures BackendsOf(gs[g := map[]]) == BackendsOf(gs)
    ensures Separate(gs) ==> Separate(gs[g := map[]])
  {
    var wider: Groups := gs[g := map[]];
    assert forall h :: h in gs ==> h in wider && wider[h] == gs[h];
    assert wider[g] == map[];
    forall b | b in BackendsOf(gs) ensures b in BackendsOf(wider) {
      var h, j :| h in gs && j in gs[h] && gs[h][j] == b;
      assert h in wider && j in wider[h];
    }
  }

  lemma {:induction false} OpenViews(gs: Groups, g: nat)
    requires g !in gs
    ensures ListsOf(gs[g := map[]]) == ListsOf(gs)[g := map[]]
    ensures SumsOf(gs[g := map[]]) == SumsOf(gs)[g := map[]]
    ensures PercentsOf(gs[g := map[]]) == PercentsOf(gs)[g := map[]]
    ensures NotesOf(gs[g := map[]]) == NotesOf(gs)[g := map[]]
  {
    var none: StatGroup := map[];
    assert Ids(none) == map[] && Sum(none) == map[] && Percent(none) == map[] && Notes(none) == map[];
    hide Ids, Sum, Percent, Notes, BackendsOf;
    var wider: Groups := gs[g := none];
    assert ListsOf(wider) == ListsOf(gs)[g := map[]];
    assert SumsOf(wider) == SumsOf(gs)[g := map[]];
    assert PercentsOf(wider) == PercentsOf(gs)[g := map[]];
    assert NotesOf(wider) == NotesOf(gs)[g := map[]];
  }

  lemma {:induction false} TouchKnown(gs: Groups, g: nat, k: AddressBackend)
    requires g in gs && k in gs[g]
    ensures Touch(ListsOf(gs), g, k, []) == ListsOf(gs)
    ensures Touch(SumsOf(gs), g, k, 0) == SumsOf(gs)
    ensures Touch(PercentsOf(gs), g, k, 0.0) == PercentsOf(gs)
    ensures Touch(NotesOf(gs), g, k, NewNote()) == NotesOf(gs)
  {
  }

  /** A row of notes with one backend's replaced. */
  lemma {:induction false} NotesUpdate(gs: Groups, was: Table<Note>, g: nat, k: AddressBackend, note: Note)
    requires was.Keys == gs.Keys && g in gs && k in was[g]
    requires Notes(gs[g]) == was[g][k := note]
    requires forall h :: h in gs && h != g ==> Notes(gs[h]) == was[h]
    ensures NotesOf(gs) == SetAt(was, g, k, note)
  {
  }

  lemma {:induction false} NoteRows(gs: Groups)
    ensures forall h :: h in gs ==> NotesOf(gs)[h] == Notes(gs[h])
  {
  }

  /** Go's zero time, in seconds from the Unix epoch. */
  const ZERO_TIME: real := -62135596800.0

  class DnetStat {
    var time: real
    var group: Groups

    ghost predicate Valid()
      reads this`group, BackendsOf(group)`id
    {
      Separate(group) && LongTable(ListsOf(group))
    }

    ghost function Views(): Tables
      reads this`group, BackendsOf(group)
    {
      Tables(ListsOf(group), SumsOf(group), PercentsOf(group))
    }

    constructor ()
      ensures Valid() && group == map[] && time == ZERO_TIME
    {
      time, group := ZERO_TIME, map[];
    }

    /** First half of `FindBackend`: the group exists afterwards. */
    method FindGroup(g: nat)
      requires Separate(group)
      modifies this`group
      ensures group == if g in old(group) then old(group) else old(group)[g := map[]]
      ensures Separate(group) && BackendsOf(group) == old(BackendsOf(group))
      ensures ListsOf(group) == Open(old(ListsOf(group)), g)
      ensures SumsOf(group) == Open(old(SumsOf(group)), g)
      ensures PercentsOf(group) == Open(old(PercentsOf(group)), g)
      ensures NotesOf(group) == Open(old(NotesOf(group)), g)
    {
      hide BackendsOf, Separate, ListsOf, SumsOf, PercentsOf, NotesOf;
      if g !in group {
        OpenSeparate(group, g);
        OpenViews(group, g);
        group := group[g := map[]];
      }
    }

    method PutNew(g: nat, k: AddressBackend, backend: StatBackend)
      requires Separate(group) && g in group && k !in group[g] && backend !in BackendsOf(group)
      requires backend.id == [] && backend.sum == 0 && backend.percentage == 0.0 && backend.note == NewNote()
      modifies this`group
      ensures group == Put(old(group), g, k, backend) && Separate(group)
      ensures BackendsOf(group) == old(BackendsOf(group)) + {backend}
      ensures ListsOf(group) == Touch(old(ListsOf(group)), g, k, [])
      ensures SumsOf(group) == Touch(old(SumsOf(group)), g, k, 0)
      ensures PercentsOf(group) == Touch(old(PercentsOf(group)), g, k, 0.0)
      ensures NotesOf(group) == Touch(old(NotesOf(group)), g, k, NewNote())
    {
      hide BackendsOf, Separate, ListsOf, SumsOf, PercentsOf, NotesOf, Touch, NewNote, Put;
      ghost var was := group;
      group := Put(group, g, k, backend);
      PutSeparate(was, g, k, backend);
      PutViews(was, g, k, backend);
      PutNotes(was, g, k, backend, NewNote());
    }

    /** Second half of `FindBackend`: the object for `k`, created on first use. */
    method FindInGroup(g: nat, k: AddressBackend) returns (backend: StatBackend)
      requires Separate(group) && g in group
      modifies this`group
      ensures g in group && k in group[g] && backend == group[g][k] && Separate(group)
      ensures if k in old(group[g]) then group == old(group) && backend in old(BackendsOf(group))
              else fresh(backend) && BackendsOf(group) == old(BackendsOf(group)) + {backend}
      ensures ListsOf(group) == Touch(old(ListsOf(group)), g, k, [])
      ensures SumsOf(group) == Touch(old(SumsOf(group)), g, k, 0)
      ensures PercentsOf(group) == Touch(old(PercentsOf(group)), g, k, 0.0)
      ensures NotesOf(group) == Touch(old(NotesOf(group)), g, k, NewNote())
    {
      hide Touch, ListsOf, SumsOf, PercentsOf, NotesOf, NewNote, Separate;
      if k in group[g] {
        backend := group[g][k];
        TouchKnown(group, g, k);
      } else {
        backend := new StatBackend();
        PutNew(g, k, backend);
      }
    }

    /** `FindBackend`: the one object for this group, address and backend, created on first use. */
    method FindBackend(g: nat, addr: DnetAddr, backendId: int) returns (backend: StatBackend)
      requires Valid() && |addr.addr| <= RAW_ADDR_SIZE
      modifies this`group
      ensures Valid()
      ensures fresh(BackendsOf(group) - old(BackendsOf(group))) && backend in BackendsOf(group)
      ensures g in group && NewAddressBackend(addr, backendId).value in group[g]
      ensures backend == group[g][NewAddressBackend(addr, backendId).value]
      ensures ListsOf(group) == Touch(old(ListsOf(group)), g, NewAddressBackend(addr, backendId).value, [])
      ensures SumsOf(group) == Touch(old(SumsOf(group)), g, NewAddressBackend(addr, backendId).value, 0)
      ensures PercentsOf(group) == Touch(old(PercentsOf(group)), g, NewAddressBackend(addr, backendId).value, 0.0)
      ensures NotesOf(group) == Touch(old(NotesOf(group)), g, NewAddressBackend(addr, backendId).value, NewNote())
    {
      hide Touch, Open, BackendsOf, Separate, ListsOf, SumsOf, PercentsOf, NotesOf, LongTable;
      ghost var lists := ListsOf(group);
      TouchLong(lists, g, NewAddressBackend(addr, backendId).value);
      TouchOpen(lists, g, NewAddressBackend(addr, backendId).value, []);
      TouchOpen(SumsOf(group), g, NewAddressBackend(addr, backendId).value, 0);
      TouchOpen(PercentsOf(group), g, NewAddressBackend(addr, backendId).value, 0.0);
      TouchOpen(NotesOf(group), g, NewAddressBackend(addr, backendId).value, NewNote());
      FindGroup(g);
      backend := FindInGroup(g, NewAddressBackend(addr, backendId).value);
    }

    /** Append one ID to the backend under `(g, k)`; no other list changes. */
    method AppendId(g: nat, k: AddressBackend, backend: StatBackend, id: ByteString)
      requires Separate(group) && g in group && k in group[g] && backend == group[g][k]
      modifies backend`id
      ensures ListsOf(group) == Append(old(ListsOf(group)), g, k, id)
      ensures SumsOf(group) == old(SumsOf(group)) && NotesOf(group) == old(NotesOf(group))
    {
      hide Separate, ListsOf, SumsOf, NotesOf, Append;
      AppendToList(g, k, backend, id);
      assert unchanged(BackendsOf(group)`note) && unchanged(BackendsOf(group)`sum);
    }

    method AppendToList(g: nat, k: AddressBackend, backend: StatBackend, id: ByteString)
      requires Separate(group) && g in group && k in group[g] && backend == group[g][k]
      modifies backend`id
      ensures ListsOf(group) == Append(old(ListsOf(group)), g, k, id)
    {
      ghost var lists := ListsOf(group);
      Alone(group, g, backend);
      hide Separate, ListsOf, BackendsOf, Ids, Append;
      ListRows(group);
      AppendRow(group[g], k, backend, id);
      ListRows(group);
      ListsUpdate(group, lists, g, k, id);
    }

    method AppendRow(row: StatGroup, ghost k: AddressBackend, backend: StatBackend, id: ByteString)
      requires Injective(row) && k in row && backend == row[k]
      modifies backend`id
      ensures Ids(row) == old(Ids(row))[k := old(Ids(row))[k] + [id]]
    {
      backend.id := backend.id + [id];
    }

    /** `AddRouteEntry`: one more ID for the entry's group, address and backend, and nothing else. */
    method AddRouteEntry(entry: RouteEntry)
      requires Valid() && entry.WellFormed()
      modifies this`group, BackendsOf(group)`id
      ensures Valid()
      ensures fresh(BackendsOf(group) - old(BackendsOf(group)))
      ensures ListsOf(group) == AddRoute(old(ListsOf(group)), entry)
      ensures SumsOf(group) == Touch(old(SumsOf(group)), entry.group, entry.Key(), 0)
      ensures NotesOf(group) == Touch(old(NotesOf(group)), entry.group, entry.Key(), NewNote())
    {
      hide BackendsOf, Separate, ListsOf, SumsOf, PercentsOf, NotesOf, LongTable, Touch, NewAddressBackend, Append, NewNote;
      AddRouteLong(ListsOf(group), entry);
      var backend := FindBackend(entry.group, entry.addr, entry.backend);
      AppendId(entry.group, entry.Key(), backend, entry.id);
    }

    /** `session_get_routes`: every route entry in turn goes through `AddRouteEntry`. */
    method AddRouteEntries(entries: seq<RouteEntry>)
      requires Valid() && AllWellFormed(entries)
      modifies this`group, BackendsOf(group)`id
      ensures Valid()
      ensures fresh(BackendsOf(group) - old(BackendsOf(group)))
      ensures ListsOf(group) == AddRoutes(old(ListsOf(group)), entries)
      ensures Extends(old(SumsOf(group)), SumsOf(group), 0)
      ensures Extends(old(NotesOf(group)), NotesOf(group), NewNote())
    {
      hide Separate, ListsOf, SumsOf, NotesOf, LongTable, Touch, AddRoute, BackendsOf, NewNote;
      for i := 0 to |entries|
        invariant Valid()
        invariant fresh(BackendsOf(group) - old(BackendsOf(group)))
        invariant ListsOf(group) == AddRoutes(old(ListsOf(group)), entries[..i])
        invariant Extends(old(SumsOf(group)), SumsOf(group), 0)
        invariant Extends(old(NotesOf(group)), NotesOf(group), NewNote())
      {
        ghost var sums, notes, known := SumsOf(group), NotesOf(group), BackendsOf(group);
        TouchExtends(sums, entries[i].group, entries[i].Key(), 0);
        TouchExtends(notes, entries[i].group, entries[i].Key(), NewNote());
        assert entries[..i + 1][..i] == entries[..i];
        label before:
        AddRouteEntry(entries[i]);
        ExtendsTransitive(old(SumsOf(group)), sums, SumsOf(group), 0);
        ExtendsTransitive(old(NotesOf(group)), notes, NotesOf(group), NewNote());
        forall b | b in BackendsOf(group) && b !in known ensures fresh(b) {
          assert fresh@before(b);
        }
        SplitDifference(BackendsOf(group), known, old(BackendsOf(group)));
      }
      assert entries[..|entries|] == entries;
    }

    /** `Finalize` on one group changes that group's row of each table and no other. */
    method FinalizeGroup(g: nat) returns (ghost order: seq<AddressBackend>)
      requires Separate(group) && g in group && Stat.Valid(group[g])
      modifies group[g].Values`id, group[g].Values`sum, group[g].Values`percentage
      ensures Finalized(old(Ids(group[g])), old(Sum(group[g])), order, Ids(group[g]), Sum(group[g]), Percent(group[g]))
      ensures forall h :: h in group && h != g ==> Ids(group[h]) == old(Ids(group[h]))
      ensures forall h :: h in group && h != g ==> Sum(group[h]) == old(Sum(group[h]))
      ensures forall h :: h in group && h != g ==> Percent(group[h]) == old(Percent(group[h]))
    {
      assert forall h :: h in group && h != g ==> group[g].Values !! group[h].Values;
      assert AllLong(Ids(group[g]));
      hide Separate, Stat.Valid, Ids, Sum, Percent, Credited, Fractions, ClaimsOf, SortExcept, Ring.Owners, Ring.Enumerates;
      order := Stat.Finalize(group[g]);
    }

    /** One turn of the loop over groups. */
    method FinalizeNext(g: nat, ghost lists: Table<seq<ByteString>>, ghost sums: Table<uint64>, ghost orders: Orders)
      returns (ghost order: seq<AddressBackend>)
      requires Separate(group) && g in group && g !in orders && LongTable(lists)
      requires Progress(lists, sums, orders, ListsOf(group), SumsOf(group), PercentsOf(group))
      modifies group[g].Values`id, group[g].Values`sum, group[g].Values`percentage
      ensures Progress(lists, sums, orders[g := order], ListsOf(group), SumsOf(group), PercentsOf(group))
    {
      hide Ids, Sum, Percent, ListsOf, SumsOf, PercentsOf, Finalized, BackendsOf, Progress, AllLong;
      ghost var L, S, P := ListsOf(group), SumsOf(group), PercentsOf(group);
      ProgressLong(lists, sums, orders, L, S, P);
      Rows(group);
      assert Stat.Valid(group[g]);
      order := FinalizeGroup(g);
      Rows(group);
      ProgressStep(lists, sums, orders, L, S, P, g, order, ListsOf(group), SumsOf(group), PercentsOf(group));
    }

    /** `DnetStat.Finalize`: every group is finalized, in some order of groups and, within each, some order of backends. */
    method Finalize() returns (ghost orders: Orders)
      requires Valid()
      modifies BackendsOf(group)`id, BackendsOf(group)`sum, BackendsOf(group)`percentage
      ensures Valid()
      ensures orders.Keys == group.Keys
      ensures Progress(old(ListsOf(group)), old(SumsOf(group)), orders, ListsOf(group), SumsOf(group), PercentsOf(group))
    {
      ghost var lists, sums := ListsOf(group), SumsOf(group);
      orders := map[];
      var todo := group.Keys;
      ghost var keys := group.Keys;
      ProgressStart(lists, sums, PercentsOf(group));
      assert Pending(orders, keys, todo);
      hide Separate, ListsOf, SumsOf, PercentsOf, BackendsOf, LongTable, Progress, Pending;
      while todo != {}
        invariant Pending(orders, keys, todo)
        invariant Progress(lists, sums, orders, ListsOf(group), SumsOf(group), PercentsOf(group))
      {
        var g :| g in todo;
        RowInBackends(group, g);
        KeysStep(orders, g, [], keys, todo);
        ghost var order := FinalizeNext(g, lists, sums, orders);
        KeysStep(orders, g, order, keys, todo);
        orders := orders[g := order];
        todo := todo - {g};
      }
      AllVisited(orders, keys);
      ProgressLong(lists, sums, orders, ListsOf(group), SumsOf(group), PercentsOf(group));
    }

    /**
     `AddStatEntry`: takes over the reply's time, whether or not monitoring works there, and fills in what it reports,
     possibly creating backends; IDs, sums and percentages stay.
     */
    method AddStatEntry(entry: StatEntry)
      requires Valid() && |entry.addr.addr| <= RAW_ADDR_SIZE
      modifies this`time, this`group, BackendsOf(group)`note
      ensures Valid() && time == entry.time
      ensures fresh(BackendsOf(group) - old(BackendsOf(group)))
      ensures Grown(old(Views()), Views())
      ensures NotesOf(group) == ApplyEntry(old(NotesOf(group)), entry)
    {
      hide Separate, Views, LongTable, Grown, NotesOf, ApplyNode, ApplyNodes;
      SetTime(entry.time);
      GrownSelf(Views());
      if entry.monitoring {
        AddNodes(entry.addr, entry.vnodes);
      }
    }

    method SetTime(t: real)
      requires Valid()
      modifies this`time
      ensures Valid() && time == t && Views() == old(Views()) && NotesOf(group) == old(NotesOf(group))
    {
      hide Separate, ListsOf, SumsOf, PercentsOf, LongTable, NotesOf, BackendsOf;
      time := t;
    }

    /** The loop over the backends of one reply. */
    method AddNodes(addr: DnetAddr, vnodes: seq<VNode>)
      requires Valid() && |addr.addr| <= RAW_ADDR_SIZE
      modifies this`group, BackendsOf(group)`note
      ensures Valid()
      ensures fresh(BackendsOf(group) - old(BackendsOf(group)))
      ensures Grown(old(Views()), Views())
      ensures NotesOf(group) == ApplyNodes(old(NotesOf(group)), addr, vnodes, |vnodes|)
    {
      hide Separate, Views, LongTable, Grown, NotesOf, ApplyNode, ApplyNodes, BackendsOf;
      GrownSelf(Views());
      ghost var notes := NotesOf(group);
      NodesStep(notes, addr, vnodes, 0);
      for i := 0 to |vnodes|
        invariant Valid()
        invariant fresh(BackendsOf(group) - old(BackendsOf(group)))
        invariant Grown(old(Views()), Views())
        invariant NotesOf(group) == ApplyNodes(notes, addr, vnodes, i)
      {
        ghost var views, known := Views(), BackendsOf(group);
        NodesStep(notes, addr, vnodes, i);
        label before:
        ApplyVNode(addr, vnodes[i]);
        GrownTransitive(old(Views()), views, Views());
        forall b | b in BackendsOf(group) && b !in known ensures fresh(b) {
          assert fresh@before(b);
        }
        SplitDifference(BackendsOf(group), known, old(BackendsOf(group)));
      }
    }

    /** `GetRoutes`: all route entries, then `Finalize`. The ghost results say how the tables came about. */
    method GetRoutes(routes: seq<RouteEntry>) returns (ghost sums: Table<uint64>, ghost orders: Orders)
      requires Valid() && AllWellFormed(routes)
      modifies this`group, BackendsOf(group)
      ensures Valid()
      ensures fresh(BackendsOf(group) - old(BackendsOf(group)))
      ensures Extends(old(SumsOf(group)), sums, 0) && Keyed(AddRoutes(old(ListsOf(group)), routes), sums)
      ensures Extends(old(NotesOf(group)), NotesOf(group), NewNote())
      ensures orders.Keys == sums.Keys
      ensures Progress(AddRoutes(old(ListsOf(group)), routes), sums, orders, ListsOf(group), SumsOf(group), PercentsOf(group))
    {
      hide ListsOf, SumsOf, PercentsOf, NotesOf, Separate, Extends, Progress, LongTable, Keyed, NewNote, AddRoutes;
      AddRouteEntries(routes);
      sums := SumsOf(group);
      SameKeys(group);
      orders := FinalizeOnly();
    }

    /** `Finalize`, which leaves notes alone. */
    method FinalizeOnly() returns (ghost orders: Orders)
      requires Valid()
      modifies BackendsOf(group)`id, BackendsOf(group)`sum, BackendsOf(group)`percentage
      ensures Valid() && NotesOf(group) == old(NotesOf(group))
      ensures orders.Keys == group.Keys
      ensures Progress(old(ListsOf(group)), old(SumsOf(group)), orders, ListsOf(group), SumsOf(group), PercentsOf(group))
    {
      hide ListsOf, SumsOf, PercentsOf, NotesOf, Separate, Progress, LongTable;
      orders := Finalize();
      assert unchanged(BackendsOf(group)`note);
    }

    /** The loop of `Session.DnetStat` over the replies. */
    method AddStatEntries(replies: seq<StatEntry>)
      requires Valid() && AllFit(replies)
      modifies this`time, this`group, BackendsOf(group)`note
      ensures Valid()
      ensures fresh(BackendsOf(group) - old(BackendsOf(group)))
      ensures Grown(old(Views()), Views())
      ensures NotesOf(group) == ApplyEntries(old(NotesOf(group)), replies, |replies|)
      ensures time == if replies == [] then old(time) else replies[|replies| - 1].time
    {
      hide Separate, Views, LongTable, Grown, NotesOf, ApplyEntry, ApplyEntries, BackendsOf;
      GrownSelf(Views());
      ghost var notes := NotesOf(group);
      EntriesStep(notes, replies, 0);
      for i := 0 to |replies|
        invariant Valid() && time == if i == 0 then old(time) else replies[i - 1].time
        invariant fresh(BackendsOf(group) - old(BackendsOf(group)))
        invariant Grown(old(Views()), Views())
        invariant NotesOf(group) == ApplyEntries(notes, replies, i)
      {
        ghost var views, known := Views(), BackendsOf(group);
        EntriesStep(notes, replies, i);
        label before:
        AddStatEntry(replies[i]);
        GrownTransitive(old(Views()), views, Views());
        forall b | b in BackendsOf(group) && b !in known ensures fresh(b) {
          assert fresh@before(b);
        }
        SplitDifference(BackendsOf(group), known, old(BackendsOf(group)));
      }
    }

    /** One backend of a monitoring reply. */
    method ApplyVNode(addr: DnetAddr, v: VNode)
      requires Valid() && |addr.addr| <= RAW_ADDR_SIZE
      modifies this`group, BackendsOf(group)`note
      ensures Valid()
      ensures fresh(BackendsOf(group) - old(BackendsOf(group)))
      ensures Grown(old(Views()), Views())
      ensures NotesOf(group) == ApplyNode(old(NotesOf(group)), addr, v)
    {
      hide Views;
      if !v.enabled {
        GrownSelf(Views());
      } else {
        ApplyEnabled(addr, v, NewAddressBackend(addr, v.backend).value);
      }
    }

    method ApplyEnabled(addr: DnetAddr, v: VNode, k: AddressBackend)
      requires Valid() && |addr.addr| <= RAW_ADDR_SIZE && k == NewAddressBackend(addr, v.backend).value
      modifies this`group, BackendsOf(group)`note
      ensures Valid()
      ensures fresh(BackendsOf(group) - old(BackendsOf(group)))
      ensures Grown(old(Views()), Views())
      ensures var u := Touch(old(NotesOf(group)), v.group, k, NewNote());
              NotesOf(group) == SetAt(u, v.group, k, Merged(u[v.group][k], v))
    {
      hide BackendsOf, Separate, Views, NotesOf, LongTable, Grown, Touch, NewAddressBackend, Merged, SetAt, NewNote;
      var backend := FindGrown(v.group, addr, v.backend);
      SetNote(v.group, k, backend, v);
    }

    /** `FindBackend`, as growth of the tables. */
    method FindGrown(g: nat, addr: DnetAddr, backendId: int) returns (backend: StatBackend)
      requires Valid() && |addr.addr| <= RAW_ADDR_SIZE
      modifies this`group
      ensures Valid()
      ensures fresh(BackendsOf(group) - old(BackendsOf(group))) && backend in BackendsOf(group)
      ensures g in group && NewAddressBackend(addr, backendId).value in group[g]
      ensures backend == group[g][NewAddressBackend(addr, backendId).value]
      ensures Grown(old(Views()), Views())
      ensures NotesOf(group) == Touch(old(NotesOf(group)), g, NewAddressBackend(addr, backendId).value, NewNote())
    {
      hide BackendsOf, Separate, ListsOf, SumsOf, PercentsOf, NotesOf, LongTable, Grown, Touch, NewAddressBackend;
      TouchGrown(Views(), g, NewAddressBackend(addr, backendId).value);
      backend := FindBackend(g, addr, backendId);
    }

    /** The backend under `(g, k)` takes the reply over; nothing else changes. */
    method SetNote(g: nat, k: AddressBackend, backend: StatBackend, v: VNode)
      requires Valid() && g in group && k in group[g] && backend == group[g][k]
      modifies backend`note
      ensures Valid() && Views() == old(Views())
      ensures NotesOf(group) == SetAt(old(NotesOf(group)), g, k, Merged(old(NotesOf(group))[g][k], v))
    {
      hide Separate, ListsOf, SumsOf, PercentsOf, NotesOf, LongTable, SetAt, Merged;
      ReplaceNote(g, k, backend, v);
      assert unchanged(BackendsOf(group)`id);
    }

    method ReplaceNote(g: nat, k: AddressBackend, backend: StatBackend, v: VNode)
      requires Separate(group) && g in group && k in group[g] && backend == group[g][k]
      modifies backend`note
      ensures NotesOf(group) == SetAt(old(NotesOf(group)), g, k, Merged(old(NotesOf(group))[g][k], v))
    {
      hide Separate, NotesOf, BackendsOf, SetAt, Merged, Notes, Injective;
      ghost var notes := NotesOf(group);
      Alone(group, g, backend);
      NoteRows(group);
      SetRow(group[g], k, backend, v);
      NoteRows(group);
      NotesUpdate(group, notes, g, k, Merged(notes[g][k], v));
    }

    method SetRow(row: StatGroup, ghost k: AddressBackend, backend: StatBackend, v: VNode)
      requires Injective(row) && k in row && backend == row[k]
      modifies backend`note
      ensures Notes(row) == old(Notes(row))[k := Merged(old(Notes(row))[k], v)]
    {
      hide Merged;
      SetBackend(backend, v);
    }

    /** The assignments in the source's order. */
    method SetBackend(backend: StatBackend, v: VNode)
      modifies backend`note
      ensures backend.note == Merged(old(backend.note), v)
    {
      backend.note := backend.note.(reading := backend.note.reading.(error := v.error));
      if v.error != 0 {
        return;
      }
      backend.note := backend.note.(reading := Measured(backend.note.reading, v));
      backend.note := backend.note.(rates := Reset(backend.note.rates, v));
    }
  }

  /**
   `Session.DnetStat`: routes on a fresh table, finalized, then every statistics reply. Every backend's sum is its share of
   its group's ring under the order in which the group was visited; in every group the sums total the whole ring if some
   route names the group and 0 otherwise; the route IDs stand under the key they were announced for, sorted; the
   snapshot carries the last reply's time, and no backend has rates yet.
   */
  method CollectStat(routes: seq<RouteEntry>, replies: seq<StatEntry>) returns (st: DnetStat, ghost orders: Orders, ghost blank: Table<Note>)
    requires AllWellFormed(routes) && AllFit(replies)
    ensures st.Valid() && fresh(st) && fresh(BackendsOf(st.group))
    ensures Extends(map[], blank, NewNote()) && NotesOf(st.group) == ApplyEntries(blank, replies, |replies|)
    ensures SharedOut(routes, orders, SumsOf(st.group))
    ensures RingComplete(routes, SumsOf(st.group))
    ensures PercentComplete(routes, PercentsOf(st.group))
    ensures ListsSorted(routes, ListsOf(st.group))
    ensures st.time == if replies == [] then ZERO_TIME else replies[|replies| - 1].time
    ensures AllUnjoined(NotesOf(st.group))
  {
    st := new DnetStat();
    EmptyTables();
    hide PercentComplete, ListsOf, SumsOf, PercentsOf, NotesOf, Grown, Extends, Keyed, RingComplete, ListsSorted, Progress,
      Separate, LongTable, BackendsOf, SharedOut, ApplyEntries, AllUnjoined, NewNote;
    ghost var sums;
    label empty:
    sums, orders := st.GetRoutes(routes);
    ghost var known: set<StatBackend> := BackendsOf(st.group);
    forall b | b in known ensures fresh(b) {
      assert b in BackendsOf(st.group) - {} && fresh@empty(b);
    }
    ghost var tables := st.Views();
    blank := NotesOf(st.group);
    RoutedUnjoined(blank);
    EntriesUnjoined(blank, replies, |replies|);
    SameKeys(st.group);
    label routed:
    st.AddStatEntries(replies);
    forall b | b in BackendsOf(st.group) ensures fresh(b) {
      assert b in known || fresh@routed(b);
    }
    SameKeys(st.group);
    CollectResult(routes, sums, orders, tables, st.Views());
    CollectShares(routes, sums, orders, tables, st.Views());
  }
}
