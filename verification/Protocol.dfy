/**
 The life of asynchronous operations: contexts allocated, closures stored in the pool, a native request submitted,
 results and a final event dispatched through the pool, contexts deleted (elliptics/session.go, elliptics/backend.go,
 elliptics/stat.go, elliptics/route.go). Each step below is one atomic action; any number of operations interleave.
 */
module Protocol {
  import opened Machine
  import opened Pool
  import Bytes
  import Keys
  import Sorting

  datatype Kind =
    | ReadKey | BulkRead
    | Lookup | ParallelLookup
    | RemoveKey | BulkWrite | BulkRemove
    | FindIndexes | ListIndexes | ChangeIndexes
    | Statistics | BackendAdmin | GetRoutes
    | Write | Cache | WriteChunk

  /** What each kind stores, in the order it allocates, stores and later deletes the contexts. */
  function Layout(kind: Kind): (r: seq<Tag>)
    ensures 1 <= |r| <= 3
  {
    match kind
    case ReadKey | BulkRead => [ReadFn, FinalFn]
    case Lookup | ParallelLookup | BulkWrite => [LookupFn, FinalFn]
    case RemoveKey | BulkRemove => [RemoveFn, FinalFn]
    case FindIndexes => [FindFn, FinalFn]
    case ListIndexes => [IndexEntryFn, FinalFn]
    case ChangeIndexes => [EmptyFn, FinalFn]
    case Statistics => [StatEntryFn, FinalFn]
    case BackendAdmin => [BackendsFn]
    case GetRoutes => [StatTable]
    case Write | Cache => [NamedLookupFn, FinalFn, Buffer]
    case WriteChunk => [LookupFn, FinalFn, Buffer]
  }

  /** The type the dispatcher of each native result event asserts; `None` where results never reach Go. */
  function ResultTag(kind: Kind): Option<Tag>
  {
    match kind
    case ReadKey | BulkRead => Some(ReadFn)
    case Lookup | ParallelLookup | BulkWrite | Write | Cache | WriteChunk => Some(LookupFn)
    case RemoveKey | BulkRemove => Some(RemoveFn)
    case FindIndexes => Some(FindFn)
    case ListIndexes => Some(IndexEntryFn)
    case ChangeIndexes | BackendAdmin => None
    case Statistics => Some(StatEntryFn)
    case GetRoutes => Some(StatTable)
  }

  /** Where the final event looks: the only context of a backend request, the second one otherwise. */
  function FinalSlot(kind: Kind): nat
  {
    if kind.BackendAdmin? then 0 else 1
  }

  function FinalTag(kind: Kind): Tag
  {
    if kind.BackendAdmin? then BackendsFn else FinalFn
  }

  /** One native result entry. */
  datatype Entry = Entry(id: Bytes.ByteString, status: int, failed: bool)

  /** What a consumer receives. */
  datatype Item =
    | Given(entry: Entry, name: Bytes.ByteString)
    | UnknownKey
    | Failure(code: int)
    | Status(code: int)

  /** `ekeys.Find`, for the kinds that label results with the name they were asked under. */
  function Named(keys: seq<Keys.Key>, e: Entry, missing: seq<Item>): seq<Item>
  {
    match Keys.Find(keys, e.id)
    case None => missing
    case Some(name) => [Given(e, name)]
  }

  /** The `onResult` closures. */
  function OnResult(kind: Kind, keys: seq<Keys.Key>, e: Entry): seq<Item>
  {
    match kind
    case BulkRead => Named(keys, e, [])
    case BulkWrite => if e.failed then [Given(e, [])] else Named(keys, e, [])
    case BulkRemove =>
      if e.failed then [Given(e, [])]
      else if e.status != 0 then Named(keys, e, [UnknownKey])
      else []
    case ChangeIndexes | BackendAdmin | GetRoutes => []
    case _ => [Given(e, [])]
  }

  /** The `onFinish` closures: an error only for a negative code; backend requests always report. */
  function OnFinish(kind: Kind, code: int): seq<Item>
  {
    if kind.BackendAdmin? then [Status(code)]
    else if code < 0 then [Failure(code)]
    else []
  }

  datatype Phase = Setup | InFlight | Cleanup | Gone

  /**
   An operation: `contexts` allocated so far, the first `stored` of them stored and the first `deleted` deleted again;
   then what the native side delivered and what the consumer's channel holds.
   */
  datatype Op = Op(kind: Kind, keys: seq<Keys.Key>, contexts: seq<uint64>, stored: nat, deleted: nat, phase: Phase,
                   arrived: seq<Entry>, out: seq<Item>, closed: bool, final: Option<int>)

  datatype Sys = Sys(counter: uint64, entries: Entries, ops: map<nat, Op>, panicked: bool)

  const INIT: Sys := Sys(0, map[], map[], false)

  datatype Action =
    | Spawn(o: nat, kind: Kind, keys: seq<Keys.Key>)
    | Allocate(o: nat)                            // NextContext
    | Abandon(o: nat, code: int)                  // NewKey or the first read fails before anything is stored
    | StoreNext(o: nat)                           // Pool.Store
    | Submit(o: nat)                              // the C call
    | Deliver(o: nat, entry: Entry, show: bool)   // one native result; `show` is WriteChunk's own decision
    | Complete(o: nat, code: int, again: bool)    // the final event; `again` is WriteChunk issuing its next write
    | Return(o: nat)                              // session_get_routes returns
    | DeleteNext(o: nat)                          // Pool.Delete

  ghost predicate Enabled(s: Sys, a: Action)
  {
    && !s.panicked
    && (if a.Spawn? then a.o !in s.ops
        else
          && a.o in s.ops
          && var op := s.ops[a.o];
             var n := |Layout(op.kind)|;
             match a
             case Allocate(_) => op.phase.Setup? && |op.contexts| < n
             case Abandon(_, code) =>
               op.phase.Setup? && |op.contexts| == n && op.stored == 0 && code < 0
               && (op.kind.ParallelLookup? || op.kind.WriteChunk?)
             case StoreNext(_) => op.phase.Setup? && |op.contexts| == n && op.stored < n
             case Submit(_) => op.phase.Setup? && |op.contexts| == n && op.stored == n
             case Deliver(_, _, _) => op.phase.InFlight? && !op.kind.BackendAdmin?
             case Complete(_, _, again) =>
               op.phase.InFlight? && !op.kind.GetRoutes? && (again ==> op.kind.WriteChunk? && a.code >= 0)
             case Return(_) => op.phase.InFlight? && op.kind.GetRoutes?
             case DeleteNext(_) => op.phase.Cleanup? && op.deleted < n)
  }

  /** The closure that a dispatcher found runs with its own operation's variables (on a closed channel it would panic). */
  ghost function RunResult(op: Op, e: Entry, show: bool): Op
  {
    var items := if op.kind.WriteChunk? && !show then [] else OnResult(op.kind, op.keys, e);
    op.(arrived := op.arrived + [e], out := op.out + items)
  }

  ghost function RunFinal(op: Op, code: int, again: bool): Op
  {
    if again then op
    else op.(out := op.out + OnFinish(op.kind, code), closed := true, final := Some(code), phase := Cleanup)
  }

  ghost function Next(counter: uint64): uint64
  {
    Add64(counter, 1)
  }

  ghost function Step(s: Sys, a: Action): Sys
    requires Enabled(s, a)
  {
    if a.Spawn? then
      s.(ops := s.ops[a.o := Op(a.kind, a.keys, [], 0, 0, Setup, [], [], false, None)])
    else
      var op := s.ops[a.o];
      match a
      case Allocate(o) =>
        s.(counter := Next(s.counter), ops := s.ops[o := op.(contexts := op.contexts + [Next(s.counter)])])
      case Abandon(o, code) =>
        s.(ops := s.ops[o := op.(phase := Gone, out := op.out + [Failure(code)], closed := true, final := Some(code))])
      case StoreNext(o) =>
        if op.stored < |op.contexts| && op.stored < |Layout(op.kind)| then
          s.(entries := s.entries[op.contexts[op.stored] := Value(Layout(op.kind)[op.stored], o)],
             ops := s.ops[o := op.(stored := op.stored + 1)])
        else s
      case Submit(o) => s.(ops := s.ops[o := op.(phase := InFlight)])
      case Deliver(o, e, show) =>
        if ResultTag(op.kind).None? then s
        else if op.contexts == [] then s.(panicked := true)
        else
          (match Dispatch(s.entries, op.contexts[0], ResultTag(op.kind).value)
           case Callback(p) =>
             if p in s.ops && !s.ops[p].closed then s.(ops := s.ops[p := RunResult(s.ops[p], e, show)]) else s.(panicked := true)
           case NoKey => s.(panicked := true)
           case WrongType => s.(panicked := true))
      case Complete(o, code, again) =>
        if |op.contexts| <= FinalSlot(op.kind) then s.(panicked := true)
        else
          (match Dispatch(s.entries, op.contexts[FinalSlot(op.kind)], FinalTag(op.kind))
           case Callback(p) =>
             if p in s.ops && !s.ops[p].closed then s.(ops := s.ops[p := RunFinal(s.ops[p], code, again)]) else s.(panicked := true)
           case NoKey => s.(panicked := true)
           case WrongType => s.(panicked := true))
      case Return(o) => s.(ops := s.ops[o := op.(phase := Cleanup)])
      case DeleteNext(o) =>
        if op.deleted < |op.contexts| then
          s.(entries := s.entries - {op.contexts[op.deleted]},
             ops := s.ops[o := op.(deleted := op.deleted + 1,
                                   phase := if op.deleted + 1 == |Layout(op.kind)| then Gone else Cleanup)])
        else s
  }

  // ---------------------------------------------------------------- the invariant

  ghost function Shown(kind: Kind, keys: seq<Keys.Key>, arrived: seq<Entry>): seq<Item>
  {
    if arrived == [] then []
    else Shown(kind, keys, arrived[..|arrived| - 1]) + OnResult(kind, keys, arrived[|arrived| - 1])
  }

  /** The channel's content as results and final code determine it. */
  ghost function Expected(op: Op): seq<Item>
  {
    Shown(op.kind, op.keys, op.arrived) + if op.final.Some? then OnFinish(op.kind, op.final.value) else []
  }

  /** Bookkeeping of one operation. */
  ghost predicate Shape(op: Op)
  {
    var n := |Layout(op.kind)|;
    && op.deleted <= op.stored <= |op.contexts| <= n
    && (op.phase.Setup? ==> op.deleted == 0 && op.arrived == [] && op.out == [])
    && (op.phase.InFlight? ==> op.deleted == 0 && op.stored == |op.contexts| == n)
    && (op.phase.Cleanup? ==> op.deleted < op.stored == |op.contexts| == n)
    && (op.phase.Gone? ==> op.deleted == op.stored)
    && (op.closed <==> op.final.Some?)
    && (op.phase.Setup? || op.phase.InFlight? ==> !op.closed)
    && ((op.phase.Cleanup? || op.phase.Gone?) && !op.kind.GetRoutes? ==> op.closed)
    && (!op.kind.WriteChunk? ==> op.out == Expected(op))
  }

  ghost predicate Holds(s: Sys, o: nat, i: nat)
  {
    o in s.ops && !s.ops[o].phase.Gone? && s.ops[o].deleted <= i < |s.ops[o].contexts|
  }

  ghost predicate Live(s: Sys, o: nat, i: nat)
  {
    o in s.ops && s.ops[o].deleted <= i < s.ops[o].stored && i < |s.ops[o].contexts| && i < |Layout(s.ops[o].kind)|
  }

  /** No context is held twice. */
  ghost predicate Distinct(s: Sys)
  {
    forall o: nat, i: nat, p: nat, j: nat ::
      Holds(s, o, i) && Holds(s, p, j) && s.ops[o].contexts[i] == s.ops[p].contexts[j] ==> o == p && i == j
  }

  /** Every live context is in the pool with its own closure, and nothing else is. */
  ghost predicate Exact(s: Sys)
  {
    && (forall o: nat, i: nat :: Live(s, o, i) ==>
          s.ops[o].contexts[i] in s.entries
          && s.entries[s.ops[o].contexts[i]] == Value(Layout(s.ops[o].kind)[i], o))
    && (forall c :: c in s.entries ==> InUse(s, c))
  }

  ghost predicate InUse(s: Sys, c: uint64)
  {
    exists o: nat, i: nat :: Live(s, o, i) && s.ops[o].contexts[i] == c
  }

  ghost predicate Shapes(s: Sys)
  {
    forall o :: o in s.ops ==> Shape(s.ops[o])
  }

  ghost predicate Inv(s: Sys)
  {
    Shapes(s) && Distinct(s) && Exact(s)
  }

  /** The next context is not held by an unfinished operation. */
  ghost predicate Fresh(s: Sys)
  {
    forall o: nat, i: nat :: Holds(s, o, i) ==> s.ops[o].contexts[i] != Next(s.counter)
  }

  // ---------------------------------------------------------------- every step keeps it

  /** A dispatched event reaches its own operation's closure, and of the right type, unless the operation is a write or cache. */
  lemma {:induction false} DispatchesHome(s: Sys, o: nat)
    requires Inv(s) && o in s.ops && s.ops[o].phase.InFlight?
    ensures var op := s.ops[o];
            && !op.closed
            && (ResultTag(op.kind).Some? ==>
                  && op.contexts != []
                  && Dispatch(s.entries, op.contexts[0], ResultTag(op.kind).value)
                     == if op.kind.Write? || op.kind.Cache? then WrongType else Callback(o))
            && (!op.kind.GetRoutes? ==>
                  && FinalSlot(op.kind) < |op.contexts|
                  && Dispatch(s.entries, op.contexts[FinalSlot(op.kind)], FinalTag(op.kind)) == Callback(o))
  {
    hide Expected, Distinct, InUse;
    var op := s.ops[o];
    assert Shape(op);
    assert Live(s, o, 0);
    if !op.kind.GetRoutes? {
      assert Live(s, o, FinalSlot(op.kind));
    }
  }

  /** `u` is `s` with operation `o` replaced, all its contexts in the same state. */
  ghost predicate SameSlots(s: Sys, o: nat, u: Sys)
  {
    && o in s.ops && o in u.ops && u == s.(ops := s.ops[o := u.ops[o]])
    && u.ops[o].kind == s.ops[o].kind && u.ops[o].contexts == s.ops[o].contexts
    && u.ops[o].stored == s.ops[o].stored && u.ops[o].deleted == s.ops[o].deleted
    && (s.ops[o].phase.Gone? ==> u.ops[o].phase.Gone?)
  }

  lemma {:induction false} SameLive(s: Sys, o: nat, u: Sys)
    requires SameSlots(s, o, u)
    ensures forall p: nat, i: nat :: Live(u, p, i) <==> Live(s, p, i)
    ensures forall p: nat, i: nat :: Holds(u, p, i) ==> Holds(s, p, i)
    ensures forall p: nat :: p in s.ops ==> p in u.ops && u.ops[p].contexts == s.ops[p].contexts && u.ops[p].kind == s.ops[p].kind
  {
    hide Layout;
  }

  /** Replacing an operation by one with the same contexts in the same state keeps the pool exact. */
  lemma {:induction false} SameContexts(s: Sys, o: nat, u: Sys)
    requires Inv(s) && SameSlots(s, o, u) && Shape(u.ops[o])
    ensures Inv(u)
  {
    hide Shape, Layout;
    SameLive(s, o, u);
    assert Distinct(u) by {
      hide Live;
    }
    assert Exact(u) by {
      hide Holds, Live, SameSlots;
      forall c | c in u.entries ensures InUse(u, c) {
        assert InUse(s, c);
        var p: nat, i: nat :| Live(s, p, i) && s.ops[p].contexts[i] == c;
        assert Live(u, p, i);
      }
    }
  }

  lemma {:induction false} ResultShape(op: Op, e: Entry, show: bool)
    requires Shape(op) && op.phase.InFlight?
    ensures Shape(RunResult(op, e, show))
  {
    hide OnResult, Layout;
    var op' := RunResult(op, e, show);
    assert op'.arrived[..|op.arrived|] == op.arrived;
    if !op.kind.WriteChunk? {
      assert op.out == Shown(op.kind, op.keys, op.arrived) + [];
      assert op'.out == Shown(op.kind, op.keys, op'.arrived) + [];
    }
  }

  lemma {:induction false} FinalShape(op: Op, code: int, again: bool)
    requires Shape(op) && op.phase.InFlight?
    ensures Shape(RunFinal(op, code, again))
  {
    hide OnFinish, Shown;
    assert op.final.None?;
    if !op.kind.WriteChunk? {
      assert op.out == Shown(op.kind, op.keys, op.arrived) + [];
    }
  }

  lemma {:induction false} LiveHolds(s: Sys, o: nat, i: nat)
    requires Shapes(s) && Live(s, o, i)
    ensures Holds(s, o, i)
  {
    assert Shape(s.ops[o]);
  }

  lemma {:induction false} SpawnKeeps(s: Sys, a: Action)
    requires Inv(s) && a.Spawn? && Enabled(s, a)
    ensures Inv(Step(s, a))
  {
    hide Shape, Layout;
    var u := Step(s, a);
    assert Shape(u.ops[a.o]) by {
      SpawnShape(a.kind, a.keys);
    }
    assert forall p: nat, i: nat :: Live(u, p, i) <==> Live(s, p, i);
    assert forall p: nat, i: nat :: Holds(u, p, i) <==> Holds(s, p, i);
    assert forall p :: p in s.ops ==> p in u.ops && u.ops[p] == s.ops[p];
    assert forall p: nat, i: nat :: Live(s, p, i) ==> p in s.ops;
    assert forall p: nat, i: nat :: Holds(s, p, i) ==> p in s.ops;
    assert u.entries == s.entries;
    assert Shapes(u);
    hide Step, Shapes, Live, Holds;
    assert Exact(u) by {
      forall c | c in u.entries ensures InUse(u, c) {
        assert InUse(s, c);
        var p: nat, i: nat :| Live(s, p, i) && s.ops[p].contexts[i] == c;
        assert Live(u, p, i);
      }
    }
  }

  lemma {:induction false} SpawnShape(kind: Kind, keys: seq<Keys.Key>)
    ensures Shape(Op(kind, keys, [], 0, 0, Setup, [], [], false, None))
  {
  }

  /** Allocating keeps contexts distinct exactly when the new one is not held already. */
  lemma {:induction false} AllocateKeepsIff(s: Sys, a: Action)
    requires Inv(s) && a.Allocate? && Enabled(s, a)
    ensures Inv(Step(s, a)) <==> Fresh(s)
  {
    hide Shape, Layout;
    var u, op, n := Step(s, a), s.ops[a.o], |s.ops[a.o].contexts|;
    AllocateShape(op, Next(s.counter));
    assert Shape(op);
    assert n >= op.deleted && op.stored <= n by {
      ShapeBounds(op);
    }
    assert forall p: nat, i: nat :: Holds(u, p, i) <==> Holds(s, p, i) || (p == a.o && i == n);
    assert forall p: nat, i: nat :: Holds(s, p, i) ==> u.ops[p].contexts[i] == s.ops[p].contexts[i];
    assert u.ops[a.o].contexts[n] == Next(s.counter);
    assert Holds(u, a.o, n);
    assert !Holds(s, a.o, n);
    assert Distinct(u) <==> Fresh(s) by {
      hide Live, Exact;
      if !Fresh(s) {
        var p: nat, i: nat :| Holds(s, p, i) && s.ops[p].contexts[i] == Next(s.counter);
        assert Holds(u, p, i);
      }
    }
    assert Exact(u) by {
      AllocateExact(s, a);
    }
  }

  lemma {:induction false} ShapeBounds(op: Op)
    requires Shape(op)
    ensures op.deleted <= op.stored <= |op.contexts| <= |Layout(op.kind)|
  {
  }

  lemma {:induction false} AllocateShape(op: Op, c: uint64)
    requires op.phase.Setup? && |op.contexts| < |Layout(op.kind)|
    ensures Shape(op) ==> Shape(op.(contexts := op.contexts + [c]))
  {
  }

  lemma {:induction false} AllocateExact(s: Sys, a: Action)
    requires Inv(s) && a.Allocate? && Enabled(s, a)
    ensures Exact(Step(s, a))
  {
    hide Shape, Layout, Distinct;
    var u, op := Step(s, a), s.ops[a.o];
    assert Shape(op);
    ShapeBounds(op);
    assert forall p: nat, i: nat :: Live(u, p, i) <==> Live(s, p, i);
    assert forall p: nat, i: nat :: Live(s, p, i) ==> u.ops[p].contexts[i] == s.ops[p].contexts[i] && u.ops[p].kind == s.ops[p].kind;
    forall c | c in u.entries ensures InUse(u, c) {
      assert InUse(s, c);
      var p: nat, i: nat :| Live(s, p, i) && s.ops[p].contexts[i] == c;
      assert Live(u, p, i);
    }
  }

  lemma {:induction false} StoreShape(op: Op)
    requires Shape(op) && op.phase.Setup? && op.stored < |op.contexts|
    ensures Shape(op.(stored := op.stored + 1))
  {
  }

  /** A context about to be stored is not in the pool yet. */
  lemma {:induction false} StoreIsNew(s: Sys, o: nat)
    requires Inv(s) && o in s.ops && s.ops[o].phase.Setup? && s.ops[o].stored < |s.ops[o].contexts|
    ensures s.ops[o].contexts[s.ops[o].stored] !in s.entries
  {
    hide Layout, Expected;
    var op := s.ops[o];
    assert Shape(op);
    var c := op.contexts[op.stored];
    assert Holds(s, o, op.stored);
    if c in s.entries {
      assert InUse(s, c);
      var p: nat, i: nat :| Live(s, p, i) && s.ops[p].contexts[i] == c;
      LiveHolds(s, p, i);
      assert false;
    }
  }

  /** Same operations, same kinds, same contexts; nothing newly held. */
  ghost predicate Moves(s: Sys, u: Sys)
  {
    && (forall p :: p in u.ops <==> p in s.ops)
    && (forall p :: p in s.ops ==> p in u.ops && u.ops[p].contexts == s.ops[p].contexts && u.ops[p].kind == s.ops[p].kind)
    && (forall p: nat, i: nat :: Holds(u, p, i) ==> Holds(s, p, i))
  }

  lemma {:induction false} MovesKeepDistinct(s: Sys, u: Sys)
    requires Moves(s, u) && Distinct(s)
    ensures Distinct(u)
  {
    hide Live, Layout;
  }

  lemma {:induction false} InUseTransfers(s: Sys, u: Sys, d: uint64)
    requires Moves(s, u) && InUse(s, d)
    requires forall p: nat, i: nat :: Live(s, p, i) ==> Live(u, p, i)
    ensures InUse(u, d)
  {
    var p: nat, i: nat :| Live(s, p, i) && s.ops[p].contexts[i] == d;
    assert Live(u, p, i);
  }

  lemma {:induction false} PoolGrows(s: Sys, u: Sys, o: nat, k: nat)
    requires Moves(s, u) && Exact(s) && o in s.ops && k < |s.ops[o].contexts| && k < |Layout(s.ops[o].kind)|
    requires s.ops[o].contexts[k] !in s.entries
    requires u.entries == s.entries[s.ops[o].contexts[k] := Value(Layout(s.ops[o].kind)[k], o)]
    requires forall p: nat, i: nat :: Live(u, p, i) <==> Live(s, p, i) || (p == o && i == k)
    ensures Exact(u)
  {
    hide Layout, Holds;
    assert Live(u, o, k);
    assert InUse(u, s.ops[o].contexts[k]);
    forall d | d in u.entries ensures InUse(u, d) {
      if d in s.entries {
        InUseTransfers(s, u, d);
      }
    }
    hide InUse;
  }

  lemma {:induction false} PoolShrinks(s: Sys, u: Sys, o: nat, k: nat)
    requires Moves(s, u) && Exact(s) && Distinct(s) && Holds(s, o, k)
    requires u.entries == s.entries - {s.ops[o].contexts[k]}
    requires forall p: nat, i: nat :: Live(u, p, i) <==> Live(s, p, i) && !(p == o && i == k)
    requires forall p: nat, i: nat :: Live(s, p, i) ==> Holds(s, p, i)
    ensures Exact(u)
  {
    hide Layout;
    forall d | d in u.entries ensures InUse(u, d) {
      assert InUse(s, d);
      var p: nat, i: nat :| Live(s, p, i) && s.ops[p].contexts[i] == d;
      assert Live(u, p, i);
    }
  }

  lemma {:induction false} StoreMoves(s: Sys, a: Action)
    requires a.StoreNext? && Enabled(s, a) && s.ops[a.o].deleted <= s.ops[a.o].stored
    ensures Moves(s, Step(s, a))
    ensures forall p: nat, i: nat :: Live(Step(s, a), p, i) <==> Live(s, p, i) || (p == a.o && i == s.ops[a.o].stored)
  {
    hide Layout;
  }

  lemma {:induction false} DeleteMoves(s: Sys, a: Action)
    requires a.DeleteNext? && Enabled(s, a)
    requires s.ops[a.o].stored == |s.ops[a.o].contexts| == |Layout(s.ops[a.o].kind)|
    ensures Moves(s, Step(s, a))
    ensures forall p: nat, i: nat :: Live(Step(s, a), p, i) <==> Live(s, p, i) && !(p == a.o && i == s.ops[a.o].deleted)
  {
    hide Layout;
  }

  lemma {:induction false} StoreKeeps(s: Sys, a: Action)
    requires Inv(s) && a.StoreNext? && Enabled(s, a)
    ensures Inv(Step(s, a))
  {
    hide Layout, Expected, Distinct, Exact;
    var u, op := Step(s, a), s.ops[a.o];
    assert Shape(op);
    StoreShape(op);
    StoreIsNew(s, a.o);
    ShapeBounds(op);
    assert Shapes(u);
    hide Shape, Shapes;
    StoreMoves(s, a);
    hide Live, Holds, Moves;
    MovesKeepDistinct(s, u);
    PoolGrows(s, u, a.o, op.stored);
  }

  lemma {:induction false} DeleteShape(op: Op)
    requires Shape(op) && op.phase.Cleanup?
    ensures Shape(op.(deleted := op.deleted + 1,
                      phase := if op.deleted + 1 == |Layout(op.kind)| then Gone else Cleanup))
  {
  }

  lemma {:induction false} DeleteKeeps(s: Sys, a: Action)
    requires Inv(s) && a.DeleteNext? && Enabled(s, a)
    ensures Inv(Step(s, a))
  {
    hide Layout, Expected, Distinct, Exact;
    var u, op := Step(s, a), s.ops[a.o];
    assert Shape(op);
    DeleteShape(op);
    ShapeBounds(op);
    assert op.stored == |op.contexts| == |Layout(op.kind)|;
    assert Shapes(u);
    DeleteMoves(s, a);
    forall p: nat, i: nat | Live(s, p, i) ensures Holds(s, p, i) {
      LiveHolds(s, p, i);
    }
    hide Shape, Shapes, Live, Moves;
    MovesKeepDistinct(s, u);
    PoolShrinks(s, u, a.o, op.deleted);
  }

  lemma {:induction false} PanicKeeps(s: Sys)
    requires Inv(s)
    ensures Inv(s.(panicked := true))
  {
    hide Shape, Layout;
    var u := s.(panicked := true);
    assert Moves(s, u);
    MovesKeepDistinct(s, u);
    assert forall p: nat, i: nat :: Live(u, p, i) <==> Live(s, p, i);
    forall d | d in u.entries ensures InUse(u, d) {
      InUseTransfers(s, u, d);
    }
  }

  /** A result that reaches its own closure. */
  lemma {:induction false} DeliverKeeps(s: Sys, a: Action)
    requires Inv(s) && a.Deliver? && Enabled(s, a)
    ensures Inv(Step(s, a))
    ensures Step(s, a).panicked <==> s.ops[a.o].kind.Write? || s.ops[a.o].kind.Cache?
    ensures !Step(s, a).panicked && ResultTag(s.ops[a.o].kind).Some? ==>
              Step(s, a) == s.(ops := s.ops[a.o := RunResult(s.ops[a.o], a.entry, a.show)])
  {
    hide Inv, RunResult, RunFinal, Dispatch;
    DispatchesHome(s, a.o);
    var u, op := Step(s, a), s.ops[a.o];
    if ResultTag(op.kind).Some? {
      if u.panicked {
        PanicKeeps(s);
      } else {
        RunKeepsSlots(s, a.o, a.entry, a.show);
      }
    }
  }

  lemma {:induction false} RunKeepsSlots(s: Sys, o: nat, e: Entry, show: bool)
    requires Inv(s) && o in s.ops && s.ops[o].phase.InFlight?
    ensures Inv(s.(ops := s.ops[o := RunResult(s.ops[o], e, show)]))
  {
    hide Distinct, Exact, Shape;
    assert Shape(s.ops[o]);
    ResultShape(s.ops[o], e, show);
    SameContexts(s, o, s.(ops := s.ops[o := RunResult(s.ops[o], e, show)]));
  }

  lemma {:induction false} FinalKeepsSlots(s: Sys, o: nat, code: int, again: bool)
    requires Inv(s) && o in s.ops && s.ops[o].phase.InFlight?
    ensures Inv(s.(ops := s.ops[o := RunFinal(s.ops[o], code, again)]))
  {
    hide Distinct, Exact, Shape;
    assert Shape(s.ops[o]);
    FinalShape(s.ops[o], code, again);
    SameContexts(s, o, s.(ops := s.ops[o := RunFinal(s.ops[o], code, again)]));
  }

  /** A final event always reaches its own closure. */
  lemma {:induction false} CompleteKeeps(s: Sys, a: Action)
    requires Inv(s) && a.Complete? && Enabled(s, a)
    ensures Inv(Step(s, a)) && !Step(s, a).panicked
    ensures Step(s, a) == s.(ops := s.ops[a.o := RunFinal(s.ops[a.o], a.code, a.again)])
  {
    hide Inv, RunResult, RunFinal, Dispatch;
    DispatchesHome(s, a.o);
    FinalKeepsSlots(s, a.o, a.code, a.again);
  }

  /** `Abandon`, `Submit` and `Return` only change an operation's phase or channel. */
  lemma {:induction false} PhaseKeeps(s: Sys, a: Action)
    requires Inv(s) && (a.Abandon? || a.Submit? || a.Return?) && Enabled(s, a)
    ensures Inv(Step(s, a))
  {
    hide Distinct, Exact;
    var u, op := Step(s, a), s.ops[a.o];
    assert Shape(op);
    assert Shape(u.ops[a.o]) by {
      assert op.out == [] || !a.Abandon?;
      assert op.arrived == [] || !a.Abandon?;
    }
    hide Shape;
    SameContexts(s, a.o, u);
  }

  /** Every action keeps the invariant, provided an allocated context is fresh. */
  lemma {:induction false} StepKeeps(s: Sys, a: Action)
    requires Inv(s) && Enabled(s, a) && (a.Allocate? ==> Fresh(s))
    ensures Inv(Step(s, a))
    ensures Step(s, a).panicked <==> a.Deliver? && (s.ops[a.o].kind.Write? || s.ops[a.o].kind.Cache?)
  {
    hide Inv, Fresh;
    match a {
      case Spawn(_, _, _) => SpawnKeeps(s, a);
      case Allocate(_) => AllocateKeepsIff(s, a);
      case StoreNext(_) => StoreKeeps(s, a);
      case Deliver(_, _, _) => DeliverKeeps(s, a);
      case Complete(_, _, _) => CompleteKeeps(s, a);
      case DeleteNext(_) => DeleteKeeps(s, a);
      case _ => PhaseKeeps(s, a);
    }
  }

  // ---------------------------------------------------------------- whole runs

  ghost predicate Runs(s: Sys, actions: seq<Action>)
    decreases |actions|
  {
    actions == [] || (Enabled(s, actions[0]) && Runs(Step(s, actions[0]), actions[1..]))
  }

  ghost function Run(s: Sys, actions: seq<Action>): Sys
    requires Runs(s, actions)
    decreases |actions|
  {
    if actions == [] then s else Run(Step(s, actions[0]), actions[1..])
  }

  /** How many contexts a run allocates. */
  ghost function Allocations(actions: seq<Action>): nat
  {
    if actions == [] then 0 else (if actions[0].Allocate? then 1 else 0) + Allocations(actions[1..])
  }

  /** Every context ever allocated is one of 1 .. counter. */
  ghost predicate Bounded(s: Sys)
  {
    forall o, i :: o in s.ops && 0 <= i < |s.ops[o].contexts| ==> 1 <= s.ops[o].contexts[i] <= s.counter
  }

  lemma {:induction false} BoundedIsFresh(s: Sys)
    requires Bounded(s) && s.counter + 1 < TWO_64
    ensures Fresh(s) && Next(s.counter) == s.counter + 1
  {
  }

  lemma {:induction false} StepBounded(s: Sys, a: Action)
    requires Inv(s) && Bounded(s) && Enabled(s, a) && (a.Allocate? ==> s.counter + 1 < TWO_64)
    ensures Bounded(Step(s, a))
    ensures Step(s, a).counter == s.counter + if a.Allocate? then 1 else 0
  {
    hide Inv;
    var u := Step(s, a);
    if a.Deliver? {
      DeliverKeeps(s, a);
    } else if a.Complete? {
      CompleteKeeps(s, a);
    }
    hide Layout, Dispatch;
  }

  /**
   Safety over every interleaving: as long as fewer than 2^64 contexts are allocated, each reachable state has its
   pool entries and operations in exact correspondence.
   */
  lemma {:induction false} RunSafe(s: Sys, actions: seq<Action>)
    requires Inv(s) && Bounded(s) && Runs(s, actions) && s.counter + Allocations(actions) < TWO_64
    ensures Inv(Run(s, actions)) && Bounded(Run(s, actions))
    decreases |actions|
  {
    hide Inv, Bounded, Step, Enabled;
    if actions != [] {
      var a := actions[0];
      if a.Allocate? {
        BoundedIsFresh(s);
      }
      StepKeeps(s, a);
      StepBounded(s, a);
      RunSafe(Step(s, a), actions[1..]);
    }
  }

  ghost predicate Happens(actions: seq<Action>)
  {
    Runs(INIT, actions) && Allocations(actions) < TWO_64
  }

  lemma {:induction false} Reachable(actions: seq<Action>)
    requires Happens(actions)
    ensures Inv(Run(INIT, actions))
  {
    RunSafe(INIT, actions);
  }

  /** The pool's keys are exactly the live contexts, each stored with its own operation's closure and held by nobody else. */
  lemma {:induction false} PoolIsUnion(actions: seq<Action>)
    requires Happens(actions)
    ensures var s := Run(INIT, actions);
            && (forall c :: c in s.entries <==> InUse(s, c))
            && (forall o: nat, i: nat :: Live(s, o, i) ==>
                  s.ops[o].contexts[i] in s.entries
                  && s.entries[s.ops[o].contexts[i]] == Value(Layout(s.ops[o].kind)[i], o))
            && (forall o: nat, i: nat, p: nat, j: nat ::
                  Live(s, o, i) && Live(s, p, j) && s.ops[o].contexts[i] == s.ops[p].contexts[j] ==> o == p && i == j)
  {
    hide Run, Layout, Shape;
    Reachable(actions);
    var s := Run(INIT, actions);
    forall o: nat, i: nat | Live(s, o, i) ensures Holds(s, o, i) {
      LiveHolds(s, o, i);
    }
  }

  /** When every operation is over, the pool is empty. */
  lemma {:induction false} QuiescentIsEmpty(actions: seq<Action>)
    requires Happens(actions)
    requires forall o :: o in Run(INIT, actions).ops ==> Run(INIT, actions).ops[o].phase.Gone?
    ensures Run(INIT, actions).entries == map[]
  {
    Reachable(actions);
    var s := Run(INIT, actions);
    forall o: nat, i: nat ensures !Live(s, o, i) {
      if o in s.ops {
        assert Shape(s.ops[o]);
      }
    }
    assert forall c :: c !in s.entries;
  }

  /** No action of one operation touches another's pool entries. */
  lemma {:induction false} NoInterference(s: Sys, a: Action, p: nat, i: nat)
    requires Inv(s) && Enabled(s, a) && (a.Allocate? ==> Fresh(s)) && p != a.o && Live(s, p, i)
    ensures var c := s.ops[p].contexts[i];
            c in s.entries && c in Step(s, a).entries && Step(s, a).entries[c] == s.entries[c]
  {
    StepKeeps(s, a);
    OthersStay(s, a, p);
    assert Live(Step(s, a), p, i);
  }

  lemma {:induction false} OthersStay(s: Sys, a: Action, p: nat)
    requires Inv(s) && Enabled(s, a) && p != a.o && p in s.ops
    ensures p in Step(s, a).ops && Step(s, a).ops[p] == s.ops[p]
  {
    hide Inv;
    if a.Deliver? {
      DeliverKeeps(s, a);
    } else if a.Complete? {
      CompleteKeeps(s, a);
    }
    hide Dispatch, Layout;
  }

  lemma {:induction false} RunSplits(s: Sys, front: seq<Action>, a: Action)
    requires Runs(s, front + [a])
    ensures Runs(s, front) && Enabled(Run(s, front), a) && Run(s, front + [a]) == Step(Run(s, front), a)
    decreases |front|
  {
    var all := front + [a];
    hide Step, Enabled;
    if front == [] {
      assert all == [a] && all[1..] == [];
      assert Run(Step(s, a), []) == Step(s, a);
    } else {
      assert all[0] == front[0] && all[1..] == front[1..] + [a];
      RunSplits(Step(s, front[0]), front[1..], a);
    }
  }

  lemma {:induction false} AllocationsSplit(front: seq<Action>, a: Action)
    ensures Allocations(front) <= Allocations(front + [a])
  {
    if front != [] {
      assert (front + [a])[1..] == front[1..] + [a];
      AllocationsSplit(front[1..], a);
    }
  }

  /**
   Type safety of dispatch, exactly: a run panics if and only if its last action delivers a native result to a `write`
   or `cache` operation. Those two store a value of the defined type `onLookupCallback`, which the dispatcher's
   assertion to `func(*lookupResult)` rejects; no other event can fail, whatever is interleaved with it.
   */
  lemma {:induction false} PanicsIff(actions: seq<Action>, a: Action)
    requires Happens(actions + [a])
    ensures Happens(actions) && (a.Spawn? || a.o in Run(INIT, actions).ops)
    ensures Run(INIT, actions + [a]).panicked
            <==> a.Deliver? && (Run(INIT, actions).ops[a.o].kind.Write? || Run(INIT, actions).ops[a.o].kind.Cache?)
  {
    RunSplits(INIT, actions, a);
    AllocationsSplit(actions, a);
    RunSafe(INIT, actions);
    var s := Run(INIT, actions);
    if a.Allocate? {
      CounterCounts(INIT, actions);
      LastAllocation(actions, a);
      BoundedIsFresh(s);
    }
    StepKeeps(s, a);
  }

  lemma {:induction false} LastAllocation(front: seq<Action>, a: Action)
    requires a.Allocate?
    ensures Allocations(front + [a]) == Allocations(front) + 1
  {
    if front == [] {
      assert ([a])[1..] == [];
    } else {
      assert (front + [a])[1..] == front[1..] + [a];
      LastAllocation(front[1..], a);
    }
  }

  lemma {:induction false} CounterCounts(s: Sys, actions: seq<Action>)
    requires Inv(s) && Bounded(s) && Runs(s, actions) && s.counter + Allocations(actions) < TWO_64
    ensures Run(s, actions).counter == s.counter + Allocations(actions)
    decreases |actions|
  {
    hide Inv, Bounded, Step, Enabled;
    if actions != [] {
      var a := actions[0];
      if a.Allocate? {
        BoundedIsFresh(s);
      }
      StepKeeps(s, a);
      StepBounded(s, a);
      CounterCounts(Step(s, a), actions[1..]);
    }
  }

  // ---------------------------------------------------------------- runs that show what is not guaranteed

  lemma {:induction false} RunExtends(s: Sys, front: seq<Action>, a: Action)
    requires Runs(s, front) && Enabled(Run(s, front), a)
    ensures Runs(s, front + [a]) && Run(s, front + [a]) == Step(Run(s, front), a)
    ensures Allocations(front + [a]) == Allocations(front) + if a.Allocate? then 1 else 0
    decreases |front|
  {
    var all := front + [a];
    hide Step, Enabled;
    if front == [] {
      assert all == [a] && all[1..] == [];
      assert Run(Step(s, a), []) == Step(s, a);
    } else {
      assert all[0] == front[0] && all[1..] == front[1..] + [a];
      RunExtends(Step(s, front[0]), front[1..], a);
    }
  }

  lemma {:induction false} NoAction(s: Sys)
    ensures Runs(s, []) && Run(s, []) == s && Allocations([]) == 0
  {
  }

  /** A `write` or `cache` that has allocated its three contexts and stored `stored` of them. */
  ghost function Prepared(kind: Kind, stored: nat): Op
  {
    Op(kind, [], [1, 2, 3], stored, 0, Setup, [], [], false, None)
  }

  /** A write alone in the system allocates its next context. */
  lemma {:induction false} AllocateAlone(kind: Kind, n: uint64, contexts: seq<uint64>)
    requires (kind.Write? || kind.Cache?) && |contexts| < 3 && n < 3
    ensures var s := Sys(n, map[], map[0 := Prepared(kind, 0).(contexts := contexts)], false);
            && Enabled(s, Allocate(0))
            && Step(s, Allocate(0))
               == Sys(n + 1, map[], map[0 := Prepared(kind, 0).(contexts := contexts + [n + 1])], false)
  {
  }

  lemma {:induction false} SpawnAlone(kind: Kind)
    ensures Enabled(INIT, Spawn(0, kind, []))
    ensures Step(INIT, Spawn(0, kind, [])) == Sys(0, map[], map[0 := Prepared(kind, 0).(contexts := [])], false)
  {
  }

  lemma {:induction false} AllocatedWrite(kind: Kind) returns (actions: seq<Action>)
    requires kind.Write? || kind.Cache?
    ensures Runs(INIT, actions) && Allocations(actions) == 3
    ensures Run(INIT, actions) == Sys(3, map[], map[0 := Prepared(kind, 0)], false)
  {
    hide Run, Runs, Allocations, Step, Enabled;
    assert [] + [1] == [1] && [1] + [2] == [1, 2] && [1, 2] + [3] == [1, 2, 3];
    NoAction(INIT);
    SpawnAlone(kind);
    actions := Extend([], Spawn(0, kind, []));
    AllocateAlone(kind, 0, []);
    actions := Extend(actions, Allocate(0));
    AllocateAlone(kind, 1, [1]);
    actions := Extend(actions, Allocate(0));
    AllocateAlone(kind, 2, [1, 2]);
    actions := Extend(actions, Allocate(0));
  }

  lemma {:induction false} LaunchedWrite(kind: Kind) returns (actions: seq<Action>)
    requires kind.Write? || kind.Cache?
    ensures Happens(actions)
    ensures var s := Run(INIT, actions);
            !s.panicked && s.ops == map[0 := Prepared(kind, 3).(phase := InFlight)]
  {
    hide Run, Runs, Allocations;
    actions := AllocatedWrite(kind);
    actions := Extend(actions, StoreNext(0));
    assert Run(INIT, actions).ops == map[0 := Prepared(kind, 1)];
    actions := Extend(actions, StoreNext(0));
    assert Run(INIT, actions).ops == map[0 := Prepared(kind, 2)];
    actions := Extend(actions, StoreNext(0));
    assert Run(INIT, actions).ops == map[0 := Prepared(kind, 3)];
    actions := Extend(actions, Submit(0));
  }

  lemma {:induction false} Extend(front: seq<Action>, a: Action) returns (actions: seq<Action>)
    requires Runs(INIT, front) && Enabled(Run(INIT, front), a)
    ensures actions == front + [a] && Runs(INIT, actions) && Run(INIT, actions) == Step(Run(INIT, front), a)
    ensures Allocations(actions) == Allocations(front) + if a.Allocate? then 1 else 0
  {
    actions := front + [a];
    RunExtends(INIT, front, a);
  }

  /** The first result of any `write` or `cache` panics. */
  lemma {:induction false} WritePanics(kind: Kind, e: Entry) returns (actions: seq<Action>)
    requires kind.Write? || kind.Cache?
    ensures Happens(actions) && Run(INIT, actions).panicked
  {
    hide Run, Runs, Allocations, Step;
    var front := LaunchedWrite(kind);
    actions := Extend(front, Deliver(0, e, true));
    PanicsIff(front, Deliver(0, e, true));
  }

  /** `n` lookups that have each allocated their first context. */
  ghost function Crowd(n: nat): seq<Action>
  {
    if n == 0 then [] else Crowd(n - 1) + [Spawn(n - 1, Lookup, [])] + [Allocate(n - 1)]
  }

  ghost function Waiting(contexts: seq<uint64>): Op
  {
    Op(Lookup, [], contexts, 0, 0, Setup, [], [], false, None)
  }

  ghost function Waiters(n: nat): map<nat, Op>
  {
    if n == 0 then map[] else Waiters(n - 1)[n - 1 := Waiting([Wrap(n)])]
  }

  lemma {:induction false} WaitersAt(n: nat, o: nat)
    ensures o in Waiters(n) <==> o < n
    ensures o < n ==> Waiters(n)[o] == Waiting([Wrap(o + 1)])
  {
    hide Wrap;
    if n > 0 {
      WaitersAt(n - 1, o);
    }
  }

  lemma {:induction false} CrowdRuns(n: nat)
    ensures Runs(INIT, Crowd(n)) && Allocations(Crowd(n)) == n
    ensures Run(INIT, Crowd(n)) == Sys(Wrap(n), map[], Waiters(n), false)
  {
    hide Run, Runs, Allocations, Wrap;
    if n == 0 {
      NoAction(INIT);
      WrapSmall(0);
    } else {
      var m := n - 1;
      CrowdRuns(m);
      WaitersAt(m, m);
      RunExtends(INIT, Crowd(m), Spawn(m, Lookup, []));
      var s := Run(INIT, Crowd(m) + [Spawn(m, Lookup, [])]);
      RunExtends(INIT, Crowd(m) + [Spawn(m, Lookup, [])], Allocate(m));
      WrapAdd(m, 1);
      assert [] + [Wrap(n)] == [Wrap(n)];
      assert Step(s, Allocate(m)).ops == Waiters(m)[m := Waiting([])][m := Waiting([Wrap(n)])] == Waiters(n);
    }
  }

  /** Once more than 2^64 operations are under way at once, two of them hold the same context. */
  lemma {:induction false} CrowdCollides(n: nat)
    requires n > TWO_64
    ensures Runs(INIT, Crowd(n)) && Allocations(Crowd(n)) == n
    ensures !Distinct(Run(INIT, Crowd(n)))
  {
    CrowdRuns(n);
    hide Run, Runs, Allocations, Wrap, Waiters;
    var s, o, p: nat := Run(INIT, Crowd(n)), n - 1, n - 1 - TWO_64;
    ModShift(p + 1, 1);
    WaitersAt(n, o);
    WaitersAt(n, p);
    assert Holds(s, o, 0) && Holds(s, p, 0);
    assert s.ops[o].contexts[0] == s.ops[p].contexts[0];
  }

  // ---------------------------------------------------------------- what consumers see

  /** Kinds whose results go to the consumer as they are. */
  ghost predicate Plain(kind: Kind)
  {
    kind.ReadKey? || kind.Lookup? || kind.ParallelLookup? || kind.RemoveKey? || kind.FindIndexes? || kind.ListIndexes?
    || kind.Statistics? || kind.Write? || kind.Cache?
  }

  lemma {:induction false} PlainShowsAll(kind: Kind, keys: seq<Keys.Key>, arrived: seq<Entry>)
    requires Plain(kind)
    ensures Shown(kind, keys, arrived) == AsGiven(arrived)
  {
    if arrived != [] {
      PlainShowsAll(kind, keys, arrived[..|arrived| - 1]);
    }
  }

  /** Every entry, in order, without a name. */
  ghost function AsGiven(arrived: seq<Entry>): seq<Item>
  {
    seq(|arrived|, i requires 0 <= i < |arrived| => Given(arrived[i], []))
  }

  /** `small` is obtained from `big` by leaving elements out. */
  ghost predicate Subsequence<T>(small: seq<T>, big: seq<T>)
  {
    if small == [] then true
    else if big == [] then false
    else if small[|small| - 1] == big[|big| - 1] then Subsequence(small[..|small| - 1], big[..|big| - 1])
    else Subsequence(small, big[..|big| - 1])
  }

  ghost function GivenEntries(items: seq<Item>): seq<Entry>
  {
    if items == [] then []
    else GivenEntries(items[..|items| - 1])
         + if items[|items| - 1].Given? then [items[|items| - 1].entry] else []
  }

  lemma {:induction false} GivenOne(items: seq<Item>, more: seq<Item>)
    requires |more| <= 1
    ensures GivenEntries(items + more)
            == GivenEntries(items) + if |more| == 1 && more[0].Given? then [more[0].entry] else []
  {
    if more == [] {
      assert items + more == items;
    } else {
      assert (items + more)[..|items|] == items;
    }
  }

  lemma {:induction false} SkipKeeps<T>(small: seq<T>, big: seq<T>, x: T)
    requires Subsequence(small, big)
    ensures Subsequence(small, big + [x])
    decreases |big|, 1
  {
    assert (big + [x])[..|big|] == big;
    if small != [] && small[|small| - 1] == x {
      DropLast(small, big);
    }
  }

  lemma {:induction false} DropLast<T>(small: seq<T>, big: seq<T>)
    requires Subsequence(small, big) && small != []
    ensures Subsequence(small[..|small| - 1], big)
    decreases |big|, 0
  {
    var n, m := |small| - 1, |big| - 1;
    if small[n] == big[m] {
      assert big == big[..m] + [big[m]];
      SkipKeeps(small[..n], big[..m], big[m]);
    } else {
      DropLast(small, big[..m]);
      assert big == big[..m] + [big[m]];
      SkipKeeps(small[..n], big[..m], big[m]);
    }
  }

  lemma {:induction false} TakeKeeps<T>(small: seq<T>, big: seq<T>, x: T)
    requires Subsequence(small, big)
    ensures Subsequence(small + [x], big + [x])
  {
    assert (big + [x])[..|big|] == big && (small + [x])[..|small|] == small;
  }

  /** Whatever the kind, the results shown are a subsequence of the results that arrived: none invented, none reordered. */
  lemma {:induction false} ShownInOrder(kind: Kind, keys: seq<Keys.Key>, arrived: seq<Entry>)
    ensures Subsequence(GivenEntries(Shown(kind, keys, arrived)), arrived)
  {
    hide Shown, OnResult, Subsequence, GivenEntries;
    if arrived == [] {
      NothingShown(kind, keys);
    } else {
      var n := |arrived| - 1;
      var front, e := arrived[..n], arrived[n];
      assert arrived == front + [e];
      ShownInOrder(kind, keys, front);
      ShownStep(kind, keys, front, e);
    }
  }

  lemma {:induction false} NothingShown(kind: Kind, keys: seq<Keys.Key>)
    ensures Subsequence(GivenEntries(Shown(kind, keys, [])), [])
  {
  }

  lemma {:induction false} ShownStep(kind: Kind, keys: seq<Keys.Key>, front: seq<Entry>, e: Entry)
    requires Subsequence(GivenEntries(Shown(kind, keys, front)), front)
    ensures Subsequence(GivenEntries(Shown(kind, keys, front + [e])), front + [e])
  {
    hide OnResult, Subsequence, GivenEntries;
    assert (front + [e])[..|front|] == front;
    var shown, more := Shown(kind, keys, front), OnResult(kind, keys, e);
    assert Shown(kind, keys, front + [e]) == shown + more;
    hide Shown;
    AtMostOne(kind, keys, e);
    GivenOne(shown, more);
    if more != [] && more[0].Given? {
      TakeKeeps(GivenEntries(shown), front, e);
    } else {
      SkipKeeps(GivenEntries(shown), front, e);
      assert GivenEntries(shown) + [] == GivenEntries(shown);
    }
  }

  /** One result makes at most one item, about itself. */
  lemma {:induction false} AtMostOne(kind: Kind, keys: seq<Keys.Key>, e: Entry)
    ensures var items := OnResult(kind, keys, e);
            |items| <= 1 && (items != [] && items[0].Given? ==> items[0].entry == e)
  {
  }

  /** A report about something that went wrong with one key. */
  ghost predicate IsFailureReport(item: Item)
  {
    item.UnknownKey? || (item.Given? && (item.entry.failed || item.entry.status != 0))
  }

  lemma {:induction false} BulkRemoveShowsFailures(keys: seq<Keys.Key>, arrived: seq<Entry>)
    ensures forall i :: 0 <= i < |Shown(BulkRemove, keys, arrived)| ==> IsFailureReport(Shown(BulkRemove, keys, arrived)[i])
    ensures |Shown(BulkRemove, keys, arrived)| == Failing(arrived)
  {
    if arrived != [] {
      BulkRemoveShowsFailures(keys, arrived[..|arrived| - 1]);
    }
  }

  ghost function Failing(arrived: seq<Entry>): nat
  {
    if arrived == [] then 0
    else
      var e := arrived[|arrived| - 1];
      Failing(arrived[..|arrived| - 1]) + if e.failed || e.status != 0 then 1 else 0
  }

  // ---------------------------------------------------------------- what the actions say about an operation

  datatype Request = Request(kind: Kind, keys: seq<Keys.Key>)

  /** What operation `o` was started for. */
  ghost function AskedFor(actions: seq<Action>, o: nat): Option<Request>
  {
    if actions == [] then None
    else
      var a := actions[|actions| - 1];
      if a.Spawn? && a.o == o then Some(Request(a.kind, a.keys)) else AskedFor(actions[..|actions| - 1], o)
  }

  /** The entries that the native side delivered to operation `o`, in order. */
  ghost function EntriesFor(actions: seq<Action>, o: nat): seq<Entry>
  {
    if actions == [] then []
    else
      var a := actions[|actions| - 1];
      EntriesFor(actions[..|actions| - 1], o) + if a.Deliver? && a.o == o then [a.entry] else []
  }

  /** The code operation `o` ended with: that of its last final event, or of the failure before anything was stored. */
  ghost function CodeFor(actions: seq<Action>, o: nat): Option<int>
  {
    if actions == [] then None
    else
      var a := actions[|actions| - 1];
      if a.o == o && ((a.Complete? && !a.again) || a.Abandon?) then Some(a.code)
      else CodeFor(actions[..|actions| - 1], o)
  }

  /** Kinds whose native results never reach a consumer. */
  ghost predicate Silent(kind: Kind)
  {
    kind.ChangeIndexes? || kind.BackendAdmin? || kind.GetRoutes?
  }

  /** The operation is as these three say. */
  ghost predicate Accounts(op: Op, asked: Option<Request>, entries: seq<Entry>, code: Option<int>)
  {
    && asked == Some(Request(op.kind, op.keys)) && op.final == code
    && (op.kind.ChangeIndexes? || op.arrived == entries)
  }

  lemma {:induction false} AccountsStep(s: Sys, a: Action, o: nat, asked: Option<Request>, entries: seq<Entry>, code: Option<int>)
    requires Inv(s) && Enabled(s, a) && !Step(s, a).panicked
    requires o in s.ops <==> asked.Some?
    requires o in s.ops ==> Accounts(s.ops[o], asked, entries, code)
    requires o !in s.ops ==> entries == [] && code == None
    ensures var asked' := if a.Spawn? && a.o == o then Some(Request(a.kind, a.keys)) else asked;
            var entries' := entries + if a.Deliver? && a.o == o then [a.entry] else [];
            var code' := if a.o == o && ((a.Complete? && !a.again) || a.Abandon?) then Some(a.code) else code;
            && (o in Step(s, a).ops <==> asked'.Some?)
            && (o in Step(s, a).ops ==> Accounts(Step(s, a).ops[o], asked', entries', code'))
            && (o !in Step(s, a).ops ==> entries' == [] && code' == None)
  {
    hide Inv;
    assert entries + [] == entries;
    if a.Deliver? {
      DeliverKeeps(s, a);
    } else if a.Complete? {
      CompleteKeeps(s, a);
    }
    hide Dispatch, OnResult, OnFinish;
  }

  /** In every reachable state that has not panicked, every operation is as its own actions say. */
  lemma {:induction false} HistoryAccounts(actions: seq<Action>, o: nat)
    requires Happens(actions) && !Run(INIT, actions).panicked
    ensures o in Run(INIT, actions).ops <==> AskedFor(actions, o).Some?
    ensures o in Run(INIT, actions).ops ==>
              Accounts(Run(INIT, actions).ops[o], AskedFor(actions, o), EntriesFor(actions, o), CodeFor(actions, o))
    ensures o !in Run(INIT, actions).ops ==> EntriesFor(actions, o) == [] && CodeFor(actions, o) == None
  {
    if actions == [] {
      NoAction(INIT);
    } else {
      var n := |actions| - 1;
      var front, a := actions[..n], actions[n];
      assert actions == front + [a];
      hide Run, Runs, Step, Enabled, Accounts, Inv;
      LastAction(front, a);
      HistoryAccounts(front, o);
      AccountsStep(Run(INIT, front), a, o, AskedFor(front, o), EntriesFor(front, o), CodeFor(front, o));
    }
  }

  lemma {:induction false} LastAction(front: seq<Action>, a: Action)
    requires Happens(front + [a])
    ensures Happens(front) && Inv(Run(INIT, front)) && Enabled(Run(INIT, front), a) && !Run(INIT, front).panicked
    ensures Run(INIT, front + [a]) == Step(Run(INIT, front), a)
  {
    RunSplits(INIT, front, a);
    AllocationsSplit(front, a);
    Reachable(front);
  }

  /** The actions that took effect: all but the delivery that made the run panic, if one did. */
  ghost function Effective(actions: seq<Action>): seq<Action>
    requires Runs(INIT, actions)
  {
    if actions != [] && Run(INIT, actions).panicked then actions[..|actions| - 1] else actions
  }

  lemma {:induction false} EffectiveAccounts(actions: seq<Action>, o: nat)
    requires Happens(actions) && o in Run(INIT, actions).ops
    ensures Accounts(Run(INIT, actions).ops[o], AskedFor(Effective(actions), o), EntriesFor(Effective(actions), o),
                     CodeFor(Effective(actions), o))
  {
    if actions != [] && Run(INIT, actions).panicked {
      var n := |actions| - 1;
      var front, a := actions[..n], actions[n];
      assert actions == front + [a];
      LastAction(front, a);
      PanicsIff(front, a);
      PanicKeepsOps(Run(INIT, front), a);
      hide Run, Step, Accounts;
      HistoryAccounts(front, o);
    } else {
      if actions == [] {
        NoAction(INIT);
      }
      HistoryAccounts(actions, o);
    }
  }

  lemma {:induction false} PanicKeepsOps(s: Sys, a: Action)
    requires Enabled(s, a) && a.Deliver? && Step(s, a).panicked
    ensures Step(s, a).ops == s.ops
  {
    hide Dispatch;
  }

  /**
   In every reachable state, the channel of an operation holds what its native results show, in arrival order, followed by
   at most one trailing error, present exactly when the final code is negative; it is closed exactly once the final event
   has come. Kind, keys, entries and code are those of the operation's own actions.
   */
  lemma {:induction false} ConsumerView(actions: seq<Action>, o: nat)
    requires Happens(actions) && o in Run(INIT, actions).ops
    requires !Run(INIT, actions).ops[o].kind.WriteChunk?
    ensures var op, done := Run(INIT, actions).ops[o], Effective(actions);
            && AskedFor(done, o).Some?
            && var kind, keys := AskedFor(done, o).value.kind, AskedFor(done, o).value.keys;
               var entries, code := EntriesFor(done, o), CodeFor(done, o);
               var shown := Shown(kind, keys, entries);
               && (op.closed <==> code.Some?)
               && op.out == shown + (if code.None? then []
                                     else if kind.BackendAdmin? then [Status(code.value)]
                                     else if code.value < 0 then [Failure(code.value)]
                                     else [])
               && (Plain(kind) ==> shown == AsGiven(entries))
               && (Silent(kind) ==> shown == [])
               && (!kind.BulkRemove? ==> forall i :: 0 <= i < |shown| ==> shown[i].Given?)
               && Subsequence(GivenEntries(shown), entries)
               && (kind.BulkRemove? ==> |shown| == Failing(entries))
  {
    hide Run, Distinct, Exact, Shape, Shown, Expected, Subsequence, GivenEntries, Failing, AsGiven, EntriesFor, AskedFor,
      CodeFor, Effective;
    Reachable(actions);
    EffectiveAccounts(actions, o);
    var op, entries := Run(INIT, actions).ops[o], EntriesFor(Effective(actions), o);
    assert Shape(op);
    ShapeOut(op);
    SilentShowsNone(op.kind, op.keys, op.arrived);
    SilentShowsNone(op.kind, op.keys, entries);
    if Plain(op.kind) {
      PlainShowsAll(op.kind, op.keys, entries);
    }
    ShownInOrder(op.kind, op.keys, entries);
    ShownAreGiven(op.kind, op.keys, entries);
    if op.kind.BulkRemove? {
      BulkRemoveShowsFailures(op.keys, entries);
    }
  }

  /** Only bulk remove ever reports an unknown key. */
  lemma {:induction false} ShownAreGiven(kind: Kind, keys: seq<Keys.Key>, arrived: seq<Entry>)
    ensures !kind.BulkRemove? ==> forall i :: 0 <= i < |Shown(kind, keys, arrived)| ==> Shown(kind, keys, arrived)[i].Given?
  {
    hide Keys.Find;
    if arrived != [] {
      ShownAreGiven(kind, keys, arrived[..|arrived| - 1]);
    }
  }

  lemma {:induction false} SilentShowsNone(kind: Kind, keys: seq<Keys.Key>, arrived: seq<Entry>)
    ensures Silent(kind) ==> Shown(kind, keys, arrived) == []
  {
    if arrived != [] {
      SilentShowsNone(kind, keys, arrived[..|arrived| - 1]);
    }
  }

  lemma {:induction false} ShapeOut(op: Op)
    requires Shape(op) && !op.kind.WriteChunk?
    ensures op.closed <==> op.final.Some?
    ensures op.out == Shown(op.kind, op.keys, op.arrived)
                      + if op.final.None? then [] else OnFinish(op.kind, op.final.value)
  {
    hide Shown;
  }

  // ---------------------------------------------------------------- which names bulk results carry

  /*
   Only `session_bulk_read` and `session_bulk_remove` transform the keys they are given, so only there can IDs tell keys
   apart. The keys of a bulk write keep the blank ID they were created with.
   */

  /**
   With keys in strict ID order, a result of bulk read or bulk remove carries the name it was requested under, up to the
   first zero byte, and so the very name exactly if it has none.
   */
  lemma {:induction false} BulkNamesAreRight(keys: seq<Keys.Key>, j: nat, e: Entry)
    requires Keys.Ordered(keys, 0, |keys|) && j < |keys| && keys[j].id == e.id && keys[j].name != []
    ensures OnResult(BulkRead, keys, e) == [Given(e, Keys.Cut(keys[j].name))]
    ensures !e.failed && e.status != 0 ==> OnResult(BulkRemove, keys, e) == [Given(e, Keys.Cut(keys[j].name))]
    ensures Keys.Cut(keys[j].name) == keys[j].name <==> 0 !in keys[j].name
  {
    Keys.OrderedMeansFound(keys, j);
    Keys.CutKeepsIff(keys[j].name);
  }

  /** Reply `i` is about key `asked[i]`. */
  ghost predicate Requested(keys: seq<Keys.Key>, arrived: seq<Entry>, asked: seq<nat>)
  {
    |asked| == |arrived| && forall i :: 0 <= i < |arrived| ==> asked[i] < |keys| && arrived[i].id == keys[asked[i]].id
  }

  ghost function Labelled(keys: seq<Keys.Key>, arrived: seq<Entry>, asked: seq<nat>): seq<Item>
    requires Requested(keys, arrived, asked)
  {
    seq(|arrived|, i requires 0 <= i < |arrived| => Given(arrived[i], keys[asked[i]].name))
  }

  lemma {:induction false} BulkReadLabels(keys: seq<Keys.Key>, arrived: seq<Entry>, asked: seq<nat>)
    requires Keys.AnswersEach(keys) && Requested(keys, arrived, asked)
    ensures Shown(BulkRead, keys, arrived) == Labelled(keys, arrived, asked)
  {
    hide Keys.Find;
    if arrived != [] {
      var n := |arrived| - 1;
      BulkReadLabels(keys, arrived[..n], asked[..n]);
      assert Keys.Find(keys, keys[asked[n]].id) == Some(keys[asked[n]].name);
    }
  }

  /** Whatever replies come to the requested keys, all are shown and named rightly, if and only if each key's lookup is right. */
  lemma {:induction false} BulkReadLabelsIff(keys: seq<Keys.Key>)
    ensures Keys.AnswersEach(keys)
            <==> forall arrived, asked :: Requested(keys, arrived, asked) ==>
                   Shown(BulkRead, keys, arrived) == Labelled(keys, arrived, asked)
  {
    hide Keys.Find;
    if Keys.AnswersEach(keys) {
      forall arrived, asked | Requested(keys, arrived, asked)
        ensures Shown(BulkRead, keys, arrived) == Labelled(keys, arrived, asked)
      {
        BulkReadLabels(keys, arrived, asked);
      }
    } else {
      var j :| 0 <= j < |keys| && Keys.Find(keys, keys[j].id) != Some(keys[j].name);
      OneReply(keys, j);
    }
  }

  lemma {:induction false} OneReply(keys: seq<Keys.Key>, j: nat)
    requires j < |keys| && Keys.Find(keys, keys[j].id) != Some(keys[j].name)
    ensures var e := Entry(keys[j].id, 0, false);
            Requested(keys, [e], [j]) && Shown(BulkRead, keys, [e]) != Labelled(keys, [e], [j])
  {
    hide Keys.Find;
    var e := Entry(keys[j].id, 0, false);
    assert [e][..0] == [];
    assert Shown(BulkRead, keys, []) == [];
    assert Shown(BulkRead, keys, [e]) == OnResult(BulkRead, keys, e);
    assert Labelled(keys, [e], [j])[0] == Given(e, keys[j].name);
  }

  /**
   In every reachable state of every interleaving, the channel of a bulk read of `names` holds each reply in arrival order
   under the name that was asked for, and then at most one error, provided no name is empty or has a zero byte and the
   transform keeps the order of different names.
   */
  lemma {:induction false} BulkReadRun(actions: seq<Action>, o: nat, names: seq<Bytes.ByteString>,
                    transform: Bytes.ByteString -> Bytes.ByteString, asked: seq<nat>)
    requires Happens(actions) && o in Run(INIT, actions).ops
    requires AskedFor(Effective(actions), o)
             == Some(Request(BulkRead, Keys.KeysOf(Sorting.Sort(names, Bytes.AtMost), transform)))
    requires Requested(Keys.KeysOf(Sorting.Sort(names, Bytes.AtMost), transform), EntriesFor(Effective(actions), o), asked)
    requires forall x :: x in names ==> Keys.Plain(x)
    requires var sorted := Sorting.Sort(names, Bytes.AtMost);
             forall i, j :: 0 <= i < j < |sorted| ==>
               sorted[i] == sorted[j] || Bytes.Less(transform(sorted[i]), transform(sorted[j]))
    ensures var keys := Keys.KeysOf(Sorting.Sort(names, Bytes.AtMost), transform);
            var entries, code := EntriesFor(Effective(actions), o), CodeFor(Effective(actions), o);
            Run(INIT, actions).ops[o].out
            == Labelled(keys, entries, asked) + if code.Some? && code.value < 0 then [Failure(code.value)] else []
  {
    hide Run, Shown, Sorting.Sort, Bytes.Less, Keys.Plain, EntriesFor, CodeFor, AskedFor, Effective, Subsequence, GivenEntries,
      Failing, AsGiven;
    EffectiveAccounts(actions, o);
    ConsumerView(actions, o);
    Keys.NewKeysAnswersIff(names, transform);
    BulkReadLabels(Keys.KeysOf(Sorting.Sort(names, Bytes.AtMost), transform), EntriesFor(Effective(actions), o), asked);
  }

  /** The reports of a bulk remove: each failure unnamed, each bad status under the name that was to be removed. */
  ghost function RemoveReports(keys: seq<Keys.Key>, arrived: seq<Entry>, asked: seq<nat>): seq<Item>
    requires Requested(keys, arrived, asked)
  {
    if arrived == [] then []
    else
      var n := |arrived| - 1;
      RemoveReports(keys, arrived[..n], asked[..n])
      + if arrived[n].failed then [Given(arrived[n], [])]
        else if arrived[n].status != 0 then [Given(arrived[n], keys[asked[n]].name)]
        else []
  }

  lemma {:induction false} BulkRemoveLabels(keys: seq<Keys.Key>, arrived: seq<Entry>, asked: seq<nat>)
    requires Keys.AnswersEach(keys) && Requested(keys, arrived, asked)
    ensures Shown(BulkRemove, keys, arrived) == RemoveReports(keys, arrived, asked)
  {
    hide Keys.Find;
    if arrived != [] {
      var n := |arrived| - 1;
      BulkRemoveLabels(keys, arrived[..n], asked[..n]);
      assert Keys.Find(keys, keys[asked[n]].id) == Some(keys[asked[n]].name);
    }
  }

  /** A reply to an ID above all stored ones is passed over by bulk read. */
  lemma {:induction false} BulkReadSkips(keys: seq<Keys.Key>, e: Entry)
    requires Keys.OrderedById(keys) && forall j :: 0 <= j < |keys| ==> Bytes.Less(keys[j].id, e.id)
    ensures Shown(BulkRead, keys, [e]) == []
  {
    Keys.FindInOrder(keys, e.id);
    hide Keys.Find, Bytes.Less;
    assert [e][..0] == [];
    assert Shown(BulkRead, keys, []) == [];
  }

  /** A bad status for an ID above all stored ones is reported as an unknown key. */
  lemma {:induction false} BulkRemoveUnknown(keys: seq<Keys.Key>, e: Entry)
    requires Keys.OrderedById(keys) && !e.failed && e.status != 0
    requires forall j :: 0 <= j < |keys| ==> Bytes.Less(keys[j].id, e.id)
    ensures Shown(BulkRemove, keys, [e]) == [UnknownKey]
  {
    Keys.FindInOrder(keys, e.id);
    hide Keys.Find, Bytes.Less;
    assert [e][..0] == [];
    assert Shown(BulkRemove, keys, []) == [];
  }

  ghost function FailedOnly(arrived: seq<Entry>): seq<Entry>
  {
    if arrived == [] then []
    else
      var e := arrived[|arrived| - 1];
      FailedOnly(arrived[..|arrived| - 1]) + if e.failed then [e] else []
  }

  ghost predicate Above(blank: Bytes.ByteString, e: Entry)
  {
    e.failed || Bytes.Less(blank, e.id)
  }

  /**
   The keys of a bulk write all keep one blank ID, so its channel never shows a successful write under its own name: it
   shows the failures alone if and only if every ID written is greater than the blank one, or no first name exists.
   */
  lemma {:induction false} BulkWriteIsMute(keys: seq<Keys.Key>, blank: Bytes.ByteString, arrived: seq<Entry>)
    requires forall i :: 0 <= i < |keys| ==> keys[i].id == blank
    ensures Shown(BulkWrite, keys, arrived) == AsGiven(FailedOnly(arrived))
            <==> keys == [] || keys[0].name == [] || forall i :: 0 <= i < |arrived| ==> Above(blank, arrived[i])
  {
    hide Shown;
    BulkWriteCounts(keys, blank, arrived);
  }

  /** A successful bulk write of "a" shows nothing at all. */
  lemma {:induction false} BulkWriteHides()
    ensures Shown(BulkWrite, [Keys.Key([97], [0])], [Entry([1], 0, false)]) == []
  {
    var keys, e := [Keys.Key([97], [0])], Entry([1], 0, false);
    assert Bytes.Less([0], [1]);
    BulkWriteIsMute(keys, [0], [e]);
    hide Shown, Keys.Find, Bytes.Less;
    assert [e][..0] == [] && FailedOnly([]) == [];
    assert FailedOnly([e]) == [];
  }

  lemma {:induction false} BulkWriteCounts(keys: seq<Keys.Key>, blank: Bytes.ByteString, arrived: seq<Entry>)
    requires forall i :: 0 <= i < |keys| ==> keys[i].id == blank
    ensures |Shown(BulkWrite, keys, arrived)| >= |FailedOnly(arrived)|
    ensures var mute := keys == [] || keys[0].name == [] || forall i :: 0 <= i < |arrived| ==> Above(blank, arrived[i]);
            && (mute ==> Shown(BulkWrite, keys, arrived) == AsGiven(FailedOnly(arrived)))
            && (!mute ==> |Shown(BulkWrite, keys, arrived)| > |FailedOnly(arrived)|)
  {
    hide Keys.Find, Bytes.Less;
    if arrived != [] {
      var n := |arrived| - 1;
      BulkWriteCounts(keys, blank, arrived[..n]);
      Keys.UntransformedFind(keys, blank, arrived[n].id);
    }
  }

  /** A reply that a bulk write shows: a failure, or a success whose ID is not greater than the blank one. */
  ghost predicate Visible(keys: seq<Keys.Key>, blank: Bytes.ByteString, e: Entry)
  {
    e.failed || (keys != [] && keys[0].name != [] && !Bytes.Less(blank, e.id))
  }

  lemma {:induction false} BulkWriteShowsOne(keys: seq<Keys.Key>, blank: Bytes.ByteString, e: Entry)
    requires forall i :: 0 <= i < |keys| ==> keys[i].id == blank
    ensures OnResult(BulkWrite, keys, e)
            == if !Visible(keys, blank, e) then []
               else [Given(e, if e.failed then [] else Keys.Cut(keys[0].name))]
  {
    hide Keys.Find, Bytes.Less, Keys.Cut;
    Keys.UntransformedFind(keys, blank, e.id);
  }

  /** Bulk write shows every reply if and only if each is visible. */
  lemma {:induction false} BulkWriteShowsAllIff(keys: seq<Keys.Key>, blank: Bytes.ByteString, arrived: seq<Entry>)
    requires forall i :: 0 <= i < |keys| ==> keys[i].id == blank
    ensures |Shown(BulkWrite, keys, arrived)| <= |arrived|
    ensures |Shown(BulkWrite, keys, arrived)| == |arrived|
            <==> forall i :: 0 <= i < |arrived| ==> Visible(keys, blank, arrived[i])
  {
    hide Visible, OnResult, Keys.Cut;
    if arrived != [] {
      var n := |arrived| - 1;
      BulkWriteShowsAllIff(keys, blank, arrived[..n]);
      BulkWriteShowsOne(keys, blank, arrived[n]);
      assert forall i :: 0 <= i < n ==> arrived[..n][i] == arrived[i];
    }
  }

  /** Every reply: a failure without a name, a success under the name it was written under. */
  ghost function WriteLabelled(keys: seq<Keys.Key>, arrived: seq<Entry>, asked: seq<nat>): seq<Item>
    requires Written(keys, arrived, asked)
  {
    seq(|arrived|, i requires 0 <= i < |arrived| => Given(arrived[i], if arrived[i].failed then [] else keys[asked[i]].name))
  }

  /** Reply `i` is about the write under the name of key `asked[i]`; the key's ID does not say so. */
  ghost predicate Written(keys: seq<Keys.Key>, arrived: seq<Entry>, asked: seq<nat>)
  {
    |asked| == |arrived| && forall i :: 0 <= i < |arrived| ==> asked[i] < |keys|
  }

  /**
   Bulk write shows every reply, and every success under its own name, if and only if every success is visible and was
   written under the first name, which the lookup can hand back whole.
   */
  lemma {:induction false} BulkWriteLabelsIff(keys: seq<Keys.Key>, blank: Bytes.ByteString, arrived: seq<Entry>, asked: seq<nat>)
    requires Written(keys, arrived, asked) && forall i :: 0 <= i < |keys| ==> keys[i].id == blank
    ensures Shown(BulkWrite, keys, arrived) == WriteLabelled(keys, arrived, asked)
            <==> forall i :: 0 <= i < |arrived| ==>
                   arrived[i].failed || (Visible(keys, blank, arrived[i]) && Keys.Cut(keys[0].name) == keys[asked[i]].name)
  {
    hide Visible, OnResult, Keys.Cut;
    if arrived != [] {
      var n := |arrived| - 1;
      var front, e := arrived[..n], arrived[n];
      BulkWriteLabelsIff(keys, blank, front, asked[..n]);
      BulkWriteShowsAllIff(keys, blank, front);
      BulkWriteShowsOne(keys, blank, e);
      FailedIsVisible(keys, blank, e);
      var shown, want := Shown(BulkWrite, keys, front), WriteLabelled(keys, arrived, asked);
      assert want == WriteLabelled(keys, front, asked[..n]) + [want[n]];
      assert |shown| <= n;
      assert Shown(BulkWrite, keys, arrived) == shown + OnResult(BulkWrite, keys, e);
      LastMatches(shown, OnResult(BulkWrite, keys, e), WriteLabelled(keys, front, asked[..n]), want[n]);
      assert forall i :: 0 <= i < n ==> front[i] == arrived[i] && asked[..n][i] == asked[i];
    }
  }

  lemma {:induction false} FailedIsVisible(keys: seq<Keys.Key>, blank: Bytes.ByteString, e: Entry)
    ensures e.failed ==> Visible(keys, blank, e)
  {
  }

  lemma {:induction false} LastMatches(shown: seq<Item>, more: seq<Item>, front: seq<Item>, item: Item)
    requires |shown| <= |front| && |more| <= 1
    ensures shown + more == front + [item] <==> shown == front && more == [item]
  {
    if shown + more == front + [item] {
      assert |shown + more| == |front + [item]|;
      assert (shown + more)[..|front|] == shown && (front + [item])[..|front|] == front;
      assert (shown + more)[|front|..] == more && (front + [item])[|front|..] == [item];
    }
  }

  /** One reply shown and one not: the IDs decide, not whether the writes succeeded. */
  lemma {:induction false} BulkWriteShowsSome()
    ensures var keys, a, b := [Keys.Key([97], [0])], Entry([0], 0, false), Entry([1], 0, false);
            Shown(BulkWrite, keys, [a, b]) == [Given(a, [97])]
  {
    var keys, a, b := [Keys.Key([97], [0])], Entry([0], 0, false), Entry([1], 0, false);
    BulkWriteShowsOne(keys, [0], a);
    BulkWriteShowsOne(keys, [0], b);
    Keys.CutKeepsIff([97]);
    assert Bytes.Less([0], [1]) && !Bytes.Less([0], [0]);
    hide OnResult, Keys.Cut, Bytes.Less;
    assert [a, b][..1] == [a] && [a][..0] == [];
    assert Shown(BulkWrite, keys, []) == [];
    assert Shown(BulkWrite, keys, [a]) == [] + [Given(a, [97])];
  }

  // ---------------------------------------------------------------- every history happens

  /** Operation 0, alone, of this kind and with these keys. */
  ghost predicate Solo(s: Sys, kind: Kind, keys: seq<Keys.Key>)
  {
    && !s.panicked && s.ops.Keys == {0} && s.ops[0].kind == kind && s.ops[0].keys == keys
    && s.counter == |s.ops[0].contexts|
  }

  ghost predicate Stands(actions: seq<Action>, kind: Kind, keys: seq<Keys.Key>, phase: Phase, contexts: nat, stored: nat, deleted: nat)
  {
    && Happens(actions) && Allocations(actions) == contexts && Solo(Run(INIT, actions), kind, keys)
    && var op := Run(INIT, actions).ops[0];
       op.phase == phase && |op.contexts| == contexts && op.stored == stored && op.deleted == deleted
  }

  lemma {:induction false} Spawned(kind: Kind, keys: seq<Keys.Key>) returns (actions: seq<Action>)
    ensures Stands(actions, kind, keys, Setup, 0, 0, 0)
    ensures EntriesFor(actions, 0) == [] && CodeFor(actions, 0) == None
  {
    hide Run, Runs, Allocations;
    NoAction(INIT);
    actions := Extend([], Spawn(0, kind, keys));
    assert actions == [Spawn(0, kind, keys)] && actions[..0] == [];
    assert EntriesFor([], 0) == [] && CodeFor([], 0) == None;
  }

  lemma {:induction false} AllocateOne(front: seq<Action>, kind: Kind, keys: seq<Keys.Key>, n: nat) returns (actions: seq<Action>)
    requires Stands(front, kind, keys, Setup, n, 0, 0) && n < |Layout(kind)|
    ensures Stands(actions, kind, keys, Setup, n + 1, 0, 0)
    ensures EntriesFor(actions, 0) == EntriesFor(front, 0) && CodeFor(actions, 0) == CodeFor(front, 0)
  {
    hide Run, Runs, Allocations, Layout;
    actions := Extend(front, Allocate(0));
    assert actions[..|actions| - 1] == front;
    LayoutSmall(kind);
  }

  lemma {:induction false} LayoutSmall(kind: Kind)
    ensures 1 <= |Layout(kind)| <= 3
  {
  }

  lemma {:induction false} StoreOne(front: seq<Action>, kind: Kind, keys: seq<Keys.Key>, n: nat) returns (actions: seq<Action>)
    requires Stands(front, kind, keys, Setup, |Layout(kind)|, n, 0) && n < |Layout(kind)|
    ensures Stands(actions, kind, keys, Setup, |Layout(kind)|, n + 1, 0)
    ensures EntriesFor(actions, 0) == EntriesFor(front, 0) && CodeFor(actions, 0) == CodeFor(front, 0)
  {
    hide Run, Runs, Allocations, Layout;
    actions := Extend(front, StoreNext(0));
    assert actions[..|actions| - 1] == front;
  }

  lemma {:induction false} AllocateAll(front: seq<Action>, kind: Kind, keys: seq<Keys.Key>, n: nat) returns (actions: seq<Action>)
    requires Stands(front, kind, keys, Setup, n, 0, 0) && n <= |Layout(kind)|
    ensures Stands(actions, kind, keys, Setup, |Layout(kind)|, 0, 0)
    ensures EntriesFor(actions, 0) == EntriesFor(front, 0) && CodeFor(actions, 0) == CodeFor(front, 0)
    decreases |Layout(kind)| - n
  {
    hide Stands, EntriesFor, CodeFor;
    actions := front;
    if n < |Layout(kind)| {
      actions := AllocateOne(front, kind, keys, n);
      actions := AllocateAll(actions, kind, keys, n + 1);
    }
  }

  lemma {:induction false} StoreAll(front: seq<Action>, kind: Kind, keys: seq<Keys.Key>, n: nat) returns (actions: seq<Action>)
    requires Stands(front, kind, keys, Setup, |Layout(kind)|, n, 0) && n <= |Layout(kind)|
    ensures Stands(actions, kind, keys, Setup, |Layout(kind)|, |Layout(kind)|, 0)
    ensures EntriesFor(actions, 0) == EntriesFor(front, 0) && CodeFor(actions, 0) == CodeFor(front, 0)
    decreases |Layout(kind)| - n
  {
    hide Stands, EntriesFor, CodeFor;
    actions := front;
    if n < |Layout(kind)| {
      actions := StoreOne(front, kind, keys, n);
      actions := StoreAll(actions, kind, keys, n + 1);
    }
  }

  /** Results can be delivered to any operation in flight but a write, a cache or a backend request. */
  ghost predicate Receives(kind: Kind)
  {
    !kind.Write? && !kind.Cache? && !kind.BackendAdmin? && !kind.WriteChunk? && !kind.GetRoutes?
  }

  lemma {:induction false} SubmitIt(front: seq<Action>, kind: Kind, keys: seq<Keys.Key>) returns (actions: seq<Action>)
    requires Stands(front, kind, keys, Setup, |Layout(kind)|, |Layout(kind)|, 0)
    ensures Stands(actions, kind, keys, InFlight, |Layout(kind)|, |Layout(kind)|, 0)
    ensures EntriesFor(actions, 0) == EntriesFor(front, 0) && CodeFor(actions, 0) == CodeFor(front, 0)
  {
    hide Run, Runs, Allocations, Layout;
    actions := Extend(front, Submit(0));
    assert actions[..|actions| - 1] == front;
  }

  lemma {:induction false} DeliverOne(front: seq<Action>, kind: Kind, keys: seq<Keys.Key>, e: Entry) returns (actions: seq<Action>)
    requires Stands(front, kind, keys, InFlight, |Layout(kind)|, |Layout(kind)|, 0) && Receives(kind)
    ensures Stands(actions, kind, keys, InFlight, |Layout(kind)|, |Layout(kind)|, 0)
    ensures EntriesFor(actions, 0) == EntriesFor(front, 0) + [e] && CodeFor(actions, 0) == CodeFor(front, 0)
  {
    hide Run, Runs, Allocations, Layout, Inv, Step, Enabled;
    Reachable(front);
    SoloDelivers(Run(INIT, front), e);
    actions := Extend(front, Deliver(0, e, true));
    assert actions[..|actions| - 1] == front;
  }

  /** The parts of an operation that decide what it can do next. */
  ghost predicate SameStanding(s: Sys, u: Sys, phase: Phase)
  {
    && 0 in s.ops && u.ops.Keys == s.ops.Keys && u.panicked == s.panicked && u.counter == s.counter
    && u.ops[0] == s.ops[0].(phase := phase, arrived := u.ops[0].arrived, out := u.ops[0].out, closed := u.ops[0].closed,
                             final := u.ops[0].final)
  }

  lemma {:induction false} SoloDelivers(s: Sys, e: Entry)
    requires Inv(s) && !s.panicked && 0 in s.ops && s.ops[0].phase.InFlight? && Receives(s.ops[0].kind)
    ensures Enabled(s, Deliver(0, e, true)) && SameStanding(s, Step(s, Deliver(0, e, true)), InFlight)
  {
    var a := Deliver(0, e, true);
    assert Enabled(s, a);
    hide Inv, OnResult, Dispatch, Layout;
    DeliverKeeps(s, a);
  }

  lemma {:induction false} SoloCompletes(s: Sys, code: int)
    requires Inv(s) && !s.panicked && 0 in s.ops && s.ops[0].phase.InFlight? && !s.ops[0].kind.GetRoutes?
    ensures Enabled(s, Complete(0, code, false)) && SameStanding(s, Step(s, Complete(0, code, false)), Cleanup)
  {
    var a := Complete(0, code, false);
    assert Enabled(s, a);
    hide Inv, OnFinish, Dispatch, Layout, Step;
    CompleteKeeps(s, a);
  }

  lemma {:induction false} DeliverAll(front: seq<Action>, kind: Kind, keys: seq<Keys.Key>, es: seq<Entry>) returns (actions: seq<Action>)
    requires Stands(front, kind, keys, InFlight, |Layout(kind)|, |Layout(kind)|, 0) && Receives(kind)
    ensures Stands(actions, kind, keys, InFlight, |Layout(kind)|, |Layout(kind)|, 0)
    ensures EntriesFor(actions, 0) == EntriesFor(front, 0) + es && CodeFor(actions, 0) == CodeFor(front, 0)
    decreases |es|
  {
    hide Stands, EntriesFor, CodeFor, Layout;
    actions := front;
    assert EntriesFor(front, 0) + [] == EntriesFor(front, 0);
    if es != [] {
      actions := DeliverOne(front, kind, keys, es[0]);
      actions := DeliverAll(actions, kind, keys, es[1..]);
      assert EntriesFor(front, 0) + [es[0]] + es[1..] == EntriesFor(front, 0) + es;
    }
  }

  lemma {:induction false} CompleteIt(front: seq<Action>, kind: Kind, keys: seq<Keys.Key>, code: int) returns (actions: seq<Action>)
    requires Stands(front, kind, keys, InFlight, |Layout(kind)|, |Layout(kind)|, 0) && !kind.GetRoutes?
    ensures Stands(actions, kind, keys, Cleanup, |Layout(kind)|, |Layout(kind)|, 0)
    ensures EntriesFor(actions, 0) == EntriesFor(front, 0) && CodeFor(actions, 0) == Some(code)
  {
    hide Run, Runs, Allocations, Layout, Inv, Step, Enabled;
    Reachable(front);
    SoloCompletes(Run(INIT, front), code);
    actions := Extend(front, Complete(0, code, false));
    assert actions[..|actions| - 1] == front;
  }

  lemma {:induction false} DeleteOne(front: seq<Action>, kind: Kind, keys: seq<Keys.Key>, n: nat) returns (actions: seq<Action>)
    requires Stands(front, kind, keys, Cleanup, |Layout(kind)|, |Layout(kind)|, n) && n < |Layout(kind)|
    ensures Stands(actions, kind, keys, if n + 1 == |Layout(kind)| then Gone else Cleanup, |Layout(kind)|, |Layout(kind)|, n + 1)
    ensures EntriesFor(actions, 0) == EntriesFor(front, 0) && CodeFor(actions, 0) == CodeFor(front, 0)
  {
    hide Run, Runs, Allocations, Layout;
    actions := Extend(front, DeleteNext(0));
    assert actions[..|actions| - 1] == front;
  }

  lemma {:induction false} DeleteAll(front: seq<Action>, kind: Kind, keys: seq<Keys.Key>, n: nat) returns (actions: seq<Action>)
    requires Stands(front, kind, keys, Cleanup, |Layout(kind)|, |Layout(kind)|, n) && n < |Layout(kind)|
    ensures Stands(actions, kind, keys, Gone, |Layout(kind)|, |Layout(kind)|, |Layout(kind)|)
    ensures EntriesFor(actions, 0) == EntriesFor(front, 0) && CodeFor(actions, 0) == CodeFor(front, 0)
    decreases |Layout(kind)| - n
  {
    hide Stands, EntriesFor, CodeFor;
    actions := DeleteOne(front, kind, keys, n);
    if n + 1 < |Layout(kind)| {
      actions := DeleteAll(actions, kind, keys, n + 1);
    }
  }

  /**
   None of this is empty: for every kind that receives results, all keys, all entries and every final code there is a run
   that delivers exactly these entries, ends with exactly this code, closes the channel and leaves the pool empty.
   */
  lemma {:induction false} EveryHistoryHappens(kind: Kind, keys: seq<Keys.Key>, entries: seq<Entry>, code: int)
    returns (actions: seq<Action>)
    requires Receives(kind)
    ensures Happens(actions) && !Run(INIT, actions).panicked && Run(INIT, actions).ops.Keys == {0}
    ensures EntriesFor(actions, 0) == entries && CodeFor(actions, 0) == Some(code)
    ensures AskedFor(actions, 0) == Some(Request(kind, keys))
    ensures Run(INIT, actions).ops[0].closed && Run(INIT, actions).entries == map[]
  {
    LayoutSmall(kind);
    actions := Spawned(kind, keys);
    hide EntriesFor, CodeFor, Run, Layout, Runs, Allocations;
    actions := AllocateAll(actions, kind, keys, 0);
    actions := StoreAll(actions, kind, keys, 0);
    actions := SubmitIt(actions, kind, keys);
    actions := DeliverAll(actions, kind, keys, entries);
    assert [] + entries == entries;
    actions := CompleteIt(actions, kind, keys, code);
    actions := DeleteAll(actions, kind, keys, 0);
    HistoryAccounts(actions, 0);
    QuiescentIsEmpty(actions);
    Reachable(actions);
    hide Distinct, Exact, Expected;
    assert Shape(Run(INIT, actions).ops[0]);
  }

  /** A parallel lookup or chunked write may fail before anything is stored: it shows that code alone and leaves no trace. */
  lemma {:induction false} AbandonHappens(kind: Kind, keys: seq<Keys.Key>, code: int) returns (actions: seq<Action>)
    requires (kind.ParallelLookup? || kind.WriteChunk?) && code < 0
    ensures Happens(actions) && Run(INIT, actions).ops.Keys == {0} && Run(INIT, actions).entries == map[]
    ensures CodeFor(actions, 0) == Some(code)
    ensures Run(INIT, actions).ops[0].closed && Run(INIT, actions).ops[0].out == [Failure(code)]
  {
    LayoutSmall(kind);
    actions := Spawned(kind, keys);
    hide EntriesFor, Run, Layout, Runs, Allocations;
    actions := AllocateAll(actions, kind, keys, 0);
    Reachable(actions);
    AbandonsClean(Run(INIT, actions), code);
    hide Inv, Step, Enabled;
    var front := actions;
    actions := Extend(front, Abandon(0, code));
    assert actions[..|actions| - 1] == front;
    QuiescentIsEmpty(actions);
  }

  lemma {:induction false} AbandonsClean(s: Sys, code: int)
    requires Inv(s) && !s.panicked && s.ops.Keys == {0} && s.ops[0].phase.Setup? && s.ops[0].stored == 0 && code < 0
    requires |s.ops[0].contexts| == |Layout(s.ops[0].kind)| && (s.ops[0].kind.ParallelLookup? || s.ops[0].kind.WriteChunk?)
    ensures Enabled(s, Abandon(0, code))
    ensures var u := Step(s, Abandon(0, code));
            u.ops.Keys == {0} && u.ops[0].phase.Gone? && u.ops[0].closed && u.ops[0].out == [Failure(code)]
  {
    hide Distinct, Exact, Layout, Expected;
    assert Shape(s.ops[0]);
  }

  /** Fetching routes, too, ends with an empty pool: its context is dropped when the native call returns. */
  lemma {:induction false} RoutesHappen() returns (actions: seq<Action>)
    ensures Happens(actions) && AskedFor(actions, 0) == Some(Request(GetRoutes, []))
    ensures Run(INIT, actions).ops.Keys == {0} && Run(INIT, actions).ops[0].phase.Gone? && Run(INIT, actions).entries == map[]
  {
    actions := Spawned(GetRoutes, []);
    hide EntriesFor, CodeFor, Run, Runs, Allocations;
    actions := AllocateAll(actions, GetRoutes, [], 0);
    actions := StoreAll(actions, GetRoutes, [], 0);
    actions := SubmitIt(actions, GetRoutes, []);
    actions := Extend(actions, Return(0));
    actions := DeleteAll(actions, GetRoutes, [], 0);
    HistoryAccounts(actions, 0);
    QuiescentIsEmpty(actions);
  }
}
