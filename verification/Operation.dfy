/** One asynchronous operation as the session runs it: closures over a channel, registered in the shared pool. */
module Operations {
  import opened Machine
  import opened Pool
  import opened Protocol
  import Keys

  /** Each method is one atomic action of `Protocol`, performed on the shared pool and this operation's own variables. */
  class Operation {
    const number: nat
    const pool: ContextPool
    const kind: Kind
    const keys: seq<Keys.Key>
    var contexts: seq<uint64>
    var stored: nat
    var deleted: nat
    var phase: Phase
    var arrived: seq<Entry>
    var out: seq<Item>
    var closed: bool
    var final: Option<int>

    ghost function State(): Op
      reads this
    {
      Op(kind, keys, contexts, stored, deleted, phase, arrived, out, closed, final)
    }

    /** `s` is a system state this operation and its pool are part of. */
    ghost predicate PartOf(s: Sys)
      reads this, pool
    {
      s.counter == pool.counter && s.entries == pool.entries && number in s.ops && s.ops[number] == State() && !s.panicked
    }

    constructor (number: nat, pool: ContextPool, kind: Kind, keys: seq<Keys.Key>)
      ensures this.pool == pool && this.number == number
      ensures State() == Op(kind, keys, [], 0, 0, Setup, [], [], false, None)
    {
      this.number, this.pool, this.kind, this.keys := number, pool, kind, keys;
      contexts, stored, deleted, phase := [], 0, 0, Setup;
      arrived, out, closed, final := [], [], false, None;
    }

    method Allocate(ghost s: Sys)
      requires PartOf(s) && Enabled(s, Action.Allocate(number))
      modifies this`contexts, pool`counter
      ensures PartOf(Step(s, Action.Allocate(number)))
    {
      var c := pool.NextContext();
      contexts := contexts + [c];
    }

    method Store(ghost s: Sys)
      requires PartOf(s) && Enabled(s, StoreNext(number))
      modifies this`stored, pool`entries
      ensures PartOf(Step(s, StoreNext(number)))
    {
      pool.Store(contexts[stored], Value(Layout(kind)[stored], number));
      stored := stored + 1;
    }

    /** The native call is made; events may arrive from now on. */
    method SubmitRequest(ghost s: Sys)
      requires PartOf(s) && Enabled(s, Submit(number))
      modifies this`phase
      ensures PartOf(Step(s, Submit(number)))
    {
      phase := InFlight;
    }

    /** A native result, dispatched through the pool to this operation's closure. */
    method OnResultEvent(ghost s: Sys, e: Entry, show: bool)
      requires Inv(s) && PartOf(s) && Enabled(s, Deliver(number, e, show))
      requires ResultTag(kind).Some? && !kind.Write? && !kind.Cache?
      modifies this`arrived, this`out
      ensures PartOf(Step(s, Deliver(number, e, show)))
    {
      hide Inv, Step, Layout, Dispatch, RunResult;
      DeliverKeeps(s, Deliver(number, e, show));
      DispatchesHome(s, number);
      assert Enabled(s, Deliver(number, e, show));
      hide Enabled;
      var found := pool.Find(contexts[0], ResultTag(kind).value);
      assert found == Callback(number);
      arrived := arrived + [e];
      if !kind.WriteChunk? || show {
        out := out + OnResult(kind, keys, e);
      }
      RunResultIs(s.ops[number], e, show);
    }

    static lemma RunResultIs(op: Op, e: Entry, show: bool)
      ensures RunResult(op, e, show)
              == op.(arrived := op.arrived + [e],
                     out := if !op.kind.WriteChunk? || show then op.out + OnResult(op.kind, op.keys, e) else op.out)
    {
      assert op.out + [] == op.out;
    }

    /** The final event of every kind but chunked writes: report, close; the deletions follow. */
    method OnFinalEvent(ghost s: Sys, code: int)
      requires Inv(s) && PartOf(s) && Enabled(s, Complete(number, code, false))
      modifies this`out, this`closed, this`final, this`phase
      ensures PartOf(Step(s, Complete(number, code, false)))
    {
      CompleteKeeps(s, Complete(number, code, false));
      DispatchesHome(s, number);
      assert !kind.GetRoutes?;
      hide Inv, Step, Layout, Dispatch, Enabled;
      var found := pool.Find(contexts[FinalSlot(kind)], FinalTag(kind));
      assert found == Callback(number);
      out := out + OnFinish(kind, code);
      closed, final, phase := true, Some(code), Cleanup;
      assert State() == RunFinal(s.ops[number], code, false);
    }

    method Delete(ghost s: Sys)
      requires PartOf(s) && Shape(State()) && Enabled(s, DeleteNext(number))
      modifies this`deleted, this`phase, pool`entries
      ensures PartOf(Step(s, DeleteNext(number)))
    {
      assert deleted < |contexts|;
      pool.Delete(contexts[deleted]);
      deleted := deleted + 1;
      phase := if deleted == |Layout(kind)| then Gone else Cleanup;
    }
  }
}
