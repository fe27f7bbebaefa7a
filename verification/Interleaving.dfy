/**
 Chunked writes among other operations: the protocol of Protocol.dfy with the closures of ChunkedWrite.dfy making the
 decisions that the protocol leaves open. Any number of chunked writes and of other operations interleave.
 */
module Interleaving {
  import opened Machine
  import Pool
  import P = Protocol
  import C = ChunkedWrite

  /** One chunked write from its first read on: what it was asked to do and the native events so far. */
  datatype Write = Write(job: C.Job, keyFails: bool, events: seq<C.Event>)

  ghost predicate Real(w: Write)
  {
    C.Happens(w.job, w.keyFails, w.events)
  }

  ghost function Now(w: Write): C.System
    requires Real(w)
  {
    C.After(w.job, w.keyFails, w.events)
  }

  datatype Joint = Joint(sys: P.Sys, writes: map<nat, Write>)

  const INIT: Joint := Joint(P.INIT, map[])

  /** What an action means to a chunked write: its first read and key, or the native event its closures run on. */
  datatype Detail = Nothing | First(job: C.Job, keyFails: bool) | Native(event: C.Event)

  datatype Move = Move(action: P.Action, detail: Detail)

  /** A native result entry as the closures of a chunked write see it. */
  function LookupOf(e: P.Entry): C.Lookup
  {
    C.Lookup(e.id, e.status, e.failed)
  }

  ghost function Lookups(es: seq<P.Entry>): seq<C.Lookup>
  {
    seq(|es|, i requires 0 <= i < |es| => LookupOf(es[i]))
  }

  /** All results that these requests got, in order. */
  ghost function Results(fs: seq<C.Flight>): seq<C.Lookup>
  {
    if fs == [] then [] else Results(fs[..|fs| - 1]) + fs[|fs| - 1].results
  }

  ghost predicate Chunked(s: P.Sys, o: nat)
  {
    o in s.ops && s.ops[o].kind.WriteChunk?
  }

  /** The operation whose closure the dispatcher of this event finds in the pool. */
  ghost function Reached(s: P.Sys, a: P.Action): nat
    requires a.o in s.ops
  {
    var op := s.ops[a.o];
    var slot := if a.Deliver? then 0 else 1;
    if |op.contexts| <= slot then a.o
    else
      match Pool.Dispatch(s.entries, op.contexts[slot], if a.Deliver? then Pool.LookupFn else Pool.FinalFn)
      case Callback(p) => p
      case _ => a.o
  }

  /** The action fits what the closure of write `w` does with this event. */
  ghost predicate Fits(w: Write, a: P.Action, e: C.Event)
    requires Real(w)
  {
    && e.i == 0
    && match a
       case Deliver(_, entry, show) => e.Result? && e.lookup == LookupOf(entry) && show == (Now(w).w.total == 0)
       case Complete(_, code, again) =>
         && e.Finish? && e.read.Valid() && e.err == (if code < 0 then Some(C.Native(code)) else None)
         && again == C.OnFinish(Now(w).w, e.err, e.read, e.keyFails).issued.Some?
       case _ => false
  }

  ghost predicate Launches(d: Detail)
    requires d.First? && d.job.read.Valid()
  {
    C.Start(d.job.initial, d.job.total, d.job.read, d.keyFails).issued.Some?
  }

  /** The protocol's action is possible and agrees with the closures of the chunked write it concerns. */
  ghost predicate Enabled(j: Joint, m: Move)
  {
    && P.Enabled(j.sys, m.action)
    && if m.action.Spawn? || !Chunked(j.sys, m.action.o) then m.detail.Nothing?
       else
         match m.action
         case Abandon(_, _) => m.detail.First? && m.detail.job.read.Valid() && !Launches(m.detail)
         case Submit(_) => m.detail.First? && m.detail.job.read.Valid() && Launches(m.detail)
         case Deliver(_, _, _) => m.detail.Native? && Agrees(j, m)
         case Complete(_, _, _) => m.detail.Native? && Agrees(j, m)
         case _ => m.detail.Nothing?
  }

  ghost predicate Agrees(j: Joint, m: Move)
    requires m.detail.Native? && m.action.o in j.sys.ops
  {
    var p := Reached(j.sys, m.action);
    p in j.writes && Real(j.writes[p]) ==> Fits(j.writes[p], m.action, m.detail.event)
  }

  ghost function Step(j: Joint, m: Move): Joint
    requires Enabled(j, m)
  {
    var o := m.action.o;
    Joint(P.Step(j.sys, m.action),
          match m.detail
          case Nothing => j.writes
          case First(job, keyFails) => j.writes[o := Write(job, keyFails, [])]
          case Native(e) =>
            var p := Reached(j.sys, m.action);
            if p in j.writes then j.writes[p := j.writes[p].(events := j.writes[p].events + [e])] else j.writes)
  }

  ghost predicate Runs(j: Joint, moves: seq<Move>)
    decreases |moves|
  {
    moves == [] || (Enabled(j, moves[0]) && Runs(Step(j, moves[0]), moves[1..]))
  }

  ghost function Run(j: Joint, moves: seq<Move>): Joint
    requires Runs(j, moves)
    decreases |moves|
  {
    if moves == [] then j else Run(Step(j, moves[0]), moves[1..])
  }

  ghost function Allocations(moves: seq<Move>): nat
  {
    if moves == [] then 0 else (if moves[0].action.Allocate? then 1 else 0) + Allocations(moves[1..])
  }

  // ---------------------------------------------------------------- the two models keep step

  /** Where the protocol has a chunked write, its closures are too, and they got what the protocol delivered. */
  ghost predicate Tied(op: P.Op, writes: map<nat, Write>, o: nat)
  {
    if op.phase.Setup? then o !in writes && op.arrived == [] && op.out == []
    else
      && o in writes && Real(writes[o])
      && (op.phase.InFlight? <==> Now(writes[o]).outstanding != [])
      && Results(C.Issued(Now(writes[o]))) == Lookups(op.arrived)
      && (!op.phase.InFlight? && writes[o].events != [] ==> EndsWith(writes[o].events, op.final))
      && ForwardedIn(Now(writes[o]).w.channel.sent) == Lookups(P.GivenEntries(op.out))
  }

  /** The lookups among what a chunked write has sent. */
  ghost function ForwardedIn(sent: seq<C.Reply>): seq<C.Lookup>
  {
    if sent == [] then []
    else ForwardedIn(sent[..|sent| - 1]) + if sent[|sent| - 1].Forwarded? then [sent[|sent| - 1].lookup] else []
  }

  lemma {:induction false} SendOne(sent: seq<C.Reply>, r: C.Reply)
    ensures ForwardedIn(sent + [r]) == ForwardedIn(sent) + if r.Forwarded? then [r.lookup] else []
  {
    assert (sent + [r])[..|sent|] == sent;
  }

  /** The last event is a final one with the native code that the protocol ended the operation with. */
  ghost predicate EndsWith(events: seq<C.Event>, final: Option<int>)
    requires events != []
  {
    var e := events[|events| - 1];
    e.Finish? && final.Some? && e.err == if final.value < 0 then Some(C.Native(final.value)) else None
  }

  ghost predicate Inv(j: Joint)
  {
    && P.Inv(j.sys) && P.Bounded(j.sys)
    && (forall o :: o in j.writes ==> o in j.sys.ops)
    && (forall o :: Chunked(j.sys, o) ==> Tied(j.sys.ops[o], j.writes, o))
  }

  lemma {:induction false} ReachesHome(s: P.Sys, a: P.Action)
    requires P.Inv(s) && P.Enabled(s, a) && (a.Deliver? || a.Complete?) && Chunked(s, a.o)
    ensures Reached(s, a) == a.o
  {
    hide P.Inv;
    P.DispatchesHome(s, a.o);
  }

  /** What a protocol step does to the phase of a chunked write. */
  lemma {:induction false} PhaseStep(s: P.Sys, a: P.Action)
    requires P.Inv(s) && P.Enabled(s, a) && !a.Spawn? && Chunked(s, a.o)
    ensures Chunked(P.Step(s, a), a.o)
    ensures var phase, phase' := s.ops[a.o].phase, P.Step(s, a).ops[a.o].phase;
            match a
            case Abandon(_, _) => phase.Setup? && phase'.Gone?
            case Submit(_) => phase.Setup? && phase'.InFlight?
            case Deliver(_, _, _) => phase.InFlight? && phase'.InFlight?
            case Complete(_, _, again) => phase.InFlight? && phase' == if again then P.InFlight else P.Cleanup
            case DeleteNext(_) => phase.Cleanup? && (phase'.Cleanup? || phase'.Gone?)
            case _ => phase.Setup? && phase'.Setup?
    ensures P.Step(s, a).ops[a.o].arrived == s.ops[a.o].arrived + if a.Deliver? then [a.entry] else []
    ensures P.GivenEntries(P.Step(s, a).ops[a.o].out)
            == P.GivenEntries(s.ops[a.o].out) + if a.Deliver? && a.show then [a.entry] else []
    ensures P.Step(s, a).ops[a.o].phase.Setup? ==> P.Step(s, a).ops[a.o].out == s.ops[a.o].out
    ensures a.Complete? && !a.again ==> P.Step(s, a).ops[a.o].final == Some(a.code)
    ensures a.DeleteNext? ==> P.Step(s, a).ops[a.o].final == s.ops[a.o].final
  {
    hide P.Inv;
    GivenMore(s.ops[a.o], a);
    if a.Deliver? {
      P.DeliverKeeps(s, a);
    } else if a.Complete? {
      P.CompleteKeeps(s, a);
    }
    hide P.Layout, Pool.Dispatch, P.GivenEntries, P.OnResult, P.OnFinish;
  }

  /** A shown entry is given on; an error is none. */
  lemma {:induction false} GivenMore(op: P.Op, a: P.Action)
    requires op.kind.WriteChunk?
    ensures a.Deliver? ==>
              P.GivenEntries(P.RunResult(op, a.entry, a.show).out) == P.GivenEntries(op.out) + if a.show then [a.entry] else []
    ensures a.Complete? ==> P.GivenEntries(P.RunFinal(op, a.code, a.again).out) == P.GivenEntries(op.out)
    ensures a.Abandon? ==> P.GivenEntries(op.out + [P.Failure(a.code)]) == P.GivenEntries(op.out)
    ensures P.GivenEntries(op.out) + [] == P.GivenEntries(op.out)
  {
    if a.Deliver? {
      P.GivenOne(op.out, if a.show then [P.Given(a.entry, [])] else []);
    } else if a.Complete? {
      P.GivenOne(op.out, P.OnFinish(op.kind, a.code));
    } else if a.Abandon? {
      P.GivenOne(op.out, [P.Failure(a.code)]);
    }
  }

  lemma {:induction false} KindStays(s: P.Sys, a: P.Action)
    requires P.Inv(s) && P.Enabled(s, a) && !a.Spawn?
    ensures a.o in P.Step(s, a).ops && P.Step(s, a).ops[a.o].kind == s.ops[a.o].kind
    ensures P.Step(s, a).ops.Keys == s.ops.Keys
  {
    hide P.Inv;
    if a.Deliver? {
      P.DeliverKeeps(s, a);
    } else if a.Complete? {
      P.CompleteKeeps(s, a);
    }
    hide P.Layout, Pool.Dispatch;
  }

  lemma {:induction false} Starts(d: Detail)
    requires d.First? && d.job.read.Valid()
    ensures Real(Write(d.job, d.keyFails, []))
    ensures Now(Write(d.job, d.keyFails, [])).outstanding != [] <==> Launches(d)
    ensures Results(C.Issued(Now(Write(d.job, d.keyFails, [])))) == []
    ensures ForwardedIn(Now(Write(d.job, d.keyFails, [])).w.channel.sent) == []
  {
    NothingForwarded(d);
    hide C.Start;
    var s := C.Begin(d.job.initial, d.job.total, d.job.store, d.job.read, d.keyFails);
    assert C.Run(s, []) == s;
    assert C.Issued(s) == s.outstanding;
    if s.outstanding != [] {
      assert s.outstanding[..0] == [] && Results([]) == [];
    }
  }

  lemma {:induction false} NothingForwarded(d: Detail)
    requires d.First? && d.job.read.Valid()
    ensures ForwardedIn(C.Start(d.job.initial, d.job.total, d.job.read, d.keyFails).w.channel.sent) == []
  {
    hide Wrap;
    var sent := C.Start(d.job.initial, d.job.total, d.job.read, d.keyFails).w.channel.sent;
    OnlyFailures(sent);
  }

  lemma {:induction false} OnlyFailures(sent: seq<C.Reply>)
    requires forall i :: 0 <= i < |sent| ==> sent[i].Failed?
    ensures ForwardedIn(sent) == []
  {
    if sent != [] {
      OnlyFailures(sent[..|sent| - 1]);
    }
  }

  /** Of all events only a result forwards, and only when nothing is left to submit. */
  lemma {:induction false} ForwardStep(s: C.System, e: C.Event)
    requires C.Enabled(s, e) && !s.w.channel.closed
    ensures ForwardedIn(C.Step(s, e).w.channel.sent)
            == ForwardedIn(s.w.channel.sent) + if e.Result? && s.w.total == 0 then [e.lookup] else []
  {
    hide Wrap;
    C.StepWriter(s, e);
    var sent := s.w.channel.sent;
    assert ForwardedIn(sent) + [] == ForwardedIn(sent);
    if e.Result? {
      SendOne(sent, C.Forwarded(e.lookup));
    } else {
      var turn := C.OnFinish(s.w, e.err, e.read, e.keyFails);
      var why := if e.err.Some? then e.err.value else if e.read.n == 0 && e.read.err.Some? then e.read.err.value else C.BadKey;
      SendOne(sent, C.Failed(why));
      assert turn.w.channel.sent == sent || turn.w.channel.sent == sent + [C.Failed(why)];
    }
    hide C.Step;
  }

  lemma {:induction false} ResultsExtend(front: seq<C.Flight>, f: C.Flight)
    ensures Results(front + [f]) == Results(front) + f.results
  {
    assert (front + [f])[..|front|] == front;
  }

  /** A result event adds its lookup to the results; a finish event adds none. */
  lemma {:induction false} ResultsStep(s: C.System, job: C.Job, e: C.Event)
    requires C.Inv(s, job) && C.Enabled(s, e)
    ensures Results(C.Issued(C.Step(s, e))) == Results(C.Issued(s)) + if e.Result? then [e.lookup] else []
  {
    C.OutstandingMeansOpen(s, job);
    var front, f := C.Landed(s.landed), s.outstanding[0];
    assert s.outstanding == [f] && C.Issued(s) == front + [f];
    ResultsExtend(front, f);
    if e.Result? {
      var f' := f.(results := f.results + [e.lookup]);
      assert C.Issued(C.Step(s, e)) == front + [f'];
      ResultsExtend(front, f');
      assert Results(front) + (f.results + [e.lookup]) == (Results(front) + f.results) + [e.lookup];
    } else {
      C.LandingFacts(s, job, e);
      hide C.Step, C.Inv, C.Issued, Results;
      var s' := C.Step(s, e);
      if s'.outstanding != [] {
        assert s'.outstanding == [s'.outstanding[0]];
        ResultsExtend(C.Issued(s), s'.outstanding[0]);
      } else {
        assert C.Issued(s) + [] == C.Issued(s);
      }
      assert Results(C.Issued(s)) + [] == Results(C.Issued(s));
    }
  }

  /** A native event the protocol delivers is one the write's closures accept, and they stay in flight exactly if they issue. */
  lemma {:induction false} Reacts(w: Write, a: P.Action, e: C.Event)
    requires Real(w) && Now(w).outstanding != [] && Fits(w, a, e)
    ensures var w' := w.(events := w.events + [e]);
            && Real(w')
            && (Now(w').outstanding == [] <==> a.Complete? && !a.again)
            && Results(C.Issued(Now(w'))) == Results(C.Issued(Now(w))) + (if a.Deliver? then [LookupOf(a.entry)] else [])
            && (a.Complete? ==> EndsWith(w'.events, Some(a.code)))
            && ForwardedIn(Now(w').w.channel.sent)
               == ForwardedIn(Now(w).w.channel.sent) + if a.Deliver? && a.show then [LookupOf(a.entry)] else []
  {
    hide C.Inv, C.Run, C.Runs, C.Begin, C.OnFinish, C.OnResult, C.Step, C.Issued, Results, ForwardedIn;
    C.Reachable(w.job, w.keyFails, w.events);
    C.OutstandingMeansOpen(Now(w), w.job);
    StaysOut(Now(w), w.job, e);
    ResultsStep(Now(w), w.job, e);
    ForwardStep(Now(w), e);
    C.RunExtends(C.Begin(w.job.initial, w.job.total, w.job.store, w.job.read, w.keyFails), w.events, e);
  }

  /** A request stays outstanding unless a final event issues no other. */
  lemma {:induction false} StaysOut(s: C.System, job: C.Job, e: C.Event)
    requires C.Inv(s, job) && C.Enabled(s, e)
    ensures C.Step(s, e).outstanding == []
            <==> e.Finish? && C.OnFinish(s.w, e.err, e.read, e.keyFails).issued.None?
  {
    C.OutstandingMeansOpen(s, job);
    hide C.Inv, C.OnFinish, C.OnResult;
    if e.Finish? {
      C.LandingFacts(s, job, e);
    }
  }

  /** Write `o` is still tied and no other write has changed. */
  ghost predicate OnlyMoves(j: Joint, j': Joint, o: nat)
  {
    && o in j'.sys.ops && Tied(j'.sys.ops[o], j'.writes, o)
    && (forall p :: p != o ==> (p in j'.writes <==> p in j.writes))
    && (forall p :: p != o && p in j.writes ==> p in j'.writes && j'.writes[p] == j.writes[p])
  }

  lemma {:induction false} WritesStep(j: Joint, m: Move)
    requires Inv(j) && Enabled(j, m) && !m.action.Spawn? && Chunked(j.sys, m.action.o)
    ensures OnlyMoves(j, Step(j, m), m.action.o)
  {
    hide P.Inv, P.Bounded, P.Step, P.Enabled, Real, Now, Reached, Fits, Launches, Results, C.Issued, ForwardedIn, P.GivenEntries;
    var a, o := m.action, m.action.o;
    PhaseStep(j.sys, a);
    var arrived := j.sys.ops[o].arrived;
    assert arrived + [] == arrived;
    assert a.Deliver? ==> Lookups(arrived + [a.entry]) == Lookups(arrived) + [LookupOf(a.entry)];
    var given := P.GivenEntries(j.sys.ops[o].out);
    assert given + [] == given;
    assert a.Deliver? ==> Lookups(given + [a.entry]) == Lookups(given) + [LookupOf(a.entry)];
    NothingGiven();
    if m.detail.First? {
      Starts(m.detail);
    } else if m.detail.Native? {
      ReachesHome(j.sys, a);
      Reacts(j.writes[o], a, m.detail.event);
    }
  }

  lemma {:induction false} NothingGiven()
    ensures P.GivenEntries([]) == [] && Lookups([]) == []
  {
  }

  lemma {:induction false} StepKeeps(j: Joint, m: Move)
    requires Inv(j) && Enabled(j, m) && (m.action.Allocate? ==> j.sys.counter + 1 < TWO_64)
    ensures Inv(Step(j, m))
    ensures Step(j, m).sys.counter == j.sys.counter + if m.action.Allocate? then 1 else 0
  {
    hide P.Inv, P.Bounded, P.Step, Tied, P.Enabled;
    var a, j' := m.action, Step(j, m);
    if a.Allocate? {
      P.BoundedIsFresh(j.sys);
    }
    P.StepKeeps(j.sys, a);
    P.StepBounded(j.sys, a);
    if a.Spawn? {
      SpawnTies(j, m);
    } else {
      KindStays(j.sys, a);
      if Chunked(j.sys, a.o) {
        WritesStep(j, m);
      }
      forall o | Chunked(j'.sys, o) ensures Tied(j'.sys.ops[o], j'.writes, o) {
        if o != a.o {
          P.OthersStay(j.sys, a, o);
          SameTie(j.sys.ops[o], j.writes, j'.writes, o);
        }
      }
    }
  }

  lemma {:induction false} SameTie(op: P.Op, writes: map<nat, Write>, writes': map<nat, Write>, o: nat)
    requires Tied(op, writes, o)
    requires (o in writes <==> o in writes') && (o in writes ==> writes[o] == writes'[o])
    ensures Tied(op, writes', o)
  {
  }

  lemma {:induction false} SpawnTies(j: Joint, m: Move)
    requires Inv(j) && Enabled(j, m) && m.action.Spawn?
    ensures var j' := Step(j, m);
            && (forall o :: o in j'.writes ==> o in j'.sys.ops)
            && (forall o :: Chunked(j'.sys, o) ==> Tied(j'.sys.ops[o], j'.writes, o))
  {
    hide P.Inv, P.Bounded, Real, Now;
  }

  lemma {:induction false} RunKeeps(j: Joint, moves: seq<Move>)
    requires Inv(j) && Runs(j, moves) && j.sys.counter + Allocations(moves) < TWO_64
    ensures Inv(Run(j, moves))
    decreases |moves|
  {
    hide Inv, Step, Enabled;
    if moves != [] {
      StepKeeps(j, moves[0]);
      RunKeeps(Step(j, moves[0]), moves[1..]);
    }
  }

  ghost predicate Happens(moves: seq<Move>)
  {
    Runs(INIT, moves) && Allocations(moves) < TWO_64
  }

  lemma {:induction false} Reachable(moves: seq<Move>)
    requires Happens(moves)
    ensures Inv(Run(INIT, moves))
  {
    RunKeeps(INIT, moves);
  }

  /**
   Over every interleaving, a chunked write that got past its set-up is some history of its own closures, undisturbed
   by the others; it has a native write outstanding exactly while the protocol has it in flight, and its channel is
   closed, once, exactly when the protocol's operation is.
   */
  lemma {:induction false} WritesAreHistories(moves: seq<Move>, o: nat)
    requires Happens(moves) && Chunked(Run(INIT, moves).sys, o)
    ensures var j := Run(INIT, moves);
            var op := j.sys.ops[o];
            && (o in j.writes <==> !op.phase.Setup?)
            && (o in j.writes ==>
                  && Real(j.writes[o])
                  && |Now(j.writes[o]).outstanding| == (if op.phase.InFlight? then 1 else 0)
                  && !Now(j.writes[o]).w.channel.panicked
                  && (Now(j.writes[o]).w.channel.closed <==> op.closed)
                  && Results(C.Issued(Now(j.writes[o]))) == Lookups(op.arrived)
                  && ForwardedIn(Now(j.writes[o]).w.channel.sent) == Lookups(P.GivenEntries(op.out)))
  {
    hide Run, P.Distinct, P.Exact, P.Bounded, P.Expected, P.Layout, Now;
    Reachable(moves);
    var j := Run(INIT, moves);
    assert P.Shape(j.sys.ops[o]);
    if o in j.writes {
      HistoryFacts(j.writes[o]);
    }
  }

  lemma {:induction false} HistoryFacts(w: Write)
    requires Real(w)
    ensures |Now(w).outstanding| <= 1 && !Now(w).w.channel.panicked
    ensures Now(w).w.channel.closed <==> Now(w).outstanding == []
  {
    hide C.Run, C.Begin;
    C.SingleFlight(w.job, w.keyFails, w.events);
    C.ClosesOnce(w.job, w.keyFails, w.events);
  }

  /**
   So what the consumer of a closed chunked write has received is the same whatever ran beside it, the lookups shown are
   the last of the entries that the protocol delivered to it, and a negative native code is the error it ends with.
   */
  lemma {:induction false} InterleavedConsumerSees(moves: seq<Move>, o: nat) returns (errors: seq<C.Error>)
    requires Happens(moves) && Chunked(Run(INIT, moves).sys, o) && Run(INIT, moves).sys.ops[o].closed
    ensures var j := Run(INIT, moves);
            && o in j.writes && Real(j.writes[o])
            && var job, s := j.writes[o].job, Now(j.writes[o]);
               && |errors| <= 1
               && s.w.channel.sent
                  == C.Stray(job.read) + C.Forwards(C.LastLookups(s, job))
                     + (if errors == [] then [] else [C.Failed(errors[0])])
               && errors == (if C.Complete(s, job) then [] else [C.Reason(job, j.writes[o].events)])
               && IsSuffix(C.LastLookups(s, job), Lookups(j.sys.ops[o].arrived))
               && var final := j.sys.ops[o].final;
                  j.writes[o].events != [] && final.Some? && final.value < 0 ==> errors == [C.Native(final.value)]
  {
    hide Run, C.Run, C.Begin, P.Distinct, P.Exact, P.Bounded, P.Expected, P.Layout;
    Reachable(moves);
    WritesAreHistories(moves, o);
    var j := Run(INIT, moves);
    assert P.Shape(j.sys.ops[o]);
    var w := j.writes[o];
    errors := C.ConsumerSees(w.job, w.keyFails, w.events);
    LastAreLast(Now(w), w.job);
    if w.events != [] && EndsWith(w.events, j.sys.ops[o].final) && j.sys.ops[o].final.value < 0 {
      FailedIsIncomplete(w);
    }
  }

  /** A run whose last request failed is not complete. */
  lemma {:induction false} FailedIsIncomplete(w: Write)
    requires Real(w) && w.events != []
    requires var e := w.events[|w.events| - 1]; e.Finish? && e.err.Some?
    ensures !C.Complete(Now(w), w.job)
  {
    var n := |w.events| - 1;
    var front, e := w.events[..n], w.events[n];
    assert w.events == front + [e];
    var s0 := C.Begin(w.job.initial, w.job.total, w.job.store, w.job.read, w.keyFails);
    C.RunSplits(s0, front, e);
    C.RunExtends(s0, front, e);
    C.Reachable(w.job, w.keyFails, front);
    hide C.Begin, C.Run, C.Inv, C.Data, Wrap;
    var s := C.Run(s0, front);
    C.LandingFacts(s, w.job, e);
    assert !C.Step(s, e).landed[|s.landed|].ok;
  }

  ghost predicate IsSuffix<T>(small: seq<T>, big: seq<T>)
  {
    |small| <= |big| && big[|big| - |small|..] == small
  }

  lemma {:induction false} LastAreLast(s: C.System, job: C.Job)
    requires s.outstanding == []
    ensures IsSuffix(C.LastLookups(s, job), Results(C.Issued(s)))
  {
    hide Wrap, C.Data;
    assert C.Issued(s) == C.Landed(s.landed);
    if s.landed != [] {
      var n := |s.landed| - 1;
      var fs := C.Landed(s.landed);
      ResultsExtend(fs[..n], fs[n]);
      assert fs == fs[..n] + [fs[n]];
    }
  }
}
