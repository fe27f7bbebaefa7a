/**
 `Session.WriteChunk` (elliptics/session.go): a write too large for one request, cut into one prepare, any number
 of plain writes and one commit, each issued from the completion callback of the one before it.
 */
module ChunkedWrite {
  import opened Machine
  import opened Store

  const MAX_CHUNK: uint64 := 10 * 1024 * 1024

  datatype Error = Native(code: int) | Reader(code: int) | BadKey | ZeroLengthWrite

  /** One lookup entry the native library reports for a write: a replica's success or its error. */
  datatype Lookup = Lookup(id: Bytes, status: int, failed: bool)

  datatype Reply = Forwarded(lookup: Lookup) | Failed(error: Error)

  /** A Go channel: sending on it or closing it once it is closed panics. */
  datatype Channel = Channel(sent: seq<Reply>, closed: bool, panicked: bool)
  {
    function Send(r: Reply): Channel
    {
      if closed then this.(panicked := true) else this.(sent := sent + [r])
    }

    function Close(): Channel
    {
      if closed then this.(panicked := true) else this.(closed := true)
    }
  }

  const FRESH: Channel := Channel([], false, false)

  /** What one `input.Read(chunk)` does: fill the buffer anyhow, report `n` bytes and perhaps an error. */
  datatype ReadOutcome = ReadOutcome(n: nat, buffer: Bytes, err: Option<Error>)
  {
    ghost predicate Valid()
    {
      n <= MAX_CHUNK && |buffer| == MAX_CHUNK
    }

    ghost function Data(): Bytes
      requires Valid()
    {
      buffer[..n]
    }
  }

  /** A native write. Its data is not copied: it is the first `n` bytes of the shared buffer. */
  datatype Request =
    | Prepare(offset: uint64, reserve: uint64, n: nat)
    | Plain(offset: uint64, n: nat)
    | Commit(offset: uint64, commitSize: uint64, n: nat)

  /** The variables the closures capture, the response channel, and whether the three pool contexts are stored. */
  datatype Writer = Writer(total: uint64, offset: uint64, n64: uint64, chunk: Bytes, channel: Channel, stored: bool)

  datatype Turn = Turn(w: Writer, issued: Option<Request>)

  /** The error exit shared by all failures: report, close, drop the contexts. */
  function Fail(w: Writer, e: Error): Writer
  {
    w.(channel := w.channel.Send(Failed(e)).Close(), stored := false)
  }

  /** Account for `n` bytes just read. */
  function Advance(w: Writer, n: nat): Writer
    requires n <= MAX_CHUNK
  {
    w.(total := Sub64(w.total, n), offset := Add64(w.offset, n), n64 := n)
  }

  /** The body of `WriteChunk`: first read, then the prepare request. */
  function Start(initial: uint64, total: uint64, read: ReadOutcome, keyFails: bool): Turn
    requires read.n <= MAX_CHUNK
  {
    var w0 := Writer(total, initial, 0, read.buffer, FRESH, false);
    if read.err.Some? then Turn(Fail(w0, read.err.value), None)
    else
      var w1 := if read.n == 0 then w0.(channel := w0.channel.Send(Failed(ZeroLengthWrite))) else w0;
      var w2 := Advance(w1, read.n);
      if keyFails then Turn(Fail(w2, BadKey), None)
      else Turn(w2.(stored := true), Some(Prepare(Sub64(w2.offset, w2.n64), Add64(w2.total, w2.n64), read.n)))
  }

  /** `onChunkResult`: lookups are forwarded only once everything has been submitted. */
  function OnResult(w: Writer, lookup: Lookup): Writer
  {
    if w.total == 0 then w.(channel := w.channel.Send(Forwarded(lookup))) else w
  }

  /** `onChunkFinish`: stop on error or when nothing is left, else read on and issue the next write. */
  function OnFinish(w: Writer, err: Option<Error>, read: ReadOutcome, keyFails: bool): Turn
    requires read.n <= MAX_CHUNK
  {
    if err.Some? then Turn(Fail(w, err.value), None)
    else if w.total == 0 then Turn(w.(channel := w.channel.Close(), stored := false), None)
    else
      var w1 := w.(chunk := read.buffer);
      if read.n == 0 && read.err.Some? then Turn(Fail(w1, read.err.value), None)
      else
        var w2 := Advance(w1, read.n);
        if keyFails then Turn(Fail(w2, BadKey), None)
        else if w2.total != 0 then Turn(w2, Some(Plain(Sub64(w2.offset, w2.n64), read.n)))
        else Turn(w2, Some(Commit(Sub64(w2.offset, w2.n64), w2.offset, read.n)))
  }

  // ---------------------------------------------------------------- the writer, the native library and the store

  /** A request on its way, with the bytes that stood in the buffer when it was submitted. */
  datatype Flight = Flight(req: Request, data: Bytes, results: seq<Lookup>)

  /** A completed request and the bytes that stood in the buffer when it completed. */
  datatype Landing = Landing(flight: Flight, carried: Bytes, ok: bool)

  datatype System = System(w: Writer, store: Bytes, outstanding: seq<Flight>, landed: seq<Landing>)

  /** Native events address any outstanding request. A failed write may leave anything in the store. */
  datatype Event =
    | Result(i: nat, lookup: Lookup)
    | Finish(i: nat, err: Option<Error>, havoc: Bytes, read: ReadOutcome, keyFails: bool)

  ghost predicate Enabled(s: System, e: Event)
  {
    e.i < |s.outstanding| && (e.Finish? ==> e.read.Valid())
  }

  ghost function Launch(w: Writer, issued: Option<Request>): seq<Flight>
    requires issued.Some? ==> issued.value.n <= |w.chunk|
  {
    if issued.None? then [] else [Flight(issued.value, w.chunk[..issued.value.n], [])]
  }

  ghost function Step(s: System, e: Event): System
    requires Enabled(s, e)
  {
    var f := s.outstanding[e.i];
    match e
    case Result(i, lookup) =>
      s.(w := OnResult(s.w, lookup),
         outstanding := s.outstanding[i := f.(results := f.results + [lookup])])
    case Finish(i, err, havoc, read, keyFails) =>
      var carried := if f.req.n <= |s.w.chunk| then s.w.chunk[..f.req.n] else s.w.chunk;
      var turn := OnFinish(s.w, err, read, keyFails);
      System(turn.w,
             if err.None? then WriteAt(s.store, f.req.offset, carried) else havoc,
             s.outstanding[..i] + s.outstanding[i + 1..] + Launch(turn.w, turn.issued),
             s.landed + [Landing(f, carried, err.None?)])
  }

  ghost function Begin(initial: uint64, total: uint64, store: Bytes, read: ReadOutcome, keyFails: bool): System
    requires read.Valid()
  {
    var turn := Start(initial, total, read, keyFails);
    System(turn.w, store, Launch(turn.w, turn.issued), [])
  }

  ghost predicate Runs(s: System, events: seq<Event>)
    decreases |events|
  {
    events == [] || (Enabled(s, events[0]) && Runs(Step(s, events[0]), events[1..]))
  }

  ghost function Run(s: System, events: seq<Event>): System
    requires Runs(s, events)
    decreases |events|
  {
    if events == [] then s else Run(Step(s, events[0]), events[1..])
  }

  // ---------------------------------------------------------------- the shape of a run

  /** All requests so far, in the order they were issued. */
  ghost function Issued(s: System): seq<Flight>
  {
    Landed(s.landed) + s.outstanding
  }

  ghost function Landed(ls: seq<Landing>): seq<Flight>
  {
    seq(|ls|, i requires 0 <= i < |ls| => ls[i].flight)
  }

  /** The bytes a list of requests submitted, end to end. */
  ghost function Data(fs: seq<Flight>): Bytes
  {
    if fs == [] then [] else Data(fs[..|fs| - 1]) + fs[|fs| - 1].data
  }

  /** How `f` must continue the requests `front`. */
  ghost predicate Continues(front: seq<Flight>, f: Flight, initial: uint64, total: uint64)
  {
    && f.req.n == |f.data| <= MAX_CHUNK
    && f.req.offset == Wrap(initial + |Data(front)|)
    && if front == [] then
         f.req.Prepare? && f.req.reserve == total
       else
         && Wrap(total - |Data(front)|) != 0
         && if Wrap(total - |Data(front)| - |f.data|) != 0 then f.req.Plain?
            else f.req.Commit? && f.req.commitSize == Wrap(initial + |Data(front)| + |f.data|)
  }

  /** One prepare, then plain writes, then a commit exactly when nothing is left; offsets adjoin. */
  ghost predicate Chain(fs: seq<Flight>, initial: uint64, total: uint64)
  {
    fs == [] || (Chain(fs[..|fs| - 1], initial, total) && Continues(fs[..|fs| - 1], fs[|fs| - 1], initial, total))
  }

  ghost function Applied(store: Bytes, fs: seq<Flight>): Bytes
  {
    if fs == [] then store
    else WriteAt(Applied(store, fs[..|fs| - 1]), fs[|fs| - 1].req.offset, fs[|fs| - 1].data)
  }

  ghost function Forwards(ls: seq<Lookup>): seq<Reply>
  {
    seq(|ls|, i requires 0 <= i < |ls| => Forwarded(ls[i]))
  }

  /** The stray error that an empty first read leaves in the channel. */
  ghost function Stray(read: ReadOutcome): seq<Reply>
  {
    if read.err.None? && read.n == 0 then [Failed(ZeroLengthWrite)] else []
  }

  /** The lookups that reach the consumer: those of the request that left nothing to submit. */
  ghost function Shown(w: Writer, results: seq<Lookup>): seq<Reply>
  {
    if w.total == 0 then Forwards(results) else []
  }

  datatype Job = Job(initial: uint64, total: uint64, store: Bytes, read: ReadOutcome)

  ghost predicate AllOk(ls: seq<Landing>)
  {
    forall i :: 0 <= i < |ls| ==> ls[i].ok
  }

  /** While the channel is open: one request outstanding, its bytes still in the buffer, everything accounted for. */
  ghost predicate Open(s: System, job: Job)
  {
    && !s.w.channel.closed && s.w.stored
    && |s.outstanding| == 1
    && |s.w.chunk| == MAX_CHUNK
    && s.outstanding[0].req.n <= MAX_CHUNK && s.w.chunk[..s.outstanding[0].req.n] == s.outstanding[0].data
    && AllOk(s.landed)
    && s.store == Applied(job.store, Landed(s.landed))
    && s.w.total == Wrap(job.total - |Data(Issued(s))|)
    && s.w.offset == Wrap(job.initial + |Data(Issued(s))|)
    && s.w.channel.sent == Stray(job.read) + Shown(s.w, s.outstanding[0].results)
  }

  ghost predicate Succeeded(s: System, job: Job)
  {
    && s.landed != [] && AllOk(s.landed)
    && Wrap(job.total - |Data(Issued(s))|) == 0
    && s.store == Applied(job.store, Landed(s.landed))
    && s.w.channel.sent == Stray(job.read) + Forwards(s.landed[|s.landed| - 1].flight.results)
  }

  /** The lookups of the last request, if it was the one that left nothing to submit. */
  ghost function LastLookups(s: System, job: Job): seq<Lookup>
  {
    if s.landed != [] && Wrap(job.total - |Data(Issued(s))|) == 0 then s.landed[|s.landed| - 1].flight.results else []
  }

  ghost predicate GaveUp(s: System, job: Job)
  {
    exists e :: ErrorEnding(s, job, e)
  }

  ghost predicate ErrorEnding(s: System, job: Job, e: Error)
  {
    && s.w.channel.sent == Stray(job.read) + Forwards(LastLookups(s, job)) + [Failed(e)]
    && !Complete(s, job)
  }

  /** Something was submitted, all of it landed, and nothing is left. */
  ghost predicate Complete(s: System, job: Job)
  {
    s.landed != [] && AllOk(s.landed) && Wrap(job.total - |Data(Issued(s))|) == 0
  }

  ghost predicate Closed(s: System, job: Job)
  {
    && s.w.channel.closed && !s.w.stored
    && s.outstanding == []
    && (Succeeded(s, job) || GaveUp(s, job))
  }

  /** What every reachable state satisfies. */
  ghost predicate Inv(s: System, job: Job)
  {
    && !s.w.channel.panicked
    && Chain(Issued(s), job.initial, job.total)
    && (forall i :: 0 <= i < |s.landed| ==> s.landed[i].carried == s.landed[i].flight.data)
    && StartsWith(Issued(s), job.read)
    && (Open(s, job) || Closed(s, job))
  }

  /** The first request carries the bytes of the first read. */
  ghost predicate StartsWith(fs: seq<Flight>, read: ReadOutcome)
  {
    fs != [] ==> read.Valid() && fs[0].data == read.Data()
  }

  // ---------------------------------------------------------------- every step keeps the invariant

  lemma {:induction false} ChainExtend(front: seq<Flight>, f: Flight, initial: uint64, total: uint64)
    requires Chain(front, initial, total) && Continues(front, f, initial, total)
    ensures Chain(front + [f], initial, total)
    ensures Data(front + [f]) == Data(front) + f.data
  {
    assert (front + [f])[..|front|] == front;
  }

  lemma {:induction false} BeginInv(job: Job, keyFails: bool)
    requires job.read.Valid()
    ensures Inv(Begin(job.initial, job.total, job.store, job.read, keyFails), job)
  {
    hide Wrap;
    var s := Begin(job.initial, job.total, job.store, job.read, keyFails);
    var n := job.read.n;
    assert Landed(s.landed) == [];
    if s.outstanding == [] {
      assert Issued(s) == [];
      var e := if job.read.err.Some? then job.read.err.value else BadKey;
      assert Forwards([]) == [];
      assert ErrorEnding(s, job, e);
    } else {
      var f := s.outstanding[0];
      assert Issued(s) == [] + [f];
      WrapSub(job.initial + n, n);
      WrapAdd(job.total - n, n);
      WrapSmall(job.initial);
      WrapSmall(job.total);
      assert Data([]) == [];
      ChainExtend([], f, job.initial, job.total);
      assert Forwards([]) == [];
      assert Open(s, job);
    }
  }

  /** `Issued` forgets results, so a result event changes nothing about the requests. */
  lemma {:induction false} DataIgnoresResults(front: seq<Flight>, f: Flight, results: seq<Lookup>, initial: uint64, total: uint64)
    requires Chain(front + [f], initial, total)
    ensures Data(front + [f.(results := results)]) == Data(front + [f])
    ensures Chain(front + [f.(results := results)], initial, total)
  {
    assert (front + [f])[..|front|] == front;
    assert (front + [f.(results := results)])[..|front|] == front;
  }

  lemma {:induction false} OutstandingMeansOpen(s: System, job: Job)
    requires Inv(s, job) && s.outstanding != []
    ensures Open(s, job)
  {
  }

  lemma {:induction false} ResultKeeps(s: System, job: Job, e: Event)
    requires Inv(s, job) && Enabled(s, e) && e.Result?
    ensures Inv(Step(s, e), job)
  {
    hide Chain, Data, Applied, Wrap, Closed;
    var s' := Step(s, e);
    assert Open(s, job) by {
      OutstandingMeansOpen(s, job);
    }
    var f := s.outstanding[0];
    var f' := f.(results := f.results + [e.lookup]);
    assert s.outstanding == [f] && s'.outstanding == [f'];
    DataIgnoresResults(Landed(s.landed), f, f'.results, job.initial, job.total);
    assert Issued(s) == Landed(s.landed) + [f] && Issued(s') == Landed(s.landed) + [f'];
    assert Forwards(f'.results) == Forwards(f.results) + [Forwarded(e.lookup)];
    assert Open(s', job);
  }

  /** What a callback that has just read sets off. */
  ghost function Launched(issued: Option<Request>, read: ReadOutcome): seq<Flight>
    requires read.Valid()
  {
    if issued.None? then [] else [Flight(issued.value, read.Data(), [])]
  }

  lemma {:induction false} LaunchesWhatItRead(w: Writer, err: Option<Error>, read: ReadOutcome, keyFails: bool)
    requires read.Valid()
    ensures var turn := OnFinish(w, err, read, keyFails);
            turn.issued.Some? ==> turn.w.chunk == read.buffer && turn.issued.value.n == read.n
  {
    hide Wrap;
  }

  /** What a completed request looks like from the next state. */
  lemma {:induction false} LandingFacts(s: System, job: Job, e: Event)
    requires Inv(s, job) && Enabled(s, e) && e.Finish?
    ensures Open(s, job) && e.i == 0
    ensures var f, s' := s.outstanding[0], Step(s, e);
            && s'.landed == s.landed + [Landing(f, f.data, e.err.None?)]
            && Landed(s'.landed) == Landed(s.landed) + [f] == Issued(s)
            && s'.outstanding == Launched(OnFinish(s.w, e.err, e.read, e.keyFails).issued, e.read)
            && Issued(s') == Issued(s) + s'.outstanding
            && (e.err.None? ==> s'.store == Applied(job.store, Issued(s)))
            && (e.err.None? ==> AllOk(s'.landed))
            && forall i :: 0 <= i < |s'.landed| ==> s'.landed[i].carried == s'.landed[i].flight.data
  {
    hide Chain, Data, Wrap, Closed, WriteAt, OnFinish;
    OutstandingMeansOpen(s, job);
    var f, s' := s.outstanding[0], Step(s, e);
    assert s.outstanding == [f];
    assert s.outstanding[..0] + s.outstanding[1..] == [];
    LaunchesWhatItRead(s.w, e.err, e.read, e.keyFails);
    assert Landed(s'.landed) == Landed(s.landed) + [f];
    assert Issued(s)[..|s.landed|] == Landed(s.landed);
  }

  /** The finish callback that ends the run. */
  lemma {:induction false} FinishEnds(s: System, job: Job, e: Event)
    requires Inv(s, job) && Enabled(s, e) && e.Finish?
    requires OnFinish(s.w, e.err, e.read, e.keyFails).issued.None?
    ensures Inv(Step(s, e), job)
  {
    hide Chain, Data, Wrap, Applied, WriteAt, Step;
    LandingFacts(s, job, e);
    var f, s' := s.outstanding[0], Step(s, e);
    assert s'.outstanding == [] && Issued(s') == Issued(s);
    StepWriter(s, e);
    assert Forwards([]) == [];
    if e.err.None? && s.w.total == 0 {
      assert Succeeded(s', job);
    } else {
      var err := if e.err.Some? then e.err.value else if e.read.n == 0 && e.read.err.Some? then e.read.err.value else BadKey;
      assert LastLookups(s', job) == if s.w.total == 0 then f.results else [];
      if e.err.Some? {
        assert !s'.landed[|s.landed|].ok;
      }
      assert ErrorEnding(s', job, err);
    }
  }

  lemma {:induction false} StepWriter(s: System, e: Event)
    requires Enabled(s, e)
    ensures e.Finish? ==> Step(s, e).w == OnFinish(s.w, e.err, e.read, e.keyFails).w
    ensures e.Result? ==> Step(s, e).w == OnResult(s.w, e.lookup)
  {
  }

  /** The finish callback that issues the next request. */
  lemma {:induction false} FinishContinues(s: System, job: Job, e: Event)
    requires Inv(s, job) && Enabled(s, e) && e.Finish?
    requires OnFinish(s.w, e.err, e.read, e.keyFails).issued.Some?
    ensures Inv(Step(s, e), job)
    ensures Data(Issued(Step(s, e))) == Data(Issued(s)) + e.read.Data()
  {
    hide Chain, Applied, WriteAt, Step, Data, Wrap;
    LandingFacts(s, job, e);
    StepWriter(s, e);
    var s', n := Step(s, e), e.read.n;
    var f' := s'.outstanding[0];
    var have := |Data(Issued(s))|;
    WrapSub(job.total - have, n);
    WrapAdd(job.initial + have, n);
    WrapSub(job.initial + have + n, n);
    assert Issued(s) != [];
    assert f'.data == e.read.Data();
    assert Continues(Issued(s), f', job.initial, job.total);
    ChainExtend(Issued(s), f', job.initial, job.total);
    assert s'.outstanding == [f'];
    assert Forwards([]) == [];
    assert Open(s', job);
  }

  /** Every native event keeps the invariant. */
  lemma {:induction false} StepKeeps(s: System, job: Job, e: Event)
    requires Inv(s, job) && Enabled(s, e)
    ensures Inv(Step(s, e), job)
  {
    if e.Result? {
      ResultKeeps(s, job, e);
    } else if OnFinish(s.w, e.err, e.read, e.keyFails).issued.None? {
      FinishEnds(s, job, e);
    } else {
      FinishContinues(s, job, e);
    }
  }

  lemma {:induction false} RunKeeps(s: System, job: Job, events: seq<Event>)
    requires Inv(s, job) && Runs(s, events)
    ensures Inv(Run(s, events), job)
    decreases |events|
  {
    if events != [] {
      StepKeeps(s, job, events[0]);
      RunKeeps(Step(s, events[0]), job, events[1..]);
    }
  }

  // ---------------------------------------------------------------- what that says about whole runs

  ghost function After(job: Job, keyFails: bool, events: seq<Event>): System
    requires job.read.Valid()
    requires Runs(Begin(job.initial, job.total, job.store, job.read, keyFails), events)
  {
    Run(Begin(job.initial, job.total, job.store, job.read, keyFails), events)
  }

  ghost predicate Happens(job: Job, keyFails: bool, events: seq<Event>)
  {
    job.read.Valid() && Runs(Begin(job.initial, job.total, job.store, job.read, keyFails), events)
  }

  lemma {:induction false} Reachable(job: Job, keyFails: bool, events: seq<Event>)
    requires Happens(job, keyFails, events)
    ensures Inv(After(job, keyFails, events), job)
  {
    BeginInv(job, keyFails);
    RunKeeps(Begin(job.initial, job.total, job.store, job.read, keyFails), job, events);
  }

  /**
   Single flight: at most one native write is outstanding, the shared buffer still holds its bytes, and every
   completed write carried exactly the bytes it was submitted with.
   */
  lemma {:induction false} SingleFlight(job: Job, keyFails: bool, events: seq<Event>)
    requires Happens(job, keyFails, events)
    ensures var s := After(job, keyFails, events);
            && |s.outstanding| <= 1
            && (forall i :: 0 <= i < |s.outstanding| ==>
                  s.outstanding[i].req.n <= |s.w.chunk| && s.w.chunk[..s.outstanding[i].req.n] == s.outstanding[i].data)
            && (forall i :: 0 <= i < |s.landed| ==> s.landed[i].carried == s.landed[i].flight.data)
  {
    hide Run, Runs, Begin, Wrap, Chain, Data, Applied, WriteAt;
    Reachable(job, keyFails, events);
  }

  /**
   The channel is closed exactly when no request is outstanding, which is also when the pool contexts are gone;
   no run sends on a closed channel or closes it twice, and no event can follow the close.
   */
  lemma {:induction false} ClosesOnce(job: Job, keyFails: bool, events: seq<Event>)
    requires Happens(job, keyFails, events)
    ensures var s := After(job, keyFails, events);
            && !s.w.channel.panicked
            && (s.w.channel.closed <==> s.outstanding == [])
            && (s.w.stored <==> !s.w.channel.closed)
            && (s.w.channel.closed ==> forall e :: !Enabled(s, e))
  {
    Reachable(job, keyFails, events);
  }

  lemma {:induction false} ChainAt(fs: seq<Flight>, initial: uint64, total: uint64, i: nat)
    requires Chain(fs, initial, total) && i < |fs|
    ensures Continues(fs[..i], fs[i], initial, total)
  {
    var n := |fs| - 1;
    if i < n {
      ChainAt(fs[..n], initial, total, i);
      assert fs[..n][..i] == fs[..i];
    }
  }

  lemma {:induction false} DataSplits(fs: seq<Flight>, i: nat)
    requires i < |fs|
    ensures Data(fs[..i + 1]) == Data(fs[..i]) + fs[i].data
  {
    assert fs[..i + 1][..i] == fs[..i];
  }

  /** After a request that leaves nothing to submit, nothing more is issued. */
  lemma {:induction false} NothingFollows(fs: seq<Flight>, initial: uint64, total: uint64, i: nat)
    requires Chain(fs, initial, total) && 0 < i < |fs|
    ensures Wrap(total - |Data(fs[..i])|) != 0
  {
    ChainAt(fs, initial, total, i);
  }

  lemma {:induction false} ChainShape(fs: seq<Flight>, initial: uint64, total: uint64, i: nat)
    requires Chain(fs, initial, total) && i < |fs|
    ensures fs[i].req.n == |fs[i].data|
    ensures fs[i].req.offset == Wrap(initial + |Data(fs[..i])|)
    ensures fs[i].req.Prepare? <==> i == 0
    ensures fs[i].req.Prepare? ==> fs[i].req.reserve == total
    ensures fs[i].req.Commit? ==>
              && i == |fs| - 1
              && fs[i].req.commitSize == Wrap(initial + |Data(fs)|)
              && Wrap(total - |Data(fs)|) == 0
    ensures i == |fs| - 1 && 0 < i && Wrap(total - |Data(fs)|) == 0 ==> fs[i].req.Commit?
  {
    hide Wrap;
    ChainAt(fs, initial, total, i);
    DataSplits(fs, i);
    if i + 1 < |fs| {
      NothingFollows(fs, initial, total, i + 1);
    } else {
      assert fs[..i + 1] == fs;
    }
  }

  /**
   The requests of every run: exactly the first is a prepare and reserves the whole size; each starts where the one
   before it ended; a commit can only come last, names the end offset, and needs every byte to have been read.
   */
  lemma {:induction false} RequestShape(job: Job, keyFails: bool, events: seq<Event>, i: nat)
    requires Happens(job, keyFails, events)
    requires i < |Issued(After(job, keyFails, events))|
    ensures var fs := Issued(After(job, keyFails, events));
            && fs[i].req.n == |fs[i].data|
            && fs[i].req.offset == Wrap(job.initial + |Data(fs[..i])|)
            && (fs[i].req.Prepare? <==> i == 0)
            && (fs[i].req.Prepare? ==> fs[i].req.reserve == job.total)
            && (fs[i].req.Commit? ==>
                  && i == |fs| - 1
                  && fs[i].req.commitSize == Wrap(job.initial + |Data(fs)|)
                  && Wrap(job.total - |Data(fs)|) == 0
                  && (|Data(fs)| < TWO_64 ==> |Data(fs)| == job.total))
  {
    hide Chain, Data, Issued, Run, Begin, Open, Closed, StartsWith, Wrap;
    Reachable(job, keyFails, events);
    var fs := Issued(After(job, keyFails, events));
    ChainShape(fs, job.initial, job.total, i);
    if |Data(fs)| < TWO_64 && Wrap(job.total - |Data(fs)|) == 0 {
      NothingLeft(job.total, |Data(fs)|);
    }
  }

  lemma {:induction false} NothingLeft(total: uint64, n: nat)
    requires n < TWO_64 && Wrap(total - n) == 0
    ensures n == total
  {
  }

  /** Requests that land in order are one write of their bytes, as long as no offset wraps. */
  lemma {:induction false} AppliedIsOneWrite(store: Bytes, fs: seq<Flight>, initial: uint64, total: uint64)
    requires Chain(fs, initial, total) && fs != [] && initial + |Data(fs)| < TWO_64
    ensures Applied(store, fs) == WriteAt(store, initial, Data(fs))
  {
    hide Wrap, WriteAt;
    var n := |fs| - 1;
    var front, f := fs[..n], fs[n];
    WrapSmall(initial + |Data(front)|);
    if n == 0 {
      assert front == [] && Data(front) == [];
      assert Data(fs) == f.data;
    } else {
      AppliedIsOneWrite(store, front, initial, total);
      WriteAdjoining(store, initial, Data(front), f.data);
    }
  }

  /** What a consumer takes for an error: the writer's own, or one that a replica reported. */
  ghost predicate IsError(r: Reply)
  {
    r.Failed? || r.lookup.failed
  }

  ghost function Errors(sent: seq<Reply>): nat
  {
    if sent == [] then 0 else Errors(sent[..|sent| - 1]) + if IsError(sent[|sent| - 1]) then 1 else 0
  }

  ghost function FailedLookups(ls: seq<Lookup>): nat
  {
    if ls == [] then 0 else FailedLookups(ls[..|ls| - 1]) + if ls[|ls| - 1].failed then 1 else 0
  }

  lemma {:induction false} ErrorsAdd(a: seq<Reply>, b: seq<Reply>)
    ensures Errors(a + b) == Errors(a) + Errors(b)
  {
    if b == [] {
      assert a + b == a;
    } else {
      var n := |b| - 1;
      ErrorsAdd(a, b[..n]);
      assert (a + b)[..|a + b| - 1] == a + b[..n];
    }
  }

  lemma {:induction false} ErrorsForwarded(ls: seq<Lookup>)
    ensures Errors(Forwards(ls)) == FailedLookups(ls)
  {
    if ls != [] {
      var n := |ls| - 1;
      ErrorsForwarded(ls[..n]);
      assert Forwards(ls)[..n] == Forwards(ls[..n]);
    }
  }

  lemma {:induction false} ErrorsOf(read: ReadOutcome, ls: seq<Lookup>, errors: seq<Error>)
    requires |errors| <= 1
    ensures Errors(Stray(read) + Forwards(ls) + (if errors == [] then [] else [Failed(errors[0])]))
            == |Stray(read)| + FailedLookups(ls) + |errors|
  {
    var last := if errors == [] then [] else [Failed(errors[0])];
    ErrorsAdd(Stray(read) + Forwards(ls), last);
    ErrorsAdd(Stray(read), Forwards(ls));
    ErrorsForwarded(ls);
    OneError(Stray(read));
    OneError(last);
  }

  lemma {:induction false} OneError(sent: seq<Reply>)
    requires |sent| <= 1 && forall i :: 0 <= i < |sent| ==> sent[i].Failed?
    ensures Errors(sent) == |sent|
  {
    if sent != [] {
      assert Errors(sent[..0]) == 0;
    }
  }

  /** The writer itself reported no error and the channel is closed; replicas may have failed, as the lookups tell. */
  ghost predicate Success(s: System)
  {
    s.w.channel.closed && forall i :: 0 <= i < |s.w.channel.sent| ==> s.w.channel.sent[i].Forwarded?
  }

  lemma {:induction false} ErrorsShow(s: System, job: Job)
    requires GaveUp(s, job) || (Stray(job.read) != [] && Stray(job.read) <= s.w.channel.sent)
    ensures exists i :: 0 <= i < |s.w.channel.sent| && s.w.channel.sent[i].Failed?
  {
    var sent := s.w.channel.sent;
    if GaveUp(s, job) {
      var e :| ErrorEnding(s, job, e);
      assert sent[|sent| - 1] == Failed(e);
    } else {
      assert sent[0] == Stray(job.read)[0];
    }
  }

  lemma {:induction false} SuccessMeansSucceeded(s: System, job: Job)
    requires Inv(s, job) && Success(s)
    ensures Succeeded(s, job) && Stray(job.read) == [] && Issued(s) == Landed(s.landed)
  {
    if GaveUp(s, job) || (Stray(job.read) != [] && Stray(job.read) <= s.w.channel.sent) {
      ErrorsShow(s, job);
      assert false;
    }
  }

  /**
   A successful run wrote the input in one piece: every request landed, their bytes amount to `total` modulo 2^64,
   the store is as after one single write of them, and the consumer got exactly the lookups of the last request.
   That last request is a commit unless the first read already covered everything.
   */
  lemma {:induction false} SuccessfulRun(job: Job, keyFails: bool, events: seq<Event>)
    requires Happens(job, keyFails, events) && Success(After(job, keyFails, events))
    ensures var s := After(job, keyFails, events);
            var fs := Landed(s.landed);
            && Issued(s) == fs && fs != []
            && Wrap(job.total - |Data(fs)|) == 0
            && s.w.channel.sent == Forwards(fs[|fs| - 1].results)
            && (job.initial + |Data(fs)| < TWO_64 ==> s.store == WriteAt(job.store, job.initial, Data(fs)))
            && (fs[|fs| - 1].req.Commit? <==> job.read.n != job.total)
  {
    hide Run, Begin, Wrap, WriteAt, Applied;
    Reachable(job, keyFails, events);
    var s := After(job, keyFails, events);
    SuccessMeansSucceeded(s, job);
    var fs := Landed(s.landed);
    if job.initial + |Data(fs)| < TWO_64 {
      AppliedIsOneWrite(job.store, fs, job.initial, job.total);
    }
    FirstReadDecides(fs, job);
  }

  lemma {:induction false} FirstReadDecides(fs: seq<Flight>, job: Job)
    requires Chain(fs, job.initial, job.total) && fs != [] && StartsWith(fs, job.read)
    requires Wrap(job.total - |Data(fs)|) == 0
    ensures fs[|fs| - 1].req.Commit? <==> job.read.n != job.total
  {
    var n := |fs| - 1;
    DataSplits(fs, 0);
    assert Data(fs[..0]) == [];
    assert Data(fs[..1]) == job.read.Data();
    ChainShape(fs, job.initial, job.total, n);
    if n == 0 {
      assert fs[..1] == fs;
    } else {
      NothingFollows(fs, job.initial, job.total, 1);
    }
  }

  /**
   Every closed run ends the same way: perhaps the stray error; then all lookups of the last request if that request
   left nothing to submit, and no other lookup; then at most one error, and none exactly if every request landed and
   nothing was left. Replicas' errors are among the lookups, so the errors a consumer counts are theirs and these two.
   */
  lemma {:induction false} ConsumerSees(job: Job, keyFails: bool, events: seq<Event>) returns (errors: seq<Error>)
    requires Happens(job, keyFails, events) && After(job, keyFails, events).w.channel.closed
    ensures var s := After(job, keyFails, events);
            && |errors| <= 1
            && s.w.channel.sent
               == Stray(job.read) + Forwards(LastLookups(s, job)) + (if errors == [] then [] else [Failed(errors[0])])
            && errors == (if Complete(s, job) then [] else [Reason(job, events)])
            && Errors(s.w.channel.sent) == |Stray(job.read)| + FailedLookups(LastLookups(s, job)) + |errors|
  {
    hide Run, Begin, Wrap, Chain, Data, Applied, Errors, FailedLookups, Reason;
    Reachable(job, keyFails, events);
    var s := After(job, keyFails, events);
    if Succeeded(s, job) {
      errors := [];
      assert s.w.channel.sent == Stray(job.read) + Forwards(LastLookups(s, job)) + [];
    } else {
      var e :| ErrorEnding(s, job, e);
      errors := [e];
    }
    ErrorsOf(job.read, LastLookups(s, job), errors);
    if !Complete(s, job) {
      LastIsReason(job, keyFails, events);
      assert s.w.channel.sent[|s.w.channel.sent| - 1] == Failed(errors[0]);
    }
  }

  /**
   Why a closed run that is not complete ended, from the job and the last event: the native error of the last request;
   else the reader's, if it delivered nothing; else there was no key. Without any event the first read decides.
   */
  ghost function Reason(job: Job, events: seq<Event>): Error
  {
    if events == [] then (if job.read.err.Some? then job.read.err.value else BadKey)
    else
      match events[|events| - 1]
      case Result(_, _) => BadKey
      case Finish(_, err, _, read, _) =>
        if err.Some? then err.value
        else if read.n == 0 && read.err.Some? then read.err.value
        else BadKey
  }

  lemma {:induction false} LastIsReason(job: Job, keyFails: bool, events: seq<Event>)
    requires Happens(job, keyFails, events)
    requires After(job, keyFails, events).w.channel.closed && !Complete(After(job, keyFails, events), job)
    ensures var sent := After(job, keyFails, events).w.channel.sent;
            sent != [] && sent[|sent| - 1] == Failed(Reason(job, events))
  {
    hide Begin, Run, Runs, Inv, Step, Enabled, Complete, Issued, Data, Wrap;
    var s0 := Begin(job.initial, job.total, job.store, job.read, keyFails);
    if events == [] {
      StartsWithReason(job, keyFails);
    } else {
      var n := |events| - 1;
      var front, e := events[..n], events[n];
      assert events == front + [e];
      RunSplits(s0, front, e);
      RunExtends(s0, front, e);
      Reachable(job, keyFails, front);
      EndsWithReason(Run(s0, front), job, e);
    }
  }

  lemma {:induction false} StartsWithReason(job: Job, keyFails: bool)
    requires job.read.Valid() && After(job, keyFails, []).w.channel.closed
    ensures var sent := After(job, keyFails, []).w.channel.sent;
            sent != [] && sent[|sent| - 1] == Failed(Reason(job, []))
  {
    hide Wrap;
    var s0 := Begin(job.initial, job.total, job.store, job.read, keyFails);
    assert Run(s0, []) == s0;
  }

  /** A request that lands with nothing left completes the run. */
  lemma {:induction false} CleanClose(s: System, job: Job, e: Event)
    requires Inv(s, job) && Enabled(s, e) && e.Finish? && e.err.None? && s.w.total == 0
    ensures Complete(Step(s, e), job)
  {
    hide Wrap, Chain, Data, WriteAt, Applied;
    LandingFacts(s, job, e);
    assert Issued(Step(s, e)) == Issued(s) + [] == Issued(s);
  }

  lemma {:induction false} FailingTurn(w: Writer, err: Option<Error>, read: ReadOutcome, keyFails: bool)
    requires !w.channel.closed && read.n <= MAX_CHUNK && (err.Some? || w.total != 0)
    ensures var turn := OnFinish(w, err, read, keyFails);
            turn.w.channel.closed ==>
              turn.w.channel.sent == w.channel.sent + [Failed(if err.Some? then err.value
                                                              else if read.n == 0 && read.err.Some? then read.err.value
                                                              else BadKey)]
  {
    hide Wrap;
  }

  /** The event that closes the channel of an incomplete run leaves its reason there. */
  lemma {:induction false} EndsWithReason(s: System, job: Job, e: Event)
    requires Inv(s, job) && Enabled(s, e) && Step(s, e).w.channel.closed && !Complete(Step(s, e), job)
    ensures var sent := Step(s, e).w.channel.sent;
            sent != [] && sent[|sent| - 1] == Failed(Reason(job, [e]))
  {
    OutstandingMeansOpen(s, job);
    StepWriter(s, e);
    hide Step, Inv, Complete, OnFinish;
    if e.Finish? {
      if e.err.None? && s.w.total == 0 {
        CleanClose(s, job, e);
        assert false;
      }
      FailingTurn(s.w, e.err, e.read, e.keyFails);
    }
  }

  /**
   A consumer sees no error at all if and only if the first read delivered something, everything was submitted and
   landed, and no replica failed on the last request: failures of replicas on earlier requests are never shown.
   */
  lemma {:induction false} NoErrorIff(job: Job, keyFails: bool, events: seq<Event>)
    requires Happens(job, keyFails, events) && After(job, keyFails, events).w.channel.closed
    ensures var s := After(job, keyFails, events);
            Errors(s.w.channel.sent) == 0
            <==> Stray(job.read) == [] && Complete(s, job) && FailedLookups(s.landed[|s.landed| - 1].flight.results) == 0
  {
    hide Run, Begin, Wrap, Chain, Data, Applied, Errors, FailedLookups;
    var errors := ConsumerSees(job, keyFails, events);
  }

  // ---------------------------------------------------------------- where the bytes come from

  /** The finish callback calls the reader. */
  ghost predicate Reads(s: System, e: Event)
  {
    e.Finish? && e.err.None? && s.w.total != 0
  }

  /** The bytes the reader delivers during a run, after the first read. */
  ghost function Delivered(s: System, events: seq<Event>): Bytes
    requires Runs(s, events)
    decreases |events|
  {
    if events == [] then []
    else (if Reads(s, events[0]) then events[0].read.Data() else []) + Delivered(Step(s, events[0]), events[1..])
  }

  lemma {:induction false} NoEventWhenClosed(s: System, job: Job, events: seq<Event>)
    requires Inv(s, job) && s.outstanding == [] && Runs(s, events)
    ensures events == []
  {
  }

  lemma {:induction false} SubmittedIsDelivered(s: System, job: Job, events: seq<Event>)
    requires Inv(s, job) && Runs(s, events) && Succeeded(Run(s, events), job)
    ensures Data(Issued(Run(s, events))) == Data(Issued(s)) + Delivered(s, events)
    decreases |events|
  {
    hide Step, Inv, Data, Issued, Succeeded, Enabled;
    if events == [] {
      assert Data(Issued(s)) + [] == Data(Issued(s));
    } else {
      StepsOn(s, events);
      var e, s', rest := events[0], Step(s, events[0]), events[1..];
      StepKeeps(s, job, e);
      SubmittedIsDelivered(s', job, rest);
      StepDelivers(s, job, e, rest);
      var x := if Reads(s, e) then e.read.Data() else [];
      assert Delivered(s, events) == x + Delivered(s', rest);
      assert (Data(Issued(s)) + x) + Delivered(s', rest) == Data(Issued(s)) + (x + Delivered(s', rest));
    }
  }

  lemma {:induction false} StepsOn(s: System, events: seq<Event>)
    requires Runs(s, events) && events != []
    ensures Enabled(s, events[0]) && Runs(Step(s, events[0]), events[1..])
    ensures events[0].Finish? ==> events[0].read.Valid()
    ensures Run(s, events) == Run(Step(s, events[0]), events[1..])
  {
  }

  lemma {:induction false} StepDelivers(s: System, job: Job, e: Event, rest: seq<Event>)
    requires Inv(s, job) && Enabled(s, e) && Runs(Step(s, e), rest) && Succeeded(Run(Step(s, e), rest), job)
    ensures Data(Issued(Step(s, e))) == Data(Issued(s)) + if Reads(s, e) then e.read.Data() else []
  {
    hide Data, Wrap, WriteAt, Applied, Chain;
    var s' := Step(s, e);
    StepKeeps(s, job, e);
    OutstandingMeansOpen(s, job);
    assert Data(Issued(s)) + [] == Data(Issued(s));
    if e.Result? {
      ResultKeepsData(s, job, e);
    } else {
      LandingFacts(s, job, e);
      if OnFinish(s.w, e.err, e.read, e.keyFails).issued.Some? {
        FinishContinues(s, job, e);
      } else {
        assert Issued(s') == Issued(s) + [] == Issued(s);
        NoEventWhenClosed(s', job, rest);
        assert Run(s', []) == s';
        assert s.w.total == 0;
      }
    }
  }

  lemma {:induction false} ResultKeepsData(s: System, job: Job, e: Event)
    requires Inv(s, job) && Open(s, job) && Enabled(s, e) && e.Result?
    ensures Data(Issued(Step(s, e))) == Data(Issued(s))
  {
    var f := s.outstanding[0];
    assert s.outstanding == [f];
    var f' := f.(results := f.results + [e.lookup]);
    assert Step(s, e).outstanding == [f'];
    DataIgnoresResults(Landed(s.landed), f, f'.results, job.initial, job.total);
  }

  lemma {:induction false} IssuedIsDelivered(job: Job, keyFails: bool, events: seq<Event>)
    requires Happens(job, keyFails, events) && Succeeded(After(job, keyFails, events), job)
    ensures var s0 := Begin(job.initial, job.total, job.store, job.read, keyFails);
            Data(Issued(After(job, keyFails, events))) == job.read.Data() + Delivered(s0, events)
  {
    var s0 := Begin(job.initial, job.total, job.store, job.read, keyFails);
    BeginInv(job, keyFails);
    SubmittedIsDelivered(s0, job, events);
    if s0.outstanding == [] {
      NoEventWhenClosed(s0, job, events);
      assert false;
    }
    var f := s0.outstanding[0];
    assert Issued(s0) == [f];
    assert Data([f][..0]) == [];
    assert Data([f]) == f.data;
  }

  /** What a successful run stored is what the reader delivered, first read included. */
  lemma {:induction false} StoredIsDelivered(job: Job, keyFails: bool, events: seq<Event>)
    requires Happens(job, keyFails, events) && Success(After(job, keyFails, events))
    ensures var s0 := Begin(job.initial, job.total, job.store, job.read, keyFails);
            Data(Issued(After(job, keyFails, events))) == job.read.Data() + Delivered(s0, events)
  {
    hide Run, Begin, Data, Issued, Inv;
    Reachable(job, keyFails, events);
    SuccessMeansSucceeded(After(job, keyFails, events), job);
    IssuedIsDelivered(job, keyFails, events);
  }

  /** A reader that delivers more than `total` bytes cannot succeed before it has delivered another 2^64. */
  lemma {:induction false} OverrunNeedsWrap(job: Job, keyFails: bool, events: seq<Event>)
    requires Happens(job, keyFails, events) && Success(After(job, keyFails, events))
    ensures var n := |Data(Issued(After(job, keyFails, events)))|;
            n == job.total || n >= job.total + TWO_64
  {
    SuccessfulRun(job, keyFails, events);
    WrapZero(job.total - |Data(Issued(After(job, keyFails, events)))|);
  }

  // ---------------------------------------------------------------- every way of cutting the input succeeds

  /** A read that delivers something. The finish callback then ignores any error that comes with it. */
  ghost predicate Filled(r: ReadOutcome)
  {
    r.Valid() && r.n > 0
  }

  /** A read that delivers something and reports no error, as the first read must. */
  ghost predicate Fruitful(r: ReadOutcome)
  {
    Filled(r) && r.err.None?
  }

  ghost function Amount(pieces: seq<ReadOutcome>): nat
  {
    if pieces == [] then 0 else pieces[0].n + Amount(pieces[1..])
  }

  ghost function Joined(pieces: seq<ReadOutcome>): Bytes
    requires forall i :: 0 <= i < |pieces| ==> Filled(pieces[i])
  {
    if pieces == [] then []
    else
      assert Filled(pieces[0]);
      pieces[0].Data() + Joined(pieces[1..])
  }

  /** The reads that the finish callbacks of a run make. */
  ghost function Consumed(s: System, events: seq<Event>): seq<ReadOutcome>
    requires Runs(s, events)
    decreases |events|
  {
    if events == [] then []
    else (if Reads(s, events[0]) then [events[0].read] else []) + Consumed(Step(s, events[0]), events[1..])
  }

  lemma {:induction false} DeliveredIsConsumed(s: System, events: seq<Event>)
    requires Runs(s, events) && forall i :: 0 <= i < |Consumed(s, events)| ==> Filled(Consumed(s, events)[i])
    ensures Delivered(s, events) == Joined(Consumed(s, events))
    decreases |events|
  {
    hide Step;
    if events != [] {
      var e, rest, all := events[0], Consumed(Step(s, events[0]), events[1..]), Consumed(s, events);
      if Reads(s, e) {
        assert all == [e.read] + rest && all[1..] == rest;
      } else {
        assert all == rest;
        assert [] + Delivered(Step(s, e), events[1..]) == Delivered(Step(s, e), events[1..]);
      }
      assert forall i :: 0 <= i < |rest| ==> rest[i] in all;
      DeliveredIsConsumed(Step(s, e), events[1..]);
    }
  }

  lemma {:induction false} JoinedLength(pieces: seq<ReadOutcome>)
    requires forall i :: 0 <= i < |pieces| ==> Filled(pieces[i])
    ensures |Joined(pieces)| == Amount(pieces)
  {
    if pieces != [] {
      JoinedLength(pieces[1..]);
    }
  }

  /** One undisturbed completion. */
  ghost function Completion(r: ReadOutcome): Event
  {
    Finish(0, None, [], r, false)
  }

  lemma {:induction false} LastCompletion(s: System, job: Job) returns (e: Event)
    requires Inv(s, job) && Open(s, job) && s.w.total == 0
    ensures Enabled(s, e) && !Reads(s, e) && Step(s, e).w.channel == s.w.channel.Close()
  {
    e := Completion(ReadOutcome(0, s.w.chunk, None));
    StepWriter(s, e);
  }

  lemma {:induction false} NextCompletion(s: System, job: Job, r: ReadOutcome)
    requires Inv(s, job) && Open(s, job) && Filled(r) && r.n <= s.w.total
    ensures Enabled(s, Completion(r)) && Reads(s, Completion(r))
    ensures var s' := Step(s, Completion(r));
            Inv(s', job) && Open(s', job) && s'.w.channel == s.w.channel && s'.w.total == s.w.total - r.n
  {
    NextTurn(s.w, r);
    hide OnFinish, Inv, Wrap;
    var e := Completion(r);
    StepKeeps(s, job, e);
    LandingFacts(s, job, e);
    StepWriter(s, e);
    hide Step;
    OutstandingMeansOpen(Step(s, e), job);
  }

  lemma {:induction false} NextTurn(w: Writer, r: ReadOutcome)
    requires !w.channel.closed && Filled(r) && r.n <= w.total
    ensures var turn := OnFinish(w, None, r, false);
            turn.issued.Some? && turn.w.total == w.total - r.n && turn.w.channel == w.channel
  {
    hide Wrap;
  }

  /** Fed with pieces that add up to what is left, an open write runs to its close without another error. */
  lemma {:induction false} Drive(s: System, job: Job, pieces: seq<ReadOutcome>) returns (events: seq<Event>)
    requires Inv(s, job) && Open(s, job)
    requires forall i :: 0 <= i < |pieces| ==> Filled(pieces[i])
    requires s.w.total == Amount(pieces)
    ensures Runs(s, events) && Consumed(s, events) == pieces
    ensures Run(s, events).w.channel == s.w.channel.Close()
    decreases |pieces|
  {
    hide Inv, Open, Step;
    if pieces == [] {
      var e := LastCompletion(s, job);
      events := [e];
      assert Runs(Step(s, e), []) && events[1..] == [];
      assert Run(s, events) == Run(Step(s, e), []) == Step(s, e);
      assert Consumed(Step(s, e), []) == [];
    } else {
      var e := Completion(pieces[0]);
      NextCompletion(s, job, pieces[0]);
      var rest := Drive(Step(s, e), job, pieces[1..]);
      events := [e] + rest;
      assert events[1..] == rest;
    }
  }

  /** The undisturbed run that reads exactly `pieces` after the first read. */
  lemma {:induction false} Undisturbed(job: Job, pieces: seq<ReadOutcome>) returns (events: seq<Event>)
    requires job.read.Valid() && job.read.err.None?
    requires forall i :: 0 <= i < |pieces| ==> Filled(pieces[i])
    requires job.total == job.read.n + Amount(pieces)
    ensures Feeds(job, false, events, pieces)
    ensures After(job, false, events).w.channel == Channel(Stray(job.read), true, false)
    ensures Succeeded(After(job, false, events), job)
  {
    var s := Begin(job.initial, job.total, job.store, job.read, false);
    BeginInv(job, false);
    OutstandingMeansOpen(s, job);
    assert s.w.channel == Channel(Stray(job.read), false, false);
    hide Inv, Begin, Run;
    events := Drive(s, job, pieces);
    Reachable(job, false, events);
    NoLaterError(After(job, false, events), job);
  }

  lemma {:induction false} NoLaterError(s: System, job: Job)
    requires Inv(s, job) && s.w.channel == Channel(Stray(job.read), true, false)
    ensures Succeeded(s, job)
  {
    hide Stray, Forwards;
    assert forall e :: !ErrorEnding(s, job, e);
  }

  /** This run succeeds and stores exactly `input`. */
  ghost predicate Achieves(job: Job, events: seq<Event>, input: Bytes)
  {
    Happens(job, false, events) && Success(After(job, false, events)) && Data(Issued(After(job, false, events))) == input
  }

  /**
   For every way the reader may cut an input of exactly `total` bytes into nonempty reads, with or without short
   reads, there is a run that succeeds and stores exactly those bytes.
   */
  lemma {:induction false} AnyChunkingSucceeds(job: Job, pieces: seq<ReadOutcome>)
    requires Fruitful(job.read) && forall i :: 0 <= i < |pieces| ==> Filled(pieces[i])
    requires job.total == job.read.n + Amount(pieces)
    ensures exists events :: Achieves(job, events, job.read.Data() + Joined(pieces))
  {
    hide Begin, Run, Data, Issued;
    var events := Undisturbed(job, pieces);
    StoredIsDelivered(job, false, events);
    DeliveredIsConsumed(Begin(job.initial, job.total, job.store, job.read, false), events);
    assert Achieves(job, events, job.read.Data() + Joined(pieces));
  }

  // ---------------------------------------------------------------- what may go wrong, and exactly when

  /** A run in which the reader is asked for exactly these pieces after its first read. */
  ghost predicate Feeds(job: Job, keyFails: bool, events: seq<Event>, pieces: seq<ReadOutcome>)
  {
    && Happens(job, keyFails, events)
    && Consumed(Begin(job.initial, job.total, job.store, job.read, keyFails), events) == pieces
  }

  ghost predicate FeedsWell(job: Job, keyFails: bool, events: seq<Event>, pieces: seq<ReadOutcome>)
  {
    Feeds(job, keyFails, events, pieces) && Success(After(job, keyFails, events))
  }

  lemma {:induction false} SuccessIsExact(job: Job, keyFails: bool, events: seq<Event>, pieces: seq<ReadOutcome>)
    requires FeedsWell(job, keyFails, events, pieces) && forall i :: 0 <= i < |pieces| ==> Filled(pieces[i])
    requires job.read.n + Amount(pieces) < TWO_64
    ensures job.read.n + Amount(pieces) == job.total
  {
    hide Begin, Run, Data, Issued;
    OverrunNeedsWrap(job, keyFails, events);
    StoredIsDelivered(job, keyFails, events);
    DeliveredIsConsumed(Begin(job.initial, job.total, job.store, job.read, keyFails), events);
    JoinedLength(pieces);
  }

  /**
   A reader that delivers fewer than 2^64 bytes can be written successfully if and only if it delivers exactly `total`:
   an overrun, which the code does not clamp, never ends in success.
   */
  lemma {:induction false} SucceedsIff(job: Job, pieces: seq<ReadOutcome>)
    requires Fruitful(job.read) && forall i :: 0 <= i < |pieces| ==> Filled(pieces[i])
    requires job.read.n + Amount(pieces) < TWO_64
    ensures (exists keyFails, events :: FeedsWell(job, keyFails, events, pieces))
            <==> job.read.n + Amount(pieces) == job.total
  {
    hide Begin, Run;
    if keyFails, events :| FeedsWell(job, keyFails, events, pieces) {
      SuccessIsExact(job, keyFails, events, pieces);
    }
    if job.read.n + Amount(pieces) == job.total {
      var events := Undisturbed(job, pieces);
      assert FeedsWell(job, false, events, pieces);
    }
  }

  ghost function Zeros(n: nat): ReadOutcome
  {
    ReadOutcome(n, Padding(MAX_CHUNK), None)
  }

  /** An overrun: two bytes delivered for a write of one leave 2^64 - 1 to go, and no further fruitful reads can mend it. */
  lemma {:induction false} Overruns()
    ensures var job := Job(0, 1, [], Zeros(2));
            && Happens(job, false, [])
            && After(job, false, []).w.total == MAX_UINT64
            && After(job, false, []).outstanding == [Flight(Prepare(0, 1, 2), Zeros(2).Data(), [])]
            && forall keyFails, events, pieces ::
                 (FeedsWell(job, keyFails, events, pieces) && forall i :: 0 <= i < |pieces| ==> Filled(pieces[i]))
                 ==> Amount(pieces) >= MAX_UINT64 - 1
  {
    var job := Job(0, 1, [], Zeros(2));
    assert Run(Begin(0, 1, [], Zeros(2), false), []) == Begin(0, 1, [], Zeros(2), false);
    forall keyFails, events, pieces |
      FeedsWell(job, keyFails, events, pieces) && forall i :: 0 <= i < |pieces| ==> Filled(pieces[i])
      ensures Amount(pieces) >= MAX_UINT64 - 1
    {
      if Amount(pieces) < MAX_UINT64 - 1 {
        SuccessIsExact(job, keyFails, events, pieces);
      }
    }
  }

  /** Whenever one read covers everything there is a successful run whose only request is the prepare: nothing commits it. */
  lemma {:induction false} Uncommitted(job: Job) returns (events: seq<Event>)
    requires Fruitful(job.read) && job.read.n == job.total
    ensures Achieves(job, events, job.read.Data())
    ensures forall i :: 0 <= i < |After(job, false, events).landed| ==>
              !After(job, false, events).landed[i].flight.req.Commit?
  {
    hide Begin, Run, Data, Issued;
    events := Undisturbed(job, []);
    StoredIsDelivered(job, false, events);
    DeliveredIsConsumed(Begin(job.initial, job.total, job.store, job.read, false), events);
    assert Joined([]) == [];
    SuccessfulRun(job, false, events);
    var s := After(job, false, events);
    forall i | 0 <= i < |s.landed| ensures !s.landed[i].flight.req.Commit? {
      RequestShape(job, false, events, i);
    }
  }

  /**
   An empty first read is reported as an error and the write goes on: the consumer sees that error alone, although the
   whole input was stored.
   */
  lemma {:induction false} StrayError(job: Job, pieces: seq<ReadOutcome>) returns (events: seq<Event>)
    requires job.read.Valid() && job.read.err.None? && job.read.n == 0
    requires forall i :: 0 <= i < |pieces| ==> Filled(pieces[i])
    requires job.total == Amount(pieces) && job.initial + job.total < TWO_64
    ensures Feeds(job, false, events, pieces)
    ensures var s := After(job, false, events);
            && s.w.channel == Channel([Failed(ZeroLengthWrite)], true, false)
            && AllOk(s.landed)
            && s.store == WriteAt(job.store, job.initial, Joined(pieces))
  {
    hide Begin, Run, Data, WriteAt, Applied, Wrap;
    events := Undisturbed(job, pieces);
    var s := After(job, false, events);
    Reachable(job, false, events);
    IssuedIsDelivered(job, false, events);
    DeliveredIsConsumed(Begin(job.initial, job.total, job.store, job.read, false), events);
    JoinedLength(pieces);
    assert [] + Joined(pieces) == Joined(pieces);
    assert Issued(s) == Landed(s.landed) + [] == Landed(s.landed);
    AppliedIsOneWrite(job.store, Landed(s.landed), job.initial, job.total);
  }

  /** A replica's error on any request but the last is not shown: a run with one that shows nothing at all. */
  lemma {:induction false} HiddenReplicaError(lookup: Lookup) returns (events: seq<Event>)
    requires lookup.failed
    ensures var job := Job(0, 2, [], Zeros(1));
            && Happens(job, false, events) && events != [] && events[0] == Result(0, lookup)
            && After(job, false, events).w.channel == Channel([], true, false)
  {
    var job, e := Job(0, 2, [], Zeros(1)), Result(0, lookup);
    BeginInv(job, false);
    var s := Begin(0, 2, [], Zeros(1), false);
    OutstandingMeansOpen(s, job);
    assert s.w.total == 1 && s.w.channel == FRESH;
    StepKeeps(s, job, e);
    StepWriter(s, e);
    var s' := Step(s, e);
    assert s'.outstanding != [];
    OutstandingMeansOpen(s', job);
    hide Begin, Step, Inv, Open;
    assert [Zeros(1)][1..] == [] && Amount([]) == 0;
    assert Amount([Zeros(1)]) == 1;
    var rest := Drive(s', job, [Zeros(1)]);
    events := [e] + rest;
    assert events[1..] == rest;
  }

  // ---------------------------------------------------------------- how long a run goes on

  lemma {:induction false} RunExtends(s: System, front: seq<Event>, e: Event)
    requires Runs(s, front) && Enabled(Run(s, front), e)
    ensures Runs(s, front + [e]) && Run(s, front + [e]) == Step(Run(s, front), e)
    decreases |front|
  {
    var all := front + [e];
    hide Step, Enabled;
    if front == [] {
      assert all == [e] && all[1..] == [];
      assert Run(Step(s, e), []) == Step(s, e);
    } else {
      assert all[0] == front[0] && all[1..] == front[1..] + [e];
      RunExtends(Step(s, front[0]), front[1..], e);
    }
  }

  /** A reader: what its later reads deliver, one after the other, for ever. */
  type Source = nat -> ReadOutcome

  ghost predicate Sane(job: Job, source: Source)
  {
    job.read.Valid() && job.read.err.None? && forall i: nat :: source(i).Valid()
  }

  /** The first `n` completions if every native write succeeds. */
  ghost function Script(source: Source, n: nat): seq<Event>
  {
    if n == 0 then [] else Script(source, n - 1) + [Completion(source(n - 1))]
  }

  /** The bytes delivered by the first read and `n` later ones. */
  ghost function Total(job: Job, source: Source, n: nat): nat
  {
    if n == 0 then job.read.n else Total(job, source, n - 1) + source(n - 1).n
  }

  /** After `n` completions the write is still under way. */
  ghost predicate StillOpen(job: Job, source: Source, n: nat)
  {
    Happens(job, false, Script(source, n)) && After(job, false, Script(source, n)).outstanding != []
  }

  ghost predicate GivesUp(r: ReadOutcome)
  {
    r.n == 0 && r.err.Some?
  }

  lemma {:induction false} OpenStart(job: Job, source: Source)
    requires Sane(job, source)
    ensures StillOpen(job, source, 0) && After(job, false, []).w.total == Wrap(job.total - job.read.n)
    ensures |Issued(After(job, false, []))| == 1
  {
    hide Wrap;
    BeginInv(job, false);
    var s := Begin(job.initial, job.total, job.store, job.read, false);
    assert Run(s, []) == s;
    OutstandingMeansOpen(s, job);
  }

  /** One more completion keeps the write under way exactly if something was left and the reader did not give up. */
  lemma {:induction false} CompletionStep(s: System, job: Job, r: ReadOutcome)
    requires Inv(s, job) && s.outstanding != [] && r.Valid()
    ensures Enabled(s, Completion(r))
    ensures var s' := Step(s, Completion(r));
            && (s'.outstanding != [] <==> s.w.total != 0 && !GivesUp(r))
            && (s'.outstanding != [] ==> s'.w.total == Wrap(s.w.total - r.n) && |Issued(s')| == |Issued(s)| + 1)
  {
    var e := Completion(r);
    NextWriter(s.w, r);
    hide OnFinish, Inv, Wrap, Chain, Data, WriteAt, Applied;
    OutstandingMeansOpen(s, job);
    LandingFacts(s, job, e);
    StepWriter(s, e);
    hide Step, Issued, Open;
  }

  lemma {:induction false} NextWriter(w: Writer, r: ReadOutcome)
    requires r.Valid()
    ensures var turn := OnFinish(w, None, r, false);
            && (turn.issued.Some? <==> w.total != 0 && !GivesUp(r))
            && (turn.issued.Some? ==> turn.w.total == Wrap(w.total - r.n))
  {
    hide Wrap;
  }

  lemma {:induction false} OpenStep(job: Job, source: Source, n: nat)
    requires Sane(job, source) && StillOpen(job, source, n)
    ensures Happens(job, false, Script(source, n + 1))
    ensures var s, s' := After(job, false, Script(source, n)), After(job, false, Script(source, n + 1));
            && (s'.outstanding != [] <==> s.w.total != 0 && !GivesUp(source(n)))
            && (s'.outstanding != [] ==> s'.w.total == Wrap(s.w.total - source(n).n) && |Issued(s')| == |Issued(s)| + 1)
  {
    hide Run, Runs, Begin, Wrap, Issued, Inv, Step, GivesUp, Enabled;
    Reachable(job, false, Script(source, n));
    var s := After(job, false, Script(source, n));
    CompletionStep(s, job, source(n));
    RunExtends(Begin(job.initial, job.total, job.store, job.read, false), Script(source, n), Completion(source(n)));
  }

  /** After the first read and `n` later ones something is left, modulo 2^64, and the next read does not fail empty-handed. */
  ghost predicate GoesOn(job: Job, source: Source, n: nat)
  {
    Wrap(job.total - Total(job, source, n)) != 0 && !GivesUp(source(n))
  }

  lemma {:induction false} OpenTotal(job: Job, source: Source, n: nat)
    requires Sane(job, source)
    ensures StillOpen(job, source, n) <==> forall i: nat :: i < n ==> GoesOn(job, source, i)
    ensures StillOpen(job, source, n) ==>
              && After(job, false, Script(source, n)).w.total == Wrap(job.total - Total(job, source, n))
              && |Issued(After(job, false, Script(source, n)))| == n + 1
  {
    hide Wrap, Issued, Sane, GivesUp, Run, Runs, Begin, GoesOn;
    if n == 0 {
      OpenStart(job, source);
    } else {
      var m := n - 1;
      OpenTotal(job, source, m);
      if StillOpen(job, source, m) {
        OpenOne(job, source, m);
      } else {
        ClosedStays(job, source, m);
      }
    }
  }

  lemma {:induction false} OpenOne(job: Job, source: Source, m: nat)
    requires Sane(job, source) && StillOpen(job, source, m)
    requires After(job, false, Script(source, m)).w.total == Wrap(job.total - Total(job, source, m))
    requires |Issued(After(job, false, Script(source, m)))| == m + 1
    ensures StillOpen(job, source, m + 1) <==> GoesOn(job, source, m)
    ensures StillOpen(job, source, m + 1) ==>
              && After(job, false, Script(source, m + 1)).w.total == Wrap(job.total - Total(job, source, m + 1))
              && |Issued(After(job, false, Script(source, m + 1)))| == m + 2
  {
    hide Wrap, Issued, Sane, GivesUp, Run, Runs, Begin, Script;
    OpenStep(job, source, m);
    WrapSub(job.total - Total(job, source, m), source(m).n);
  }

  lemma {:induction false} ClosedStays(job: Job, source: Source, n: nat)
    requires !StillOpen(job, source, n) && Sane(job, source)
    ensures !StillOpen(job, source, n + 1)
  {
    if Happens(job, false, Script(source, n + 1)) {
      var s0 := Begin(job.initial, job.total, job.store, job.read, false);
      RunSplits(s0, Script(source, n), Completion(source(n)));
    }
  }

  lemma {:induction false} RunSplits(s: System, front: seq<Event>, e: Event)
    requires Runs(s, front + [e])
    ensures Runs(s, front) && Enabled(Run(s, front), e)
    decreases |front|
  {
    var all := front + [e];
    hide Step, Enabled;
    if front != [] {
      assert all[0] == front[0] && all[1..] == front[1..] + [e];
      RunSplits(Step(s, front[0]), front[1..], e);
    }
  }

  ghost predicate NeverCloses(job: Job, source: Source)
  {
    forall n: nat :: StillOpen(job, source, n)
  }

  /**
   Even if every native write succeeds, the channel is never closed if and only if the bytes delivered never add up to
   `total` modulo 2^64 and the reader never fails empty-handed.
   */
  lemma {:induction false} NeverClosesIff(job: Job, source: Source)
    requires Sane(job, source)
    ensures NeverCloses(job, source) <==> forall n: nat :: GoesOn(job, source, n)
  {
    hide Sane, GoesOn, StillOpen;
    if NeverCloses(job, source) {
      forall n: nat ensures GoesOn(job, source, n) {
        assert StillOpen(job, source, n + 1);
        OpenTotal(job, source, n + 1);
      }
    }
    if forall n: nat :: GoesOn(job, source, n) {
      forall n: nat ensures StillOpen(job, source, n) {
        OpenTotal(job, source, n);
      }
    }
  }

  /** The reader never delivers more than is left. */
  ghost predicate Moderate(job: Job, source: Source)
  {
    && job.read.n <= job.total
    && forall n: nat :: Total(job, source, n) < job.total ==> Total(job, source, n + 1) <= job.total
  }

  /** After `m` reads something is left, no read has failed, and every later one is empty. */
  ghost predicate DriedUp(job: Job, source: Source, m: nat)
  {
    && Total(job, source, m) < job.total
    && (forall i: nat :: i < m ==> !GivesUp(source(i)))
    && forall i: nat :: m <= i ==> source(i).n == 0 && source(i).err.None?
  }

  lemma {:induction false} TotalGrows(job: Job, source: Source, m: nat, n: nat)
    requires m <= n
    ensures Total(job, source, m) <= Total(job, source, n)
    decreases n
  {
    if m < n {
      TotalGrows(job, source, m, n - 1);
    }
  }

  lemma {:induction false} TotalStays(job: Job, source: Source, m: nat, n: nat)
    requires m <= n && forall i: nat :: m <= i ==> source(i).n == 0
    ensures Total(job, source, m) == Total(job, source, n)
    decreases n
  {
    if m < n {
      TotalStays(job, source, m, n - 1);
    }
  }

  lemma {:induction false} LeftIsNotZero(total: uint64, n: nat)
    requires n < total
    ensures Wrap(total - n) != 0
  {
    WrapSmall(total - n);
  }

  lemma {:induction false} StaysBelow(job: Job, source: Source, n: nat)
    requires Moderate(job, source) && forall i: nat :: GoesOn(job, source, i)
    ensures Total(job, source, n) < job.total
  {
    hide Total, Wrap;
    assert GoesOn(job, source, n);
    WrapSmall(0);
    if n > 0 {
      StaysBelow(job, source, n - 1);
    } else {
      TotalStart(job, source);
    }
  }

  lemma {:induction false} TotalStart(job: Job, source: Source)
    ensures Total(job, source, 0) == job.read.n
  {
  }

  /** Each nonempty read leaves less, so a run that never closes runs dry. */
  lemma {:induction false} RunsDry(job: Job, source: Source, m: nat) returns (k: nat)
    requires Moderate(job, source) && forall n: nat :: GoesOn(job, source, n)
    ensures DriedUp(job, source, k)
    decreases job.total - Total(job, source, m)
  {
    hide Moderate, GoesOn;
    StaysBelow(job, source, m);
    if i: nat :| m <= i && source(i).n > 0 {
      TotalGrows(job, source, m, i);
      assert Total(job, source, i + 1) == Total(job, source, i) + source(i).n;
      hide Total;
      StaysBelow(job, source, i + 1);
      k := RunsDry(job, source, i + 1);
    } else {
      k := m;
      forall i: nat ensures !GivesUp(source(i)) {
        NotGivenUp(job, source, i);
      }
    }
  }

  lemma {:induction false} NotGivenUp(job: Job, source: Source, i: nat)
    requires GoesOn(job, source, i)
    ensures !GivesUp(source(i))
  {
  }

  /**
   With a reader that never delivers more than is left, the channel is never closed if and only if at some point every
   further read is empty without an error: the code then issues empty writes without end.
   */
  lemma {:induction false} NeverClosesIffDry(job: Job, source: Source)
    requires Sane(job, source) && Moderate(job, source)
    ensures NeverCloses(job, source) <==> exists m: nat :: DriedUp(job, source, m)
  {
    hide NeverCloses, Wrap, Total, Sane, Moderate, GoesOn, DriedUp;
    NeverClosesIff(job, source);
    if NeverCloses(job, source) {
      var m := RunsDry(job, source, 0);
    }
    if m: nat :| DriedUp(job, source, m) {
      forall n: nat ensures GoesOn(job, source, n) {
        DryGoesOn(job, source, m, n);
      }
    }
  }

  lemma {:induction false} DryGoesOn(job: Job, source: Source, m: nat, n: nat)
    requires DriedUp(job, source, m)
    ensures GoesOn(job, source, n)
  {
    hide Wrap, Total;
    if n <= m {
      TotalGrows(job, source, n, m);
    } else {
      TotalStays(job, source, m, n);
    }
    LeftIsNotZero(job.total, Total(job, source, n));
  }

  /** Every run issues at most one request for each read. */
  lemma {:induction false} OneRequestPerRead(s: System, job: Job, events: seq<Event>)
    requires Inv(s, job) && Runs(s, events)
    ensures |Issued(Run(s, events))| <= |Issued(s)| + |Consumed(s, events)|
    decreases |events|
  {
    hide Step, Inv, Enabled, Reads;
    if events != [] {
      StepsOn(s, events);
      StepKeeps(s, job, events[0]);
      IssuesForRead(s, job, events[0]);
      hide Issued;
      OneRequestPerRead(Step(s, events[0]), job, events[1..]);
    }
  }

  lemma {:induction false} IssuesForRead(s: System, job: Job, e: Event)
    requires Inv(s, job) && Enabled(s, e)
    ensures |Issued(Step(s, e))| <= |Issued(s)| + if Reads(s, e) then 1 else 0
  {
    hide Wrap, WriteAt, Data, Chain, Applied;
    OutstandingMeansOpen(s, job);
    if e.Finish? {
      LandingFacts(s, job, e);
    }
  }

  lemma {:induction false} AtLeastOneEach(pieces: seq<ReadOutcome>)
    requires forall i :: 0 <= i < |pieces| ==> pieces[i].n > 0
    ensures |pieces| <= Amount(pieces)
  {
    if pieces != [] {
      AtLeastOneEach(pieces[1..]);
    }
  }

  /** If no read is empty, any run issues at most as many requests as bytes were read, however the native side behaves. */
  lemma {:induction false} RequestsBounded(job: Job, keyFails: bool, events: seq<Event>, pieces: seq<ReadOutcome>)
    requires Feeds(job, keyFails, events, pieces) && job.read.n > 0 && forall i :: 0 <= i < |pieces| ==> pieces[i].n > 0
    ensures |Issued(After(job, keyFails, events))| <= job.read.n + Amount(pieces)
  {
    var s := Begin(job.initial, job.total, job.store, job.read, keyFails);
    BeginInv(job, keyFails);
    assert |Issued(s)| <= 1;
    hide Begin, Run, Issued, Amount;
    OneRequestPerRead(s, job, events);
    AtLeastOneEach(pieces);
  }

  ghost function Always(n: nat): Source
  {
    i => Zeros(n)
  }

  /** A reader that has nothing more to say: one byte of two, then empty reads; one more request with every completion. */
  lemma {:induction false} EmptyReadsForever(n: nat)
    ensures var job := Job(0, 2, [], Zeros(1));
            StillOpen(job, Always(0), n) && |Issued(After(job, false, Script(Always(0), n)))| == n + 1
  {
    var job := Job(0, 2, [], Zeros(1));
    assert DriedUp(job, Always(0), 0) by {
      assert Total(job, Always(0), 0) == 1;
    }
    forall m: nat ensures Total(job, Always(0), m) == 1 {
      TotalStays(job, Always(0), 0, m);
    }
    hide Total, StillOpen, DriedUp;
    NeverClosesIffDry(job, Always(0));
    assert NeverCloses(job, Always(0));
    OpenTotal(job, Always(0), n);
  }

  /** An overrun may never end either: two bytes at a time never add up to one, modulo 2^64. */
  lemma {:induction false} OverrunForever()
    ensures NeverCloses(Job(0, 1, [], Zeros(2)), Always(2))
  {
    var job := Job(0, 1, [], Zeros(2));
    forall n: nat ensures GoesOn(job, Always(2), n) {
      TotalOfTwos(job, n);
      OddIsNotZero(n);
    }
    hide Total, NeverCloses, Wrap, GoesOn;
    NeverClosesIff(job, Always(2));
  }

  lemma {:induction false} TotalOfTwos(job: Job, n: nat)
    requires job.read.n == 2
    ensures Total(job, Always(2), n) == 2 + 2 * n
  {
    if n > 0 {
      TotalOfTwos(job, n - 1);
    }
  }

  lemma {:induction false} OddIsNotZero(n: nat)
    ensures Wrap(1 - (2 + 2 * n)) != 0
  {
    WrapZero(1 - (2 + 2 * n));
    forall q: int ensures 1 - (2 + 2 * n) != q * TWO_64 {
      assert q * TWO_64 == 2 * (q * 0x8000_0000_0000_0000);
    }
  }
}
