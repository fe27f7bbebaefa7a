/** Chunked write and streaming read, composed over one store. */
module RoundTrip {
  import opened Machine
  import opened Store
  import opened ChunkedWrite
  import opened Streaming

  /**
   Whatever a successful chunked write was given to store can be streamed back. For any offset, any earlier content of
   the object, any pattern of short reads on the way in and any honest, responsive pattern of replies on the way out,
   asking for the written range yields exactly the bytes the reader delivered, with their number as Content-Length.
   */
  lemma {:induction false} WriteThenStream(job: Job, keyFails: bool, events: seq<Event>, reader: Reader)
    requires Happens(job, keyFails, events) && Success(After(job, keyFails, events))
    requires job.initial + job.total < TWO_64 && |Data(Issued(After(job, keyFails, events)))| < TWO_64
    requires Faithful(reader, After(job, keyFails, events).store)
    requires Responsive(reader, After(job, keyFails, events).store)
    ensures var s := After(job, keyFails, events);
            var input := job.read.Data() + Delivered(Begin(job.initial, job.total, job.store, job.read, keyFails), events);
            && |input| == job.total
            && Serve(reader, s.store, 0, Stream(job.initial, job.total, [], []), job.initial) == Served(input, [job.total], None)
  {
    hide Run, Begin, Serve, Faithful, Responsive, Data, Issued, WriteAt;
    var s := After(job, keyFails, events);
    var input := Data(Issued(s));
    SuccessfulRun(job, keyFails, events);
    OverrunNeedsWrap(job, keyFails, events);
    StoredIsDelivered(job, keyFails, events);
    ReadBack(job.store, job.initial, input);
    NonEmptyInput(job, keyFails, events);
    StreamResult(reader, s.store, job.initial, job.total);
    ServeSucceeds(reader, s.store, 0, Stream(job.initial, job.total, [], []), job.initial);
  }

  lemma {:induction false} NonEmptyInput(job: Job, keyFails: bool, events: seq<Event>)
    requires Happens(job, keyFails, events) && Success(After(job, keyFails, events))
    ensures Data(Issued(After(job, keyFails, events))) != []
  {
    hide Run, Begin, Data, Issued;
    StoredIsDelivered(job, keyFails, events);
    Reachable(job, keyFails, events);
    SuccessMeansSucceeded(After(job, keyFails, events), job);
    FirstReadUsed(job, keyFails, events);
  }

  /** A successful run's first read reported no error and, its stray error being absent, was not empty. */
  lemma {:induction false} FirstReadUsed(job: Job, keyFails: bool, events: seq<Event>)
    requires Happens(job, keyFails, events) && Success(After(job, keyFails, events))
    ensures job.read.err.None? && job.read.n > 0
  {
    BeginInv(job, keyFails);
    Reachable(job, keyFails, events);
    var s0 := Begin(job.initial, job.total, job.store, job.read, keyFails);
    SuccessMeansSucceeded(After(job, keyFails, events), job);
    if s0.outstanding == [] {
      NoEventWhenClosed(s0, job, events);
      assert false;
    }
  }

  /**
   The round trip as a caller sees it, at offset 0 and with size 0 for everything: a chunked write over an object that
   was no longer than the input, then `StreamHTTP(key, 0, 0)`.
   */
  lemma {:induction false} WriteThenStreamAll(job: Job, keyFails: bool, events: seq<Event>, reader: Reader)
    requires Happens(job, keyFails, events) && Success(After(job, keyFails, events))
    requires job.initial == 0 && |job.store| <= job.total
    requires |Data(Issued(After(job, keyFails, events)))| < TWO_64
    requires Faithful(reader, After(job, keyFails, events).store)
    requires Responsive(reader, After(job, keyFails, events).store)
    ensures var s := After(job, keyFails, events);
            var input := job.read.Data() + Delivered(Begin(job.initial, job.total, job.store, job.read, keyFails), events);
            && s.store == input && |input| == job.total
            && Serve(reader, s.store, 0, Stream(0, 0, [], []), 0) == Served(input, [job.total], None)
  {
    hide Run, Begin, Serve, Faithful, Responsive, Data, Issued, WriteAt;
    var s := After(job, keyFails, events);
    var input := Data(Issued(s));
    SuccessfulRun(job, keyFails, events);
    OverrunNeedsWrap(job, keyFails, events);
    StoredIsDelivered(job, keyFails, events);
    ReadBack(job.store, 0, input);
    assert s.store == input;
    NonEmptyInput(job, keyFails, events);
    StreamResult(reader, s.store, 0, 0);
    ServeSucceeds(reader, s.store, 0, Stream(0, 0, [], []), 0);
    assert Wanted(input, 0, 0) == input;
  }

  /**
   `WriteData` hands a write to `WriteChunk` exactly when it exceeds one chunk, and then every successful run ends
   with a commit: no single read can have covered it.
   */
  lemma {:induction false} DispatchedWritesCommit(job: Job, keyFails: bool, events: seq<Event>)
    requires job.total > 10_485_760
    requires Happens(job, keyFails, events) && Success(After(job, keyFails, events))
    ensures var fs := Landed(After(job, keyFails, events).landed);
            |fs| >= 2 && fs[0].req.Prepare? && fs[|fs| - 1].req.Commit?
  {
    hide Run, Begin, Data;
    SuccessfulRun(job, keyFails, events);
    RequestShape(job, keyFails, events, 0);
  }
}
