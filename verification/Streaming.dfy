/**
 `Session.StreamHTTP` (elliptics/session.go): copy a stored object, or a range of it, to an HTTP response one
 bounded read at a time. A requested size of 0 means everything from the offset on.
 */
module Streaming {
  import opened Machine
  import opened Store
  import opened ChunkedWrite

  /** One item of the channel that `ReadKey` returns. */
  datatype ReadReply = Chunk(data: Bytes, totalSize: uint64) | ReadError(code: int)

  /** The native side: the items delivered for the n-th read, given its offset and size. */
  type Reader = (nat, uint64, uint64) -> seq<ReadReply>

  /** The first usable item, or the code to fail with. */
  datatype Picked = Got(data: Bytes, totalSize: uint64) | Missed(code: int)

  const NOTHING_READ: int := -6

  /** The inner loop over one channel: skip errors, remember the last, stop at the first data item. */
  function Pick(items: seq<ReadReply>, code: int): Picked
  {
    if items == [] then Missed(code)
    else match items[0]
      case ReadError(c) => Pick(items[1..], c)
      case Chunk(d, t) => Got(d, t)
  }

  function ChunkSize(size: uint64): (r: uint64)
    ensures 0 < r <= 10_485_760 && (size > 0 ==> r <= size) && (r == 10_485_760 || r == size)
  {
    if size > MAX_CHUNK || size == 0 then MAX_CHUNK else size
  }

  /** The loop's variables and the response: body so far and every Content-Length that was set. */
  datatype Stream = Stream(offset: uint64, size: uint64, body: Bytes, lengths: seq<uint64>)

  /** What one data item does. The first one settles the size and the Content-Length. */
  function Round(st: Stream, origin: uint64, data: Bytes, totalSize: uint64): Stream
  {
    var n := Wrap(|data|);
    var rest := Sub64(totalSize, st.offset);
    var size := if st.offset == origin && (st.size == 0 || st.size > rest) then rest else st.size;
    Stream(Add64(st.offset, n), Sub64(size, n), st.body + data,
           if st.offset == origin then st.lengths + [size] else st.lengths)
  }

  datatype Served = Served(body: Bytes, lengths: seq<uint64>, failure: Option<int>)

  /** A data item holds bytes of the requested range, from its start, and the object's size. It may be empty. */
  ghost predicate Truthful(item: ReadReply, store: Bytes, offset: uint64, size: uint64)
  {
    item.Chunk? ==>
      && item.totalSize == |store|
      && offset + |item.data| <= |store|
      && |item.data| <= size
      && item.data == store[offset..offset + |item.data|]
  }

  /** A native read of `store`: data items are truthful and, inside the object, not empty; errors may come at any time. */
  ghost predicate Honest(item: ReadReply, store: Bytes, offset: uint64, size: uint64)
  {
    Truthful(item, store, offset, size) && (item.Chunk? && offset < |store| ==> item.data != [])
  }

  ghost predicate Faithful(reader: Reader, store: Bytes)
  {
    && |store| < TWO_64
    && forall call: nat, offset: uint64, size: uint64, i :: size > 0 && 0 <= i < |reader(call, offset, size)| ==>
         Honest(reader(call, offset, size)[i], store, offset, size)
  }

  /** After the first data item, what is left lies inside the object. */
  ghost predicate Sound(st: Stream, origin: uint64, store: Bytes)
  {
    && origin <= st.offset
    && (st.offset > origin ==> 0 < st.size && st.offset + st.size <= |store|)
  }

  lemma {:induction false} PickIsHonest(items: seq<ReadReply>, code: int, store: Bytes, offset: uint64, size: uint64)
    requires forall i :: 0 <= i < |items| ==> Honest(items[i], store, offset, size)
    ensures var p := Pick(items, code);
            p.Got? ==> Honest(Chunk(p.data, p.totalSize), store, offset, size)
    ensures Pick(items, code).Missed? <==> forall i :: 0 <= i < |items| ==> items[i].ReadError?
  {
    if items != [] {
      assert Honest(items[0], store, offset, size);
      match items[0] {
        case ReadError(c) =>
          PickIsHonest(items[1..], c, store, offset, size);
          assert forall i :: 0 < i < |items| ==> items[i] == items[1..][i - 1];
        case Chunk(_, _) =>
      }
    }
  }

  /** The first data item wins, however many errors precede it; failing that, the last error's code, or `code` if there was none. */
  lemma {:induction false} PickFirst(items: seq<ReadReply>, code: int) returns (i: nat)
    ensures i <= |items| && forall j :: 0 <= j < i ==> items[j].ReadError?
    ensures i < |items| ==> items[i].Chunk? && Pick(items, code) == Got(items[i].data, items[i].totalSize)
    ensures i == |items| ==> Pick(items, code) == Missed(if items == [] then code else items[|items| - 1].code)
  {
    if items == [] || items[0].Chunk? {
      i := 0;
    } else {
      var k := PickFirst(items[1..], items[0].code);
      i := k + 1;
      assert forall j :: 0 < j < |items| ==> items[j] == items[1..][j - 1];
    }
  }

  /** What the request picks at this point of the loop. */
  ghost function Next(reader: Reader, call: nat, st: Stream): Picked
  {
    Pick(reader(call, st.offset, ChunkSize(st.size)), NOTHING_READ)
  }

  lemma {:induction false} NextIsHonest(reader: Reader, store: Bytes, call: nat, st: Stream)
    requires Faithful(reader, store)
    ensures var p := Next(reader, call, st);
            p.Got? ==> Honest(Chunk(p.data, p.totalSize), store, st.offset, ChunkSize(st.size))
  {
    PickIsHonest(reader(call, st.offset, ChunkSize(st.size)), NOTHING_READ, store, st.offset, ChunkSize(st.size));
  }

  /** The size as the first data item settles it. */
  ghost function Settled(store: Bytes, offset: nat, size: nat): nat
    requires offset <= |store|
  {
    if size == 0 || size > |store| - offset then |store| - offset else size
  }

  /** A round with honest data: no subtraction wraps, and either all is sent or the loop has moved on. */
  lemma {:induction false} HonestRound(st: Stream, origin: uint64, store: Bytes, data: Bytes, totalSize: uint64)
    requires |store| < TWO_64 && Sound(st, origin, store)
    requires Honest(Chunk(data, totalSize), store, st.offset, ChunkSize(st.size))
    ensures var st' := Round(st, origin, data, totalSize);
            var size := if st.offset == origin then Settled(store, st.offset, st.size) else st.size;
            && st'.offset == st.offset + |data| && st'.size == size - |data|
            && (st'.size > 0 ==> st.offset < st'.offset && Sound(st', origin, store))
            && (st'.size > 0 ==> st'.offset + st'.size == st.offset + size <= |store|)
  {
  }

  /** The whole loop as a function of the native replies. */
  ghost function Serve(reader: Reader, store: Bytes, call: nat, st: Stream, origin: uint64): Served
    requires Faithful(reader, store) && Sound(st, origin, store)
    decreases |store| - st.offset
  {
    NextIsHonest(reader, store, call, st);
    match Next(reader, call, st)
    case Missed(code) => Served(st.body, st.lengths, Some(code))
    case Got(data, totalSize) =>
      HonestRound(st, origin, store, data, totalSize);
      var st' := Round(st, origin, data, totalSize);
      if st'.size == 0 then Served(st'.body, st'.lengths, None)
      else Serve(reader, store, call + 1, st', origin)
  }

  // ---------------------------------------------------------------- the loop, for any native side

  /** The loop between two reads, or after its return. */
  datatype LoopState = Looping(call: nat, st: Stream) | Finished(r: Served)

  /** One turn of the loop: a read, what it delivered, and the two exits. */
  ghost function Turn(reader: Reader, origin: uint64, x: LoopState): LoopState
  {
    match x
    case Finished(_) => x
    case Looping(call, st) =>
      match Next(reader, call, st)
      case Missed(code) => Finished(Served(st.body, st.lengths, Some(code)))
      case Got(data, totalSize) =>
        var st' := Round(st, origin, data, totalSize);
        if st'.size == 0 then Finished(Served(st'.body, st'.lengths, None)) else Looping(call + 1, st')
  }

  ghost function Turns(reader: Reader, origin: uint64, x: LoopState, n: nat): LoopState
    decreases n
  {
    if n == 0 then x else Turns(reader, origin, Turn(reader, origin, x), n - 1)
  }

  /** The state after `n` reads, or the result if the loop returned earlier. */
  ghost function LoopAfter(reader: Reader, offset: uint64, size: uint64, n: nat): LoopState
  {
    Turns(reader, offset, Looping(0, Stream(offset, size, [], [])), n)
  }

  lemma {:induction false} FinishedStays(reader: Reader, origin: uint64, r: Served, n: nat)
    ensures Turns(reader, origin, Finished(r), n) == Finished(r)
  {
    if n > 0 {
      FinishedStays(reader, origin, r, n - 1);
    }
  }

  lemma {:induction false} LastTurn(reader: Reader, origin: uint64, x: LoopState, n: nat)
    ensures Turns(reader, origin, x, n + 1) == Turn(reader, origin, Turns(reader, origin, x, n))
    decreases n
  {
    hide Turn;
    if n > 0 {
      LastTurn(reader, origin, Turn(reader, origin, x), n - 1);
    }
  }

  /**
   `StreamHTTP`, whatever the native side replies. Without a key nothing is sent; otherwise, if the loop returns at all,
   within `rounds` reads, it returns what its turns lead to.
   */
  method StreamHTTP(reader: Reader, keyError: Option<int>, offset: uint64, size: uint64, ghost rounds: nat)
    returns (r: Served)
    requires keyError.None? ==> LoopAfter(reader, offset, size, rounds).Finished?
    ensures keyError.Some? ==> r == Served([], [], keyError)
    ensures keyError.None? ==> LoopAfter(reader, offset, size, rounds) == Finished(r)
  {
    if keyError.Some? {
      return Served([], [], keyError);
    }
    var st := Stream(offset, size, [], []);
    var call: nat := 0;
    while true
      invariant call <= rounds
      invariant Turns(reader, offset, Looping(call, st), rounds - call) == LoopAfter(reader, offset, size, rounds)
      decreases rounds - call
    {
      var chunkSize := ChunkSize(st.size);
      var items := reader(call, st.offset, chunkSize);
      var picked := FirstUsable(items);
      match picked {
        case Missed(code) =>
          r := Served(st.body, st.lengths, Some(code));
          FinishedStays(reader, offset, r, rounds - call - 1);
          return;
        case Got(data, totalSize) =>
          st := Round(st, offset, data, totalSize);
      }
      if st.size == 0 {
        r := Served(st.body, st.lengths, None);
        FinishedStays(reader, offset, r, rounds - call - 1);
        return;
      }
      call := call + 1;
    }
  }

  lemma {:induction false} ServeEnds(reader: Reader, store: Bytes, call: nat, st: Stream, origin: uint64) returns (n: nat)
    requires Faithful(reader, store) && Sound(st, origin, store)
    ensures Turns(reader, origin, Looping(call, st), n) == Finished(Serve(reader, store, call, st, origin))
    decreases |store| - st.offset
  {
    NextIsHonest(reader, store, call, st);
    var p := Next(reader, call, st);
    n := 1;
    if p.Got? {
      HonestRound(st, origin, store, p.data, p.totalSize);
      var st' := Round(st, origin, p.data, p.totalSize);
      if st'.size != 0 {
        var k := ServeEnds(reader, store, call + 1, st', origin);
        n := k + 1;
      }
    }
    hide Round, Next;
    if n == 1 {
      assert Turns(reader, origin, Turn(reader, origin, Looping(call, st)), 0) == Finished(Serve(reader, store, call, st, origin));
    }
  }

  /** With honest replies the loop returns, and returns what `Serve` computes. */
  lemma {:induction false} FaithfulEnds(reader: Reader, store: Bytes, offset: uint64, size: uint64) returns (rounds: nat)
    requires Faithful(reader, store)
    ensures LoopAfter(reader, offset, size, rounds)
            == Finished(Serve(reader, store, 0, Stream(offset, size, [], []), offset))
  {
    rounds := ServeEnds(reader, store, 0, Stream(offset, size, [], []), offset);
  }

  /** `for rd := range ...` with its `continue` and `break`. */
  method FirstUsable(items: seq<ReadReply>) returns (p: Picked)
    ensures p == Pick(items, NOTHING_READ)
  {
    var code := NOTHING_READ;
    for i := 0 to |items|
      invariant Pick(items[i..], code) == Pick(items, NOTHING_READ)
    {
      assert items[i..][1..] == items[i + 1..];
      match items[i] {
        case ReadError(c) => code := c;
        case Chunk(d, t) => return Got(d, t);
      }
    }
    return Missed(code);
  }

  // ---------------------------------------------------------------- what reaches the client

  /** The requested range, cut at the end of the object. */
  ghost function Wanted(store: Bytes, offset: nat, size: nat): Bytes
  {
    if offset <= |store| then store[offset..offset + Settled(store, offset, size)] else []
  }

  lemma {:induction false} ServeRest(reader: Reader, store: Bytes, call: nat, st: Stream, origin: uint64, end: nat)
    requires Faithful(reader, store) && Sound(st, origin, store) && origin < st.offset
    requires end == st.offset + st.size && st.body == store[origin..st.offset]
    ensures var r := Serve(reader, store, call, st, origin);
            && r.lengths == st.lengths
            && r.body <= store[origin..end]
            && (r.failure.None? <==> r.body == store[origin..end])
    decreases |store| - st.offset
  {
    NextIsHonest(reader, store, call, st);
    var p := Next(reader, call, st);
    if p.Got? {
      HonestRound(st, origin, store, p.data, p.totalSize);
      var st' := Round(st, origin, p.data, p.totalSize);
      assert st'.body == store[origin..st'.offset];
      if st'.size != 0 {
        ServeRest(reader, store, call + 1, st', origin, end);
      }
    }
  }

  /**
   On success the body is exactly the requested range and the one Content-Length announced is its length; on failure
   the body is a prefix of it, and the length was announced exactly if some data item arrived. Nothing is ever
   served from beyond the end of the object.
   */
  lemma {:induction false} StreamResult(reader: Reader, store: Bytes, offset: uint64, size: uint64)
    requires Faithful(reader, store)
    ensures var r := Serve(reader, store, 0, Stream(offset, size, [], []), offset);
            var wanted := Wanted(store, offset, size);
            && (r.failure.None? ==> offset <= |store| && r.body == wanted && r.lengths == [|wanted|])
            && (r.failure.Some? ==> r.body <= wanted && (r.body == [] || |r.body| < |wanted|))
            && (r.failure.Some? ==> r.lengths == if r.body == [] then [] else [|wanted|])
  {
    var st := Stream(offset, size, [], []);
    NextIsHonest(reader, store, 0, st);
    var p := Next(reader, 0, st);
    if p.Got? {
      FirstRound(reader, store, st, p.data, p.totalSize);
    }
  }

  lemma {:induction false} FirstRound(reader: Reader, store: Bytes, st: Stream, data: Bytes, totalSize: uint64)
    requires Faithful(reader, store) && st.body == [] && st.lengths == []
    requires Next(reader, 0, st) == Got(data, totalSize)
    requires Honest(Chunk(data, totalSize), store, st.offset, ChunkSize(st.size))
    ensures var r := Serve(reader, store, 0, st, st.offset);
            var wanted := Wanted(store, st.offset, st.size);
            && st.offset <= |store| && r.lengths == [|wanted|] && r.body <= wanted
            && (r.failure.None? <==> r.body == wanted)
            && (r.failure.Some? ==> r.body != [])
  {
    var origin, wanted := st.offset, Wanted(store, st.offset, st.size);
    FirstFacts(st, store, data, totalSize);
    HonestRound(st, origin, store, data, totalSize);
    hide Honest, Round, Wanted, Settled;
    var st' := Round(st, origin, data, totalSize);
    if st'.size != 0 {
      ServeRest(reader, store, 1, st', origin, origin + |wanted|);
      ServeGrows(reader, store, 1, st', origin);
    }
  }

  lemma {:induction false} FirstFacts(st: Stream, store: Bytes, data: Bytes, totalSize: uint64)
    requires |store| < TWO_64 && st.body == [] && st.lengths == []
    requires Honest(Chunk(data, totalSize), store, st.offset, ChunkSize(st.size))
    ensures var st', wanted := Round(st, st.offset, data, totalSize), Wanted(store, st.offset, st.size);
            && st.offset <= st'.offset && st.offset + |wanted| <= |store|
            && wanted == store[st.offset..st.offset + |wanted|]
            && st'.body == store[st.offset..st'.offset]
            && st'.lengths == [|wanted|] && st'.offset + st'.size == st.offset + |wanted|
            && (st'.size != 0 ==> st'.body != [])
  {
    HonestRound(st, st.offset, store, data, totalSize);
  }

  lemma {:induction false} ServeGrows(reader: Reader, store: Bytes, call: nat, st: Stream, origin: uint64)
    requires Faithful(reader, store) && Sound(st, origin, store)
    ensures st.body <= Serve(reader, store, call, st, origin).body
    decreases |store| - st.offset
  {
    NextIsHonest(reader, store, call, st);
    var p := Next(reader, call, st);
    if p.Got? {
      HonestRound(st, origin, store, p.data, p.totalSize);
      var st' := Round(st, origin, p.data, p.totalSize);
      if st'.size != 0 {
        ServeGrows(reader, store, call + 1, st', origin);
      }
    }
  }

  /** Every read inside the object eventually yields data, after any number of errors from other replicas. */
  ghost predicate Responsive(reader: Reader, store: Bytes)
  {
    forall call: nat, offset: uint64, size: uint64 :: 0 < size && offset < |store| ==> HasData(reader(call, offset, size))
  }

  ghost predicate HasData(items: seq<ReadReply>)
  {
    exists i :: 0 <= i < |items| && items[i].Chunk?
  }

  lemma {:induction false} ServeSucceeds(reader: Reader, store: Bytes, call: nat, st: Stream, origin: uint64)
    requires Faithful(reader, store) && Responsive(reader, store) && Sound(st, origin, store) && st.offset < |store|
    ensures Serve(reader, store, call, st, origin).failure.None?
    decreases |store| - st.offset
  {
    NextIsHonest(reader, store, call, st);
    var items := reader(call, st.offset, ChunkSize(st.size));
    PickIsHonest(items, NOTHING_READ, store, st.offset, ChunkSize(st.size));
    assert HasData(items);
    var p := Next(reader, call, st);
    HonestRound(st, origin, store, p.data, p.totalSize);
    var st' := Round(st, origin, p.data, p.totalSize);
    if st'.size != 0 {
      ServeSucceeds(reader, store, call + 1, st', origin);
    }
  }

  // ---------------------------------------------------------------- how the loop ends, for any native side

  ghost predicate AllErrors(items: seq<ReadReply>)
  {
    forall i :: 0 <= i < |items| ==> items[i].ReadError?
  }

  /** The first data item after nothing but errors. */
  ghost predicate FirstData(items: seq<ReadReply>, i: nat)
  {
    i < |items| && items[i].Chunk? && AllErrors(items[..i])
  }

  /** Between reads the loop has counted its reads and stands as far behind the start as it has sent. */
  lemma {:induction false} LoopSpot(reader: Reader, offset: uint64, size: uint64, n: nat)
    requires LoopAfter(reader, offset, size, n).Looping?
    ensures var x := LoopAfter(reader, offset, size, n); x.call == n && x.st.offset == Wrap(offset + |x.st.body|)
  {
    if n == 0 {
      WrapSmall(offset);
    } else {
      LastTurn(reader, offset, Looping(0, Stream(offset, size, [], [])), n - 1);
      hide Turns, Wrap;
      var x := LoopAfter(reader, offset, size, n - 1);
      assert x.Looping?;
      LoopSpot(reader, offset, size, n - 1);
      var p := Next(reader, x.call, x.st);
      WrapAdd(offset + |x.st.body|, |p.data|);
      WrapAdd(|p.data|, x.st.offset);
    }
  }

  /**
   Whatever the native side replies, a stream that fails does so at its last read, which starts right behind what was sent
   and brings errors alone: the code is the last one's, or -6 if nothing came. One that succeeds ends with the first data
   item of its last read.
   */
  lemma {:induction false} EndsAtLastRead(reader: Reader, offset: uint64, size: uint64, n: nat, r: Served)
    returns (call: nat, st: Stream, i: nat)
    requires LoopAfter(reader, offset, size, n) == Finished(r)
    ensures call < n && LoopAfter(reader, offset, size, call) == Looping(call, st)
    ensures st.offset == Wrap(offset + |st.body|)
    ensures var items := reader(call, st.offset, ChunkSize(st.size));
            && (r.failure.Some? ==>
                  && AllErrors(items) && r.body == st.body
                  && r.failure.value == if items == [] then -6 else items[|items| - 1].code)
            && (r.failure.None? ==> FirstData(items, i) && r.body == st.body + items[i].data)
    decreases n
  {
    LastTurn(reader, offset, Looping(0, Stream(offset, size, [], [])), if n == 0 then 0 else n - 1);
    var x := LoopAfter(reader, offset, size, n - 1);
    if x.Finished? {
      call, st, i := EndsAtLastRead(reader, offset, size, n - 1, r);
    } else {
      LoopSpot(reader, offset, size, n - 1);
      call, st := n - 1, x.st;
      i := PickFirst(reader(call, st.offset, ChunkSize(st.size)), NOTHING_READ);
    }
  }

  // ---------------------------------------------------------------- when the loop never returns

  /** Like `Faithful`, but data items may be empty. */
  ghost predicate MostlyFaithful(reader: Reader, store: Bytes)
  {
    && |store| < TWO_64
    && forall call: nat, offset: uint64, size: uint64, i :: size > 0 && 0 <= i < |reader(call, offset, size)| ==>
         Truthful(reader(call, offset, size)[i], store, offset, size)
  }

  lemma {:induction false} NextIsTruthful(reader: Reader, store: Bytes, call: nat, st: Stream)
    requires MostlyFaithful(reader, store)
    ensures var p := Next(reader, call, st);
            p.Got? ==> Truthful(Chunk(p.data, p.totalSize), store, st.offset, ChunkSize(st.size))
  {
    var _ := PickFirst(reader(call, st.offset, ChunkSize(st.size)), NOTHING_READ);
  }

  /** The loop has settled its size, and what it still wants lies inside the object. */
  ghost predicate Settling(st: Stream, origin: uint64, store: Bytes)
  {
    0 < st.size && origin <= st.offset && st.offset + st.size <= |store|
  }

  ghost predicate EmptyPick(reader: Reader, call: nat, st: Stream)
  {
    Next(reader, call, st).Got? && Next(reader, call, st).data == []
  }

  /** After the first turn a loop that goes on has settled its size; from then on it moves only forward. */
  lemma {:induction false} TruthfulTurn(reader: Reader, store: Bytes, origin: uint64, call: nat, st: Stream)
    requires MostlyFaithful(reader, store)
    requires st.offset == origin || Settling(st, origin, store)
    ensures var x := Turn(reader, origin, Looping(call, st));
            && (x.Looping? ==> x.call == call + 1 && Settling(x.st, origin, store) && st.offset <= x.st.offset)
            && (x.Looping? && Settling(st, origin, store) ==>
                  (EmptyPick(reader, call, st) <==> x.st.offset == st.offset && x.st.size == st.size)
                  && (!EmptyPick(reader, call, st) ==> st.offset < x.st.offset))
            && (EmptyPick(reader, call, st) && Settling(st, origin, store) ==> x.Looping?)
  {
    NextIsTruthful(reader, store, call, st);
    hide Next, Pick;
  }

  /** While picks are empty, a settled loop stays where it is. */
  lemma {:induction false} Stays(reader: Reader, store: Bytes, origin: uint64, call: nat, st: Stream, n: nat)
    requires MostlyFaithful(reader, store) && Settling(st, origin, store)
    requires forall k: nat :: call <= k < call + n ==> EmptyPick(reader, k, st)
    ensures var x := Turns(reader, origin, Looping(call, st), n);
            x.Looping? && x.call == call + n && x.st.offset == st.offset && x.st.size == st.size
    decreases n
  {
    hide Turn, EmptyPick, MostlyFaithful;
    if n > 0 {
      assert EmptyPick(reader, call, st);
      TruthfulTurn(reader, store, origin, call, st);
      var x := Turn(reader, origin, Looping(call, st));
      forall k: nat | call + 1 <= k < call + n ensures EmptyPick(reader, k, x.st) {
        SameSpotSamePick(reader, k, st, x.st);
      }
      Stays(reader, store, origin, call + 1, x.st, n - 1);
    }
  }

  lemma {:induction false} SameSpotSamePick(reader: Reader, call: nat, st: Stream, st': Stream)
    requires st.offset == st'.offset && st.size == st'.size
    ensures EmptyPick(reader, call, st) == EmptyPick(reader, call, st')
  {
  }

  /** The first call from `call` on whose pick is not empty. */
  lemma {:induction false} FirstFilled(reader: Reader, call: nat, st: Stream, k: nat) returns (first: nat)
    requires call <= k && !EmptyPick(reader, k, st)
    ensures call <= first && !EmptyPick(reader, first, st)
    ensures forall i: nat :: call <= i < first ==> EmptyPick(reader, i, st)
    decreases k - call
  {
    hide EmptyPick;
    if !EmptyPick(reader, call, st) {
      first := call;
    } else {
      first := FirstFilled(reader, call + 1, st, k);
    }
  }

  ghost predicate NeverReturns(reader: Reader, offset: uint64, size: uint64)
  {
    forall n: nat :: LoopAfter(reader, offset, size, n).Looping?
  }

  /** After `m` reads the loop is at `st`, and every later answer to that same request is an empty item. */
  ghost predicate StuckAt(reader: Reader, offset: uint64, size: uint64, m: nat, st: Stream)
  {
    && 0 < m && LoopAfter(reader, offset, size, m) == Looping(m, st)
    && forall k: nat :: m <= k ==> EmptyPick(reader, k, st)
  }

  lemma {:induction false} TurnsAdd(reader: Reader, origin: uint64, x: LoopState, m: nat, n: nat)
    ensures Turns(reader, origin, Turns(reader, origin, x, m), n) == Turns(reader, origin, x, m + n)
    decreases m
  {
    hide Turn;
    if m > 0 {
      TurnsAdd(reader, origin, Turn(reader, origin, x), m - 1, n);
    }
  }

  lemma {:induction false} FirstTurnSettles(reader: Reader, store: Bytes, offset: uint64, size: uint64)
    requires MostlyFaithful(reader, store) && LoopAfter(reader, offset, size, 1).Looping?
    ensures var x := LoopAfter(reader, offset, size, 1);
            x.call == 1 && Settling(x.st, offset, store)
  {
    var x := Looping(0, Stream(offset, size, [], []));
    TruthfulTurn(reader, store, offset, 0, x.st);
    assert Turns(reader, offset, Turn(reader, offset, x), 0) == LoopAfter(reader, offset, size, 1);
  }

  /** Each nonempty item moves the loop forward inside the object, so a loop that never returns gets stuck somewhere. */
  lemma {:induction false} GetsStuck(reader: Reader, store: Bytes, offset: uint64, size: uint64, m: nat, st: Stream)
    returns (k: nat, at: Stream)
    requires MostlyFaithful(reader, store) && NeverReturns(reader, offset, size)
    requires 0 < m && LoopAfter(reader, offset, size, m) == Looping(m, st) && Settling(st, offset, store)
    ensures StuckAt(reader, offset, size, k, at)
    decreases |store| - st.offset
  {
    hide MostlyFaithful, EmptyPick, Turn, Turns;
    k, at := m, st;
    if c: nat :| m <= c && !EmptyPick(reader, c, st) {
      var first := FirstFilled(reader, m, st, c);
      var x := MovesOn(reader, store, offset, size, m, st, first);
      k, at := GetsStuck(reader, store, offset, size, first + 1, x);
    }
  }

  /** At the first nonempty pick a loop that never returns moves forward. */
  lemma {:induction false} MovesOn(reader: Reader, store: Bytes, offset: uint64, size: uint64, m: nat, st: Stream, first: nat)
    returns (x: Stream)
    requires MostlyFaithful(reader, store) && NeverReturns(reader, offset, size)
    requires 0 < m && LoopAfter(reader, offset, size, m) == Looping(m, st) && Settling(st, offset, store)
    requires m <= first && !EmptyPick(reader, first, st)
    requires forall i: nat :: m <= i < first ==> EmptyPick(reader, i, st)
    ensures LoopAfter(reader, offset, size, first + 1) == Looping(first + 1, x)
    ensures Settling(x, offset, store) && st.offset < x.offset
  {
    hide MostlyFaithful, EmptyPick, Turn, Turns;
    var start := Looping(0, Stream(offset, size, [], []));
    Stays(reader, store, offset, m, st, first - m);
    TurnsAdd(reader, offset, start, m, first - m);
    var there := LoopAfter(reader, offset, size, first);
    SameSpotSamePick(reader, first, st, there.st);
    LastTurn(reader, offset, start, first);
    assert LoopAfter(reader, offset, size, first + 1).Looping?;
    TruthfulTurn(reader, store, offset, first, there.st);
    x := LoopAfter(reader, offset, size, first + 1).st;
  }

  lemma {:induction false} StuckForever(reader: Reader, store: Bytes, offset: uint64, size: uint64, m: nat, st: Stream, n: nat)
    requires MostlyFaithful(reader, store) && StuckAt(reader, offset, size, m, st) && Settling(st, offset, store)
    ensures LoopAfter(reader, offset, size, n).Looping?
  {
    hide MostlyFaithful, EmptyPick, Turn, Turns;
    var start := Looping(0, Stream(offset, size, [], []));
    if n <= m {
      TurnsAdd(reader, offset, start, n, m - n);
      var x := LoopAfter(reader, offset, size, n);
      if x.Finished? {
        FinishedStays(reader, offset, x.r, m - n);
      }
    } else {
      Stays(reader, store, offset, m, st, n - m);
      TurnsAdd(reader, offset, start, m, n - m);
    }
  }

  lemma {:induction false} StuckIsSettled(reader: Reader, store: Bytes, offset: uint64, size: uint64, m: nat)
    requires MostlyFaithful(reader, store) && 0 < m && LoopAfter(reader, offset, size, m).Looping?
    ensures var x := LoopAfter(reader, offset, size, m); x.call == m && Settling(x.st, offset, store)
  {
    if m == 1 {
      FirstTurnSettles(reader, store, offset, size);
    } else {
      var start := Looping(0, Stream(offset, size, [], []));
      LastTurn(reader, offset, start, m - 1);
      hide MostlyFaithful, Turns;
      var x := LoopAfter(reader, offset, size, m - 1);
      assert x.Looping?;
      StuckIsSettled(reader, store, offset, size, m - 1);
      TruthfulTurn(reader, store, offset, m - 1, x.st);
    }
  }

  /**
   The loop never returns if and only if, from some read on, the same range is answered with an empty item every time. One
   empty item, or any number of them, does no more than repeat the request.
   */
  lemma {:induction false} NeverReturnsIff(reader: Reader, store: Bytes, offset: uint64, size: uint64)
    requires MostlyFaithful(reader, store)
    ensures NeverReturns(reader, offset, size) <==> exists m: nat, st :: StuckAt(reader, offset, size, m, st)
  {
    hide MostlyFaithful, EmptyPick, Turn, Turns;
    if NeverReturns(reader, offset, size) {
      assert LoopAfter(reader, offset, size, 1).Looping?;
      FirstTurnSettles(reader, store, offset, size);
      var k, at := GetsStuck(reader, store, offset, size, 1, LoopAfter(reader, offset, size, 1).st);
    }
    if m: nat, st :| StuckAt(reader, offset, size, m, st) {
      StuckIsSettled(reader, store, offset, size, m);
      forall n: nat ensures LoopAfter(reader, offset, size, n).Looping? {
        StuckForever(reader, store, offset, size, m, st, n);
      }
    }
  }

  /** A native side that answers every read of a one-byte object with an empty item. */
  ghost function Idle(): Reader
  {
    (call, offset, size) => [Chunk([], 1)]
  }

  /** Against it the loop goes on for ever, announcing the length again with every read. */
  lemma {:induction false} IdleForever(n: nat)
    ensures LoopAfter(Idle(), 0, 0, n)
            == Looping(n, Stream(0, if n == 0 then 0 else 1, [], seq(n, _ => 1)))
  {
    if n > 0 {
      IdleForever(n - 1);
      LastTurn(Idle(), 0, Looping(0, Stream(0, 0, [], [])), n - 1);
      hide Turns;
      var x := LoopAfter(Idle(), 0, 0, n - 1);
      assert Next(Idle(), x.call, x.st) == Got([], 1);
      assert seq(n, _ => 1) == seq(n - 1, _ => 1) + [1];
    }
  }

  // ---------------------------------------------------------------- how often the length is announced

  ghost function Announced(x: LoopState): seq<uint64>
  {
    match x
    case Looping(_, st) => st.lengths
    case Finished(r) => r.lengths
  }

  lemma {:induction false} AnnouncedOnce(reader: Reader, store: Bytes, origin: uint64, call: nat, st: Stream, n: nat)
    requires MostlyFaithful(reader, store) && Settling(st, origin, store) && origin < st.offset
    ensures Announced(Turns(reader, origin, Looping(call, st), n)) == st.lengths
    decreases n
  {
    if n > 0 {
      TruthfulTurn(reader, store, origin, call, st);
      var x := Turn(reader, origin, Looping(call, st));
      assert Announced(x) == st.lengths;
      hide MostlyFaithful, Turn;
      if x.Finished? {
        FinishedStays(reader, origin, x.r, n - 1);
      } else {
        AnnouncedOnce(reader, store, origin, call + 1, x.st, n - 1);
      }
    }
  }

  /** The first read is answered with an empty item although something is left, and the second with a data item. */
  ghost predicate EmptyStart(reader: Reader, store: Bytes, offset: uint64, size: uint64)
    requires |store| < TWO_64
  {
    && EmptyPick(reader, 0, Stream(offset, size, [], []))
    && offset < |store|
    && Next(reader, 1, Stream(offset, Settled(store, offset, size), [], [])).Got?
  }

  /** Content-Length is announced more than once if and only if the stream starts with an empty item. */
  lemma {:induction false} AnnouncedTwiceIff(reader: Reader, store: Bytes, offset: uint64, size: uint64)
    requires MostlyFaithful(reader, store)
    ensures (exists n: nat :: |Announced(LoopAfter(reader, offset, size, n))| > 1)
            <==> EmptyStart(reader, store, offset, size)
  {
    hide Turns, EmptyStart, EmptyPick;
    if EmptyStart(reader, store, offset, size) {
      SecondLength(reader, store, offset, size);
      assert |Announced(LoopAfter(reader, offset, size, 2))| > 1;
    } else {
      forall n: nat ensures |Announced(LoopAfter(reader, offset, size, n))| <= 1 {
        OnlyLength(reader, store, offset, size, n);
      }
    }
  }

  lemma {:induction false} SecondLength(reader: Reader, store: Bytes, offset: uint64, size: uint64)
    requires MostlyFaithful(reader, store) && EmptyStart(reader, store, offset, size)
    ensures |Announced(LoopAfter(reader, offset, size, 2))| == 2
  {
    var st := Stream(offset, size, [], []);
    NextIsTruthful(reader, store, 0, st);
    var x := Turn(reader, offset, Looping(0, st));
    assert x == Looping(1, Stream(offset, Settled(store, offset, size), [], [Settled(store, offset, size)]));
    var y := Turn(reader, offset, x);
    assert Turns(reader, offset, y, 0) == y;
    assert Turns(reader, offset, x, 1) == y;
  }

  /** If the stream does not start with an empty item, its first two turns either move on or return. */
  lemma {:induction false} StartMoves(reader: Reader, store: Bytes, offset: uint64, size: uint64)
    requires MostlyFaithful(reader, store) && !EmptyStart(reader, store, offset, size)
    ensures var x := Turn(reader, offset, Looping(0, Stream(offset, size, [], [])));
            var y := Turn(reader, offset, x);
            && |Announced(x)| <= 1
            && (x.Looping? ==> Settling(x.st, offset, store) && x.call == 1)
            && (x.Looping? && x.st.offset == offset ==> y.Finished? && y.r.lengths == x.st.lengths)
  {
    var st := Stream(offset, size, [], []);
    NextIsTruthful(reader, store, 0, st);
    TruthfulTurn(reader, store, offset, 0, st);
    hide MostlyFaithful;
    var x := Turn(reader, offset, Looping(0, st));
    if x.Looping? && x.st.offset == offset {
      assert x.st.size == Settled(store, offset, size);
      assert Next(reader, 1, x.st) == Next(reader, 1, Stream(offset, Settled(store, offset, size), [], []));
    }
  }

  lemma {:induction false} OnlyLength(reader: Reader, store: Bytes, offset: uint64, size: uint64, n: nat)
    requires MostlyFaithful(reader, store) && !EmptyStart(reader, store, offset, size)
    ensures |Announced(LoopAfter(reader, offset, size, n))| <= 1
  {
    if n > 0 {
      StartMoves(reader, store, offset, size);
      hide MostlyFaithful, Turn, EmptyStart;
      var x := Turn(reader, offset, Looping(0, Stream(offset, size, [], [])));
      assert LoopAfter(reader, offset, size, n) == Turns(reader, offset, x, n - 1);
      if x.Finished? {
        FinishedStays(reader, offset, x.r, n - 1);
      } else if x.st.offset > offset {
        AnnouncedOnce(reader, store, offset, 1, x.st, n - 1);
      } else if n > 1 {
        var y := Turn(reader, offset, x);
        assert Turns(reader, offset, x, n - 1) == Turns(reader, offset, y, n - 2);
        FinishedStays(reader, offset, y.r, n - 2);
      }
    }
  }
}
