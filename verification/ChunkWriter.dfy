/** `WriteChunk` as it runs: captured variables and one shared buffer updated in place by three closures. */
module ChunkWriterObject {
  import opened Machine
  import opened Store
  import opened ChunkedWrite
  import Pool

  class ChunkWriter {
    var total: uint64
    var offset: uint64
    var n64: uint64
    const chunk: array<byte>
    var channel: Channel
    const pool: Pool.ContextPool
    const onChunk: uint64
    const onFinish: uint64
    const onBuffer: uint64

    ghost predicate Valid()
      reads this, pool
    {
      && chunk.Length == MAX_CHUNK
      && onChunk != onFinish && onFinish != onBuffer && onChunk != onBuffer
      && (onChunk in pool.entries <==> onFinish in pool.entries)
      && (onChunk in pool.entries <==> onBuffer in pool.entries)
    }

    /** The state the closures share, as a value. */
    ghost function View(): Writer
      reads this, chunk, pool
    {
      Writer(total, offset, n64, chunk[..], channel, onChunk in pool.entries)
    }

    /** The variables `WriteChunk` sets up before its first read, its three contexts allocated from the shared counter. */
    constructor (pool: Pool.ContextPool, initial: uint64, total: uint64)
      modifies pool`counter
      ensures this.pool == pool && fresh(chunk) && chunk.Length == MAX_CHUNK
      ensures onChunk == Add64(old(pool.counter), 1) && onFinish == Add64(onChunk, 1) && onBuffer == Add64(onFinish, 1)
      ensures pool.counter == onBuffer
      ensures onChunk != onFinish && onFinish != onBuffer && onChunk != onBuffer
      ensures this.total == total && offset == initial && n64 == 0 && channel == FRESH
      ensures pool.entries.Keys !! {onChunk, onFinish, onBuffer} ==> Valid() && onChunk !in pool.entries
    {
      this.pool := pool;
      var first := pool.NextContext();
      var second := pool.NextContext();
      var third := pool.NextContext();
      onChunk, onFinish, onBuffer := first, second, third;
      this.total, this.offset, this.n64 := total, initial, 0;
      chunk := new byte[MAX_CHUNK];
      channel := FRESH;
      new;
      if pool.entries.Keys !! {first, second, third} {
        assert {first, second, third} !! pool.entries.Keys;
        assert first in {first, second, third} && second in {first, second, third} && third in {first, second, third};
      }
    }

    /** `input.Read(chunk)`: the reader overwrites the shared buffer. */
    method Fill(read: ReadOutcome)
      requires chunk.Length == |read.buffer|
      modifies chunk
      ensures chunk[..] == read.buffer
    {
      for i := 0 to chunk.Length
        invariant chunk[..i] == read.buffer[..i]
      {
        chunk[i] := read.buffer[i];
        assert chunk[..i + 1] == chunk[..i] + [read.buffer[i]];
      }
      assert chunk[..] == chunk[..chunk.Length];
    }

    /** The three `Pool.Delete` calls. */
    method Drop()
      requires Valid()
      modifies pool`entries
      ensures Valid()
      ensures pool.entries == old(pool.entries) - {onChunk, onFinish, onBuffer}
    {
      pool.Delete(onChunk);
      pool.Delete(onFinish);
      pool.Delete(onBuffer);
    }

    /** Report an error, close the channel and drop the contexts. */
    method GiveUp(e: Error)
      requires Valid()
      modifies this`channel, pool`entries
      ensures Valid()
      ensures View() == ChunkedWrite.Fail(old(View()), e)
      ensures pool.entries == old(pool.entries) - {onChunk, onFinish, onBuffer}
    {
      channel := channel.Send(Failed(e)).Close();
      Drop();
    }

    method Account(n: nat)
      requires n <= MAX_CHUNK
      modifies this`total, this`offset, this`n64
      ensures View() == Advance(old(View()), n)
    {
      n64 := n;
      total := Sub64(total, n64);
      offset := Add64(offset, n64);
    }

    /** The rest of `WriteChunk`: first read and prepare. Only the three contexts enter the pool. */
    method WriteChunk(read: ReadOutcome, keyFails: bool, op: nat) returns (issued: Option<Request>)
      requires Valid() && read.Valid() && onChunk !in pool.entries
      requires channel == FRESH && n64 == 0
      modifies this`total, this`offset, this`n64, this`channel, chunk, pool`entries
      ensures Valid()
      ensures View() == Start(old(offset), old(total), read, keyFails).w
      ensures issued == Start(old(offset), old(total), read, keyFails).issued
      ensures issued.Some? ==> Pool.Dispatch(pool.entries, onChunk, Pool.LookupFn) == Pool.Callback(op)
      ensures issued.Some? ==> Pool.Dispatch(pool.entries, onFinish, Pool.FinalFn) == Pool.Callback(op)
      ensures issued.Some? ==> Pool.Dispatch(pool.entries, onBuffer, Pool.Buffer) == Pool.Callback(op)
      ensures pool.entries - {onChunk, onFinish, onBuffer} == old(pool.entries) - {onChunk, onFinish, onBuffer}
    {
      Fill(read);
      if read.err.Some? {
        channel := channel.Send(Failed(read.err.value)).Close();
        return None;
      }
      if read.n == 0 {
        channel := channel.Send(Failed(ZeroLengthWrite));
      }
      Account(read.n);
      if keyFails {
        channel := channel.Send(Failed(BadKey)).Close();
        return None;
      }
      pool.Store(onChunk, Pool.Value(Pool.LookupFn, op));
      pool.Store(onFinish, Pool.Value(Pool.FinalFn, op));
      pool.Store(onBuffer, Pool.Value(Pool.Buffer, op));
      return Some(Prepare(Sub64(offset, n64), Add64(total, n64), read.n));
    }

    method OnChunkResult(lookup: Lookup)
      modifies this`channel
      ensures View() == OnResult(old(View()), lookup)
    {
      if total == 0 {
        channel := channel.Send(Forwarded(lookup));
      }
    }

    /** `onChunkFinish`. No entry of another operation is touched. */
    method OnChunkFinish(err: Option<Error>, read: ReadOutcome, keyFails: bool) returns (issued: Option<Request>)
      requires Valid() && read.Valid()
      modifies this`total, this`offset, this`n64, this`channel, chunk, pool`entries
      ensures Valid()
      ensures View() == OnFinish(old(View()), err, read, keyFails).w
      ensures issued == OnFinish(old(View()), err, read, keyFails).issued
      ensures issued.Some? ==> pool.entries == old(pool.entries)
      ensures pool.entries - {onChunk, onFinish, onBuffer} == old(pool.entries) - {onChunk, onFinish, onBuffer}
    {
      if err.Some? {
        GiveUp(err.value);
        return None;
      }
      if total == 0 {
        channel := channel.Close();
        Drop();
        return None;
      }
      Fill(read);
      if read.n <= 0 && read.err.Some? {
        GiveUp(read.err.value);
        return None;
      }
      Account(read.n);
      if keyFails {
        GiveUp(BadKey);
        return None;
      }
      if total != 0 {
        issued := Some(Plain(Sub64(offset, n64), read.n));
      } else {
        issued := Some(Commit(Sub64(offset, n64), offset, read.n));
      }
    }
  }
}
