/** The global callback pool (elliptics/pool.go) and the dispatchers' lookups in it (elliptics/callback.go). */
module Pool {
  import opened Machine

  /** The dynamic Go type of a stored value, as far as the dispatchers' type assertions can tell. */
  datatype Tag =
    | FinalFn          // func(error)
    | LookupFn         // func(*lookupResult)
    | NamedLookupFn    // onLookupCallback, a defined type and so not identical to func(*lookupResult)
    | RemoveFn         // func(*removeResult)
    | ReadFn           // func(*readResult)
    | FindFn           // func(*findResult)
    | IndexEntryFn     // func(*IndexEntry)
    | StatEntryFn      // func(*StatEntry)
    | BackendsFn       // func(*DnetBackendsStatus)
    | EmptyFn          // func()
    | StatTable        // *DnetStat
    | Buffer           // []byte

  /** A stored closure or object, with the operation whose variables it captures. */
  datatype Value = Value(tag: Tag, op: nat)

  type Entries = map<uint64, Value>

  /** What a dispatcher finds: the operation to call back, or one of its two panics. */
  datatype Dispatched = Callback(op: nat) | NoKey | WrongType

  /** `Pool.Get(key)` followed by the type assertion to `tag`. */
  function Dispatch(entries: Entries, key: uint64, tag: Tag): Dispatched
  {
    if key !in entries then NoKey
    else if entries[key].tag != tag then WrongType
    else Callback(entries[key].op)
  }

  class ContextPool {
    var counter: uint64
    var entries: Entries

    constructor ()
      ensures counter == 0 && entries == map[]
    {
      counter, entries := 0, map[];
    }

    /** `NextContext`: an atomic increment that wraps at 2^64. */
    method NextContext() returns (context: uint64)
      modifies this`counter
      ensures counter == context == Add64(old(counter), 1)
    {
      counter := Add64(counter, 1);
      context := counter;
    }

    method Store(key: uint64, value: Value)
      modifies this`entries
      ensures entries == old(entries)[key := value]
    {
      entries := entries[key := value];
    }

    method Get(key: uint64) returns (value: Option<Value>)
      ensures value == if key in entries then Some(entries[key]) else None
    {
      if key in entries {
        value := Some(entries[key]);
      } else {
        value := None;
      }
    }

    method Delete(key: uint64)
      modifies this`entries
      ensures entries == old(entries) - {key}
    {
      entries := entries - {key};
    }

    /** The common head of every exported callback. */
    method Find(key: uint64, tag: Tag) returns (r: Dispatched)
      ensures r == Dispatch(entries, key, tag)
    {
      var value := Get(key);
      if value.None? {
        r := NoKey;
      } else if value.value.tag != tag {
        r := WrongType;
      } else {
        r := Callback(value.value.op);
      }
    }
  }
}
