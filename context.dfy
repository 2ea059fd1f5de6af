/**
 * The request-scoped key/value store of `gorilla/context`, reduced to the two
 * calls the router makes: `Set(req, key, value)` and `Clear(req)`. The store
 * is a map from request objects to that request's own map of entries; the only
 * values the router ever stores are parameter bags.
 */
module Context {
  import opened Http

  datatype Option<T> = None | Some(value: T)

  type Entries = map<Request, map<string, Values>>

  /** The store after `Set(req, key, bag)`: one entry of one request replaced. */
  function Put(data: Entries, req: Request, key: string, bag: Values): (r: Entries)
    ensures r.Keys == data.Keys + {req}
    ensures key in r[req] && r[req][key] == bag
    ensures r[req].Keys == (if req in data then data[req].Keys else {}) + {key}
    ensures req in data ==> forall k :: k in data[req] && k != key ==> r[req][k] == data[req][k]
    ensures forall q :: q in data && q != req ==> r[q] == data[q]
  {
    var entries: map<string, Values> := if req in data then data[req] else map[];
    data[req := entries[key := bag]]
  }

  /** What `Get(req, key)` answers: the stored bag, or nothing. */
  function Get(data: Entries, req: Request, key: string): Option<Values>
  {
    if req in data && key in data[req] then Some(data[req][key]) else None
  }

  /** Reading back what was just set gives it back; other requests are not affected. */
  lemma GetPut(data: Entries, req: Request, key: string, bag: Values, q: Request, k: string)
    ensures Get(Put(data, req, key, bag), q, k) ==
      if q == req && k == key then Some(bag) else Get(data, q, k)
  {
  }

  /** After `Clear(req)` nothing is stored for `req`, and other requests keep their entries. */
  lemma GetCleared(data: Entries, req: Request, q: Request, k: string)
    ensures Get(data - {req}, q, k) == if q == req then None else Get(data, q, k)
  {
  }

  /** The process-wide store. */
  class Store {
    var data: Entries

    constructor ()
      ensures data == map[]
    {
      data := map[];
    }

    /** `context.Set(req, key, bag)`. */
    method Set(req: Request, key: string, bag: Values)
      modifies this
      ensures data == Put(old(data), req, key, bag)
    {
      data := Put(data, req, key, bag);
    }

    /** `context.Clear(req)`: every entry of `req` is dropped. */
    method Clear(req: Request)
      modifies this
      ensures data == old(data) - {req}
      ensures req !in data
    {
      data := data - {req};
    }
  }
}
