/**
 * The router of router.go: a `Router` holds the route trie and a fallback
 * handler; `Add` registers a route with the trie, and `ServeHTTP` attaches a
 * fresh parameter bag to the request, derives the search key from the path,
 * asks the trie for the matching node and runs that node's handlers for the
 * request method, or the fallback when there are none.
 *
 * The trie's own insertion and search algorithms are not part of this model.
 * The trie is represented by the list of registrations it has received, and
 * its search by a `Lookup` function of that list and the key, which gives the
 * node found and the parameter bindings the search writes into the bag.
 * Handlers are opaque: running one is recorded as a `Call` in a trace.
 */
module Router {
  import opened Strings
  import opened Http
  import opened Context

  /** A handler function, known only by its identity. */
  type HandlerId = nat

  /**
   * A Go `[]Handler`. Go tells a nil slice (what a variadic parameter holds
   * when no argument is passed) from an empty one, and `ServeHTTP` tests for
   * nil, so the model keeps both.
   */
  datatype HandlerSlice = Nil | Slice(elems: seq<HandlerId>)

  /** The arguments of one `insert` call on the trie. */
  datatype Route = Route(verb: string, path: string, handlers: HandlerSlice)

  /** A trie node as `ServeHTTP` uses it: its table from method to handlers. */
  datatype Node = Node(handlers: map<string, HandlerSlice>)

  /** What a search yields: the node reached and the bindings put in the bag. */
  datatype Match = Match(node: Node, bindings: map<string, seq<string>>)

  /** The trie's search, as a function of the registrations and the key. */
  type Lookup = (seq<Route>, string) -> Match

  /**
   * One handler invocation: which handler, with which writer and request, and
   * which bag a `context.Get(req, "params")` inside it would find.
   */
  datatype Call = Call(handler: HandlerId, w: Writer, req: Request, params: Option<Values>)

  /** The key under which the parameter bag is attached to the request. */
  const ParamsKey := "params"

  /**
   * `strings.Join(strings.Split(path, "/")[1:], "/")`, the key handed to the
   * trie's search: the path with everything up to and including its first
   * '/' removed, and the empty string when the path holds no '/'.
   */
  function SearchKey(path: string): (key: string)
    ensures var i := FirstIndex(path, '/');
      key == if i < |path| then path[i + 1..] else ""
  {
    var i := FirstIndex(path, '/');
    var rest := if i < |path| then path[i + 1..] else "";
    SplitAtFirst(path, '/');
    JoinSplit(rest, '/');
    Join(Split(path, '/')[1..], '/')
  }

  /**
   * Nothing but the first piece is lost: the key splits into exactly the
   * pieces of the path after the first, empty pieces included.
   */
  lemma SearchKeyKeepsSegments(path: string)
    requires '/' in path
    ensures Split(SearchKey(path), '/') == Split(path, '/')[1..]
  {
    SplitAtFirst(path, '/');
  }

  /** Interior and trailing empty segments survive: "/a//b/" is searched as "a//b/". */
  lemma SearchKeyExample()
    ensures Split("/a//b/", '/') == ["", "a", "", "b", ""]
    ensures SearchKey("/a//b/") == "a//b/"
  {
    assert Split("/", '/') == ["", ""];
    assert "b/"[1..] == "/" && ['b'] + "" == "b";
    assert Split("b/", '/') == ["b", ""];
    assert Split("/b/", '/') == ["", "b", ""];
    assert Split("//b/", '/') == ["", "", "b", ""];
    assert "a//b/"[1..] == "//b/" && ['a'] + "" == "a";
    assert Split("a//b/", '/') == ["a", "", "b", ""];
    assert FirstIndex("/a//b/", '/') == 0;
    assert "/a//b/"[1..] == "a//b/";
  }

  /**
   * `node.handlers[req.Method]`: a missing method reads as a nil slice, so the
   * result is nil exactly when the method is absent or bound to nil.
   */
  function HandlersFor(node: Node, verb: string): (hs: HandlerSlice)
    ensures hs != Nil <==> verb in node.handlers && node.handlers[verb] != Nil
    ensures hs != Nil ==> hs == node.handlers[verb]
  {
    if verb in node.handlers then node.handlers[verb] else Nil
  }

  /**
   * `trace` is one call per handler of `hs`, in slice order, each with the
   * same writer, request and visible bag.
   */
  predicate RanInOrder(trace: seq<Call>, hs: seq<HandlerId>, w: Writer, req: Request, params: Option<Values>)
  {
    |trace| == |hs| && forall k :: 0 <= k < |hs| ==> trace[k] == Call(hs[k], w, req, params)
  }

  /** The handler ids of a trace, in the order they ran. */
  function Invoked(trace: seq<Call>): (ids: seq<HandlerId>)
    ensures |ids| == |trace|
    ensures forall k :: 0 <= k < |trace| ==> ids[k] == trace[k].handler
  {
    if |trace| == 0 then [] else [trace[0].handler] + Invoked(trace[1..])
  }

  /**
   * A chain that ran in order invoked exactly the handlers of the slice: the
   * same ids, in the same order, each position once.
   */
  lemma {:induction false} InvokedChain(trace: seq<Call>, hs: seq<HandlerId>, w: Writer, req: Request, params: Option<Values>)
    requires RanInOrder(trace, hs, w, req, params)
    ensures Invoked(trace) == hs
    ensures multiset(Invoked(trace)) == multiset(hs)
  {
    if |hs| > 0 {
      InvokedChain(trace[1..], hs[1..], w, req, params);
      assert hs == [hs[0]] + hs[1..];
    }
  }

  /**
   * The loop `for _, h := range handlers { h(w, req) }`: every handler runs,
   * in order, with no short-circuit. Handlers do not change the store.
   */
  method InvokeChain(hs: seq<HandlerId>, w: Writer, req: Request, store: Store) returns (trace: seq<Call>)
    ensures RanInOrder(trace, hs, w, req, Get(store.data, req, ParamsKey))
  {
    var params := Get(store.data, req, ParamsKey);
    trace := [];
    var i := 0;
    while i < |hs|
      invariant 0 <= i <= |hs|
      invariant RanInOrder(trace, hs[..i], w, req, params)
    {
      trace := trace + [Call(hs[i], w, req, params)];
      i := i + 1;
    }
    assert hs[..i] == hs;
  }

  /**
   * The root `*node`: it has received the registrations `routes`, in order,
   * and answers searches through a `Lookup` over them.
   */
  class Trie {
    var routes: seq<Route>

    /** `newNode()`: a root that has received no registration. */
    constructor ()
      ensures routes == []
    {
      routes := [];
    }

    /** `insert(method, path, handlers...)`. */
    method Insert(verb: string, path: string, handlers: HandlerSlice)
      modifies this
      ensures routes == old(routes) + [Route(verb, path, handlers)]
    {
      routes := routes + [Route(verb, path, handlers)];
    }

    /** `search(key, params)`: the node found, with the bindings written into `params`. */
    method Search(key: string, params: Values, lookup: Lookup) returns (node: Node)
      modifies params
      ensures node == lookup(routes, key).node
      ensures params.entries == lookup(routes, key).bindings
    {
      var found := lookup(routes, key);
      params.entries := found.bindings;
      node := found.node;
    }
  }

  /** What one served request leaves in the store, for the code as written or with release on both paths. */
  function AfterServing(data: Entries, s: Served, releasing: bool): (r: Entries)
    ensures s.matched || releasing ==> r == data - {s.req}
    ensures !s.matched && !releasing ==> Get(r, s.req, ParamsKey) == Some(s.bag)
  {
    if s.matched || releasing then Put(data, s.req, ParamsKey, s.bag) - {s.req}
    else Put(data, s.req, ParamsKey, s.bag)
  }

  /** One served request: the request, the bag attached to it, and whether a handler slice was found. */
  datatype Served = Served(req: Request, bag: Values, matched: bool)

  /**
   * The store after serving the requests of `ss` one after the other: a
   * request that is never served keeps its entries untouched.
   */
  function AfterAll(data: Entries, ss: seq<Served>, releasing: bool): (r: Entries)
    ensures forall q :: q in data && q !in Requests(ss) ==> q in r && r[q] == data[q]
    decreases |ss|
  {
    if |ss| == 0 then data else AfterAll(AfterServing(data, ss[0], releasing), ss[1..], releasing)
  }

  /** The requests of `ss`. */
  function Requests(ss: seq<Served>): (rs: set<Request>)
    ensures forall i :: 0 <= i < |ss| ==> ss[i].req in rs
    ensures forall r :: r in rs ==> exists i :: 0 <= i < |ss| && ss[i].req == r
  {
    if |ss| == 0 then {} else {ss[0].req} + Requests(ss[1..])
  }

  /** The requests of `ss` whose last serving took the fallback path. */
  function Leaked(ss: seq<Served>): (rs: set<Request>)
    ensures rs <= Requests(ss)
  {
    if |ss| == 0 then {}
    else (if !ss[0].matched && ss[0].req !in Requests(ss[1..]) then {ss[0].req} else {}) + Leaked(ss[1..])
  }

  /** The `i`th serving of `ss` took the fallback path and its request is not served again. */
  predicate LastVisitFallback(ss: seq<Served>, i: int)
    requires 0 <= i < |ss|
  {
    !ss[i].matched && forall j :: i < j < |ss| ==> ss[j].req != ss[i].req
  }

  /** `Leaked` holds exactly the requests whose last serving took the fallback path. */
  lemma {:induction false} LeakedIsLastFallback(ss: seq<Served>, r: Request)
    ensures r in Leaked(ss) <==> exists i :: 0 <= i < |ss| && ss[i].req == r && LastVisitFallback(ss, i)
    decreases |ss|
  {
    if |ss| > 0 {
      var t := ss[1..];
      LeakedIsLastFallback(t, r);
      forall i | 0 <= i < |t|
        ensures LastVisitFallback(t, i) <==> LastVisitFallback(ss, i + 1)
      {
        assert forall j :: i < j < |t| ==> t[j] == ss[j + 1];
        assert forall j :: i + 1 < j < |ss| ==> ss[j] == t[j - 1];
      }
      if ss[0].req in Requests(t) {
        var j :| 0 <= j < |t| && t[j].req == ss[0].req;
        assert ss[j + 1].req == ss[0].req;
        assert !LastVisitFallback(ss, 0);
      } else {
        assert forall j :: 0 < j < |ss| ==> ss[j].req == t[j - 1].req;
      }
      if r in Leaked(ss) {
        if r in Leaked(t) {
          var i :| 0 <= i < |t| && t[i].req == r && LastVisitFallback(t, i);
          assert ss[i + 1].req == r && LastVisitFallback(ss, i + 1);
        } else {
          assert ss[0].req == r && LastVisitFallback(ss, 0);
        }
      }
      if exists i :: 0 <= i < |ss| && ss[i].req == r && LastVisitFallback(ss, i) {
        var i :| 0 <= i < |ss| && ss[i].req == r && LastVisitFallback(ss, i);
        if i > 0 {
          assert t[i - 1].req == r && LastVisitFallback(t, i - 1);
        }
      }
    }
  }

  /**
   * As written, a sequence of requests leaves behind an entry for exactly the
   * requests whose last visit ended in the fallback, on top of the entries of
   * requests it never saw.
   */
  lemma {:induction false} AsWrittenKeepsFallbackEntries(data: Entries, ss: seq<Served>)
    ensures AfterAll(data, ss, false).Keys == (data.Keys - Requests(ss)) + Leaked(ss)
    ensures forall q :: q in data && q !in Requests(ss) ==> AfterAll(data, ss, false)[q] == data[q]
    decreases |ss|
  {
    if |ss| > 0 {
      AsWrittenKeepsFallbackEntries(AfterServing(data, ss[0], false), ss[1..]);
    }
  }

  /** Releasing on both paths, a sequence of requests leaves no entry for any of them. */
  lemma {:induction false} ReleasingKeepsNoEntries(data: Entries, ss: seq<Served>)
    ensures AfterAll(data, ss, true).Keys == data.Keys - Requests(ss)
    decreases |ss|
  {
    if |ss| > 0 {
      ReleasingKeepsNoEntries(AfterServing(data, ss[0], true), ss[1..]);
    }
  }

  /** A request that took the fallback still has its bag attached afterwards. */
  lemma FallbackLeavesBag(data: Entries, req: Request, bag: Values)
    ensures req in AfterAll(data, [Served(req, bag, false)], false)
    ensures Get(AfterAll(data, [Served(req, bag, false)], false), req, ParamsKey) == Some(bag)
  {
    assert [Served(req, bag, false)][1..] == [];
  }

  class Router {
    const tree: Trie
    /** The fallback handler (the `handler` field of the Go struct). */
    const fallback: HandlerId

    /** `New(handler)`: a fresh, empty trie and the given fallback. */
    constructor New(handler: HandlerId)
      ensures fallback == handler
      ensures fresh(tree) && tree.routes == []
    {
      tree := new Trie();
      fallback := handler;
    }

    /** `Add(method, path, handlers...)`: the arguments go to `insert` unchanged. */
    method Add(verb: string, path: string, handlers: HandlerSlice)
      modifies tree
      ensures tree.routes == old(tree.routes) + [Route(verb, path, handlers)]
    {
      tree.Insert(verb, path, handlers);
    }

    /**
     * `ServeHTTP(w, req)` as written: on the fallback path it returns before
     * `context.Clear`, so the bag stays attached to the request.
     */
    method ServeHTTP(w: Writer, req: Request, store: Store, lookup: Lookup) returns (trace: seq<Call>, params: Values)
      modifies store
      ensures fresh(params)
      ensures params.entries == lookup(tree.routes, SearchKey(req.path)).bindings
      ensures match HandlersFor(lookup(tree.routes, SearchKey(req.path)).node, req.verb)
        case Nil =>
          && trace == [Call(fallback, w, req, Some(params))]
          && store.data == Put(old(store.data), req, ParamsKey, params)
        case Slice(hs) =>
          && RanInOrder(trace, hs, w, req, Some(params))
          && store.data == old(store.data) - {req}
      ensures store.data == AfterServing(old(store.data),
        Served(req, params, HandlersFor(lookup(tree.routes, SearchKey(req.path)).node, req.verb).Slice?), false)
    {
      params := new Values();
      store.Set(req, ParamsKey, params);
      var key := SearchKey(req.path);
      var node := tree.Search(key, params, lookup);
      var handlers := HandlersFor(node, req.verb);
      if handlers == Nil {
        trace := [Call(fallback, w, req, Get(store.data, req, ParamsKey))];
        return;
      }
      trace := InvokeChain(handlers.elems, w, req, store);
      store.Clear(req);
    }

    /** `ServeHTTP` with the bag released on the fallback path as well. */
    method ServeHTTPReleasing(w: Writer, req: Request, store: Store, lookup: Lookup) returns (trace: seq<Call>, params: Values)
      modifies store
      ensures fresh(params)
      ensures params.entries == lookup(tree.routes, SearchKey(req.path)).bindings
      ensures match HandlersFor(lookup(tree.routes, SearchKey(req.path)).node, req.verb)
        case Nil => trace == [Call(fallback, w, req, Some(params))]
        case Slice(hs) => RanInOrder(trace, hs, w, req, Some(params))
      ensures store.data == old(store.data) - {req}
      ensures store.data == AfterServing(old(store.data),
        Served(req, params, HandlersFor(lookup(tree.routes, SearchKey(req.path)).node, req.verb).Slice?), true)
    {
      params := new Values();
      store.Set(req, ParamsKey, params);
      var key := SearchKey(req.path);
      var node := tree.Search(key, params, lookup);
      var handlers := HandlersFor(node, req.verb);
      if handlers == Nil {
        trace := [Call(fallback, w, req, Get(store.data, req, ParamsKey))];
        store.Clear(req);
        return;
      }
      trace := InvokeChain(handlers.elems, w, req, store);
      store.Clear(req);
    }
  }
}
