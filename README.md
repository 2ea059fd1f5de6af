# zatiti/router: the dispatch logic of `router.go`

`router` is a Go HTTP router built on a path trie. `router.go` holds the
`Router` type: `New(handler)` makes a router with an empty trie and a fallback
handler, `Add(method, path, handlers...)` hands a route to the trie's `insert`,
and `ServeHTTP(w, req)` serves one request. It attaches a fresh `url.Values`
bag to the request under `"params"` in the `gorilla/context` store, and
derives the search key from the URL path (split on `/`, drop the first piece,
re-join). It then asks the trie's `search` for a node, writing path parameters
into the bag, and reads the node's handler slice for the request method. A nil
slice runs the fallback and returns. Otherwise every handler of the slice runs
in order, and the request's context is cleared.

The trie itself (`newNode`, `insert`, `search`) is defined outside
`router.go` and is not part of this model. The trie is represented by the list
of `insert` calls it has received (`Router.Trie`). Its search is a
`Router.Lookup`, a function passed to `ServeHTTP`: from that list and the key
it gives the node found (its table from method to handler slice) and the
bindings the search leaves in the bag. Handlers and the response writer are
opaque identities. Running a handler adds a `Router.Call` to a trace. The call
records the handler, the writer, the request, and the bag that
`context.Get(req, "params")` would return at that moment.

Files:

- `strings.dfy`, module `Strings`: Go's `strings.Split` and `strings.Join` for
  a one-character separator, with their round trip.
- `http.dfy`, module `Http`: the request (a reference, as `*http.Request` is),
  the writer, and the `url.Values` bag (a reference to a map).
- `context.dfy`, module `Context`: the `gorilla/context` store as a class over
  a map from request to that request's entries, with `Set` and `Clear`.
- `router.dfy`, module `Router`: the search key, the handler loop, the trie
  stand-in, the `Router` class, and lemmas about the store over a sequence of
  requests.

Go distinguishes a nil slice from an empty one, and `ServeHTTP` tests
`handlers == nil`. So `Router.HandlerSlice` is `Nil | Slice(elems)`. A method
missing from the node's table reads as `Nil`. `Add` called with no handlers
passes a nil slice. A registered empty non-nil slice runs no handler, does not
run the fallback, and clears the context.

## Model

| member | source | states |
|---|---|---|
| `Strings.FirstIndex` | router.go:35 | the index of the first separator: in range exactly when the separator occurs, no separator before it, the length of the string when absent |
| `Strings.Split` | router.go:35 | `strings.Split`: one more piece than separators (so never empty, and `[1:]` cannot fail), and no piece contains the separator |
| `Strings.JoinSplit` | router.go:35 | `strings.Join` of `strings.Split` with the same separator gives the original string back |
| `Strings.SplitAtFirst` | router.go:35 | splitting gives the text before the first separator, then exactly the pieces of what follows it; no separator gives `[s]` |
| `Strings.Join` | router.go:36 | `strings.Join`: the first piece is a prefix of the result, and with two or more pieces a separator follows it |
| `Strings.SplitJoin` | router.go:35-36 | splitting a join of one or more separator-free pieces gives the pieces back |
| `Strings.SplitInjective` | router.go:35 | two strings with the same pieces are the same string, so splitting loses nothing |
| `Router.SearchKey` | router.go:35-36 | the key passed to `search` is the path minus everything up to and including its first `/`, and `""` when the path has no `/` (the empty path included) |
| `Router.SearchKeyKeepsSegments` | router.go:35-36 | for a path with a `/`, the key's segments are exactly the path's segments after the first, empty ones included |
| `Router.SearchKeyExample` | router.go:35-36 | `/a//b/` splits into `["", "a", "", "b", ""]` and is searched as `a//b/` |
| `Router.HandlersFor` | router.go:37-38 | `node.handlers[req.Method]` is nil exactly when the method is missing from the node's table or bound to a nil slice; otherwise it is the registered slice |
| `Router.Invoked` | router.go:42-44 | the handler ids of a trace, one per call, position by position |
| `Router.InvokedChain` | router.go:42-44 | a chain run in order invoked exactly the slice's handlers, in slice order, as the same sequence and the same multiset |
| `Router.InvokeChain` | router.go:42-44 | the loop runs every handler of the slice once per position, in order, with no short-circuit, each with the same writer and request and with the bag then attached to the request |
| `Router.Trie.constructor` | router.go:22 | `newNode()` yields a trie that has received no route |
| `Router.Trie.Insert` | router.go:28 | `insert` records method, path and handler slice as given, after the earlier registrations |
| `Router.Trie.Search` | router.go:36 | `search` returns the lookup's node for the key and leaves the lookup's bindings in the bag it was handed |
| `Router.Router.New` | router.go:21-23 | the router's fallback is the given handler and its trie is fresh and empty |
| `Router.Router.Add` | router.go:27-29 | `Add` forwards method, path and handlers unchanged to `insert`, appending exactly one registration |
| `Router.Router.ServeHTTP` | router.go:32-46 | a fresh bag holding the search's bindings; nil slice: exactly one fallback call, seeing the bag, and the bag still attached afterwards; otherwise: every handler runs in order, each seeing the bag, no fallback, and the request's context removed |
| `Router.Router.ServeHTTPReleasing` | router.go:32-46 | the same dispatch, with the request's context removed on both exit paths |
| `Router.AfterServing` | router.go:34-45 | what one request leaves in the store: nothing for it after a matched request (or any request, when releasing), its bag under `"params"` after a fallback as written |
| `Router.AfterAll` | router.go:32-46 | the store after a sequence of served requests; a request never served keeps its entries unchanged |
| `Router.Requests` | router.go:32 | the requests of a sequence of served requests, exactly |
| `Router.Leaked` | router.go:38-40 | the requests whose last serving took the fallback path; a subset of the served requests |
| `Router.LeakedIsLastFallback` | router.go:38-45 | a request is in `Leaked` exactly when some serving of it took the fallback path and it is not served again later |
| `Router.AsWrittenKeepsFallbackEntries` | router.go:38-45 | as written, after a sequence of requests the store's requests are exactly the never-served requests, whose entries are unchanged, plus the requests whose last visit ended in the fallback |
| `Router.ReleasingKeepsNoEntries` | router.go:45 | releasing on both paths, after a sequence of requests the store holds none of them |
| `Router.FallbackLeavesBag` | router.go:39-40 | a request served by the fallback still has its bag under `"params"` afterwards |
| `Context.Put` | router.go:34 | `context.Set(req, key, bag)` adds `req`, stores `bag` under `key`, keeps that request's other keys and leaves other requests alone |
| `Context.GetPut` | router.go:34 | reading back gives what was just set; other lookups are unchanged |
| `Context.GetCleared` | router.go:45 | after `Clear(req)` nothing is found for `req`; other requests are unaffected |
| `Context.Store.constructor` | router.go:34 | the store starts empty |
| `Context.Store.Set` | router.go:34 | `context.Set` updates the store as `Put` says |
| `Context.Store.Clear` | router.go:45 | `context.Clear(req)` removes every entry of `req` and nothing else |
| `Http.Values.constructor` | router.go:33 | `url.Values{}` is a fresh empty bag |
| `Http.Request.constructor` | router.go:32 | a request carries its method and URL path |

## Left out

- The trie: `newNode`, `insert` and `search` are not part of this model. So nothing is said about static-over-parameter precedence, backtracking, parameter binding, or how `insert` splits its path. `Lookup` is an arbitrary function of the registrations and the key.
- `Router.Trie.Search`: the search's second result is discarded by `ServeHTTP` and is not modelled. The lookup always yields a node, so a nil node (a Go panic at router.go:37) is not modelled.
- `Router.Trie.Search`: the bag ends up holding exactly the lookup's bindings. This is general, because the bag handed to `search` is always fresh and empty.
- `Router.Router.ServeHTTP`: the trie's search is a parameter of the call instead of being built into the trie, because its algorithm is not part of this model.
- Handlers and the fallback are opaque. The model assumes they do not touch the context store, and what they write to the response is not modelled. A nil fallback handler (a Go panic) is not modelled.
- Handlers are assumed to return normally. `ServeHTTP` has no `defer`, so a handler that panics (which `net/http` recovers per request) skips `context.Clear` at router.go:45 and leaves the request's entry in the store, the same leak as the fallback path; `Router.Router.ServeHTTP`'s matched-path store clause does not cover that case.
- `gorilla/context` is modelled only through `Set`, `Get` and `Clear`. Its internal locking and its per-request timestamps are left out. The only values stored are parameter bags.
- `url.Values` is modelled only as a mutable, string-keyed map of string lists.
- Concurrent `ServeHTTP` calls, and `Add` racing with `ServeHTTP`, are not modelled.
- Go strings are byte strings and the model works on characters. The only separator is the ASCII `/`, so the results are the same.
- `Add` passes the path to `insert` unsplit (router.go:28); how `insert` segments it is not part of this model.
- The fallback branch returns at router.go:40, before the release at router.go:45, so the parameter bag is not released on that path. The model follows the code, and the point is recorded under Findings.

## Findings

| source | as written | input that shows it | evidently intended | confidence | as-written member | corrected member |
|---|---|---|---|---|---|---|
| router.go:38-45 | the fallback branch returns before `context.Clear(req)`, so the request's `"params"` entry stays in the process-wide store | any request whose method has no handler slice at the matched node, e.g. a `DELETE` on a path registered only for `GET`: afterwards the store still maps that request to its bag | the request's context is cleared on both exit paths, as the matched path does | medium, not executed | `Router.Router.ServeHTTP`, `Router.FallbackLeavesBag`, `Router.AsWrittenKeepsFallbackEntries` | `Router.Router.ServeHTTPReleasing`, `Router.ReleasingKeepsNoEntries` |
