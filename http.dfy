/**
 * The transport types the router touches, reduced to what it reads of them:
 * the request's identity, method and URL path, an opaque response writer, and
 * the `net/url.Values` bag that holds path parameters.
 */
module Http {

  /** An `http.ResponseWriter`, known only by its identity. */
  datatype Writer = Writer(id: nat)

  /**
   * An `*http.Request`. It is a reference: the context store is keyed by the
   * request object itself, not by its contents.
   */
  class Request {
    const verb: string
    const path: string

    constructor (verb: string, path: string)
      ensures this.verb == verb && this.path == path
    {
      this.verb := verb;
      this.path := path;
    }
  }

  /** A `url.Values` bag: a reference to a map from names to lists of values. */
  class Values {
    var entries: map<string, seq<string>>

    /** `url.Values{}`: a fresh, empty bag. */
    constructor ()
      ensures entries == map[]
    {
      entries := map[];
    }
  }
}
