/**
 * The backend connection the connector drives (the `backendConnection`
 * interface of ldap.go): a directory server seen through one session. The
 * server's contents are fixed; what the connector changes is the identity the
 * session is bound as, and every request it sends is recorded in `calls`, so
 * that the order of binds and searches, and their absence, can be stated.
 */
module Backend {
  import opened Results

  /** Search scopes of a search request. */
  datatype Scope = BaseObject | SingleLevel | WholeSubtree

  /** A search request: base DN, scope, filter, requested attributes, size limit. */
  datatype SearchRequest = SearchRequest(
    baseDN: string, scope: Scope, filter: string, attributes: seq<string>, sizeLimit: int)

  /** One attribute of an entry and its values. */
  datatype Attribute = Attribute(name: string, values: seq<string>)

  /** A directory entry: its DN and its attributes. */
  datatype Entry = Entry(dn: string, attributes: seq<Attribute>)

  /** A request as it reaches the server. */
  datatype Call = BindCall(dn: string, password: string) | SearchCall(request: SearchRequest)

  /** A search the server answers with an error instead of entries. */
  datatype SearchFailure = SearchFailure(request: SearchRequest)

  /**
   * The values of the first attribute of `e` named `name`, or none when `e`
   * has no such attribute (go-ldap's Entry.GetAttributeValues);
   * FirstValuesFirstMatch states both cases.
   */
  function AttributeValues(e: Entry, name: string): seq<string> {
    FirstValues(e.attributes, name)
  }

  /** The attribute at `k` is the first one in `attrs` named `name`. */
  predicate FirstNamed(attrs: seq<Attribute>, name: string, k: int) {
    0 <= k < |attrs| && attrs[k].name == name && forall m :: 0 <= m < k ==> attrs[m].name != name
  }

  /** The values of the first attribute of `attrs` named `name`, or none. */
  function FirstValues(attrs: seq<Attribute>, name: string): seq<string> {
    if attrs == [] then []
    else if attrs[0].name == name then attrs[0].values
    else FirstValues(attrs[1..], name)
  }

  /**
   * The values found are those of the first attribute with exactly that
   * name, and there are none when no attribute has that name.
   */
  lemma {:induction false} FirstValuesFirstMatch(attrs: seq<Attribute>, name: string)
    ensures (forall k :: 0 <= k < |attrs| ==> attrs[k].name != name) ==> FirstValues(attrs, name) == []
    ensures forall k :: FirstNamed(attrs, name, k) ==> FirstValues(attrs, name) == attrs[k].values
  {
    if attrs != [] && attrs[0].name != name {
      FirstValuesFirstMatch(attrs[1..], name);
      forall k | FirstNamed(attrs, name, k) ensures FirstNamed(attrs[1..], name, k - 1) {
        assert forall m :: 0 <= m < k - 1 ==> attrs[1..][m] == attrs[m + 1];
      }
      assert (forall k :: 0 <= k < |attrs| ==> attrs[k].name != name) ==>
             (forall k :: 0 <= k < |attrs[1..]| ==> attrs[1..][k].name != name);
    }
  }

  /** The attributes of `attrs` whose name is listed in `wanted`, in order. */
  function KeepAttributes(attrs: seq<Attribute>, wanted: seq<string>): (kept: seq<Attribute>)
    ensures forall a :: a in kept <==> a in attrs && a.name in wanted
  {
    if attrs == [] then []
    else (if attrs[0].name in wanted then [attrs[0]] else []) + KeepAttributes(attrs[1..], wanted)
  }

  /** An entry as returned for a request: all attributes when none are named, else only the named ones. */
  function Project(e: Entry, wanted: seq<string>): (p: Entry)
    ensures p.dn == e.dn
  {
    if wanted == [] then e else Entry(e.dn, KeepAttributes(e.attributes, wanted))
  }

  /**
   * A directory server: its entries, the password of each DN that may bind,
   * which entries a request selects (base, scope and filter together, as the
   * server evaluates them), and which requests it refuses, depending on the
   * identity the session is bound as.
   */
  datatype Server = Server(
    entries: seq<Entry>,
    credentials: map<string, string>,
    selects: (SearchRequest, Entry) -> bool,
    refuses: (Option<string>, SearchRequest) -> bool)
  {
    /** The server accepts a bind request with this DN and password. */
    predicate Accepts(dn: string, password: string) {
      dn in credentials && credentials[dn] == password
    }

    /**
     * A bind with this DN and password succeeds: go-ldap's Conn.Bind refuses
     * an empty password itself (ErrorEmptyPassword) without sending anything,
     * and otherwise the server decides.
     */
    predicate BindSucceeds(dn: string, password: string) {
      password != "" && Accepts(dn, password)
    }

    /**
     * The identity a session bound as `bound` has after a bind: unchanged when
     * the client refused an empty password, the DN when the server accepted
     * the bind, anonymous when it rejected it (section 4.2.1 of RFC 4511).
     */
    function BoundAfter(bound: Option<string>, dn: string, password: string): (after: Option<string>)
      ensures after == Some(dn) <==> BindSucceeds(dn, password) || (password == "" && bound == Some(dn))
      ensures password != "" && !BindSucceeds(dn, password) ==> after == None
      ensures password == "" ==> after == bound
    {
      if password == "" then bound else if Accepts(dn, password) then Some(dn) else None
    }

    /** The server's answer to `req` from a session bound as `bound`. */
    function Answer(bound: Option<string>, req: SearchRequest): (r: Result<seq<Entry>, SearchFailure>)
      ensures r.Err? <==> refuses(bound, req)
      ensures r.Ok? ==> |r.value| <= |entries|
    {
      if refuses(bound, req) then Err(SearchFailure(req)) else Ok(Select(entries, req))
    }

    /** The entries of `es` that `req` selects, in order, projected to the requested attributes. */
    function Select(es: seq<Entry>, req: SearchRequest): (sel: seq<Entry>)
      ensures |sel| <= |es|
      ensures forall e :: e in sel ==> exists k :: 0 <= k < |es| && selects(req, es[k]) && e == Project(es[k], req.attributes)
    {
      if es == [] then []
      else
        var rest := Select(es[1..], req);
        assert forall e :: e in rest ==> exists k :: 0 <= k < |es| && selects(req, es[k]) && e == Project(es[k], req.attributes) by {
          forall e | e in rest ensures exists k :: 0 <= k < |es| && selects(req, es[k]) && e == Project(es[k], req.attributes) {
            var k :| 0 <= k < |es[1..]| && selects(req, es[1..][k]) && e == Project(es[1..][k], req.attributes);
            assert es[k + 1] == es[1..][k];
          }
        }
        (if selects(req, es[0]) then [Project(es[0], req.attributes)] else []) + rest
    }

    /** Every entry the request selects is in the answer, projected to the requested attributes. */
    lemma {:induction false} SelectComplete(es: seq<Entry>, req: SearchRequest, k: nat)
      requires k < |es| && selects(req, es[k])
      ensures Project(es[k], req.attributes) in Select(es, req)
    {
      if k > 0 {
        SelectComplete(es[1..], req, k - 1);
        assert es[1..][k - 1] == es[k];
      }
    }

    /** When the request selects two different entries, the answer holds at least two. */
    lemma {:induction false} SelectAtLeastTwo(es: seq<Entry>, req: SearchRequest, i: nat, j: nat)
      requires i < j < |es| && selects(req, es[i]) && selects(req, es[j])
      ensures |Select(es, req)| >= 2
    {
      if i == 0 {
        SelectHasOne(es[1..], req, j - 1);
      } else {
        SelectAtLeastTwo(es[1..], req, i - 1, j - 1);
      }
    }

    /** When the request selects an entry, the answer is not empty. */
    lemma {:induction false} SelectHasOne(es: seq<Entry>, req: SearchRequest, k: nat)
      requires k < |es| && selects(req, es[k])
      ensures |Select(es, req)| >= 1
    {
      if k > 0 {
        SelectHasOne(es[1..], req, k - 1);
      }
    }

    /** When the request selects exactly the entry at `k`, the answer is that entry alone. */
    lemma {:induction false} SelectOnly(es: seq<Entry>, req: SearchRequest, k: nat)
      requires k < |es| && selects(req, es[k])
      requires forall m :: 0 <= m < |es| && m != k ==> !selects(req, es[m])
      ensures Select(es, req) == [Project(es[k], req.attributes)]
    {
      if k == 0 {
        SelectNone(es[1..], req);
      } else {
        SelectOnly(es[1..], req, k - 1);
      }
    }

    /** When the request selects no entry, the answer is empty. */
    lemma {:induction false} SelectNone(es: seq<Entry>, req: SearchRequest)
      requires forall m :: 0 <= m < |es| ==> !selects(req, es[m])
      ensures Select(es, req) == []
    {
      if es != [] {
        SelectNone(es[1..], req);
      }
    }
  }

  /** The requests a bind sends: none when the client refuses an empty password, else the bind itself. */
  function BindRequests(dn: string, password: string): (sent: seq<Call>)
    ensures sent == [] <==> password == ""
    ensures sent != [] ==> sent == [BindCall(dn, password)]
  {
    if password == "" then [] else [BindCall(dn, password)]
  }

  /**
   * One session with a server. `bound` is the DN the session is bound as
   * (None: anonymous); `calls` records every request sent, oldest first.
   */
  class BackendConnection {
    const server: Server
    var bound: Option<string>
    var calls: seq<Call>

    constructor (server: Server)
      ensures this.server == server && bound == None && calls == []
    {
      this.server := server;
      bound := None;
      calls := [];
    }

    /**
     * A simple bind (go-ldap's Conn.Bind). An empty password is refused by
     * the client: nothing is sent and the session keeps its identity.
     * Otherwise the request is sent; on success the session is bound as
     * `dn`, and a failed bind leaves it anonymous.
     */
    method Bind(dn: string, password: string) returns (ok: bool)
      modifies this
      ensures ok == server.BindSucceeds(dn, password)
      ensures bound == server.BoundAfter(old(bound), dn, password)
      ensures calls == old(calls) + BindRequests(dn, password)
    {
      if password == "" {
        return false;
      }
      ok := server.Accepts(dn, password);
      bound := if ok then Some(dn) else None;
      calls := calls + [BindCall(dn, password)];
    }

    /** A search, answered by the server as the session is currently bound; the binding is unchanged. */
    method Search(req: SearchRequest) returns (r: Result<seq<Entry>, SearchFailure>)
      modifies this
      ensures r == server.Answer(bound, req)
      ensures bound == old(bound)
      ensures calls == old(calls) + [SearchCall(req)]
    {
      r := server.Answer(bound, req);
      calls := calls + [SearchCall(req)];
    }
  }
}
