/**
 * The client: configuration checked once at construction, a connect loop
 * that fails over across endpoint URLs, and on a connection the lookup of a
 * user's DN and the verification of a user's password.
 */
module LdapClient {
  import opened Results
  import opened External
  import opened Backend

  const DefaultGroupFilter: string := "(|(memberUid={{.Username}})(member={{.UserDN}})(uniqueMember={{.UserDN}}))"
  const DefaultUserAttr: string := "cn"
  /** The size limit every search sends (math.MaxInt32), in effect no limit. */
  const MaxInt32: int := 0x7fff_ffff

  /** The connector's configuration, as the host supplies it. */
  datatype Config = Config(
    urls: seq<string>,
    insecure: bool,
    customCA: string,
    startTLS: bool,
    timeout: int,
    bindDN: string,
    bindPassword: string,
    userDN: string,
    userAttr: string,
    upnDomain: string,
    groupDN: string,
    groupFilter: string,
    groupAttr: string)

  /** The required field a rejected configuration leaves empty. */
  datatype ConfigError = EmptyGroupDN | EmptyUserDN | EmptyBindDN | EmptyBindPassword

  /** A client: its configuration and the library code its connections call. */
  datatype Client = Client(config: Config, lib: Library)

  /** What every client's configuration satisfies. */
  predicate ValidConfig(c: Config) {
    && c.groupDN != "" && c.userDN != "" && c.bindDN != "" && c.bindPassword != ""
    && c.userAttr != "" && c.groupFilter != ""
  }

  /**
   * NewClient: reject a configuration with an empty GroupDN, UserDN, BindDN
   * or BindPassword, checked in that order; default an empty GroupFilter and
   * an empty UserAttr; copy every other field.
   */
  function NewClient(config: Config, lib: Library): (r: Result<Client, ConfigError>)
    ensures r.Ok? <==> config.groupDN != "" && config.userDN != "" && config.bindDN != "" && config.bindPassword != ""
    ensures r == Err(EmptyGroupDN) <==> config.groupDN == ""
    ensures r == Err(EmptyUserDN) <==> config.groupDN != "" && config.userDN == ""
    ensures r == Err(EmptyBindDN) <==> config.groupDN != "" && config.userDN != "" && config.bindDN == ""
    ensures r == Err(EmptyBindPassword) <==>
              config.groupDN != "" && config.userDN != "" && config.bindDN != "" && config.bindPassword == ""
    ensures r.Ok? ==> r.value.lib == lib && ValidConfig(r.value.config)
    ensures r.Ok? ==> r.value.config.groupFilter == (if config.groupFilter == "" then DefaultGroupFilter else config.groupFilter)
    ensures r.Ok? ==> r.value.config.userAttr == (if config.userAttr == "" then DefaultUserAttr else config.userAttr)
    ensures r.Ok? ==> r.value.config.(groupFilter := config.groupFilter, userAttr := config.userAttr) == config
  {
    var config := if config.groupFilter == "" then config.(groupFilter := DefaultGroupFilter) else config;
    if config.groupDN == "" then Err(EmptyGroupDN)
    else
      var config := if config.userAttr == "" then config.(userAttr := DefaultUserAttr) else config;
      if config.userDN == "" then Err(EmptyUserDN)
      else if config.bindDN == "" then Err(EmptyBindDN)
      else if config.bindPassword == "" then Err(EmptyBindPassword)
      else Ok(Client(config, lib))
  }

  /** Constructing a client from a client's own configuration changes nothing. */
  lemma NewClientIdempotent(config: Config, lib: Library)
    requires NewClient(config, lib).Ok?
    ensures NewClient(NewClient(config, lib).value.config, lib) == NewClient(config, lib)
  {
  }

  /** What dialling one URL gives: a session with a server, or the reason it failed. */
  datatype DialOutcome = Dialed(server: Server) | DialFailed(cause: string)

  /**
   * The network as the client sees it: each URL's dial (TLS setup, the dial
   * itself, StartTLS and the timeout together) has a fixed outcome, and every
   * URL dialled is recorded in order.
   */
  class Network {
    const outcome: string -> DialOutcome
    var dialled: seq<string>

    constructor (outcome: string -> DialOutcome)
      ensures this.outcome == outcome && dialled == []
    {
      this.outcome := outcome;
      dialled := [];
    }

    /** Dial one URL: a fresh, anonymous session with the server it reaches, or the failure's cause. */
    method Dial(url: string) returns (r: Result<BackendConnection, string>)
      modifies this
      ensures r.Ok? <==> outcome(url).Dialed?
      ensures r.Ok? ==> fresh(r.value) && r.value.server == outcome(url).server
      ensures r.Ok? ==> r.value.bound == None && r.value.calls == []
      ensures r.Err? ==> r.error == outcome(url).cause
      ensures dialled == old(dialled) + [url]
    {
      dialled := dialled + [url];
      match outcome(url)
      case Dialed(server) =>
        var session := new BackendConnection(server);
        r := Ok(session);
      case DialFailed(cause) =>
        r := Err(cause);
    }
  }

  /** The causes of failed dials of `urls`, one per URL, in order. */
  function DialCauses(urls: seq<string>, outcome: string -> DialOutcome): (causes: seq<string>)
    requires forall j :: 0 <= j < |urls| ==> outcome(urls[j]).DialFailed?
    ensures |causes| == |urls|
  {
    seq(|urls|, j requires 0 <= j < |urls| => outcome(urls[j]).cause)
  }

  /**
   * Connect: dial the configured URLs in order and return a connection over
   * the first session established; later URLs are not dialled. When every
   * dial fails the error lists each URL's cause in order; with no URLs there
   * is neither a connection nor an error.
   */
  method Connect(client: Client, net: Network) returns (conn: Connection?, err: Option<seq<string>>)
    modifies net
    ensures var urls, k := client.config.urls, FirstReachable(client.config.urls, net.outcome);
            && (k.Some? ==> conn != null && fresh(conn) && fresh(conn.backend) && err == None)
            && (k.Some? ==> conn.client == client && conn.backend.server == net.outcome(urls[k.value]).server)
            && (k.Some? ==> conn.backend.bound == None && conn.backend.calls == [])
            && (k.Some? ==> net.dialled == old(net.dialled) + urls[..k.value + 1])
            && (k.None? ==> conn == null && net.dialled == old(net.dialled) + urls)
            && (k.None? ==> err == if urls == [] then None else Some(DialCauses(urls, net.outcome)))
  {
    var urls := client.config.urls;
    var multiErr: Option<seq<string>> := None;
    var i := 0;
    while i < |urls|
      invariant 0 <= i <= |urls|
      invariant net.dialled == old(net.dialled) + urls[..i]
      invariant forall j :: 0 <= j < i ==> net.outcome(urls[j]).DialFailed?
      invariant multiErr == if i == 0 then None else Some(DialCauses(urls[..i], net.outcome))
    {
      var dialled := net.Dial(urls[i]);
      if dialled.Err? {
        multiErr := Some((if multiErr.None? then [] else multiErr.value) + [dialled.error]);
        DialCausesSnoc(urls, net.outcome, i);
        assert urls[..i + 1] == urls[..i] + [urls[i]];
        i := i + 1;
        continue;
      }
      assert FirstReachable(urls, net.outcome) == Some(i) by {
        FirstReachableIs(urls, net.outcome, i);
      }
      conn := new Connection(dialled.value, client);
      return conn, None;
    }
    assert urls[..i] == urls;
    return null, multiErr;
  }

  /** The first successful dial after a run of failures is the first reachable URL. */
  lemma {:induction false} FirstReachableIs(urls: seq<string>, outcome: string -> DialOutcome, i: nat)
    requires i < |urls| && outcome(urls[i]).Dialed?
    requires forall j :: 0 <= j < i ==> outcome(urls[j]).DialFailed?
    ensures FirstReachable(urls, outcome) == Some(i)
  {
    if i > 0 {
      assert outcome(urls[0]).DialFailed?;
      FirstReachableIs(urls[1..], outcome, i - 1);
    }
  }

  /** The causes for one more URL are the causes so far and that URL's. */
  lemma DialCausesSnoc(urls: seq<string>, outcome: string -> DialOutcome, i: nat)
    requires i < |urls| && forall j :: 0 <= j <= i ==> outcome(urls[j]).DialFailed?
    ensures DialCauses(urls[..i + 1], outcome) == DialCauses(urls[..i], outcome) + [outcome(urls[i]).cause]
  {
    assert urls[..i + 1][..i] == urls[..i];
  }

  /** The index of the first URL whose dial succeeds, if any. */
  function FirstReachable(urls: seq<string>, outcome: string -> DialOutcome): (k: Option<nat>)
    ensures k.Some? ==> k.value < |urls| && outcome(urls[k.value]).Dialed?
    ensures k.Some? ==> forall j :: 0 <= j < k.value ==> outcome(urls[j]).DialFailed?
    ensures k.None? <==> forall j :: 0 <= j < |urls| ==> outcome(urls[j]).DialFailed?
  {
    if urls == [] then None
    else if outcome(urls[0]).Dialed? then Some(0)
    else
      match FirstReachable(urls[1..], outcome)
      case None => None
      case Some(k) => Some(k + 1)
  }

  /** One live session and the client it came from. */
  class Connection {
    const backend: BackendConnection
    const client: Client

    constructor (backend: BackendConnection, client: Client)
      ensures this.backend == backend && this.client == client
    {
      this.backend := backend;
      this.client := client;
    }

    /**
     * usernameToDN: bind as the service account, search under UserDN for the
     * user, and return the DN of the one entry found.
     */
    method UsernameToDN(username: string) returns (r: Result<string, LookupError>)
      modifies backend
      ensures r == Resolve(backend.server, client, username)
      ensures backend.calls == old(backend.calls) + ResolveCalls(backend.server, client, username)
      ensures backend.bound == backend.server.BoundAfter(old(backend.bound), client.config.bindDN, client.config.bindPassword)
    {
      var config := client.config;
      var ok := backend.Bind(config.bindDN, config.bindPassword);
      if !ok {
        return Err(ServiceBindFailed);
      }
      var filter: string;
      if config.upnDomain != "" {
        filter := "(userPrincipalName=" + client.lib.escapeFilter(username) + "@" + config.upnDomain + ")";
      } else {
        filter := "(" + config.userAttr + "=" + client.lib.escapeFilter(username) + ")";
      }
      if config.upnDomain != "" {
        filter := "(userPrincipalName=" + client.lib.escapeFilter(username) + "@" + config.upnDomain + ")";
      }
      assert filter == UserFilter(client, username);
      var result := backend.Search(SearchRequest(config.userDN, WholeSubtree, filter, [], MaxInt32));
      if result.Err? {
        return Err(UserSearchFailed);
      }
      if |result.value| != 1 {
        return Err(NotExactlyOne(|result.value|));
      }
      return Ok(result.value[0].dn);
    }

    /**
     * CheckAuth: resolve the user's DN, then bind as that DN with the given
     * password on the same session.
     */
    method CheckAuth(username: string, password: string) returns (r: Outcome<AuthError>)
      modifies backend
      ensures r == Authenticate(backend.server, client, username, password)
      ensures backend.calls == old(backend.calls) + AuthCalls(backend.server, client, username, password)
      ensures var dn := Resolve(backend.server, client, username);
              backend.bound == if dn.Ok? then backend.server.BoundAfter(Some(client.config.bindDN), dn.value, password)
                               else backend.server.BoundAfter(old(backend.bound), client.config.bindDN, client.config.bindPassword)
    {
      var userDN := UsernameToDN(username);
      if userDN.Err? {
        return Fail(UserNotFound(userDN.error));
      }
      var ok := backend.Bind(userDN.value, password);
      if !ok {
        return Fail(InvalidCredentials);
      }
      return Pass;
    }
  }

  /** Why a user's DN could not be found. */
  datatype LookupError = ServiceBindFailed | UserSearchFailed | NotExactlyOne(count: nat)

  /** Why a password check failed: the user was not found, or the user's bind was refused. */
  datatype AuthError = UserNotFound(cause: LookupError) | InvalidCredentials

  /**
   * The filter that finds a user: by userPrincipalName when a UPN domain is
   * configured, by the configured attribute otherwise; the username always
   * goes through filter escaping.
   */
  function UserFilter(client: Client, username: string): (f: string)
    ensures var attr := if client.config.upnDomain != "" then "userPrincipalName" else client.config.userAttr;
            var value := client.lib.escapeFilter(username)
                         + (if client.config.upnDomain != "" then "@" + client.config.upnDomain else "");
            f == "(" + attr + "=" + value + ")"
    ensures |f| >= 3 && f[0] == '(' && f[|f| - 1] == ')'
  {
    var esc := client.lib.escapeFilter(username);
    if client.config.upnDomain != "" then "(userPrincipalName=" + esc + "@" + client.config.upnDomain + ")"
    else "(" + client.config.userAttr + "=" + esc + ")"
  }

  /** The user search: a subtree search under UserDN, all attributes, no size cap. */
  function UserSearch(client: Client, username: string): (req: SearchRequest)
    ensures req.baseDN == client.config.userDN && req.scope == WholeSubtree && req.filter == UserFilter(client, username)
    ensures req.attributes == [] && req.sizeLimit == MaxInt32
  {
    SearchRequest(client.config.userDN, WholeSubtree, UserFilter(client, username), [], MaxInt32)
  }

  /**
   * The requests a DN lookup sends: the service bind (unless the client
   * refuses an empty BindPassword), then the user search only if the bind
   * succeeded.
   */
  function ResolveCalls(server: Server, client: Client, username: string): (calls: seq<Call>)
    ensures server.BindSucceeds(client.config.bindDN, client.config.bindPassword) <==>
            calls == [BindCall(client.config.bindDN, client.config.bindPassword), SearchCall(UserSearch(client, username))]
    ensures forall c :: c in calls && c.SearchCall? ==> c.request == UserSearch(client, username)
  {
    BindRequests(client.config.bindDN, client.config.bindPassword)
      + if server.BindSucceeds(client.config.bindDN, client.config.bindPassword) then [SearchCall(UserSearch(client, username))] else []
  }

  /** The outcome of a DN lookup against `server`. */
  function Resolve(server: Server, client: Client, username: string): (r: Result<string, LookupError>)
    ensures r.Ok? ==> server.BindSucceeds(client.config.bindDN, client.config.bindPassword)
    ensures r.Ok? ==> exists k :: 0 <= k < |server.entries| && server.entries[k].dn == r.value
                                  && server.selects(UserSearch(client, username), server.entries[k])
  {
    if !server.BindSucceeds(client.config.bindDN, client.config.bindPassword) then Err(ServiceBindFailed)
    else
      match server.Answer(Some(client.config.bindDN), UserSearch(client, username))
      case Err(_) => Err(UserSearchFailed)
      case Ok(es) => if |es| == 1 then (assert es[0] in es; Ok(es[0].dn)) else Err(NotExactlyOne(|es|))
  }

  /**
   * The outcome of a password check against `server`: the user's DN must
   * resolve, and a bind as that DN with the password must succeed.
   */
  function Authenticate(server: Server, client: Client, username: string, password: string): (r: Outcome<AuthError>)
    ensures r == Pass <==> Resolve(server, client, username).Ok? && server.Accepts(Resolve(server, client, username).value, password)
                             && password != ""
    ensures Resolve(server, client, username).Err? ==> r == Fail(UserNotFound(Resolve(server, client, username).error))
    ensures Resolve(server, client, username).Ok? && r != Pass ==> r == Fail(InvalidCredentials)
  {
    match Resolve(server, client, username)
    case Err(e) => Fail(UserNotFound(e))
    case Ok(dn) => if server.BindSucceeds(dn, password) then Pass else Fail(InvalidCredentials)
  }

  /** The requests a password check sends: the DN lookup's, then the user bind only if the lookup succeeded. */
  function AuthCalls(server: Server, client: Client, username: string, password: string): (calls: seq<Call>)
    ensures Resolve(server, client, username).Err? ==> calls == ResolveCalls(server, client, username)
    ensures Resolve(server, client, username).Ok? ==>
              calls == ResolveCalls(server, client, username) + BindRequests(Resolve(server, client, username).value, password)
  {
    ResolveCalls(server, client, username)
      + match Resolve(server, client, username)
        case Err(_) => []
        case Ok(dn) => BindRequests(dn, password)
  }

  /** Two directory entries matching the user search make the lookup fail rather than pick one. */
  lemma AmbiguousUserRejected(server: Server, client: Client, username: string, i: nat, j: nat)
    requires i < j < |server.entries|
    requires server.selects(UserSearch(client, username), server.entries[i])
    requires server.selects(UserSearch(client, username), server.entries[j])
    ensures Resolve(server, client, username).Err?
    ensures server.BindSucceeds(client.config.bindDN, client.config.bindPassword)
            && !server.refuses(Some(client.config.bindDN), UserSearch(client, username)) ==>
            Resolve(server, client, username).error.NotExactlyOne?
  {
    server.SelectAtLeastTwo(server.entries, UserSearch(client, username), i, j);
  }

  /** A user matched by exactly one entry resolves to that entry's DN once the service bind and the search succeed. */
  lemma UniqueUserResolved(server: Server, client: Client, username: string, k: nat)
    requires k < |server.entries|
    requires server.selects(UserSearch(client, username), server.entries[k])
    requires forall m :: 0 <= m < |server.entries| && m != k ==> !server.selects(UserSearch(client, username), server.entries[m])
    requires server.BindSucceeds(client.config.bindDN, client.config.bindPassword)
    requires !server.refuses(Some(client.config.bindDN), UserSearch(client, username))
    ensures Resolve(server, client, username) == Ok(server.entries[k].dn)
  {
    server.SelectOnly(server.entries, UserSearch(client, username), k);
  }

  /** A user matched by no entry is not found. */
  lemma UnknownUserRejected(server: Server, client: Client, username: string)
    requires forall m :: 0 <= m < |server.entries| ==> !server.selects(UserSearch(client, username), server.entries[m])
    ensures Resolve(server, client, username).Err?
    ensures server.BindSucceeds(client.config.bindDN, client.config.bindPassword)
            && !server.refuses(Some(client.config.bindDN), UserSearch(client, username)) ==>
            Resolve(server, client, username) == Err(NotExactlyOne(0))
  {
    server.SelectNone(server.entries, UserSearch(client, username));
  }
}
