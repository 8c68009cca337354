/**
 * Group resolution: after the service bind and the user's DN lookup, render
 * the group filter template, run one group search, and collect the common
 * names of the groups found, without duplicates.
 */
module LdapGroups {
  import opened Results
  import opened External
  import opened Backend
  import opened Parsing
  import opened LdapClient

  /** Which step of group resolution failed. */
  datatype GroupsError =
    | BindFailed
    | UserLookupFailed(cause: LookupError)
    | TemplateParseFailed
    | TemplateExecuteFailed
    | GroupSearchFailed

  /**
   * The group filter: parse the GroupFilter template, then execute it with
   * UserDN and Username, both filter-escaped before substitution.
   */
  function RenderGroupFilter(client: Client, userDN: string, username: string): (r: Result<string, GroupsError>)
    ensures r.Err? ==> r.error == TemplateParseFailed || r.error == TemplateExecuteFailed
    ensures r == Err(TemplateParseFailed) <==> !client.lib.parseTemplate(client.config.groupFilter)
    ensures r.Ok? <==> client.lib.parseTemplate(client.config.groupFilter)
                       && client.lib.executeTemplate(client.config.groupFilter,
                            TemplateContext(client.lib.escapeFilter(userDN), client.lib.escapeFilter(username))).Some?
    ensures r.Ok? ==> Some(r.value) == client.lib.executeTemplate(client.config.groupFilter,
                        TemplateContext(client.lib.escapeFilter(userDN), client.lib.escapeFilter(username)))
  {
    var lib := client.lib;
    if !lib.parseTemplate(client.config.groupFilter) then Err(TemplateParseFailed)
    else
      match lib.executeTemplate(client.config.groupFilter, TemplateContext(lib.escapeFilter(userDN), lib.escapeFilter(username)))
      case None => Err(TemplateExecuteFailed)
      case Some(filter) => Ok(filter)
  }

  /** The group search: a subtree search under GroupDN requesting only GroupAttr, no size cap. */
  function GroupSearch(client: Client, filter: string): (req: SearchRequest)
    ensures req.baseDN == client.config.groupDN && req.scope == WholeSubtree && req.filter == filter
    ensures req.attributes == [client.config.groupAttr] && req.sizeLimit == MaxInt32
  {
    SearchRequest(client.config.groupDN, WholeSubtree, filter, [client.config.groupAttr], MaxInt32)
  }

  /** An entry whose DN parses into at least one RDN; the others are skipped. */
  predicate Kept(e: Entry, parseDN: string -> Option<seq<RelativeDN>>) {
    parseDN(e.dn).Some? && |parseDN(e.dn).value| > 0
  }

  /** The common names of a list of attribute values. */
  function CommonNames(values: seq<string>, parseDN: string -> Option<seq<RelativeDN>>): set<string> {
    set v | v in values :: ParseCN(v, parseDN)
  }

  /** The group names one returned entry contributes. */
  function EntryGroupNames(e: Entry, attr: string, parseDN: string -> Option<seq<RelativeDN>>): (names: set<string>)
    ensures !Kept(e, parseDN) ==> names == {}
    ensures Kept(e, parseDN) ==> names == CommonNames(AttributeValues(e, attr), parseDN)
  {
    if Kept(e, parseDN) then CommonNames(AttributeValues(e, attr), parseDN) else {}
  }

  /** The group names a list of returned entries yields, entry by entry. */
  function GroupNames(es: seq<Entry>, attr: string, parseDN: string -> Option<seq<RelativeDN>>): set<string> {
    if es == [] then {} else GroupNames(es[..|es| - 1], attr, parseDN) + EntryGroupNames(es[|es| - 1], attr, parseDN)
  }

  predicate NoDuplicates(s: seq<string>) {
    forall i, j :: 0 <= i < j < |s| ==> s[i] != s[j]
  }

  /**
   * A name is a group name exactly when it is parseCN of some GroupAttr value
   * of some returned entry whose DN parses into at least one RDN.
   */
  lemma {:induction false} GroupNamesMembership(es: seq<Entry>, attr: string, parseDN: string -> Option<seq<RelativeDN>>, g: string)
    ensures g in GroupNames(es, attr, parseDN) <==>
            exists i, v :: 0 <= i < |es| && Kept(es[i], parseDN) && v in AttributeValues(es[i], attr) && ParseCN(v, parseDN) == g
  {
    if es != [] {
      var pre, last := es[..|es| - 1], es[|es| - 1];
      GroupNamesMembership(pre, attr, parseDN, g);
      if g in GroupNames(es, attr, parseDN) {
        if g in GroupNames(pre, attr, parseDN) {
          var i, v :| 0 <= i < |pre| && Kept(pre[i], parseDN) && v in AttributeValues(pre[i], attr) && ParseCN(v, parseDN) == g;
          assert es[i] == pre[i];
        } else {
          var v :| v in AttributeValues(last, attr) && ParseCN(v, parseDN) == g;
          assert Kept(es[|es| - 1], parseDN);
        }
      } else {
        forall i, v | 0 <= i < |es| && Kept(es[i], parseDN) && v in AttributeValues(es[i], attr)
          ensures ParseCN(v, parseDN) != g
        {
          if i < |es| - 1 {
            assert es[i] == pre[i];
          }
        }
      }
    }
  }

  /** The group names of two runs of entries are the union of each run's: the order of entries does not matter. */
  lemma {:induction false} GroupNamesOfConcat(a: seq<Entry>, b: seq<Entry>, attr: string, parseDN: string -> Option<seq<RelativeDN>>)
    ensures GroupNames(a + b, attr, parseDN) == GroupNames(a, attr, parseDN) + GroupNames(b, attr, parseDN)
  {
    if b == [] {
      assert a + b == a;
    } else {
      var c := a + b;
      assert c[..|c| - 1] == a + b[..|b| - 1];
      assert c[|c| - 1] == b[|b| - 1];
      GroupNamesOfConcat(a, b[..|b| - 1], attr, parseDN);
    }
  }

  /** A sequence without duplicates has as many elements as its set of elements. */
  lemma {:induction false} NoDuplicatesCardinality(s: seq<string>)
    requires NoDuplicates(s)
    ensures |set x | x in s| == |s|
  {
    if s != [] {
      var pre := s[..|s| - 1];
      NoDuplicatesCardinality(pre);
      assert (set x | x in s) == (set x | x in pre) + {s[|s| - 1]};
      assert s[|s| - 1] !in pre;
    }
  }

  /**
   * The two loops of GetLdapGroups: walk the entries, skip those whose DN
   * does not parse or has no RDN, and record parseCN of every GroupAttr
   * value in a map; then list the map's keys, in no particular order.
   */
  method CollectGroupNames(entries: seq<Entry>, groupAttr: string, parseDN: string -> Option<seq<RelativeDN>>)
    returns (groups: seq<string>)
    ensures NoDuplicates(groups)
    ensures forall g :: g in groups <==> g in GroupNames(entries, groupAttr, parseDN)
    ensures |groups| == |GroupNames(entries, groupAttr, parseDN)|
  {
    var groupMap: map<string, bool> := map[];
    var i := 0;
    while i < |entries|
      invariant 0 <= i <= |entries|
      invariant groupMap.Keys == GroupNames(entries[..i], groupAttr, parseDN)
    {
      var e := entries[i];
      assert entries[..i + 1][..i] == entries[..i];
      var dn := parseDN(e.dn);
      if dn.None? || |dn.value| == 0 {
        i := i + 1;
        continue;
      }
      var values := AttributeValues(e, groupAttr);
      if |values| > 0 {
        var j := 0;
        while j < |values|
          invariant 0 <= j <= |values|
          invariant groupMap.Keys == GroupNames(entries[..i], groupAttr, parseDN) + CommonNames(values[..j], parseDN)
        {
          assert values[..j + 1] == values[..j] + [values[j]];
          var groupCN := ParseCN(values[j], parseDN);
          groupMap := groupMap[groupCN := true];
          j := j + 1;
        }
        assert values[..j] == values;
      }
      i := i + 1;
    }
    assert entries[..i] == entries;
    groups := ListKeys(groupMap);
  }

  /** The second loop: list the keys of a map, each once, in no particular order. */
  method ListKeys(m: map<string, bool>) returns (keys: seq<string>)
    ensures NoDuplicates(keys)
    ensures forall k :: k in keys <==> k in m
    ensures |keys| == |m.Keys|
  {
    keys := [];
    var remaining := m.Keys;
    while remaining != {}
      invariant remaining <= m.Keys
      invariant NoDuplicates(keys)
      invariant forall k :: k in keys <==> k in m.Keys && k !in remaining
      decreases |remaining|
    {
      var key :| key in remaining;
      keys := keys + [key];
      remaining := remaining - {key};
    }
    assert (set x | x in keys) == m.Keys;
    NoDuplicatesCardinality(keys);
  }

  /**
   * performLdapFilterGroupsSearch: render the group filter and, only if that
   * succeeds, run the group search on the session as it is bound.
   */
  method PerformLdapFilterGroupsSearch(conn: Connection, userDN: string, username: string)
    returns (r: Result<seq<Entry>, GroupsError>)
    modifies conn.backend
    ensures conn.backend.bound == old(conn.backend.bound)
    ensures var filter := RenderGroupFilter(conn.client, userDN, username);
            && (filter.Err? ==> r == Err(filter.error) && conn.backend.calls == old(conn.backend.calls))
            && (filter.Ok? ==> conn.backend.calls == old(conn.backend.calls) + [SearchCall(GroupSearch(conn.client, filter.value))])
            && (filter.Ok? ==> r == match conn.backend.server.Answer(conn.backend.bound, GroupSearch(conn.client, filter.value))
                                    case Err(_) => Err(GroupSearchFailed)
                                    case Ok(es) => Ok(es))
  {
    var config, lib := conn.client.config, conn.client.lib;
    if !lib.parseTemplate(config.groupFilter) {
      return Err(TemplateParseFailed);
    }
    var context := TemplateContext(lib.escapeFilter(userDN), lib.escapeFilter(username));
    var renderedQuery := lib.executeTemplate(config.groupFilter, context);
    if renderedQuery.None? {
      return Err(TemplateExecuteFailed);
    }
    var result := conn.backend.Search(SearchRequest(config.groupDN, WholeSubtree, renderedQuery.value, [config.groupAttr], MaxInt32));
    if result.Err? {
      return Err(GroupSearchFailed);
    }
    return Ok(result.value);
  }

  /**
   * The outcome of group resolution against `server`: the service bind, the
   * DN lookup, the filter render and the group search must each succeed, in
   * that order; then the group names of the entries found.
   */
  function Groups(server: Server, client: Client, username: string): (r: Result<set<string>, GroupsError>)
    ensures r.Ok? ==> server.BindSucceeds(client.config.bindDN, client.config.bindPassword)
    ensures r.Ok? ==> Resolve(server, client, username).Ok?
    ensures r == Err(BindFailed) <==> !server.BindSucceeds(client.config.bindDN, client.config.bindPassword)
  {
    var config := client.config;
    if !server.BindSucceeds(config.bindDN, config.bindPassword) then Err(BindFailed)
    else match Resolve(server, client, username)
      case Err(e) => Err(UserLookupFailed(e))
      case Ok(userDN) =>
        match RenderGroupFilter(client, userDN, username)
        case Err(e) => Err(e)
        case Ok(filter) =>
          match server.Answer(Some(config.bindDN), GroupSearch(client, filter))
          case Err(_) => Err(GroupSearchFailed)
          case Ok(es) => Ok(GroupNames(es, config.groupAttr, client.lib.parseDN))
  }

  /**
   * The requests group resolution sends: the service bind (nothing when the
   * client refuses an empty BindPassword); the DN lookup's requests only if
   * it succeeded; the group search only if the lookup and the render
   * succeeded.
   */
  function GroupsCalls(server: Server, client: Client, username: string): (calls: seq<Call>)
    ensures client.config.bindPassword == "" <==> calls == []
    ensures calls != [] ==> calls[0] == BindCall(client.config.bindDN, client.config.bindPassword)
    ensures !server.BindSucceeds(client.config.bindDN, client.config.bindPassword) ==> calls == BindRequests(client.config.bindDN, client.config.bindPassword)
    ensures Resolve(server, client, username).Err? ==> forall c :: c in calls && c.SearchCall? ==> c.request == UserSearch(client, username)
    ensures Groups(server, client, username).Ok? ==> |calls| == 4 && calls[3].SearchCall? && calls[3].request.baseDN == client.config.groupDN
  {
    var config := client.config;
    var bind := BindRequests(config.bindDN, config.bindPassword);
    if !server.BindSucceeds(config.bindDN, config.bindPassword) then bind
    else
      var lookup := bind + ResolveCalls(server, client, username);
      match Resolve(server, client, username)
      case Err(_) => lookup
      case Ok(userDN) =>
        match RenderGroupFilter(client, userDN, username)
        case Err(_) => lookup
        case Ok(filter) => lookup + [SearchCall(GroupSearch(client, filter))]
  }

  /**
   * GetLdapGroups: bind as the service account, resolve the user's DN, search
   * for the user's groups, and return their common names, each once.
   */
  method GetLdapGroups(conn: Connection, username: string) returns (r: Result<seq<string>, GroupsError>)
    modifies conn.backend
    ensures var expected := Groups(conn.backend.server, conn.client, username);
            && (r.Err? <==> expected.Err?)
            && (r.Err? ==> r.error == expected.error)
            && (r.Ok? ==> NoDuplicates(r.value) && forall g :: g in r.value <==> g in expected.value)
    ensures conn.backend.calls == old(conn.backend.calls) + GroupsCalls(conn.backend.server, conn.client, username)
    ensures conn.backend.bound == conn.backend.server.BoundAfter(old(conn.backend.bound), conn.client.config.bindDN, conn.client.config.bindPassword)
  {
    var config := conn.client.config;
    ghost var server, before := conn.backend.server, conn.backend.calls;
    ghost var bind := BindRequests(config.bindDN, config.bindPassword);
    var ok := conn.backend.Bind(config.bindDN, config.bindPassword);
    if !ok {
      assert GroupsCalls(server, conn.client, username) == bind;
      return Err(BindFailed);
    }

    ghost var lookup := bind + ResolveCalls(server, conn.client, username);
    var userDN := conn.UsernameToDN(username);
    assert conn.backend.calls == before + lookup;
    if userDN.Err? {
      assert GroupsCalls(server, conn.client, username) == lookup;
      return Err(UserLookupFailed(userDN.error));
    }

    var entries := PerformLdapFilterGroupsSearch(conn, userDN.value, username);
    if entries.Err? {
      return Err(entries.error);
    }
    assert conn.backend.calls == before + (lookup + [SearchCall(GroupSearch(conn.client, RenderGroupFilter(conn.client, userDN.value, username).value))]);

    var groups := CollectGroupNames(entries.value, config.groupAttr, conn.client.lib.parseDN);
    assert Groups(server, conn.client, username) == Ok(GroupNames(entries.value, config.groupAttr, conn.client.lib.parseDN));
    return Ok(groups);
  }

  /**
   * A group search that finds nothing yields no groups, not an error, once
   * the service bind, the DN lookup, the filter render and the search itself
   * succeed.
   */
  lemma NoEntriesNoGroups(server: Server, client: Client, username: string, userDN: string, filter: string)
    requires server.BindSucceeds(client.config.bindDN, client.config.bindPassword)
    requires Resolve(server, client, username) == Ok(userDN)
    requires RenderGroupFilter(client, userDN, username) == Ok(filter)
    requires !server.refuses(Some(client.config.bindDN), GroupSearch(client, filter))
    requires forall m :: 0 <= m < |server.entries| ==> !server.selects(GroupSearch(client, filter), server.entries[m])
    ensures Groups(server, client, username) == Ok({})
  {
    server.SelectNone(server.entries, GroupSearch(client, filter));
  }

  /**
   * A group entry the group search selects is reported: when every earlier
   * step succeeds, parseCN of each GroupAttr value of a selected entry that
   * is kept is among the groups.
   */
  lemma SelectedGroupReported(server: Server, client: Client, username: string, userDN: string, filter: string, k: nat, v: string)
    requires server.BindSucceeds(client.config.bindDN, client.config.bindPassword)
    requires Resolve(server, client, username) == Ok(userDN)
    requires RenderGroupFilter(client, userDN, username) == Ok(filter)
    requires !server.refuses(Some(client.config.bindDN), GroupSearch(client, filter))
    requires k < |server.entries| && server.selects(GroupSearch(client, filter), server.entries[k])
    requires Kept(server.entries[k], client.lib.parseDN)
    requires v in AttributeValues(Project(server.entries[k], [client.config.groupAttr]), client.config.groupAttr)
    ensures Groups(server, client, username).Ok?
    ensures ParseCN(v, client.lib.parseDN) in Groups(server, client, username).value
  {
    var req := GroupSearch(client, filter);
    var es := server.Select(server.entries, req);
    var e := Project(server.entries[k], [client.config.groupAttr]);
    server.SelectComplete(server.entries, req, k);
    var i :| 0 <= i < |es| && es[i] == e;
    GroupNamesMembership(es, client.config.groupAttr, client.lib.parseDN, ParseCN(v, client.lib.parseDN));
  }
}
