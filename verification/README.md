# LDAP authentication connector — Dafny model

This project models the core of a directory-service (LDAP) authentication
connector written in Go. Given a username and password, the connector finds
the user's entry by a search, checks the password by binding as that entry,
and separately resolves the names of the user's groups with a templated
search filter. It also contains two identifier parsers: a decoder for binary
Windows security identifiers (SIDs), and the extraction of the common name
(CN) from a distinguished name (DN).

Modules, leaf first:

- `Results` (results.dfy): `Option`, `Result` and `Outcome`, standing for Go's `(value, error)` returns.
- `Text` (text.dfy): `Dec`, the decimal rendering that `%d` produces, and its inverse `DecValue`.
  Also `Fields`, which splits text at `-` and is used to read a SID's text back.
- `External` (external.dfy): the library calls whose code is not modelled.
  These are go-ldap's `ParseDN` and `EscapeFilter`, and Go's `text/template` parse and execute.
  A `Library` value carries them as functions, so every property holds whatever those functions do.
- `Backend` (backend.dfy): the backend connection interface of ldap.go.
  - A `Server` value is the directory: its entries, a credential table, which entries a request selects, and which requests it refuses.
  - A `BackendConnection` object is one session.
  - `Bind` changes the session's bound identity, and `Search` leaves it unchanged.
  - Every request that reaches the server is appended to `calls`, a log of every request sent.
  - The log lets the contracts state call order and short-circuits, for example "no search after a failed bind".
- `Parsing` (parsing.dfy): `sidToString` as a cursor-and-loop method proved against `DecodeSid` and `SidText`, and `parseCN`.
- `LdapClient` (client.dfy): `NewClient`, the `Connect` failover loop over a `Network` of dial outcomes, and the `Connection` class.
  `Connection` holds `UsernameToDN` and `CheckAuth`.
- `LdapGroups` (groups.dfy): filter rendering, the group search, `GetLdapGroups`, and its two collection loops.

Choices the model makes:

- A failed bind leaves the session anonymous. This is the rule of section 4.2.1 of RFC 4511.
- go-ldap's `Conn.Bind` refuses an empty password itself (`ErrorEmptyPassword`): nothing is sent, and the session keeps its identity. So an empty user password never authenticates, whatever the directory holds.
- `strings.EqualFold(t, "CN")` is modelled as ASCII case-insensitive equality. Under Unicode simple case folding, `c` and `n` have no other equivalents.
- Reading an empty sub-authority list succeeds even at the end of input. So a SID with count 0 and exactly 8 bytes decodes.

## Model

| member | source | states |
|---|---|---|
| `Text.Dec` | parsing.go:36-38 | `%d` of an unsigned value is a non-empty string of decimal digits, with no leading zero unless the value is 0 |
| `Text.DecValueOfDec` | parsing.go:36-38 | reading a rendered number back gives the number (inverse of `%d`) |
| `Text.DecInjective` | parsing.go:36-38 | different numbers render differently |
| `Text.FieldsOfJoin` | parsing.go:36-38 | joining two texts with `-` concatenates their field lists, which is what makes the SID text parseable |
| `Backend.FirstValuesFirstMatch` | groups.go:79 | the values returned for a name are those of the first attribute with exactly that name, and none when no attribute has that name |
| `Backend.Server.Answer` | ldap.go:27 | a search fails exactly when the server refuses it for the bound identity; otherwise it returns at most all entries |
| `Backend.Server.Select` | ldap.go:27 | the entries a search returns are selected directory entries, projected to the requested attributes |
| `Backend.Server.SelectComplete` | ldap.go:27 | every directory entry the request selects is in the answer, projected to the requested attributes |
| `Backend.Server.SelectAtLeastTwo` | ldap.go:27 | two selected directory entries give an answer with at least two entries |
| `Backend.Server.SelectOnly` | ldap.go:27 | exactly one selected entry gives an answer of exactly that entry |
| `Backend.Server.SelectNone` | ldap.go:27 | no selected entry gives an empty answer |
| `Backend.Server.BoundAfter` | ldap.go:25 | after a bind the session is bound as the DN exactly when the bind succeeded (or an empty password left it already bound as that DN). A rejected bind leaves it anonymous; an empty password leaves it unchanged |
| `Backend.BindRequests` | ldap.go:25 | a bind with an empty password sends nothing; any other bind sends exactly that bind request |
| `Backend.BackendConnection.Bind` | ldap.go:25 | a bind succeeds iff the password is not empty and the credentials match. An empty password sends nothing and leaves the binding unchanged. Otherwise the bind is logged, and the session is bound as the DN on success and anonymous on failure |
| `Backend.BackendConnection.Search` | ldap.go:27 | a search returns the server's answer for the current binding, leaves the binding unchanged, and is logged |
| `Parsing.Uint32LE` | parsing.go:31-34 | a sub-authority is the little-endian value of four bytes, below 2^32 |
| `Parsing.SubAuthorities` | parsing.go:31-34 | exactly `count` sub-authorities are read, each from its own four bytes in input order, each below 2^32 |
| `Parsing.DecodeSid` | parsing.go:12-34 | decoding succeeds iff the input holds the 8-byte header and `4*b[1]` more bytes. A failure carries the original bytes. The fields fit 8/48/32 bits and the count is `b[1]` |
| `Parsing.Authority` | parsing.go:26-29 | `p0<<32 + p1<<16 + p2` equals the big-endian value of bytes 2..7, and is below 2^48 |
| `Parsing.DecodeIgnoresTrailingBytes` | parsing.go:22-34 | bytes after the announced sub-authorities do not change the result |
| `Parsing.Uint16BEBytes` | parsing.go:26 | the two bytes of a uint16 read back as that uint16 |
| `Parsing.Uint32LEBytes` | parsing.go:32 | the four bytes of a uint32 read back as that uint32 |
| `Parsing.EncodeSid` | parsing.go:12-34 | the binary layout of a well-formed SID satisfies the decoder's length condition |
| `Parsing.DecodeEncodeSid` | parsing.go:12-34 | decoding the layout of any well-formed SID gives back exactly that SID |
| `Parsing.SubAuthorityText` | parsing.go:37-39 | the suffix is only `-` and digits, and starts with `-` when there is any sub-authority |
| `Parsing.SidText` | parsing.go:36-39 | the text starts with `S-` and after that holds only digits and `-` |
| `Parsing.AppendSubAuthorities` | parsing.go:37-39 | the loop appends exactly `-` and the decimal form of each sub-authority, in order |
| `Parsing.SidToString` | parsing.go:12-42 | it succeeds iff the layout is complete. A truncated input gives the decoder's error, never partial text. Otherwise the result is the canonical text of the decoded fields |
| `Parsing.SidTextFields` | parsing.go:36-39 | the text is "S", the revision, the authority, then exactly one decimal field per sub-authority, in order, separated by `-` |
| `Parsing.SidTextRoundTrip` | parsing.go:36-39 | reading the text back recovers every numeric field exactly |
| `Parsing.SidToStringFieldsExact` | parsing.go:12-42 | the text produced for bytes `b` reads back as revision `b[0]`, the big-endian authority of bytes 2..7 and the `b[1]` sub-authorities. It has `3 + b[1]` fields |
| `Parsing.FirstCNOf` | parsing.go:52-56 | the value of the first pair of one RDN whose type equals CN in any case; none iff there is no such pair |
| `Parsing.FirstCN` | parsing.go:51-57 | the value of the first CN pair scanning RDNs in order; none iff no RDN has a CN pair |
| `Parsing.ParseCN` | parsing.go:44-59 | the input unchanged when the DN does not parse, has no RDNs or has no CN. Otherwise the value of the first CN pair |
| `Parsing.ParseCNOrigin` | parsing.go:44-59 | the result is the input or the value of one of the parsed DN's pairs |
| `LdapClient.NewClient` | client.go:51-78 | GroupDN, UserDN, BindDN and BindPassword are checked in that order and the error names the first empty one. Empty GroupFilter and UserAttr get their defaults, and every other field is copied |
| `LdapClient.NewClientIdempotent` | client.go:51-78 | a client's configuration passes `NewClient` again unchanged |
| `LdapClient.FirstReachable` | client.go:82-88 | the index of the first URL whose dial succeeds, every earlier dial having failed; none iff every dial fails |
| `LdapClient.Network.Dial` | client.go:83 | one dial: a fresh anonymous session with the server reached, or the failure's cause; the URL is recorded |
| `LdapClient.Connect` | client.go:80-91 | URLs are dialled in order up to the first success, with no later dial. The connection wraps that session. If all fail, the error lists each URL's cause in order. With no URLs there is neither a connection nor an error |
| `LdapClient.FirstReachableIs` | client.go:82-88 | the first success after a run of failures is the first reachable URL |
| `LdapClient.UserFilter` | client.go:158-168 | the filter is one equality match. It tests userPrincipalName against the escaped username, `@` and the UPN domain when a UPN domain is set, and otherwise tests UserAttr against the escaped username. The repeated UPN assignment changes nothing |
| `LdapClient.UserSearch` | client.go:170-175 | the user search is a subtree search under UserDN with that filter, naming no attributes (so all are returned) and sending size limit MaxInt32 |
| `LdapClient.ResolveCalls` | client.go:154-175 | a DN lookup sends the service bind and then the user search exactly when that bind succeeds; any search it sends is the user search |
| `LdapClient.Connection.UsernameToDN` | client.go:151-186 | it binds as the service account, then searches under UserDN with the UPN or attribute filter only if that bind succeeded. The result is as `Resolve` says, and the new binding is the service bind's outcome |
| `LdapClient.Resolve` | client.go:151-186 | a resolved DN requires the service bind to have succeeded and is the DN of a directory entry the user search selects |
| `LdapClient.Authenticate` | client.go:97-110 | a password check passes iff the DN resolves, the password is not empty and the server accepts it for that DN. A lookup failure is reported as user not found with its cause; any other failure is invalid credentials |
| `LdapClient.AuthCalls` | client.go:101-105 | a password check sends the lookup's requests, then the user bind only if the lookup succeeded |
| `LdapClient.Connection.CheckAuth` | client.go:97-110 | its outcome is `Authenticate`'s and its requests are `AuthCalls`. After a resolved lookup the binding is as `BoundAfter` says, starting from the service binding: the user's DN after a successful bind, anonymous after a rejected one, unchanged for an empty password. After a failed lookup the binding is the service bind's outcome |
| `LdapClient.AmbiguousUserRejected` | client.go:180-182 | two entries matching the user search make the lookup fail with "not exactly one" rather than pick one |
| `LdapClient.UniqueUserResolved` | client.go:180-185 | exactly one matching entry resolves to that entry's DN |
| `LdapClient.UnknownUserRejected` | client.go:180-181 | no matching entry makes the lookup fail with a count of 0 |
| `LdapClient.DialCauses` | client.go:85 | one cause per failed URL |
| `LdapGroups.RenderGroupFilter` | groups.go:15-31 | rendering succeeds iff the template parses and executing it with the escaped UserDN and Username succeeds. The filter is that execution's output. A parse failure is reported as such, and any other failure is an execute failure |
| `LdapGroups.GroupSearch` | groups.go:33-41 | the group search is a subtree search under GroupDN with the rendered filter, requesting only GroupAttr and sending size limit MaxInt32 |
| `LdapGroups.EntryGroupNames` | groups.go:73-86 | an entry whose DN does not parse or has no RDN contributes no name. Any other entry contributes parseCN of each of its GroupAttr values |
| `LdapGroups.ListKeys` | groups.go:88-91 | the keys of the map are listed each once, all of them and nothing else |
| `LdapGroups.PerformLdapFilterGroupsSearch` | groups.go:11-48 | a render failure returns its error and sends no search. Otherwise there is one subtree search under GroupDN requesting only GroupAttr. The binding is unchanged |
| `LdapGroups.Groups` | groups.go:50-94 | groups are resolved only after a successful service bind and a successful DN lookup. The error is BindFailed iff the service bind fails |
| `LdapGroups.GroupsCalls` | groups.go:54-64 | the first request is the service bind, and nothing is sent when BindPassword is empty. A failed service bind sends nothing more, and after a failed lookup the only search sent is the user search. On success exactly four requests are sent, the last being the group search under GroupDN |
| `LdapGroups.GetLdapGroups` | groups.go:50-94 | the service bind, DN lookup, render and group search run in that order, each only if the previous step succeeded. The first failure is the error. On success the result has no duplicates and holds exactly the group names of the entries found |
| `LdapGroups.CollectGroupNames` | groups.go:71-93 | entries with unparsable or empty DNs are skipped. The result has no duplicates, its elements are exactly `GroupNames` of the entries, and its length is the number of distinct names |
| `LdapGroups.GroupNamesMembership` | groups.go:73-86 | a name is a group name iff it is `parseCN` of a GroupAttr value of a returned entry whose DN parses into at least one RDN |
| `LdapGroups.GroupNamesOfConcat` | groups.go:73-91 | the group names of two runs of entries are the union of each run's, so entry order does not matter |
| `LdapGroups.NoDuplicatesCardinality` | groups.go:88-91 | a list without duplicates has as many elements as distinct values |
| `LdapGroups.SelectedGroupReported` | groups.go:54-86 | when the service bind, the DN lookup and the render succeed and the group search is not refused, parseCN of every GroupAttr value of a selected entry whose DN parses into at least one RDN is among the groups |
| `LdapGroups.NoEntriesNoGroups` | groups.go:54-93 | when the service bind, the DN lookup and the render succeed, and the server neither refuses the group search nor selects any entry for it, the result is an empty set of groups, not an error |

## Left out

- Mutual exclusion: the lock in `CheckAuth` and `GetLdapGroups` (client.go:98-99, groups.go:51-52). Each call is modelled as atomic.
- `Close` (client.go:93-95), and the interface's `StartTLS`, `SetTimeout` and `UnauthenticatedBind` (ldap.go:26-30). These are transport; no modelled operation depends on them.
- `tlsConfig` and `dialLDAP` (client.go:112-149): certificate parsing, TLS setup, the dial, StartTLS and the timeout. Each URL's dial is one fixed outcome of `Network`: a session, or a cause.
- The internals of go-ldap's DN parser and filter escaping, and of Go's `text/template`. They are functions in `External.Library` with no fixed behaviour. No property depends on what they compute.
- How a server evaluates base, scope and filter, and when it refuses a search. These are the functions `selects` and `refuses` of `Backend.Server`.
- The size limit `math.MaxInt32` is sent with every search but not enforced by the model server.
- Error message text (`errors.Wrap`, `multierror` formatting). Errors name the failing step, and for `Connect` they hold the list of per-URL causes.
- The order of the group list: Go iterates its map in random order. `CollectGroupNames` lists the keys in an arbitrary order and promises only no duplicates and the exact set of names.
- The server is deterministic: `Accepts` is a fixed credential table. `GetLdapGroups` binds as the service account and then `usernameToDN` binds again with the same credentials. Once the first bind succeeded, the second cannot fail, so the model does not capture a server whose answer to the second bind differs (groups.go:54, client.go:154).
- The error value go-ldap returns for an empty password is not distinguished: `Bind` just reports failure, and `CheckAuth` reports invalid credentials.
- The `urls` and `ldap` fields of Go's `Client`. `urls` is never set, and `Connect` reads the configuration's URLs. `ldap` is the dialer, modelled as the `Network` argument of `Connect`.
