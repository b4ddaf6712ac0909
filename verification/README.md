# fsrv access core in Dafny

This project models the decision and bookkeeping core of fsrv, a gateway that
serves files from a base directory to clients presenting access keys. The
model covers:

- **Access evaluators.** Three revisions of the permission check map a
  resource, an optional key and an operation to Denied, Neutral or Allowed.
- **Value types.** Operation types, key and token expiry, and the
  millisecond JSON encodings of durations and times.
- **The normalized SQLite permission store.** It is modelled as abstract
  tables. Each store method is one atomic transition that leaves the tables
  as they were when it fails.
- **The read-through/write-through caches** layered over that store.
- **Counters and limiter registries.** These are the counter map, the bucket
  manager and the suite of managers.
- **The request middlewares.** These are `KeyAuth`, `RateLimit`,
  `KeyRateLimit` and `UnifiedRateLimit`. Each is modelled as a pure function
  from the request, the lookup answers and a bucket oracle to an outcome, a
  trace of draws and lookups, and the new registry.
- **The file manager's path confinement and depth limit.**

Each Go file of the core is its own module. Here is how the modules map to
the source:

- `EntitiesResource`, `EntitiesPermission` and `TypesPermission` are the
  three evaluator revisions.
- `DbimplPermission`, `DbimplKey`, `DbimplRole` and `DbimplSqlite` are the
  older store. `ImplResource` and `ImplRateLimit` are the newer one.
- `ImplQueryManager` and `DbimplQueryManager` give each prepared statement
  its meaning as a function on the tables. Both stores run on the newer
  statement set of `ImplQueryManager`. The older store's own
  `dbimpl/sqlite/querymanager.go` lacks several of those statements and has a
  four-column key insert. `DbimplQueryManager` models only its
  statement-list builder.
- `CacheHelpers`, `ImplCache` and `DbimplCache` are the caches.
- `SyncMap`, `SyncManager` and `SyncSuite` are the counters and registries.
- `KeyAuth`, `RateLimitMiddleware`, `KeyRateLimit` and `UnifiedRateLimit`
  are the middlewares. They share the outcome and trace vocabulary of
  `Handler`.
- `FileManager` is the file manager. It relies on `GoPath`, a component-level
  model of Go's `filepath.Clean`, `Join` and `strings.Split`.
- `Errors`, `GoInts`, `Strconv`, `Json`, `Seqs` and `Schema` are shared
  vocabulary:
  - the error names and a `Result` with a separate `Panic` case;
  - Go's integer ranges and wrap-around, where the modelled code reaches it;
  - decimal formatting;
  - JSON strings and int64 decoding;
  - sequence filters and pages;
  - the table state and its invariants.

The environment comes in as parameters:

- the wall clock;
- the answers of lookups the code cannot see;
- the order in which Go iterates a map;
- whether a token-bucket draw succeeds.

Several members come in pairs named `…AsWritten` and the unsuffixed name. The
first models the Go code as it stands. The second is the evidently intended
behaviour, and the rest of the model uses it. The Findings section lists
each pair.

## Model

| member | source | states |
|---|---|---|
| EntitiesResource.StatusValues | src/database/entities/resource.go:5-11 | Denied, Neutral and Allowed are -1, 0 and 1, and they are distinct values. |
| EntitiesResource.PublicCanRead | src/database/entities/resource.go:38-40 | Holds exactly when bit 0 (`FlagPublicRead`) of the uint8 flags is set. |
| EntitiesResource.CheckAccess | src/database/entities/resource.go:43-53 | Without a key the result is never Neutral, and it is Allowed iff the operation is a read and the public-read bit is set. With a key it is the node evaluation. |
| EntitiesResource.CheckKeyAccess | src/database/entities/resource.go:56-88 | A wildcard node for the operation decides even when key or role nodes disagree. Otherwise the key's own node decides ahead of any role. Otherwise the first role in list order with a node decides. The result is Neutral iff no role has one. |
| EntitiesResource.RoleAccess | src/database/entities/resource.go:75-87 | The first role in list order that has a node decides, and later roles are never consulted. The result is Neutral iff no role has a node. |
| EntitiesResource.FromBool | src/database/entities/resource.go:59-63 | A found node never yields Neutral, and it yields Allowed iff its boolean is true. |
| EntitiesResource.NeutralIffNoNode | src/database/entities/resource.go:56-88 | A keyed request is Neutral iff there is no wildcard, key or role node for its operation. |
| EntitiesResource.DecidedByBoolean | src/database/entities/resource.go:57-84 | Any non-Neutral answer comes from some node of that operation, and it is Allowed iff that node's boolean is true. |
| EntitiesResource.OtherOperationsIrrelevant | src/database/entities/resource.go:75-84 | Two resources with the same nodes for an operation stop the role loop at the same role and give the same answer. |
| EntitiesResource.CheckAccessLocalToOperation | src/database/entities/resource.go:43-88 | Nodes of other operations never affect the answer for this one. |
| EntitiesResource.GetID | src/database/entities/resource.go:90-92 | The identifier returned is the one the resource was built with. |
| EntitiesPermission.CheckRead | src/database/entities/permission.go:54-81 | Without a key the result is never Neutral, and it is Allowed iff `FlagPublicRead` is set. With a key, `FlagAuthedRead` allows before any node is read. Otherwise the key's read node decides, then the first role with a read node. The result is Neutral iff there is no such node. |
| EntitiesPermission.FlagsAreSingleBits | src/database/entities/permission.go:18-35 | The i-th flag constant is the single bit `1 << i`, and it is larger than every constant declared before it. |
| EntitiesPermission.AuthedDeleteOverflowsInt8 | src/database/entities/permission.go:16-35 | The eighth constant `1 << 7` is 128 and does not fit the int8 `Flags`. The seven before it do fit. |
| EntitiesPermission.FlagsFitUint8 | src/database/entities/permission.go:16-35 | As a uint8 bit set, all eight constants fit, and each is its single bit. |
| TypesPermission.CheckRead | src/types/permission.go:25-38 | A public permission allows without reading any map. Otherwise a nil key panics. A key entry is returned verbatim. Otherwise the first role whose entry is present and not Neutral decides. The result is Neutral iff no role has such an entry. |
| TypesPermission.NeutralKeyEntryIsFinal | src/types/permission.go:29-31 | A Neutral key entry is the answer even when a role would decide. |
| TypesPermission.StatusValuesInverted | src/types/permission.go:3-9 | In this enum Allowed, Neutral and Denied are -1, 0 and 1, so Allowed sorts below Denied. |
| OperationType.ConstantsConsecutive | src/types/operationtype.go:9-18 | Read, Write, Modify and Delete are the consecutive values 0 to 3. These are exactly the declared operation types. |
| OperationType.Int | src/types/operationtype.go:21-35 | Succeeds exactly on 0 to 3 and returns the value itself. Any other int8 panics. |
| OperationType.IntIsPosition | src/types/operationtype.go:21-35 | Each declared constant maps to its position, and every undeclared value panics. |
| EntitiesKey.IsExpired | src/database/entities/key.go:24-30 | An expiry at Unix nanosecond 0 never expires. Otherwise the key is expired iff the clock is strictly past the expiry. |
| EntitiesKey.NotExpiredAtExpiry | src/database/entities/key.go:29 | A key is still valid at the instant it expires. |
| EntitiesKey.ExpiryMonotone | src/database/entities/key.go:24-30 | Once expired, a key stays expired as the clock advances. |
| EntitiesToken.IsExpired | src/database/entities/token.go:21-27 | An expiry at Unix nanosecond 0 never expires. Otherwise the token is expired iff the clock is strictly past the expiry. |
| EntitiesToken.NotExpiredAtExpiry | src/database/entities/token.go:26 | A token is still valid at the instant it expires. |
| EntitiesToken.ExpiryMonotone | src/database/entities/token.go:21-27 | Token expiry is monotone in the clock. |
| SerdeDuration.Milliseconds | utils/serde/duration.go:12 | The millisecond count is the nanosecond count divided by 10^6, truncated toward zero. It and its rescaling fit in an int64. |
| SerdeDuration.MarshalJSON | utils/serde/duration.go:11-15 | The document is a JSON string whose contents are the decimal millisecond count. |
| SerdeDuration.UnmarshalJSON | utils/serde/duration.go:17-26 | A failed decode returns the error and leaves the receiver unchanged. `null` gives 0. A number `ms` gives `ms * 10^6` modulo 2^64. |
| SerdeDuration.MillisUndoesScale | utils/serde/duration.go:12-24 | The ns-to-ms conversion exactly undoes the ms-to-ns conversion while the product fits in an int64. |
| SerdeDuration.MarshalDoesNotRoundTrip | utils/serde/duration.go:11-26 | A marshalled duration never unmarshals: decoding reports an error and keeps the receiver. |
| SerdeDuration.MarshalJSONBare | utils/serde/duration.go:11-15 | The intended encoding decodes as an int64 to the millisecond count. |
| SerdeDuration.BareRoundTrip | utils/serde/duration.go:11-26 | With the bare encoding, a duration comes back truncated to whole milliseconds. It comes back unchanged iff it is a whole number of milliseconds. |
| SerdeTime.UnixMilli | utils/serde/time.go:12 | The millisecond count is the floor of the Unix nanoseconds divided by 10^6. |
| SerdeTime.Sub | utils/serde/time.go:12 | `time.Sub` saturates at the int64 bounds. It is positive or zero exactly when the true difference is, and it is exact when the difference fits. |
| SerdeTime.MarshalJSON | utils/serde/time.go:11-15 | The document is a JSON string holding the decimal `UnixMilli`. |
| SerdeTime.UnmarshalJSON | utils/serde/time.go:17-26 | A failed decode returns the error and leaves the receiver unchanged. `null` gives the epoch. A number `ms` gives the instant at `ms * 10^6` ns modulo 2^64. |
| SerdeTime.MillisRoundTrip | utils/serde/time.go:12-24 | Unix milliseconds to an instant and back through `UnixMilli` is the identity while `ms * 10^6` fits in an int64. |
| SerdeTime.MarshalDoesNotRoundTrip | utils/serde/time.go:11-26 | A marshalled time never unmarshals. The receiver is kept. |
| SerdeTime.MarshalJSONBare | utils/serde/time.go:11-15 | The intended encoding decodes as an int64 to `UnixMilli`. |
| SerdeTime.BareRoundTrip | utils/serde/time.go:11-26 | With the bare encoding an instant comes back truncated to its millisecond. It comes back unchanged iff it lies on a whole millisecond. |
| ImplQueryManager.GetPermissionIDByData | src/database/impl/sqlite/querymanager.go:119 | A node is found iff some Permissions row has the (resource, operation, status) triple, and the id returned is that row's. Otherwise the result is `ErrNoRows`. |
| ImplQueryManager.PrepVarLenQuery | src/database/impl/sqlite/querymanager.go:208-226 | Panics iff `repeats < 1`. On success it returns exactly `repeats` statements, and statement i is the base, then i+1 copies of the section, then the conclusion once. On failure it returns the first rejected statement's error after all earlier statements were accepted. |
| DbimplQueryManager.PrepVarLenQuery | src/database/dbimpl/sqlite/querymanager.go:146-164 | The same contract for the older copy. It succeeds iff `repeats >= 1` and every statement is accepted. |
| DbimplQueryManager.PrepareFrom | src/database/dbimpl/sqlite/querymanager.go:153-162 | The loop from statement i on returns the remaining statements in order, or the first rejection. |
| DbimplPermission.ConstructPermNode | src/database/dbimpl/sqlite/permission.go:98-115 | A node with the triple is reused and the tables are left alone. On a miss exactly one node is appended, and its id is the next rowid. Either way the returned id names a node with the triple, and the store invariant (one node per triple, ascending ids, no duplicate links) is kept. |
| DbimplPermission.GrantPermNodes | src/database/dbimpl/sqlite/permission.go:76-82 | The role loop succeeds iff the roles are distinct and none is already linked to the node. On success it appends exactly one link per role, in order. |
| DbimplPermission.GrantPermission | src/database/dbimpl/sqlite/permission.go:60-87 | A failure leaves every table unchanged. A success leaves a node with the triple linked to every listed role. The invariant is kept, so at most one node exists per triple. Keys, roles, resources and tiers are untouched. |
| DbimplPermission.GrantAppendsLinks | src/database/dbimpl/sqlite/permission.go:60-87 | A successful grant changes the node table only as `constructPermNode` does. It appends one link per role, and the roles were distinct. |
| DbimplPermission.LinksKeepUnique | src/database/dbimpl/sqlite/permission.go:76-82 | Links for distinct, not yet linked roles keep RolePermIntersect free of duplicates. |
| DbimplPermission.GrantReusesNode | src/database/dbimpl/sqlite/permission.go:97-115 | A second grant of the same triple adds no node. |
| DbimplPermission.RevokePermission | src/database/dbimpl/sqlite/permission.go:15-58 | With no node for the triple: `ErrNoRows`, and nothing changes. Otherwise exactly the links between the listed roles and that node are removed. The node is deleted iff nothing references it any more. Other nodes, other links and all other tables are untouched, and the invariant is kept. |
| DbimplPermission.RevokeKeepsValid | src/database/dbimpl/sqlite/permission.go:31-53 | Unlinking roles and deleting a node keep the store invariant. |
| DbimplPermission.RevokeCollectsNode | src/database/dbimpl/sqlite/permission.go:39-53 | After a revoke the node exists iff some link still references it: no unreferenced node survives. |
| DbimplPermission.RevokePermissionAsWritten | src/database/dbimpl/sqlite/permission.go:21-29 | As written the node id is scanned into a value. Every revoke therefore fails and changes nothing: `ErrNoRows` when there is no node, and a scan error when there is one. |
| DbimplPermission.RevokeAsWrittenKeepsGrant | src/database/dbimpl/sqlite/permission.go:15-58 | After one grant, the as-written revoke keeps the link, while the corrected revoke removes the link and the node. |
| DbimplKey.AddKeyRoles | src/database/dbimpl/sqlite/key.go:35-50 | The role loop succeeds iff every role exists, is listed once and is not yet linked to the key. It then appends one link per role, in order. Otherwise it fails with `ErrNoRows` or a constraint error. |
| DbimplKey.CreateKey | src/database/dbimpl/sqlite/key.go:12-71 | An empty id is refused and nothing changes. `CreateKey` succeeds iff the id is new as a key and as a role, and the roles can be linked. It then writes the key row with both times in Unix ms. It links the roles, then inserts the self-role (type 1, precedence 10000) and links it. Any failure leaves every table unchanged. Nodes, links to nodes, resources and tiers are untouched, and the invariant is kept. |
| DbimplKey.CreateKeyKeepsValid | src/database/dbimpl/sqlite/key.go:44-65 | The key's new links, self-link included, are free of duplicates. |
| DbimplKey.DeleteKey | src/database/dbimpl/sqlite/key.go:73-76 | Always panics, and the tables are unchanged. |
| DbimplKey.SortByPrecedence | src/database/dbimpl/sqlite/querymanager.go:84 | `ORDER BY rolePrecedence` returns a permutation of the joined roles in ascending precedence. |
| DbimplKey.JoinedRoles | src/database/dbimpl/sqlite/querymanager.go:84 | The join yields exactly the existing roles linked to the key, with their precedence. |
| DbimplKey.OrderedRoles | src/database/dbimpl/sqlite/key.go:134-149 | Every listed role exists and is linked to the key. Every linked, existing role is listed. The list ascends by precedence. |
| DbimplKey.GetKeyDataAsWritten | src/database/dbimpl/sqlite/key.go:113-159 | Succeeds iff the key exists, and otherwise returns `ErrNoRows`. As written the scanned tier is never copied, so the key's rate limit is always empty. |
| DbimplKey.GetKeyData | src/database/dbimpl/sqlite/key.go:113-159 | Succeeds iff the key exists. It returns the id asked for, the note, the tier ("" for NULL), both times in the stored millisecond, and the ordered roles. |
| DbimplKey.GetKeyDataDropsTier | src/database/dbimpl/sqlite/key.go:113-159 | A key created with a tier reads back without it as written, and with it once corrected. |
| DbimplKey.CreateThenGet | src/database/dbimpl/sqlite/key.go:12-159 | A created key reads back with its id, comment and tier, and with its times in the same millisecond. Its roles include the self-role and every role it was given. |
| DbimplKey.GetKeyIDs | src/database/dbimpl/sqlite/key.go:93-111 | A page holds at most `pageSize` distinct ids of existing keys. A full listing holds every key. |
| DbimplKey.GetKeysAsWritten | src/database/dbimpl/sqlite/key.go:78-91 | Writing into the nil slice panics whenever the page holds an id. Only an empty page succeeds, and it gives an empty list. |
| DbimplKey.KeysOf | src/database/dbimpl/sqlite/key.go:84-89 | Reads each id's key in order and stops silently at the first id that cannot be read. |
| DbimplKey.GetKeys | src/database/dbimpl/sqlite/key.go:78-91 | Returns one key per listed id, in page order, each carrying its id. |
| DbimplKey.GetKeyRateLimitID | src/database/dbimpl/sqlite/key.go:161-179 | An existing key yields its tier, or "" for NULL, with no error. A missing key yields its own id with `ErrKeyMissing`. |
| DbimplRole.CreateRole | src/database/dbimpl/sqlite/role.go:8-30 | Succeeds iff the id is not yet a role, and then inserts a named role (type 0) with its precedence. A duplicate is a constraint error, and nothing changes. |
| DbimplRole.DeleteRole | src/database/dbimpl/sqlite/role.go:32-58 | Removes the role and exactly its RolePermIntersect rows. Nodes, key links and all other tables are untouched, and the invariant is kept. |
| DbimplRole.DeletedRoleNotListed | src/database/dbimpl/sqlite/role.go:32-58 | A deleted role no longer appears among any key's roles, although the key's link to it is kept. |
| DbimplRole.GetRoles | src/database/dbimpl/sqlite/role.go:60-77 | Lists only named (type 0) roles, at most `pageSize` of them and without duplicates. A full listing holds every named role. |
| DbimplRole.GetRolesAsWritten | src/database/dbimpl/sqlite/role.go:60-77 | As written, the scan into a value fails on the first row. So a listing succeeds only when its page is empty, and then returns no role. |
| DbimplRole.ListingAsWrittenFails | src/database/dbimpl/sqlite/role.go:8-77 | After a role is created, a full listing fails with the scan error as written. The corrected listing holds the role. |
| DbimplRole.CreateThenListed | src/database/dbimpl/sqlite/role.go:8-77 | A created role appears in a full listing. |
| DbimplRole.GiveRole | src/database/dbimpl/sqlite/role.go:79-96 | An empty role list panics when the statement text is trimmed. Otherwise the call succeeds iff the roles are distinct and none is yet linked to the key. It then appends exactly one link per role. Otherwise nothing changes. |
| DbimplRole.GiveRoleAsWritten | src/database/dbimpl/sqlite/role.go:79-96 | As written, an empty list panics. Any other list is refused by the driver, because the parameter slice is bound as one argument. No table changes either way. |
| DbimplRole.GiveAsWrittenLinksNothing | src/database/dbimpl/sqlite/role.go:79-96 | Giving a key one role it lacks fails as written and leaves it unlinked. The corrected call links it. |
| DbimplRole.TakeRole | src/database/dbimpl/sqlite/role.go:98-113 | An empty list panics. Otherwise exactly the key's links to the listed roles are removed, and nothing else changes. |
| DbimplRole.TakeRoleAsWritten | src/database/dbimpl/sqlite/role.go:98-113 | As written, an empty list panics. Any other list is refused by the driver, because the role slice is bound as one argument. No table changes either way. |
| DbimplRole.TakeAsWrittenKeepsLink | src/database/dbimpl/sqlite/role.go:98-113 | A key's link to a role survives taking that role as written. The corrected call removes it. |
| DbimplRole.TakeUndoesGive | src/database/dbimpl/sqlite/role.go:79-113 | Taking back the roles just given restores the tables exactly. |
| ImplRateLimit.GetRateLimitData | src/database/impl/sqlite/ratelimit.go:36-48 | Succeeds iff the tier exists, and otherwise returns `ErrNoRows`. The id is the one asked for, the limit and burst are as stored, and the refill is the stored ms times 10^6, exact while it fits in an int64. |
| ImplRateLimit.CreateRateLimitAsWritten | src/database/impl/sqlite/ratelimit.go:11-14 | As written the refill is stored as its nanosecond count. A duplicate id is a constraint error. |
| ImplRateLimit.CreateRateLimit | src/database/impl/sqlite/ratelimit.go:11-14 | Succeeds iff the id is new, and stores limit, burst and the refill in whole milliseconds. |
| ImplRateLimit.CreateAsWrittenScalesRefill | src/database/impl/sqlite/ratelimit.go:11-48 | A tier created with a 1 ms refill reads back as written with a refill of 10^6 ms. |
| ImplRateLimit.CreateThenGet | src/database/impl/sqlite/ratelimit.go:11-48 | A created tier reads back with its id, limit and burst, and with its refill truncated to whole ms. It reads back unchanged iff the refill is a whole number of ms. |
| ImplRateLimit.DeleteRateLimit | src/database/impl/sqlite/ratelimit.go:16-18 | Removes exactly that tier's row. |
| ImplRateLimit.DeleteUndoesCreate | src/database/impl/sqlite/ratelimit.go:11-18 | Deleting a tier just created gives back the tables as they were, and the tier no longer reads back. |
| ImplRateLimit.SetRateLimitAsWritten | src/database/impl/sqlite/ratelimit.go:20-33 | As written the arguments bind in the wrong order: the key named by the tier id, if any, gets the key's id as its tier. Otherwise nothing changes. |
| ImplRateLimit.SetRateLimit | src/database/impl/sqlite/ratelimit.go:20-33 | The key gets the tier, and other keys, roles and tiers are untouched. A missing key is not an error. |
| ImplRateLimit.SetThenGetTier | src/database/impl/sqlite/ratelimit.go:20-33 | After `SetRateLimit`, `GetKeyRateLimitID` returns the new tier. As written it returns the old one whenever the tier id does not name a key. |
| ImplRateLimit.UpdateRateLimitAsWritten | src/database/impl/sqlite/ratelimit.go:50-68 | As written the arguments bind one place off, so the WHERE clause compares tier ids with the refill's decimal text. Unless such a tier exists, no row is affected and the call fails. |
| ImplRateLimit.UpdateRateLimit | src/database/impl/sqlite/ratelimit.go:50-68 | Fails unless exactly one row is affected: a missing tier affects no row, and renaming onto another tier is refused. On success the tier is rewritten under the new id with the new limits. |
| ImplRateLimit.UpdateAsWrittenMissesTier | src/database/impl/sqlite/ratelimit.go:50-68 | Updating an existing tier fails as written and succeeds once corrected, after which the new limit reads back. |
| ImplResource.CreateResource | src/database/impl/sqlite/resource.go:5-30 | A duplicate id fails. The call succeeds iff the id is new and the permission writer succeeds on the tables with the resource row added. Any failure leaves the tables unchanged. |
| ImplResource.DeleteResource | src/database/impl/sqlite/resource.go:32-58 | Removes the resource row and exactly the nodes naming it. Links and all other tables are untouched, and the invariant is kept. |
| ImplResource.DeleteUndoesCreate | src/database/impl/sqlite/resource.go:5-58 | Deleting a resource just created, with no nodes of its own, restores the tables exactly. |
| ImplResource.Fold | src/database/impl/sqlite/resource.go:123-129 | The node map has exactly the (role, operation) pairs of the join rows, and the last row for a pair decides its status. |
| ImplResource.GetResourceDataAsWritten | src/database/impl/sqlite/resource.go:96-134 | A missing resource gives `ErrNoRows`. As written the node map is nil, so any join row panics. Without rows the result has an empty id. |
| ImplResource.GetResourceData | src/database/impl/sqlite/resource.go:96-134 | Succeeds iff the resource exists. It returns the id asked for, the stored flags, and a node for exactly the (role, operation) pairs its join rows name. Each node's status is that of the last join row naming the pair, and the node map is the fold of the join rows. |
| ImplResource.ReadAsWrittenPanics | src/database/impl/sqlite/resource.go:103-129 | A resource with one granted role panics as written and reads back with that node once corrected. |
| ImplResource.GrantThenRead | src/database/impl/sqlite/resource.go:96-134 | After a grant, reading the resource shows each granted role's node for the operation with the granted status, whatever links the role had before. |
| ImplResource.GetResourceIDs | src/database/impl/sqlite/resource.go:77-94 | A query failure yields its error. Otherwise at most `pageSize` distinct existing ids are returned, in scan order from `offset`. |
| ImplResource.GetResourcesAsWritten | src/database/impl/sqlite/resource.go:60-75 | A listing failure yields no resources and no error. The zero-length slice panics iff the page holds an id. |
| ImplResource.ResourcesOf | src/database/impl/sqlite/resource.go:67-72 | Reads each listed resource in order, or fails with the first read error. |
| ImplResource.GetResources | src/database/impl/sqlite/resource.go:60-75 | Returns one resource per listed id, in page order. A listing failure yields an empty list and no error. |
| DbimplSqlite.Check | src/database/dbimpl/sqlite/sqlite.go:68-103 | Returns no error iff every scanned name is one of the eight tables and every one of the eight was seen. Duplicates are harmless. Otherwise it names the first stranger, or the first unseen table in map order. |
| DbimplSqlite.CheckAsWritten | src/database/dbimpl/sqlite/sqlite.go:67-103 | As written, every database is refused. A listing with any table fails its first scan into a value. An empty listing reports an expected table as missing. |
| DbimplSqlite.CheckAsWrittenRefusesSound | src/database/dbimpl/sqlite/sqlite.go:67-103 | The listing of exactly the eight tables meets `Accepts`, the condition under which `Check` returns no error, and fails the scan as written. |
| DbimplSqlite.ParamsAsWritten | src/database/dbimpl/sqlite/sqlite.go:425-433 | Three parameters per entry: the operation as a decimal, the resource id, then "1" or "0" for the status. Role names never appear. |
| DbimplSqlite.Params | src/database/dbimpl/sqlite/sqlite.go:425-435 | The corrected row per entry: resource id, operation, status, in column order. |
| DbimplSqlite.CreateResourcePermission | src/database/dbimpl/sqlite/sqlite.go:412-441 | The statement has exactly one `(?, ?, ?)` group per map entry, joined by ", " with no trailing separator. There are `3 * len(permMap)` parameters, following the map's iteration order. |
| DbimplSqlite.ParamsSwapColumns | src/database/dbimpl/sqlite/sqlite.go:426-435 | Every as-written row is the intended row with its first two columns exchanged. |
| DbimplSqlite.ParamsAsWrittenMisnameResource | src/database/dbimpl/sqlite/sqlite.go:426-435 | For resource "docs", the as-written first row names resource "0". |
| DbimplSqlite.OldCreateKeyGuard | src/database/dbimpl/sqlite/sqlite.go:113-116 | The old guard refuses exactly the keys that have an id. |
| DbimplSqlite.OldGuardInverted | src/database/dbimpl/sqlite/sqlite.go:113-116 | Every key the current `CreateKey` stores is refused by the old guard. The old guard admits only keys the current one refuses. |
| DbimplSqlite.DispatchRow | src/database/dbimpl/sqlite/sqlite.go:288-300 | A declared operation updates only its own node map. Any other operation changes nothing and logs once. |
| DbimplSqlite.Dispatch | src/database/dbimpl/sqlite/sqlite.go:287-301 | Each operation's node map gains exactly the roles its rows mention, and flags and id are kept. The log count equals the number of rows with an undeclared operation. |
| DbimplSqlite.DispatchLastWins | src/database/dbimpl/sqlite/sqlite.go:287-301 | The last row for a role and a declared operation decides that role's status. |
| DbimplSqlite.UnknownRowsIgnored | src/database/dbimpl/sqlite/sqlite.go:297-300 | Rows with an undeclared operation have no effect: dispatching all rows equals dispatching only the declared ones. |
| DbimplSqlite.DispatchAsWritten | src/database/dbimpl/sqlite/sqlite.go:268-301 | On the zero resource with nil maps, the loop panics iff some row has a declared operation. Otherwise it returns the zero resource and logs every row. |
| DbimplSqlite.DispatchAsWrittenPanics | src/database/dbimpl/sqlite/sqlite.go:287-301 | One read grant panics as written, and is recorded once the maps exist. |
| CacheHelpers.RetrieveData | src/database/impl/cache/helpers.go:17-27 | A hit returns the cached pair and does not ask the store. A miss asks the store once and caches its answer, error or not. No other cached id changes. |
| CacheHelpers.CreateData | src/database/impl/cache/helpers.go:29-37 | The store's error is returned. A refused write leaves the cache alone; an accepted one caches the data with no error under its id. |
| CacheHelpers.UpdateData | src/database/impl/cache/helpers.go:39-53 | A store error is returned with the cache unchanged. A failed read-back is fatal. Otherwise the value read back is cached under its own id. |
| CacheHelpers.RetrieveTwiceHits | src/database/impl/cache/helpers.go:17-27 | A second read of the same id is a hit. It returns the first answer whatever the store would now say. |
| CacheHelpers.RetrieveCoherent | src/database/impl/cache/helpers.go:17-27 | Reading through a cache that agrees with the store answers what the store answers, and the cache still agrees. |
| CacheHelpers.CreateCoherent | src/database/impl/cache/helpers.go:29-37 | A create keeps the cache in agreement with the store, whether the store accepts it or not. |
| CacheHelpers.UpdateCoherent | src/database/impl/cache/helpers.go:39-53 | An update whose read-back is what the store holds keeps the cache in agreement with the store. |
| ImplCache.NewCache | src/database/impl/cache/cache.go:86-96 | Every cache starts empty. |
| ImplCache.CreateKey | src/database/impl/cache/cache.go:98-105 | The key is cached under its id only after the store accepted it. The store's error is returned. |
| ImplCache.CreateResource | src/database/impl/cache/cache.go:107-109 | The resource is cached under its id only after the store accepted it. |
| ImplCache.CreateRole | src/database/impl/cache/cache.go:111-113 | The store's answer is passed through and no cache changes. |
| ImplCache.CreateRateLimit | src/database/impl/cache/cache.go:115-117 | The tier is cached under its id only after the store accepted it. |
| ImplCache.GetKeyData | src/database/impl/cache/cache.go:129-142 | A hit answers from the key cache with no store call. A miss makes one store call and caches its answer. |
| ImplCache.GetKeyDataAsWritten | src/database/impl/cache/cache.go:129-142 | As written, a call blocks for ever iff the key is not cached, because it asks for the write lock while holding its own read lock. A hit answers as the corrected read does, and returns with two more read locks held. |
| ImplCache.MissHangsAsWritten | src/database/impl/cache/cache.go:129-142 | Every miss blocks as written, whatever locks were held before. The corrected read makes one store call and caches the answer. |
| ImplCache.GetResourceData | src/database/impl/cache/cache.go:154-159 | Read-through on the resource cache, with errors cached as well. |
| ImplCache.NegativeCaching | src/database/impl/cache/cache.go:154-159 | A failed lookup is remembered. Asking again returns the same error without a store call. |
| ImplCache.GiveRole | src/database/impl/cache/cache.go:166-172 | A store error is returned and the caches are unchanged. Success refreshes only the cached key, and a failed read-back is fatal. |
| ImplCache.TakeRole | src/database/impl/cache/cache.go:174-180 | The same as GiveRole, with the store unlinking the roles. |
| ImplCache.PatchGrant | src/database/impl/cache/cache.go:192-198 | Every listed role's node for the operation is set to the status. Every other node is kept. |
| ImplCache.PatchRevoke | src/database/impl/cache/cache.go:214-220 | Every listed role's node for the operation is removed whatever its status. Every other node is kept. |
| ImplCache.GrantPermission | src/database/impl/cache/cache.go:182-203 | A store error is returned with the caches unchanged. A failed read is returned. Otherwise the read resource, patched, is cached with no error. Other resources and caches are kept. |
| ImplCache.RevokePermission | src/database/impl/cache/cache.go:205-225 | The same as GrantPermission, with the revoke patch. |
| ImplCache.GrantPermissionAsWritten | src/database/impl/cache/cache.go:182-203 | As written, the grant panics exactly when the store write and the read succeed, at least one role is listed, and the read resource's node map was never made. The read stays cached. Otherwise it is the intended grant, with the same error and the same caches. |
| ImplCache.ReadThenGrantPanicsAsWritten | src/database/impl/cache/cache.go:190-197 | A resource that the store reads without join rows comes back with a node map that was never made. Once it is cached, granting any role panics, while the intended grant succeeds. |
| ImplCache.CreateThenGrantPanicsAsWritten | src/database/impl/cache/cache.go:107-109 | A resource created through the cache without a node map is cached as passed. The next grant on it panics without asking the store, while the intended grant records each listed role with the granted status. |
| ImplCache.GrantThenGet | src/database/impl/cache/cache.go:182-203 | After a successful grant, the next read is a hit that shows every listed role with the granted status. |
| ImplCache.RevokeUndoesGrant | src/database/impl/cache/cache.go:192-220 | Revoking what was granted leaves exactly the nodes that were there before, minus the listed ones, with their old statuses. |
| ImplCache.SetRateLimitAsWritten | src/database/impl/cache/cache.go:229-237 | As written, the tier is copied into the key only when the store refused the change. On success the key is cached unchanged. |
| ImplCache.SetRateLimit | src/database/impl/cache/cache.go:229-237 | Once the store accepts, the key carries the new tier and is cached with it. A refusal leaves both alone. |
| ImplCache.SetRateLimitAsWrittenStale | src/database/impl/cache/cache.go:229-237 | As written, a successful change leaves the cached key on its old tier and a refused one relabels the caller's key. The corrected version caches the new tier. |
| ImplCache.GetRateLimitData | src/database/impl/cache/cache.go:239-243 | Read-through on the rate-limit cache. |
| ImplCache.GetKeyRateLimitID | src/database/impl/cache/cache.go:245-250 | Read-through on the key-to-tier cache. |
| ImplCache.UpdateRateLimit | src/database/impl/cache/cache.go:252-256 | The new value is cached under its own id once the store accepted it. |
| DbimplCache.CreateKey | src/database/dbimpl/cache/cache.go:80-87 | The key is cached with no error only after the store accepted it. |
| DbimplCache.GetKeyData | src/database/dbimpl/cache/cache.go:111-120 | A hit returns the cached pair. A miss asks the store once and caches its answer, errors included. |
| DbimplCache.WithNodes | src/database/dbimpl/cache/cache.go:164-172 | Only the chosen operation's node map is replaced. The other three, the id and the flags are kept. |
| DbimplCache.SetAll | src/database/dbimpl/cache/cache.go:163-172 | Every listed role maps to the status. Every other entry is kept. |
| DbimplCache.DeleteAll | src/database/dbimpl/cache/cache.go:193-202 | Exactly the listed roles are removed. The rest keep their statuses. |
| DbimplCache.PatchNodes | src/database/dbimpl/cache/cache.go:163-177 | With no roles nothing changes. An undeclared operation gives "bad permission type". A declared one rewrites that operation's node map only. |
| DbimplCache.ChangePermission | src/database/dbimpl/cache/cache.go:154-182 | Succeeds iff the store write, the read and the switch all succeed. A store error leaves the caches unchanged. A failed read returns its error, and its negative entry stays cached. An undeclared operation with roles returns "bad permission type" and does not put the resource back. On success the entry has no error, keeps the id and flags it was read with, and only that operation's node map is patched. Other resource ids never change. |
| DbimplCache.GrantPermission | src/database/dbimpl/cache/cache.go:154-182 | A store error leaves the caches as they were, and the key cache is never touched. On success every listed role has the granted status in that operation's node map, and every unlisted role keeps its node and status. |
| DbimplCache.RevokePermission | src/database/dbimpl/cache/cache.go:184-212 | A store error leaves the caches as they were, and the key cache is never touched. On success the listed roles have no node for that operation, and every other role keeps its node and status. |
| DbimplCache.GrantSetsNodes | src/database/dbimpl/cache/cache.go:163-179 | After a successful grant, every listed role has the granted status in that operation's map. The other maps are as read. |
| DbimplCache.RevokeDeletesNodes | src/database/dbimpl/cache/cache.go:193-209 | After a successful revoke, exactly the listed roles are gone from that operation's map. The other maps are as read. |
| DbimplCache.BadTypeNotReput | src/database/dbimpl/cache/cache.go:173-176 | An undeclared operation still reports an error after the store was written, and the resource is not put back. |
| DbimplCache.ChangePermissionAsWritten | src/database/dbimpl/cache/cache.go:154-212 | As written, the change panics exactly when the store write and the read succeed, roles are listed, the operation is declared, it is a grant, and that operation's node map was never made. The read stays cached. Otherwise it is the intended change, with the same error and the same caches. |
| DbimplCache.GrantZeroPanicsAsWritten | src/database/dbimpl/cache/cache.go:163-172 | With the zero resource cached, granting a declared operation to any role panics as written, while the intended grant succeeds. Revoking from it succeeds as written. |
| DbimplCache.RevokeNeverPanicsAsWritten | src/database/dbimpl/cache/cache.go:193-202 | Whether or not the map was made, a revoke never panics as written. It leaves the caches as the intended revoke does and succeeds exactly when that one does. |
| SyncMap.New | utils/syncmap/map.go:13-17 | The new map holds no counters. |
| SyncMap.Get | utils/syncmap/map.go:19-24 | Returns the stored value and true, or zero and false, with the flag true exactly when the id is present. |
| SyncMap.GetOrZero | utils/syncmap/map.go:26-35 | The value Get reports, with zero for an absent id. |
| SyncMap.Put | utils/syncmap/map.go:37-41 | The id then reads as the value, and every other id reads as before. |
| SyncMap.Delete | utils/syncmap/map.go:43-47 | The id then reads as absent, and every other id reads as before. |
| SyncMap.CompareLessAndIncrement | utils/syncmap/map.go:49-61 | True exactly when the current value is below the limit, and then the value goes up by one. False leaves the map as it was. |
| SyncMap.Increment | utils/syncmap/map.go:63-70 | Returns and stores the old value plus one. Other ids are kept. |
| SyncMap.Decrement | utils/syncmap/map.go:72-79 | Returns and stores the old value minus one. Other ids are kept. |
| SyncMap.IncrementDecrement | utils/syncmap/map.go:63-79 | Incrementing then decrementing restores every counter's reading. |
| SyncMap.AdmissionsBound | utils/syncmap/map.go:49-61 | Of n consecutive compare-and-increment calls, exactly min(n, room below the limit) succeed. |
| SyncManager.NewManager | utils/syncrl/syncmanager.go:15-21 | A manager with the given limit and reset and no buckets. |
| SyncManager.GetBucket | utils/syncrl/syncmanager.go:23-32 | A known id gets its own bucket and nothing changes. An unknown id gets a new bucket, distinct from every other, with the manager's limit and reset, and it is stored. |
| SyncManager.Purge | utils/syncrl/syncmanager.go:52-67 | Exactly the buckets with no remaining time are dropped. The rest are kept as they were. |
| SyncManager.GetBucketTwice | utils/syncrl/syncmanager.go:23-32 | Two GetBucket calls for one id return the same bucket, and the second changes nothing. |
| SyncManager.PurgedBucketReplaced | utils/syncrl/syncmanager.go:23-67 | After a bucket is purged, the next GetBucket for its id makes a different bucket. |
| SyncSuite.New | utils/syncrl/syncrl.go:14-19 | A suite with no managers. |
| SyncSuite.GetManager | utils/syncrl/syncrl.go:21-26 | The registered manager if there is one, and nothing otherwise. |
| SyncSuite.AddManager | utils/syncrl/syncrl.go:28-32 | Registers or replaces the entry for the id only. |
| SyncSuite.RemoveManager | utils/syncrl/syncrl.go:34-38 | Drops the entry for the id only. |
| SyncSuite.Purge | utils/syncrl/syncrl.go:58-65 | Every manager purges its own buckets, and the set of managers is unchanged. |
| SyncSuite.PurgeKeepsManagers | utils/syncrl/syncrl.go:58-65 | A purge never removes a level: a registered manager is still found, with the same limit and reset. |
| Handler.DrawOne | src/server/middleware/keyauth.go:48 | A draw is recorded as taken exactly when the bucket grants it. |
| Handler.DrawFromLevel | src/server/middleware/ratelimit.go:47-53 | The outcome is Next if the tier's bucket grants one token and 429 if not. The key's bucket is kept in the manager. Other levels are untouched. |
| KeyAuth.ExtractKey | src/server/middleware/keyauth.go:68-78 | A non-empty header wins, then a non-empty query parameter. A key is found exactly when one of them is non-empty. |
| KeyAuth.KeyAuth | src/server/middleware/keyauth.go:24-65 | No key gives 403 and an IP without allowance gives 429. A missing key gives 403, any other store error 500, an expired key 401. The request passes, carrying the key, exactly when the key exists and is unexpired. Only the missing-key failure takes a token from the IP bucket. |
| KeyRateLimit.KeyRateLimit | src/server/middleware/keyratelimit.go:24-67 | A missing key gives 403 and one draw from the bad-key IP limiter. An empty level passes. A known level draws from the key's bucket. An unknown level reloads its manager, or gives 500 without drawing if a lookup fails. The result is 429 exactly when the drawn bucket refuses. Only the request's level can change in the suite. |
| KeyRateLimit.ExistingManagerReused | src/server/middleware/keyratelimit.go:37-64 | With a registered manager the key's bucket is created once and then kept. |
| RateLimitMiddleware.RateLimit | src/server/middleware/ratelimit.go:23-54 | A key without a level passes with no draw. A registered level draws from the key's bucket. An unregistered level is loaded, or gives 500 on a load error. The result is 429 exactly when the bucket refuses. |
| RateLimitMiddleware.LoadedOnceThenReused | src/server/middleware/ratelimit.go:31-45 | Once a level's manager is registered, later requests of that level make no lookup. |
| UnifiedRateLimit.Ceil43 | src/server/middleware/unified_ratelimit.go:123-124 | The result is the least n with 3n >= 4x, that is ceil(4x/3). |
| UnifiedRateLimit.KeySize | src/server/middleware/unified_ratelimit.go:119-124 | A checksum longer than 64 bytes is fatal. Otherwise the key length is the base64 length of both parts. |
| UnifiedRateLimit.ValidateKey | src/server/middleware/unified_ratelimit.go:126-144 | A key passes exactly when it has the expected length and its checksum matches. |
| UnifiedRateLimit.TierPath | src/server/middleware/unified_ratelimit.go:65-99 | A registered tier draws from the key's bucket. A tier without a rate limit falls back to the default bucket. Another load error gives 500. A loaded tier registers its manager. The attempt token is given back on every path but the 500. |
| UnifiedRateLimit.TierPathNet | src/server/middleware/unified_ratelimit.go:65-99 | The tier path returns exactly one attempt token unless it ends in 500. |
| UnifiedRateLimit.UnifiedRateLimitAsWritten | src/server/middleware/unified_ratelimit.go:38-116 | As written, each branch's outcome and trace, including the fall-through from a refusing default bucket into the tier path. |
| UnifiedRateLimit.UnifiedRateLimit | src/server/middleware/unified_ratelimit.go:56-62 | A key whose tier lookup failed gets the default bucket's verdict there and then. Every other request is decided as written. |
| UnifiedRateLimit.AttemptTokenKept | src/server/middleware/unified_ratelimit.go:42-99 | The attempt bucket keeps exactly one token for an admitted attempt ending in 403 or 500, and none otherwise. |
| UnifiedRateLimit.AsWrittenDoubleRefund | src/server/middleware/unified_ratelimit.go:56-75 | As written, a store failure, a refusing default bucket and a tier without a rate limit give 429 and leave the attempt bucket one token richer. |
| FileManager.New | src/filemanager/filemanager.go:17-22 | The base directory and depth are taken as configured. |
| FileManager.CleanPathAsWritten | src/filemanager/filemanager.go:27-34 | As written, it never errors. It panics exactly when the join of base and cleaned name does not start with the base as a string; otherwise it returns that join. |
| FileManager.CleanPath | src/filemanager/filemanager.go:24-34 | With a non-empty base, the result is rooted exactly when the base is. |
| FileManager.CleanPathConfined | src/filemanager/filemanager.go:24-34 | The result's components are the base's followed by the name's own, so it lies at the level of the base or below. |
| FileManager.CleanPathAgreesOnRooted | src/filemanager/filemanager.go:27-28 | For a rooted name, the written and the intended clean-and-join agree. |
| FileManager.CleanPathNoPanic | src/filemanager/filemanager.go:29-32 | Under a clean rooted base the prefix check always holds. On rooted names the code as written returns the intended path. |
| FileManager.CheckDepthAsWritten | src/filemanager/filemanager.go:40-51 | As written, it panics exactly when stripping leaves the length unchanged. Otherwise it is true exactly when the pieces left number at most the maximum depth. |
| FileManager.CheckDepth | src/filemanager/filemanager.go:36-51 | A path outside the base is refused. Any other is true exactly when its depth below the base is at most the maximum. |
| FileManager.DepthOfCleanedPath | src/filemanager/filemanager.go:40-51 | On a path CleanPath produced, the written and intended checks agree and count the name's own components. |
| FileManagerCases.ExpectedPathDotDot | src/filemanager/filemanager_test.go:24 | `/dir/ignored/../file` under `/home/fsrv` becomes `/home/fsrv/dir/file`. |
| FileManagerCases.CleanPathEscapes | src/filemanager/filemanager.go:28-29 | As written, `../fsrv2` under `/home/fsrv` yields the sibling `/home/fsrv2` with no panic. |
| FileManagerCases.SiblingOutside | src/filemanager/filemanager.go:24-26 | `/home/fsrv2` is not within `/home/fsrv`. |
| FileManagerCases.CleanPathKeepsSiblingInside | src/filemanager/filemanager.go:24-34 | As intended, `../fsrv2` stays inside, as `/home/fsrv/fsrv2`. |
| FileManagerCases.CheckDepthAcceptsOutsider | src/filemanager/filemanager.go:44-46 | As written, `/etc/passwd` under `/home/fsrv` passes the guard and measures as within depth. |
| FileManagerCases.CheckDepthRefusesOutsider | src/filemanager/filemanager.go:36-46 | As intended, `/etc/passwd` is refused. |

## Left out

- Locks and concurrency: every mutex, the read-lock/write-lock upgrade in `Purge`, and the unsynchronised map write in `GetBucket` under a read lock. Each operation is modelled by its sequential meaning.
- ImplCache.GetKeyData: models the intended read-through. As written, the newer cache's `GetKeyData` takes a read lock and then, on a miss, the write lock (src/database/impl/cache/cache.go:130,136). So every miss blocks for ever. A hit takes a second read lock where a release was meant (cache.go:133,139). `ImplCache.GetKeyDataAsWritten` models the as-written locking.
- The purge daemons and `utils.Executor`: timers and goroutines are I/O. `Purge` itself is modelled.
- LRU capacity and eviction order. The caches are unbounded maps, and eviction is the separate `CacheHelpers.Evict`.
- The token bucket's inside (tokens, refill clock, `RemainingTime`). Whether a draw succeeds is an oracle parameter, and so is a bucket's remaining time in `Purge`.
- SHA-512 and base64 decoding in `KeySourceValidator`. Whether a key of the right length decodes and its checksum matches is the `checksumOK` parameter of `UnifiedRateLimit.ValidateKey`.
- UnifiedRateLimit.KeySize: the float `math.Ceil(4/3·x)` is modelled as the exact integer `ceil(4x/3)`. They agree for every byte count a configuration can hold.
- Gin itself: headers, query parameters, the client IP and `ctx.Set` are plain parameters and results. The JSON response bodies are left out; only the status is kept.
- The IP rate-limit handler that `KeyRateLimit` runs for an unknown key. It is modelled as one draw from a dedicated limiter (`BadKeyIP`).
- `ctx.GetString("KeyID")` in `KeyRateLimit` is taken as the key id. Which middleware fills that context entry is server wiring outside this model.
- The wall clock, used for key and token expiry, is a parameter.
- Rate limits' `Reset` duration, which the middlewares read, is modelled as the tier's refill.
- SQL mechanics: the SQL text, driver errors and `RowsAffected` plumbing are left out.
- Some calls pass a value where the driver expects a pointer, or a slice where it expects separate arguments. As written, each of these calls fails on every input that reaches it. The main members model the intended effect:
  - `DbimplRole.GetRoles` for src/database/dbimpl/sqlite/role.go:69;
  - `DbimplRole.GiveRole` for role.go:91;
  - `DbimplRole.TakeRole` for role.go:108;
  - `DbimplSqlite.Check` for src/database/dbimpl/sqlite/sqlite.go:85.
  - `DbimplPermission.RevokePermission` for src/database/dbimpl/sqlite/permission.go:25, and also for permission.go:33, which binds the role slice as one argument, and permission.go:42, which scans the reference count into a value.

  `DbimplRole.GetRolesAsWritten`, `DbimplRole.GiveRoleAsWritten`, `DbimplRole.TakeRoleAsWritten` and `DbimplSqlite.CheckAsWritten` model the as-written failures.
- DbimplSqlite.CreateResourcePermission: the statement and the parameter list it builds are modelled, and running them is the `exec` parameter. As written, the list is passed as one argument (src/database/dbimpl/sqlite/sqlite.go:435), which the driver refuses on every call.
- DbimplSqlite.DispatchAsWritten: models the row loop of the old `GetResourceData` (src/database/dbimpl/sqlite/sqlite.go:287-301) on its own. As written, that loop is never reached with a row. The problems along the way are:
  - the flag scan runs without `Next` and into a value, so it returns an error first (sqlite.go:275-277);
  - the iterator error is tested as `err` where `err2` is meant (sqlite.go:282);
  - the row iterator also scans without `Next` and into values (sqlite.go:406-408), so `iter()` never returns nil and the loop body never runs.
- ImplRateLimit.UpdateRateLimit: the newer store's `UpdateRateLimit` never commits or rolls back its transaction. It is modelled as committed when a row is affected.
- DbimplPermission.GrantPermission: `rollbackOrPanic` and `commitOrPanic` are not part of this model. They are called throughout the older store. A refused node insert rolls the transaction back in `constructPermNode` (src/database/dbimpl/sqlite/permission.go:106,111), and a refused link insert rolls it back in `grantPermNode` (permission.go:124). The caller then rolls it back a second time (permission.go:71,79). If the helper panics on the second rollback, which finds the transaction already done, every refused grant panics. The model returns the refusal as an error with the tables unchanged.
- ImplRateLimit.DeleteRateLimit: the helper `deleteObjByID` it calls is not part of this model. The call is modelled as one unconditional delete of the tier's row, which succeeds whether or not the row exists.
- ImplResource.GetResourceData: the row iterator `getResourceRolePermIter(tx, resourceid)` (src/database/impl/sqlite/resource.go:116) and its query `readqueries/getResourceRoles.sql` (src/database/impl/sqlite/querymanager.go:44-45) are not part of this model. `ImplResource.JoinRows` is their assumed result: one row per RolePermIntersect link whose node names the resource, in link order. The only iterator available, the older one at src/database/dbimpl/sqlite/sqlite.go:399-410, never yields a row. If the newer one behaved the same, the nil-map panic of `ImplResource.GetResourceDataAsWritten` would not occur.
- ImplResource.CreateResource: the helper `createResourcePermissions` it calls is not part of this model. Its effect is modelled as the statements of `ImplQueryManager`.
- ImplRateLimit: the older store's `dbimpl/sqlite/ratelimit.go` differs from the newer one only in naming the refill `Reset` and in never committing its delete. It is modelled once, by `ImplRateLimit`.
- DbimplKey.CreateKey: binds the key's `RateLimitID` field (src/database/dbimpl/sqlite/key.go:25), which is modelled as the key's tier. It runs on the newer statement set. The older `dbimpl/sqlite/querymanager.go` prepares `InsKeyData` with four placeholders (querymanager.go:38), while key.go:25 binds five arguments. So as written against that file, every `CreateKey` fails. That file also lacks `GetKeyIDIfExists`, `GetKeyRateLimitID`, `DelRateLimitByID`, `UpdKeyRateLimitID`, `UpdRateLimitData`, `DelRPIEntryByRoleID` and `DelRoleByID`, which the older store's methods call.
- DbimplRole.CreateRole: the zero-rows branch cannot be reached through the statement used, and is not modelled separately.
- DbimplQueryManager.PrepVarLenQuery: the four-column key insert of the older query manager is left out with the other SQL text.
- The `GetKeys`, `GetKeyIDs`, `GetResources`, `GetResourceIDs`, `GetRoles` and `DeleteRateLimit` methods of both caches, and `GiveRole`/`TakeRole` of the older cache, only panic with "implement me". They are not modelled.
- ImplCache: the Go caches hold pointers, and `GrantPermission`, `RevokePermission` and `SetRateLimit` change the pointed-to values in place (src/database/impl/cache/cache.go:197,219,233). The model treats cached entries as values, so a caller's argument is a copy. For the permission patches the cached result is the same either way. For a refused `SetRateLimit` it is not. If the caller passes the very `*Key` that `GetKeyData` returned, the relabelling at cache.go:233 also relabels the cached key, so the cache holds the new tier although the store refused it. `ImplCache.SetRateLimitAsWritten` promises an unchanged cache on refusal only for a key that is not the cached one.
- ImplCache: the role and token caches are never read or written. `UpdateRateLimit` leaves the key-to-tier cache stale, and `SetRateLimit` does not refresh it. These are stated by the contracts but not corrected.
- DbimplCache: its rate-limit caches behave as those of `ImplCache` and are not repeated.
- ImplCache.RevokePermission: deletes the listed nodes whatever the revoked status, as the code does.
- ImplCache.GrantPermission: assumes the node map of the resource it reads was made. As written, Go panics on the assignment at src/database/impl/cache/cache.go:197 when it was not. There are two routes to that case. The store's read fills a zero `entities.Resource` (src/database/impl/sqlite/resource.go:102), and a resource without join rows is cached that way (cache.go:154-159). Or a caller creates a resource without nodes through the cache (cache.go:107-109). `ImplCache.GrantPermissionAsWritten` models the panic, with whether the map was made as a parameter, since a Dafny map cannot be nil.
- DbimplCache.ChangePermission: assumes the node map of the operation named was made. As written, a grant panics on the assignment at src/database/dbimpl/cache/cache.go:166-172 when it was not, as for the zero resource the older store's read declares or a resource a caller created without nodes. A revoke only deletes, which is harmless on a nil map. `DbimplCache.ChangePermissionAsWritten` models the panic, with whether the map was made as a parameter.
- SyncMap: the counters are unbounded integers, while Go's `CountMap[string, int]` wraps at the int range. The only caller (src/server/files/filesmw/concurrentrequestlimit.go:43-52) increments only below its limit and decrements only what it incremented, so the wrap cannot be reached from there. `GoInts` models wrap-around where the modelled code can reach it.
- Schema: the table definitions are not part of this model. Two properties of the schema are assumed. First, node ids are never reused: `nextPermID` only grows, as SQLite's AUTOINCREMENT guarantees. Second, each intersection table has a primary key over its two columns, so a duplicate link is a constraint error. Under SQLite's default max+1 rowids, deleting the highest node would free its id while its RolePermIntersect rows stay. The next node would then inherit those links. `Schema.IdsAscending` states the first assumption, and `ImplResource.GrantThenRead` relies on it.
- Join rows of the store's reads come back in link order. SQLite's actual row order is unspecified.
- Go's map iteration order: wherever it could matter (dispatching join rows), a parameter sequence fixes the order, and `DbimplSqlite.DispatchLastWins` states the effect.
- GoPath models `filepath.Clean`, `filepath.Join` and `strings.Split` by their component semantics on `/`-separated paths. OS-specific separators and volume names are left out.
- FileManagerCases: only the test case with `..` (src/filemanager/filemanager_test.go:24) is proved on concrete strings. The other cases follow the same lemmas and are not written out.
- `auth.go`, the key generator, the query and update builders, server wiring and configuration loading are outside the modelled core.

## Findings

| source | as written | input that shows it | evidently intended | confidence | as-written member | corrected member |
|---|---|---|---|---|---|---|
| utils/serde/duration.go:11-15 | `MarshalJSON` wraps the decimal millisecond count in a JSON string, which `UnmarshalJSON` cannot parse as a number | any duration, e.g. 5 ms marshals to `"5"` | a bare JSON number, so that unmarshalling gives the value back | medium, not executed | SerdeDuration.MarshalJSON, SerdeDuration.MarshalDoesNotRoundTrip | SerdeDuration.MarshalJSONBare, SerdeDuration.BareRoundTrip |
| utils/serde/time.go:11-15 | the same string wrapping for times | any time | a bare JSON number of milliseconds | medium, not executed | SerdeTime.MarshalJSON, SerdeTime.MarshalDoesNotRoundTrip | SerdeTime.MarshalJSONBare, SerdeTime.BareRoundTrip |
| src/database/entities/permission.go:16-35 | the eighth flag `1 << 7` is declared in an int8 flag type | the authenticated-delete flag, 128 | an unsigned eight-bit flag set | high, not executed | EntitiesPermission.AuthedDeleteOverflowsInt8 | EntitiesPermission.FlagsFitUint8 |
| src/database/dbimpl/sqlite/permission.go:25 | the permission id is scanned into a value, so every revoke fails; past it, the role slice is bound as one argument (permission.go:33) and the reference count is scanned into a value (permission.go:42) | revoke of a permission just granted | scan into a pointer and unlink the roles | high, not executed | DbimplPermission.RevokePermissionAsWritten, DbimplPermission.RevokeAsWrittenKeepsGrant | DbimplPermission.RevokePermission |
| src/database/dbimpl/sqlite/key.go:128-154 | the scanned tier id is never copied into the key | a key created with tier "gold" reads back with no tier | copy the tier into the key | high, not executed | DbimplKey.GetKeyDataAsWritten, DbimplKey.GetKeyDataDropsTier | DbimplKey.GetKeyData |
| src/database/dbimpl/sqlite/key.go:84-85 | keys are written by index into a nil slice | a page holding one key id | append each key | high, not executed | DbimplKey.GetKeysAsWritten | DbimplKey.GetKeys |
| src/database/impl/sqlite/ratelimit.go:11-12 | the refill duration is bound as its nanosecond count | a tier with a 1 ms refill reads back with 10^6 ms | bind the refill in milliseconds | medium, not executed | ImplRateLimit.CreateRateLimitAsWritten, ImplRateLimit.CreateAsWrittenScalesRefill | ImplRateLimit.CreateRateLimit |
| src/database/impl/sqlite/ratelimit.go:26 | key id and tier id are bound in swapped order | setting key "k" to tier "gold" | bind the tier first, then the key | high, not executed | ImplRateLimit.SetRateLimitAsWritten | ImplRateLimit.SetRateLimit, ImplRateLimit.SetThenGetTier |
| src/database/impl/sqlite/ratelimit.go:56 | the tier id is bound first, shifting every argument one place | updating an existing tier's limit | bind the tier id last, for the WHERE clause | high, not executed | ImplRateLimit.UpdateRateLimitAsWritten, ImplRateLimit.UpdateAsWrittenMissesTier | ImplRateLimit.UpdateRateLimit |
| src/database/impl/sqlite/resource.go:128 | the resource's node map is never made, so the first node written panics; this assumes the row iterator, which is not part of this model, yields the resource's join rows (see Left out) | a resource with one granted role | make the map before filling it | medium, not executed | ImplResource.GetResourceDataAsWritten, ImplResource.ReadAsWrittenPanics | ImplResource.GetResourceData |
| src/database/impl/sqlite/resource.go:65-68 | resources are written by index into a zero-length slice | a page holding one resource id | append each resource | high, not executed | ImplResource.GetResourcesAsWritten | ImplResource.GetResources |
| src/database/dbimpl/sqlite/sqlite.go:426-427 | each row binds the operation where the resource id belongs and the resource id where the operation belongs | resource "docs" gives first row resource "0" | resource id first, then the operation | high, not executed | DbimplSqlite.ParamsAsWritten, DbimplSqlite.ParamsSwapColumns, DbimplSqlite.ParamsAsWrittenMisnameResource | DbimplSqlite.Params |
| src/database/dbimpl/sqlite/sqlite.go:114 | the guard refuses keys that HAVE an id, with a message saying the id is missing | any key with id "k" | refuse keys whose id is empty | high, not executed | DbimplSqlite.OldCreateKeyGuard, DbimplSqlite.OldGuardInverted | DbimplKey.CreateKey |
| src/database/dbimpl/sqlite/sqlite.go:268-296 | the node maps of the zero resource are nil, so the first declared row would panic; as written the loop is not reached with a row (see Left out) | one read grant row, given to the loop on its own | make the four maps first | medium, not executed | DbimplSqlite.DispatchAsWritten, DbimplSqlite.DispatchAsWrittenPanics | DbimplSqlite.Dispatch |
| src/database/dbimpl/sqlite/role.go:69 | each role is scanned into a value, so any named role makes the listing fail | one created role, then a full listing | scan into `&role` | high, not executed | DbimplRole.GetRolesAsWritten, DbimplRole.ListingAsWrittenFails | DbimplRole.GetRoles, DbimplRole.CreateThenListed |
| src/database/dbimpl/sqlite/role.go:91 | the parameter slice is bound as one argument, so every non-empty call fails | giving key "k" the role "admin" | spread the slice as separate arguments | high, not executed | DbimplRole.GiveRoleAsWritten, DbimplRole.GiveAsWrittenLinksNothing | DbimplRole.GiveRole |
| src/database/dbimpl/sqlite/role.go:108 | the role slice is bound as one argument after the key id, so every non-empty call fails | taking "admin" from a key that has it | spread the roles as separate arguments | high, not executed | DbimplRole.TakeRoleAsWritten, DbimplRole.TakeAsWrittenKeepsLink | DbimplRole.TakeRole, DbimplRole.TakeUndoesGive |
| src/database/impl/cache/cache.go:197 | the grant assigns into the cached resource's node map, which is nil when the store read it (src/database/impl/sqlite/resource.go:102) or a caller created it without nodes (cache.go:107-109) | reading a resource that has no granted roles through the cache, then granting it to "admin" | make the node map before patching it | high, not executed | ImplCache.GrantPermissionAsWritten, ImplCache.ReadThenGrantPanicsAsWritten, ImplCache.CreateThenGrantPanicsAsWritten | ImplCache.GrantPermission |
| src/database/dbimpl/cache/cache.go:166-172 | the grant assigns into the chosen operation's node map, which is nil in the zero resource or in one created without nodes | granting read access to "admin" on a cached zero resource | make the node map before patching it | high, not executed | DbimplCache.ChangePermissionAsWritten, DbimplCache.GrantZeroPanicsAsWritten | DbimplCache.ChangePermission, DbimplCache.GrantPermission |
| src/database/dbimpl/sqlite/sqlite.go:85 | each table name is scanned into a value, so every database is refused | a database with exactly the eight tables | scan into `&name` | high, not executed | DbimplSqlite.CheckAsWritten, DbimplSqlite.CheckAsWrittenRefusesSound | DbimplSqlite.Check |
| src/database/impl/cache/cache.go:130-136 | a miss asks for the write lock while holding its own read lock | any key not yet cached | release the read lock before taking the write lock | high, not executed | ImplCache.GetKeyDataAsWritten, ImplCache.MissHangsAsWritten | ImplCache.GetKeyData |
| src/database/impl/cache/cache.go:232-234 | the tier is copied into the key when the store REFUSED the change | a successful change to "gold" leaves the cached key on its old tier | copy the tier when the store accepted it | high, not executed | ImplCache.SetRateLimitAsWritten, ImplCache.SetRateLimitAsWrittenStale | ImplCache.SetRateLimit |
| src/server/middleware/unified_ratelimit.go:56-62 | when the default bucket refuses, the code falls through to the tier path instead of answering 429 | a store error on the tier lookup, a refusing default bucket, a tier with no rate limit | answer 429 there | medium, not executed | UnifiedRateLimit.UnifiedRateLimitAsWritten, UnifiedRateLimit.AsWrittenDoubleRefund | UnifiedRateLimit.UnifiedRateLimit, UnifiedRateLimit.AttemptTokenKept |
| src/filemanager/filemanager.go:27-34 | a relative name is cleaned without a root, and the string prefix test admits a sibling directory | `../fsrv2` under `/home/fsrv` yields `/home/fsrv2` | clean the name as a rooted path | high, not executed | FileManager.CleanPathAsWritten, FileManagerCases.CleanPathEscapes, FileManagerCases.SiblingOutside | FileManager.CleanPath, FileManager.CleanPathConfined, FileManagerCases.CleanPathKeepsSiblingInside |
| src/filemanager/filemanager.go:44 | the guard compares the stripped length with the name's, so any rooted name passes it | `/etc/passwd` under `/home/fsrv` is accepted at depth 2 | refuse a path outside the base | high, not executed | FileManager.CheckDepthAsWritten, FileManagerCases.CheckDepthAcceptsOutsider | FileManager.CheckDepth, FileManagerCases.CheckDepthRefusesOutsider, FileManager.DepthOfCleanedPath |
