# lemma-chain request core in Dafny

lemma-chain is a small HTTP service for "refs": nodes of JSON data in a graph
store, linked to parent refs by typed edges (facets). Each node has a public
address, either `@owner/hashid` or a bare `hashid`. This project models the
request-facing logic around the store:

- the reference grammar `facet ":" ["@" owner "/"] hashid` and the address
  grammar `["@" owner "/"] hashid`;
- node creation, in its current version and its earlier one. This covers the
  fail-fast validation, the batched parent lookup with the owner-scope check,
  and the transaction that commits a node together with its address;
- chain resolution: address and depth parsing, the response cache, the owner
  check, the recursion directive and the recursive renderer;
- the response cache, which is either a TTL cache or a disabled one;
- the login middleware, the account page and search.

Go strings are byte sequences (`Bytes.Bytes`), because Go's `len` counts
bytes. `strings.TrimSpace`, `Split`, `Join`, `TrimPrefix`, `ToLower` and
`strconv.Atoi` are written out in `bytes.dfy` and `decimal.dfy`.

Everything outside the program is a parameter of the handler that uses it:

- JSON decoding (`objectOf`);
- the bot check;
- every store query (a `StoreRead` that fails, cannot be decoded, or returns
  rows);
- the uid the store assigns;
- the hashid encoder;
- the clock.

What the store keeps is a ghost log (`Store.GraphStore`). Writes reach it
only through a transaction (`Store.Txn`), and only a commit appends to it.

A Go runtime panic (an index out of range) is answered by the framework's
recover middleware with a 500. A rendering failure of `c.JSON` is taken to
reach the framework's error handler before anything is written, which also
answers 500. Both are modelled as the reply body `EchoError`.

The shared cache holds values of three kinds: chains, search results and
logins. The key prefix says which kind (`Records.WellTyped`). The three
prefixes start with different bytes, which is why the middleware's cast of a
cached value to a login can never fail.

The code has no facet-type filter for chains, no owner back-fill pass over a
resolved chain, and no visited set. An unresolvable chain address gets a 400.

## Model

| member | source | states |
|---|---|---|
| NodeCreate.SplitRefNameSound | node_create.go:297-361 | a parsed reference has a non-empty, trimmed facet of at most 75 bytes without `"`, `@`, `/` or `:`, and a non-empty hashid. A declared owner is non-empty, trimmed and `/`-free. An unscoped hashid is `/`-free |
| NodeCreate.SplitScopeSound | node_create.go:331-360 | after the colon, a successful split yields a non-empty hashid and a non-empty, trimmed, `/`-free owner when one is declared |
| NodeCreate.SplitRefNameDelegates | node_create.go:297-333 | with a valid facet, `f:rest` is parsed by parsing `rest`. An empty `rest` is "invalid parent ref" |
| NodeCreate.SplitRefNameBare | node_create.go:325-337 | round trip: `f:h` parses to `(f, none, h)` |
| NodeCreate.SplitRefNameScoped | node_create.go:325-360 | round trip: `f:@o/h` parses to `(f, some o, h)` |
| NodeCreate.SplitScopeScoped | node_create.go:339-360 | `@o/h` gives `(o trimmed, h)`, and `h` may contain `/`. An empty owner or an empty hashid is "invalid parent ref" |
| NodeCreate.SplitRefNameRejectsFacetChar | node_create.go:318-322 | a facet containing `"`, `@` or `/` is refused with its own message |
| NodeCreate.CheckFacet | node_create.go:305-323 | the facet passes iff, once trimmed, it is non-empty, at most 75 bytes and free of `"`, `@` and `/`. It is then the trimmed text. Every refusal is a 400 message |
| NodeCreate.SplitRefNameNeedsColon | node_create.go:299-308 | blank input, or input without `:`, is "invalid parent ref" |
| NodeCreate.SplitScopeNeedsAt | node_create.go:345-348 | a first segment not starting with `@` is "provided parent ref does not exist" |
| NodeCreate.SplitScopeEmptyOwnerOneSlash | node_create.go:339-342 | `/h` (exactly two segments, the first empty) is "invalid parent ref" |
| NodeCreate.SplitScopeEmptyOwnerTwoSlashes | node_create.go:339-345 | `/a/b` passes the two-segment check and reaches the index at line 345 on an empty segment, which panics |
| NodeCreate.CheckPayload | node_create.go:57-70 | missing, then not an object, then more than 12·1024 bytes, each with its message. Success is exactly "present, an object, at most the bound" and yields the compact form |
| NodeCreate.PayloadCheckedFirst | node_create.go:57-70 | the payload failures are the handler's reply, with nothing committed. Exactly the bound passes |
| NodeCreate.CheckField | node_create.go:81-102 | an absent field stays absent. A present field is trimmed and passes iff it is non-empty and at most the limit |
| NodeCreate.CheckSearch | node_create.go:73-102 | searchable with neither field is refused. It succeeds iff it is not that case and each given field, trimmed, is non-empty and at most 100 or 800 bytes (so exactly the bound passes). Success keeps each field present iff given, trimmed |
| NodeCreate.CheckSearchFields | node_create.go:73-102 | the in-place trimming of the handler equals `CheckSearch` |
| NodeCreate.TrimField | node_create.go:81-102 | trimming one field in place and checking it equals `CheckField` |
| NodeCreate.CheckOwner | node_create.go:113-125 | the claim is trimmed and loses one `@`. Empty gives 400 "owner is invalid". Otherwise it succeeds iff someone is logged in whose name or email equals the claim, else 401 "owner requires login" |
| NodeCreate.ParseAll | node_create.go:143-153 | success iff every reference parses, giving one parsed reference per input in order. A failure is some reference's failure |
| NodeCreate.ParseAllFailureSticks | node_create.go:143-148 | once a prefix fails, the whole list fails with that error (the loop returns at the first failure) |
| NodeCreate.HashIds | node_create.go:143-153 | the looked-up hashids are the parsed ones, in order |
| NodeCreate.IndexRows | node_create.go:193-200 | every row's hashid is a key, and each key maps to a row with that hashid |
| NodeCreate.IndexRowsKeepsLast | node_create.go:198-200 | of several rows with one hashid, the last is kept |
| NodeCreate.Resolve | node_create.go:202-225 | links exist iff every parent is found with a matching owner scope. Then there is one `(uid, facet)` per parent, in order |
| NodeCreate.ResolveParents | node_create.go:130-225 | failures are 400 or 500, and a success has one link per parent |
| NodeCreate.ResolveParentsSpec | node_create.go:130-225 | more than the limit is refused before parsing. A success links each parent to a looked-up row with its hashid and its declared owner, keeping its facet |
| NodeCreate.ResolveRejectsWrongScope | node_create.go:211-222 | a parent whose rows all have a different owner than declared is refused with one message |
| NodeCreate.ResolveParentRefs | node_create.go:130-226 | the three loops (parse, index, resolve) compute `ResolveParents` |
| NodeCreate.ParseRefs | node_create.go:143-156 | the parse loop stops at the first bad reference with its error. Otherwise it yields `ParseAll` and the hashids to look up |
| NodeCreate.IndexRowsByHashid | node_create.go:193-200 | the indexing loop builds `IndexRows` of the lookup rows |
| NodeCreate.ResolveRefs | node_create.go:202-225 | the resolving loop, with its four-way owner comparison, computes `Resolve` |
| NodeCreate.Validate | node_create.go:57-226 | every validation failure is a 400, 401 or 500 |
| NodeCreate.PersistAtomic | node_create.go:256-293 | the transaction either replies 200 and commits a node followed by its address, or commits nothing |
| NodeCreate.CreateAtomic | node_create.go:109-110 | only a 200 persists anything, and what it persists is a node followed by its address |
| NodeCreate.CreateLink | node_create.go:227-293 | a 200 carries `@user/hashid` (the logged-in name) when an owner was claimed, else the bare hashid. The claim named the user or their email. The record holds the compact payload, the owner's uid, the search flag, both checked search fields (absent when not given), the current time and the resolved parents |
| NodeCreate.ValidatedRecord | node_create.go:57-277 | a request that passes validation had an object payload. The record holds its compact form, the claimed owner's uid, the search flag, both checked search fields, the current time and the resolved parents. The owner is the logged-in user exactly when one was claimed, and the parents are the resolved ones |
| NodeCreate.PersistLink | node_create.go:256-293 | a 200 from the transaction derived the hashid from the assigned uid without its first two bytes, answers the node's address, and commits the record followed by that address |
| NodeCreate.CheckRequest | node_create.go:57-107 | the checks before the transaction (payload, search fields, bot check) compute `PreChecks`, which `Validate` runs first |
| NodeCreate.InTxn | node_create.go:113-293 | inside the transaction, the owner and parent checks and the commit give the reply and the new log of `ValidateInTxn` followed by `Persist` |
| NodeCreate.CreateNode | node_create.go:43-294 | the handler's reply and the store's new log are those of `CreateSpec` |
| NodeCreate.Commit | node_create.go:256-293 | the two mutations and the commit produce `Persist`'s reply and log |
| LegacyNode.SplitRefNameSound | node.go:235-291 | a parsed reference has a facet of 1 to 30 bytes without `:` and not starting with a space, a non-empty hashid, and a non-empty, trimmed, `/`-free owner when one is declared |
| LegacyNode.SplitRefNameDelegates | node.go:235-260 | with a facet that is 1 to 30 bytes, `:`-free and not starting with a space, `f:rest` parses as `rest`, and the facet is kept untrimmed |
| LegacyNode.SplitRefNameBare | node.go:248-269 | `f:h` round-trips for any such facet, including ones with `"`, `@`, `/` or trailing space |
| LegacyNode.SplitRefNameScoped | node.go:256-291 | `f:@o/h` round-trips |
| LegacyNode.CheckOwner | node.go:56-66 | the claim succeeds iff the logged-in name equals it, with the same 400 and 401 as the current version |
| LegacyNode.EmailClaimRefused | node.go:62-65 | an email claim, accepted by the current version, is refused with 401 |
| LegacyNode.Validate | node.go:37-167 | every validation failure is a 400, 401 or 500 |
| LegacyNode.CreateAtomic | node.go:169-231 | only a 200 persists, and the node is never searchable and has no search fields |
| LegacyNode.CreateLink | node.go:169-231 | a 200 carries `@user/hashid` or the bare hashid. The claim named the user. The record holds the compact payload, the user's uid as owner when one was claimed, no search flag, the current time and the resolved parents |
| LegacyNode.TooManyParentsRefused | node.go:71-75 | more than 100 parents gives 400 "max 100 parents permitted" with nothing committed |
| LegacyNode.CreateNode | node.go:23-232 | the handler's reply and new log are those of its `CreateSpec` |
| FindChain.SplitNodeIDFormat | find_chain.go:212-239 | round trip: the address built as at lines 47-51 parses back to `(owner, hashid)` |
| FindChain.SplitNodeIDUnscoped | find_chain.go:220-225 | without `/`, the whole address is the hashid, even when it starts with `@` |
| FindChain.SplitNodeIDDropsTail | find_chain.go:220-238 | `@o/h/t` gives `(o, h)`: later segments are dropped |
| FindChain.SplitNodeIDEmptyHashid | find_chain.go:232-238 | `@o/` is accepted with an empty hashid |
| FindChain.SplitNodeIDNeedsAt | find_chain.go:227-230 | `/x` panics at line 227. A first segment without `@` is refused |
| FindChain.SplitNodeIDTrimmed | find_chain.go:214-217 | an already trimmed address is split as it is |
| FindChain.SplitAddressScoped | find_chain.go:227-238 | `@o/rest` gives `o` and the first segment of `rest` |
| FindChain.SplitNodeIDRefusesBlank | find_chain.go:214-217 | a blank address is refused |
| FindChain.SplitNodeIDRefusesBlankOwner | find_chain.go:232-236 | `@ /x`, whose owner is blank once trimmed, is refused |
| FindChain.ParseDepth | find_chain.go:78-85 | empty is unbounded. A value that is not an int64 or is 0 is malformed. Otherwise the depth is the parsed value, negative values included. Unbounded happens exactly for an empty value |
| FindChain.ParseDepthFormatInt | find_chain.go:78-85 | every non-zero int64 written in decimal is accepted as itself, and 0 is refused |
| FindChain.ChainKey | find_chain.go:88 | the key carries the chain prefix, so it never collides with a search or login key |
| FindChain.MarshalChain | find_chain.go:34-66 | non-object data fails. The id is the address with the owner iff there is exactly one owner. `ref` is present iff the first parent has a uid, and then it holds the parents' renderings in order. `ref_type` is the facet. A node renders iff its data is an object and, when it renders its parents, they all render |
| FindChain.MarshalAll | find_chain.go:34-66 | succeeds iff every node renders, giving the nodes in order |
| FindChain.UidlessParentsIgnored | find_chain.go:53-59 | when the first parent has no uid, no parent is rendered or can cause a failure |
| FindChain.ParentFailureFailsChain | find_chain.go:53-65 | a rendered parent that fails makes the whole node fail |
| FindChain.RenderChain | find_chain.go:207 | 200 with the rendered chain iff it renders, else the framework's 500 |
| FindChain.QueryChain | find_chain.go:102-207 | a chain is returned for caching only when the owner check found a row whose owner equals the declared one, and it is what the chain query returned for the depth's directive. Any other outcome is not a 200 |
| FindChain.ChainReadOnlyInScope | find_chain.go:143-205 | a cached chain came from a parsed address, a well-formed depth and a matching owner check |
| FindChain.MissGoesToStore | find_chain.go:71-202 | a chain is read only on a cache miss, for a parsed address and a well-formed depth, and then by the two queries |
| FindChain.CachedChainIgnoresStore | find_chain.go:87-93 | a cache hit answers before any store access and writes nothing |
| FindChain.UnrenderableChainCached | find_chain.go:204-207 | a chain that cannot be rendered is cached anyway, so the 500 repeats on every later hit |
| FindChain.FindChainHandler | find_chain.go:68-209 | the reply is `FindChainSpec` of the cached value under the key. The cache gains that key exactly when a chain was read, and stays well typed |
| FindChain.ChainServed | find_chain.go:143-207 | an address in scope whose chain the store returns is answered with that chain rendered, and the chain is handed to the cache |
| FindChain.OutOfScopeRefused | find_chain.go:143-158 | a hashid with no owner row, or whose owner differs from the declared one, is always the same 400 "can't find ref", and nothing is cached |
| FindChain.QueryErrorsClassified | find_chain.go:119-202 | a failed owner check or chain query is answered by the error classification, and an undecodable answer is a 500, with nothing cached |
| FindChain.RequestRefusals | find_chain.go:71-85 | a bad address is 400 "can't find ref", an empty first segment is the framework's 500, and a malformed depth is 400, whatever the cache holds |
| FindChain.ServeChain | find_chain.go:87-207 | after parsing, a cached chain is rendered as it is, and otherwise the two queries decide the reply, and the chain they return is cached |
| FindChain.RunQueries | find_chain.go:102-202 | the owner check and chain query, written out, compute `QueryChain` |
| Http.ClassifyQueryError | find_chain.go:119-128 | "context canceled" gives 204 with no body. Otherwise "context deadline exceeded" gives 408 with no body. Anything else gives 500 "something went wrong. Try again" |
| Address.OwnerScopeMatches | node_create.go:211-222 | the four-way comparison holds iff the declared and actual owners are both absent or the same name |
| Address.OwnedAndBareDiffer | node_create.go:279-283 | an owned address never equals a bare `/`-free hashid |
| Search.MarshalRef | search.go:29-52 | renders iff the data is an object. The id is the bare hashid without a name, else `@name/hashid`. The other fields are kept |
| Search.MarshalResults | search.go:109-123 | all hits render, in order, or none does |
| Search.HitIdResolves | search.go:45-49 | a hit's id parses back through the chain address grammar to its owner and hashid |
| Search.RenderResults | search.go:123 | 200 with the hits iff they render, else the framework's 500 |
| Search.SearchKey | search.go:63 | the key carries the search prefix |
| Search.BlankTermsShortCircuit | search.go:57-60 | blank terms answer 200 with an empty object, whatever the cache and the store hold |
| Search.CachedResultsIgnoreStore | search.go:62-68 | for non-blank terms a hit is answered with the cached hits rendered, without the store, and caches nothing |
| Search.CachedOnlyAfterQuery | search.go:98-121 | results are cached iff the query for the trimmed terms succeeded, exactly as returned. A failed query maps to 204, 408 or 500 |
| Search.QueriedResultsServed | search.go:98-123 | on a miss, returned hits are rendered and cached, a failed query is answered by the error classification, and an undecodable answer is a 500 |
| Search.SearchHandler | search.go:54-124 | the reply is `SearchSpec` of the cached value. The cache gains the key exactly when results were read, and stays well typed |
| Search.RunSearch | search.go:98-118 | the query and its error mapping, written out, compute `QuerySearch` |
| Middleware.KeysAgreeWithoutAt | middleware.go:28-29 | without a leading `@`, the name and email keys are equal |
| Middleware.NameKeyDropsAt | middleware.go:28-29 | `@name` is looked up by name as lowercase `name`, and by email as lowercase `@name` |
| Middleware.LoginKey | middleware.go:36 | the key carries the login prefix |
| Middleware.CheckRow | middleware.go:111-147 | a row logs in iff its password matched and it is validated, and then the identity is cached. A wrong password gives 401 with no body. An unvalidated account with a matching password gives 401 with its own message |
| Middleware.BlankCredentialsAnonymous | middleware.go:26-33 | a blank account or password passes on with no identity and no lookup |
| Middleware.UnknownAccountRefused | middleware.go:77-110 | an account neither lookup finds gives 401 with no body, whatever is cached. A failed or undecodable lookup gives 500 |
| Middleware.NameMatchSecond | middleware.go:130-148 | without exactly one row by email, a single row by name decides: a matching password and validation log in and cache the login, a wrong password is 401 with no body, and an unvalidated account is 401 "account requires email verification" |
| Middleware.LoginNeedsPasswordAndValidation | middleware.go:108-149 | a login that gets cached comes from a row with a matching password and validation. The row is from the email lookup when that found one row, else from the name lookup |
| Middleware.EmailMatchFirst | middleware.go:111-130 | one row by email decides, whatever the name lookup returned |
| Middleware.CacheDoesNotSkipLookup | middleware.go:36-149 | a cached login changes nothing unless the lookups return neither zero rows nor exactly one row |
| Middleware.LoginChecker | middleware.go:21-153 | the decision is `LoginSpec` of the cached login under the key. The cache gains the login exactly on a successful lookup, and stays well typed |
| Middleware.Lookup | middleware.go:77-149 | the lookups' answer written out computes `LookupSpec`: 500 on a failed or undecodable query, 401 when neither lookup found a row, the email row, then the name row. Only a successful login is cached |
| Middleware.LoginRow | middleware.go:111-147 | the branch for one matched row computes `CheckRow` and caches the login it produces |
| AccountShow.SearchableRefs | account_show.go:78 | exactly the searchable refs are kept, and no more of them than there are refs |
| AccountShow.SearchableRefsCount | account_show.go:78 | each searchable ref is kept as many times as it occurs among the refs, and no other ref is kept |
| AccountShow.SearchableRefsKeepsOrder | account_show.go:60 | filtering keeps the order of the refs: the filter of a concatenation is the concatenation of the filters |
| AccountShow.SearchableRefsOne | account_show.go:78 | a single ref is kept exactly when it is searchable |
| AccountShow.Project | account_show.go:73-79 | the private query adds the email and keeps all refs. The public one has no email and its refs are `SearchableRefs` of the stored ones, whose order and multiplicity the lemmas about it state |
| AccountShow.Publish | account_show.go:98-117 | the name becomes `@name`, each ref id becomes the ref's address under it, and every other field is kept |
| AccountShow.NameNeedsAt | account_show.go:42-44 | a name without `@` is 404 |
| AccountShow.ShownAccountIsUnique | account_show.go:41-122 | a 200 happens iff the name starts with `@` and exactly one user is stored under the lowercase name, and the page is named `@name`. Zero or several users give 404 with no body. A failed or undecodable query gives 500 |
| AccountShow.Visibility | account_show.go:58-117 | the owner sees the email and all refs. Anyone else sees no email and only the searchable refs. Either way the page holds those refs in order, each with its id turned into its address |
| AccountShow.RefIdsResolve | account_show.go:113-115 | each ref id on the page parses back through the chain address grammar to the account and the ref's hashid |
| AccountShow.RewriteIds | account_show.go:113-115 | the in-place loop turns each id into `owner/id` and changes nothing else |
| AccountShow.ShowAccount | account_show.go:35-123 | the handler's reply is `ShowSpec` |
| Cache.Cache.Init | cache.go:31-38 | a zero duration selects the cache that holds nothing. Otherwise the TTL cache uses that duration |
| Cache.Cache.Get | cache.go:15-25 | the entry under the key. The disabled cache answers "not found" |
| Cache.Cache.Set | cache.go:15-29 | the enabled cache maps the key to the value. The disabled one is unchanged |
| Cache.DisabledCacheForgets | cache.go:23-37 | with caching disabled, a Get after a Set misses |
| Cache.EnabledCacheRemembers | cache.go:32-33 | with caching enabled, a Get after a Set finds the value |
| Records.PrefixesDisjoint | find_chain.go:88 | no key carries two of the chain, search and login prefixes |
| Records.StoreKeepsWellTyped | middleware.go:41 | storing each kind under its own prefix keeps the cache well typed, so the cast at this line cannot fail |
| NodeCreate.CreateKeepsAddressed | node_create.go:256-293 | creating a node keeps every committed node followed by the write of its address |
| LegacyNode.CreateKeepsAddressed | node.go:169-231 | the same for the earlier version |
| Store.AddressedAppend | node_create.go:285 | committing node-and-address pairs onto a log of such pairs keeps every node in it addressed |
| Store.Txn.Commit | node_create.go:285-289 | a successful commit appends every pending mutation to the store. A failed one appends nothing |
| Store.Txn.Mutate | node_create.go:256-277 | an accepted mutation joins the transaction, and a failed one leaves it as it was |
| Store.Txn.Discard | node_create.go:110 | discarding persists nothing |
| Decimal.AtoiFormatInt | find_chain.go:81 | `strconv.Atoi` reads back every int64 that `%d` writes |
| Bytes.JoinSplit | node_create.go:327 | joining the split pieces with the same separator gives back the string |

## Left out

- The hashid codec. `EncodeHex` is a parameter that may fail (`World.encodeHex`), and nothing about it is proved. The earlier version uses a different alphabet, which the same parameter stands for.
- The store's query language, recursion, mutations and schema. Query answers are parameters (`findNodes`, `checkOwner`, `chainQuery`, `query`, `lookup`, `accounts`). The store's uid is `World.assignedUid`. Because the query text is not modelled, the unescaped splicing of hashids into it is not modelled either.
- JSON. Decoding to an object and compaction are the parameter `objectOf`. Rendering is a datatype, not bytes. Request binding errors (`c.Bind`) and the 400 they give are not modelled.
- `recaptchaCheck` is the parameter `World.recaptcha`. The clock is `World.now`. Created-at values are plain integers.
- Query timeouts and context cancellation. Only the classification of the error text is kept (`Http.ClassifyQueryError`).
- `Bytes.Trim`: white space is ASCII only. `strings.TrimSpace` also trims Unicode spaces. `Bytes.ToLower` is ASCII only too.
- Cache.Cache.Get: entries never expire. The TTL and the janitor sweep are time-based and live in a foreign library. Only the configured values are kept as constants.
- AccountShow.ShowAccount: a missing ref list and an empty one are the same sequence, so the replacement of a missing list by an empty one is implicit.
- Middleware.LoginChecker: the identity is returned as a decision rather than written into the request context. The handlers receive it as their `who` argument.
- FindChain.RenderChain: a rendering failure is modelled as the framework's 500. This assumes an Echo release whose `c.JSON` marshals the value before it writes the status. Echo v3.3 writes the 200 first and then encodes, and there the client would get a 200 with a cut-off body, which the model does not capture.
- Search.RenderResults: the same assumption about `c.JSON` as for `FindChain.RenderChain`.
- FindChain.UnrenderableChainCached: the repeated failure is the modelled 500, under the same assumption about `c.JSON`.
- Routing, CORS, rate limiting, the `nocache` header middleware, environment parsing, account creation, email verification and the cleanup job are not part of this model.
