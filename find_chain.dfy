/** Chain resolution (the catch-all GET route): a node address `[@owner/]hashid` and an
    optional depth select a node; its owner scope is checked, the chain of
    its ancestors is read with one recursive query, kept in the shared cache
    under the address and the raw depth, and rendered node by node. */
module FindChain {
  import opened Wrappers
  import opened Bytes
  import opened Http
  import opened Records
  import Decimal
  import Address
  import Cache

  const CantFindRef: string := "can't find ref"
  const MalformedDepth: string := "depth query param is malformed"

  /** Why an address was refused: it is not one, or its first segment is
      empty and indexing it panics. */
  datatype IdError = BadId | IndexOutOfRange

  /** splitNodeID: the declared owner, if any, and the hashid. */
  function SplitNodeID(nodeID: Bytes): Result<(Option<Bytes>, Bytes), IdError> {
    var id := Trim(nodeID);
    if id == [] then Failure(BadId) else SplitAddress(id)
  }

  /** The split of a trimmed, non-empty address at its first `/`. */
  function SplitAddress(id: Bytes): Result<(Option<Bytes>, Bytes), IdError> {
    var splits := Split(id, SLASH);
    if |splits| == 1 then Success((None, splits[0]))
    else if splits[0] == [] then Failure(IndexOutOfRange)
    else if splits[0][0] != AT then Failure(BadId)
    else
      var owner := Trim(TrimPrefix(splits[0], [AT]));
      if owner == [] then Failure(BadId) else Success((Some(owner), splits[1]))
  }

  /** An address already trimmed is split as it is. */
  lemma SplitNodeIDTrimmed(id: Bytes)
    requires id != [] && Trimmed(id)
    ensures SplitNodeID(id) == SplitAddress(id)
  {
    TrimOfTrimmed(id);
  }

  /** The split of `@o/rest`, where `rest` holds at least one more segment. */
  lemma SplitAddressScoped(o: Bytes, rest: Bytes)
    requires o != [] && Trimmed(o) && SLASH !in o
    ensures SplitAddress([AT] + o + [SLASH] + rest) == Success((Some(o), Split(rest, SLASH)[0]))
  {
    SplitAfter([AT] + o, SLASH, rest);
    assert HasPrefix([AT] + o, [AT]);
    TrimOfTrimmed(o);
  }

  /** The address a node is published under parses back to its owner and
      hashid. */
  lemma SplitNodeIDFormat(owner: Option<Bytes>, hashid: Bytes)
    requires owner.Some? ==> owner.value != [] && Trimmed(owner.value) && SLASH !in owner.value
    requires hashid != [] && Trimmed(hashid) && SLASH !in hashid
    ensures SplitNodeID(Address.Format(owner, hashid)) == Success((owner, hashid))
  {
    var id := Address.Format(owner, hashid);
    match owner
    case None =>
      SplitNodeIDTrimmed(hashid);
      SplitWithout(hashid, SLASH);
    case Some(o) =>
      assert id[0] == AT && id[|id| - 1] == hashid[|hashid| - 1];
      SplitNodeIDTrimmed(id);
      SplitAddressScoped(o, hashid);
      SplitWithout(hashid, SLASH);
  }

  /** Only the first segment after the owner is the hashid: anything after a
      second `/` is ignored. */
  lemma SplitNodeIDDropsTail(o: Bytes, h: Bytes, tail: Bytes)
    requires o != [] && Trimmed(o) && SLASH !in o
    requires SLASH !in h
    requires tail != [] && Trimmed(tail)
    ensures SplitNodeID([AT] + o + [SLASH] + h + [SLASH] + tail) == Success((Some(o), h))
  {
    var rest := h + [SLASH] + tail;
    var id := [AT] + o + [SLASH] + rest;
    assert id == [AT] + o + [SLASH] + h + [SLASH] + tail;
    assert id[0] == AT && id[|id| - 1] == tail[|tail| - 1];
    SplitNodeIDTrimmed(id);
    SplitAddressScoped(o, rest);
    SplitAfter(h, SLASH, tail);
  }

  /** Without a `/` the whole trimmed address is the hashid, even when it
      starts with `@`. */
  lemma SplitNodeIDUnscoped(id: Bytes)
    requires id != [] && Trimmed(id) && SLASH !in id
    ensures SplitNodeID(id) == Success((None, id))
  {
    SplitNodeIDTrimmed(id);
    SplitWithout(id, SLASH);
  }

  /** `@owner/` is accepted with an empty hashid. */
  lemma SplitNodeIDEmptyHashid(o: Bytes)
    requires o != [] && Trimmed(o) && SLASH !in o
    ensures SplitNodeID([AT] + o + [SLASH]) == Success((Some(o), []))
  {
    var id := [AT] + o + [SLASH];
    assert id == [AT] + o + [SLASH] + [];
    assert id[0] == AT && id[|id| - 1] == SLASH;
    SplitNodeIDTrimmed(id);
    SplitAddressScoped(o, []);
  }

  /** An address whose first segment is not `@owner` is refused, except that
      an empty first segment panics. */
  lemma SplitNodeIDNeedsAt(a: Bytes, b: Bytes)
    requires SLASH !in a && Trimmed(a + [SLASH] + b)
    ensures a == [] ==> SplitNodeID(a + [SLASH] + b) == Failure(IndexOutOfRange)
    ensures a != [] && a[0] != AT ==> SplitNodeID(a + [SLASH] + b) == Failure(BadId)
  {
    SplitNodeIDTrimmed(a + [SLASH] + b);
    SplitAfter(a, SLASH, b);
  }

  /** A blank address is refused. */
  lemma SplitNodeIDRefusesBlank(nodeID: Bytes)
    requires Trim(nodeID) == []
    ensures SplitNodeID(nodeID) == Failure(BadId)
  {
  }

  /** An address whose owner is blank after its `@` is refused. */
  lemma SplitNodeIDRefusesBlankOwner(o: Bytes, b: Bytes)
    requires Trimmed([AT] + o + [SLASH] + b) && SLASH !in o && Trim(o) == []
    ensures SplitNodeID([AT] + o + [SLASH] + b) == Failure(BadId)
  {
    var first := [AT] + o;
    var id := first + [SLASH] + b;
    assert SLASH !in first;
    assert HasPrefix(first, [AT]) && first[1..] == o;
    assert TrimPrefix(first, [AT]) == o;
    SplitAfter(first, SLASH, b);
    assert Split(id, SLASH)[0] == first && |Split(id, SLASH)| >= 2;
    SplitNodeIDTrimmed(id);
  }

  /** The depth query parameter. */
  datatype Depth = Unbounded | Bounded(n: int) | Malformed

  function ParseDepth(raw: Bytes): (d: Depth)
    ensures d.Unbounded? <==> raw == []
    ensures d.Bounded? ==> d.n != 0 && Decimal.Atoi(raw) == Some(d.n)
    ensures raw != [] ==> (d.Malformed? <==> Decimal.Atoi(raw) in {None, Some(0)})
  {
    if raw == [] then Unbounded
    else
      match Decimal.Atoi(raw)
      case None => Malformed
      case Some(n) => if n == 0 then Malformed else Bounded(n)
  }

  /** Every non-zero 64-bit depth written in decimal is accepted as itself;
      zero is refused. */
  lemma ParseDepthFormatInt(n: int)
    requires Decimal.MinInt64 <= n <= Decimal.MaxInt64
    ensures ParseDepth(Decimal.FormatInt(n)) == if n == 0 then Malformed else Bounded(n)
  {
    Decimal.AtoiFormatInt(n);
  }

  /** The recursion directive of the chain query. */
  function RecurseDirective(d: Depth): Bytes {
    if d.Bounded? then Lit("@recurse(depth:") + Decimal.FormatInt(d.n) + Lit(",loop:false)")
    else Lit("@recurse(loop:false)")
  }

  /** The cache key of a chain: the trimmed address and the raw depth. */
  function ChainKey(nodeID: Bytes, rawDepth: Bytes): (k: Bytes)
    ensures HasPrefix(k, ChainKeyPrefix())
  {
    ChainKeyPrefix() + nodeID + Lit("-") + rawDepth
  }

  // ---------------------------------------------------------------------
  // Rendering

  /** A chain node as the client receives it. */
  datatype ChainJson = ChainJson(data: JsonObject, id: Bytes, ref: Option<seq<ChainJson>>, refType: Option<Bytes>)

  /** The parents of a node are rendered only when the first one carries a
      uid (the store returns uid-less parents past the recursion depth). */
  predicate EmitsRef(cm: ChainModel) {
    |cm.parent| != 0 && cm.parent[0].uid != []
  }

  /** The address a node is rendered under. */
  function NodeAddress(cm: ChainModel): Bytes {
    Address.Format(if |cm.owner| == 1 then Some(cm.owner[0]) else None, cm.hashid)
  }

  /** ChainModel.MarshalJSON: fails when the node's data, or the data of a
      parent it renders, is not a JSON object. */
  function MarshalChain(cm: ChainModel, objectOf: Bytes -> Option<JsonObject>): (r: Option<ChainJson>)
    ensures objectOf(cm.xdata).None? ==> r.None?
    ensures r.Some? ==>
      && r.value.data == objectOf(cm.xdata).value
      && r.value.id == NodeAddress(cm)
      && r.value.refType == cm.facet
      && (r.value.ref.Some? <==> EmitsRef(cm))
      && (r.value.ref.Some? ==> MarshalAll(cm.parent, objectOf) == r.value.ref)
    ensures r.Some? <==> objectOf(cm.xdata).Some? && (!EmitsRef(cm) || MarshalAll(cm.parent, objectOf).Some?)
    decreases cm
  {
    match objectOf(cm.xdata)
    case None => None
    case Some(data) =>
      if EmitsRef(cm) then
        match MarshalAll(cm.parent, objectOf)
        case None => None
        case Some(refs) => Some(ChainJson(data, NodeAddress(cm), Some(refs), cm.facet))
      else Some(ChainJson(data, NodeAddress(cm), None, cm.facet))
  }

  /** A slice of chain nodes, in order; the first failure fails all. */
  function MarshalAll(cms: seq<ChainModel>, objectOf: Bytes -> Option<JsonObject>): (r: Option<seq<ChainJson>>)
    ensures r.Some? <==> forall i :: 0 <= i < |cms| ==> MarshalChain(cms[i], objectOf).Some?
    ensures r.Some? ==>
      |r.value| == |cms| && forall i :: 0 <= i < |cms| ==> r.value[i] == MarshalChain(cms[i], objectOf).value
    decreases cms
  {
    if cms == [] then Some([])
    else
      match MarshalChain(cms[0], objectOf)
      case None => None
      case Some(first) =>
        match MarshalAll(cms[1..], objectOf)
        case None => None
        case Some(rest) =>
          assert forall i :: 1 <= i < |cms| ==> cms[i] == cms[1..][i - 1];
          Some([first] + rest)
  }

  /** Parents past the recursion depth come back without a uid: when the
      first parent has none, no parent is rendered, and none can make the
      node fail. */
  lemma UidlessParentsIgnored(cm: ChainModel, objectOf: Bytes -> Option<JsonObject>)
    requires |cm.parent| != 0 && cm.parent[0].uid == []
    ensures MarshalChain(cm, objectOf) == MarshalChain(cm.(parent := []), objectOf)
  {
  }

  /** The node with data that is not a JSON object makes every chain that
      renders it fail: a parent's failure reaches the root. */
  lemma ParentFailureFailsChain(cm: ChainModel, i: int, objectOf: Bytes -> Option<JsonObject>)
    requires EmitsRef(cm) && 0 <= i < |cm.parent|
    requires MarshalChain(cm.parent[i], objectOf).None?
    ensures MarshalChain(cm, objectOf).None?
  {
  }

  /** The reply rendering a chain: 200 with the rendered nodes, or the
      framework's 500 when a node cannot be rendered. */
  function RenderChain(chain: seq<ChainModel>, objectOf: Bytes -> Option<JsonObject>): (r: Reply<seq<ChainJson>>)
    ensures r.status == StatusOK <==> MarshalAll(chain, objectOf).Some?
    ensures r.status == StatusOK ==> r.body == Payload(MarshalAll(chain, objectOf).value)
    ensures r.status != StatusOK ==> r == Reply(StatusInternalServerError, EchoError)
  {
    match MarshalAll(chain, objectOf)
    case None => Reply(StatusInternalServerError, EchoError)
    case Some(js) => Reply(StatusOK, Payload(js))
  }

  // ---------------------------------------------------------------------
  // The handler

  /** What the collaborators answer: the JSON decoder, the owner-check query
      (the owner name of each node with the hashid) and the chain query (for
      a hashid and a recursion directive). */
  datatype ChainWorld = ChainWorld(
    objectOf: Bytes -> Option<JsonObject>,
    checkOwner: Bytes -> StoreRead<seq<Option<Bytes>>>,
    chainQuery: (Bytes, Bytes) -> StoreRead<seq<ChainModel>>)

  /** The reply, and the chain the handler stores in the cache, if any. */
  datatype ChainOutcome = ChainOutcome(reply: Reply<seq<ChainJson>>, store: Option<seq<ChainModel>>)

  /** findChainHandler, given what the cache holds under the request's key. */
  function FindChainSpec(param: Bytes, rawDepth: Bytes, cached: Option<seq<ChainModel>>, w: ChainWorld): ChainOutcome {
    match SplitNodeID(Trim(param))
    case Failure(BadId) => ChainOutcome(Reply(StatusBadRequest, ErrorBody(CantFindRef)), None)
    case Failure(IndexOutOfRange) => ChainOutcome(Reply(StatusInternalServerError, EchoError), None)
    case Success((owner, hashid)) =>
      if ParseDepth(rawDepth).Malformed? then ChainOutcome(Reply(StatusBadRequest, ErrorBody(MalformedDepth)), None)
      else if cached.Some? then ChainOutcome(RenderChain(cached.value, w.objectOf), None)
      else QueryChain(owner, hashid, ParseDepth(rawDepth), w)
  }

  /** The two queries of a cache miss: the owner check, then the chain. */
  function QueryChain(owner: Option<Bytes>, hashid: Bytes, depth: Depth, w: ChainWorld): (out: ChainOutcome)
    ensures out.store.Some? ==>
      && w.checkOwner(hashid).Rows?
      && |w.checkOwner(hashid).value| > 0
      && w.checkOwner(hashid).value[0] == owner
      && w.chainQuery(hashid, RecurseDirective(depth)) == Rows(out.store.value)
      && out.reply == RenderChain(out.store.value, w.objectOf)
    ensures out.store.None? ==> out.reply.status != StatusOK
  {
    match w.checkOwner(hashid)
    case QueryFailed(err) => ChainOutcome(ClassifyQueryError(err), None)
    case Undecodable => ChainOutcome(Reply(StatusInternalServerError, ErrorBody(SomethingWentWrong)), None)
    case Rows(names) =>
      if |names| == 0 || !Address.OwnerScopeMatches(owner, names[0]) then
        ChainOutcome(Reply(StatusBadRequest, ErrorBody(CantFindRef)), None)
      else
        match w.chainQuery(hashid, RecurseDirective(depth))
        case QueryFailed(err) => ChainOutcome(ClassifyQueryError(err), None)
        case Undecodable => ChainOutcome(Reply(StatusInternalServerError, ErrorBody(SomethingWentWrong)), None)
        case Rows(chain) => ChainOutcome(RenderChain(chain, w.objectOf), Some(chain))
  }

  /** The owner check refuses, always with the same 400, a hashid no node
      has and an address whose declared owner is not the node's owner. */
  lemma OutOfScopeRefused(owner: Option<Bytes>, hashid: Bytes, depth: Depth, w: ChainWorld)
    requires w.checkOwner(hashid).Rows?
    requires |w.checkOwner(hashid).value| == 0 || w.checkOwner(hashid).value[0] != owner
    ensures QueryChain(owner, hashid, depth, w) == ChainOutcome(Reply(StatusBadRequest, ErrorBody(CantFindRef)), None)
  {
    if |w.checkOwner(hashid).value| != 0 {
      assert !Address.OwnerScopeMatches(owner, w.checkOwner(hashid).value[0]);
    }
  }

  /** An address in scope whose chain the store returns is answered with
      that chain rendered, and the chain is handed to the cache. */
  lemma ChainServed(owner: Option<Bytes>, hashid: Bytes, depth: Depth, w: ChainWorld, names: seq<Option<Bytes>>, chain: seq<ChainModel>)
    requires w.checkOwner(hashid) == Rows(names) && |names| > 0 && names[0] == owner
    requires w.chainQuery(hashid, RecurseDirective(depth)) == Rows(chain)
    ensures QueryChain(owner, hashid, depth, w) == ChainOutcome(RenderChain(chain, w.objectOf), Some(chain))
  {
    assert Address.OwnerScopeMatches(owner, names[0]);
  }

  /** A failed query, of either kind, is answered by the error classification
      and caches nothing; an undecodable answer is a 500. */
  lemma QueryErrorsClassified(owner: Option<Bytes>, hashid: Bytes, depth: Depth, w: ChainWorld)
    ensures w.checkOwner(hashid).QueryFailed? ==>
      QueryChain(owner, hashid, depth, w) == ChainOutcome(ClassifyQueryError(w.checkOwner(hashid).err), None)
    ensures w.checkOwner(hashid).Undecodable? ==>
      QueryChain(owner, hashid, depth, w) == ChainOutcome(Reply(StatusInternalServerError, ErrorBody(SomethingWentWrong)), None)
    ensures w.checkOwner(hashid).Rows? && |w.checkOwner(hashid).value| > 0 && w.checkOwner(hashid).value[0] == owner ==>
      match w.chainQuery(hashid, RecurseDirective(depth))
      case QueryFailed(err) => QueryChain(owner, hashid, depth, w) == ChainOutcome(ClassifyQueryError(err), None)
      case Undecodable => QueryChain(owner, hashid, depth, w) ==
        ChainOutcome(Reply(StatusInternalServerError, ErrorBody(SomethingWentWrong)), None)
      case Rows(_) => true
  {
    if w.checkOwner(hashid).Rows? && |w.checkOwner(hashid).value| > 0 && w.checkOwner(hashid).value[0] == owner {
      assert Address.OwnerScopeMatches(owner, w.checkOwner(hashid).value[0]);
    }
  }

  /** Before the cache or the store is consulted, an address that is not one
      is a 400, one that panics is the framework's 500, and a malformed depth
      is a 400; none of them caches anything. */
  lemma RequestRefusals(param: Bytes, rawDepth: Bytes, cached: Option<seq<ChainModel>>, w: ChainWorld)
    ensures SplitNodeID(Trim(param)) == Failure(BadId) ==>
      FindChainSpec(param, rawDepth, cached, w) == ChainOutcome(Reply(StatusBadRequest, ErrorBody(CantFindRef)), None)
    ensures SplitNodeID(Trim(param)) == Failure(IndexOutOfRange) ==>
      FindChainSpec(param, rawDepth, cached, w) == ChainOutcome(Reply(StatusInternalServerError, EchoError), None)
    ensures SplitNodeID(Trim(param)).Success? && ParseDepth(rawDepth).Malformed? ==>
      FindChainSpec(param, rawDepth, cached, w) == ChainOutcome(Reply(StatusBadRequest, ErrorBody(MalformedDepth)), None)
  {
  }

  /** A cached chain is served without consulting the store, whatever the
      store would now answer. */
  lemma CachedChainIgnoresStore(param: Bytes, rawDepth: Bytes, chain: seq<ChainModel>, w1: ChainWorld, w2: ChainWorld)
    requires w1.objectOf == w2.objectOf
    ensures FindChainSpec(param, rawDepth, Some(chain), w1) == FindChainSpec(param, rawDepth, Some(chain), w2)
    ensures FindChainSpec(param, rawDepth, Some(chain), w1).store.None?
  {
    match SplitNodeID(Trim(param))
    case Failure(_) =>
    case Success(_) =>
      if !ParseDepth(rawDepth).Malformed? {
        assert FindChainSpec(param, rawDepth, Some(chain), w1) == ChainOutcome(RenderChain(chain, w1.objectOf), None);
        assert FindChainSpec(param, rawDepth, Some(chain), w2) == ChainOutcome(RenderChain(chain, w2.objectOf), None);
      }
  }

  /** A chain is read (and cached) only for an address whose declared owner
      is the owner the store reports for its hashid, and it is read with the
      requested depth. */
  lemma ChainReadOnlyInScope(param: Bytes, rawDepth: Bytes, w: ChainWorld)
    requires FindChainSpec(param, rawDepth, None, w).store.Some?
    ensures SplitNodeID(Trim(param)).Success?
    ensures var (owner, hashid) := SplitNodeID(Trim(param)).value;
      && w.checkOwner(hashid).Rows?
      && |w.checkOwner(hashid).value| > 0
      && w.checkOwner(hashid).value[0] == owner
      && !ParseDepth(rawDepth).Malformed?
      && w.chainQuery(hashid, RecurseDirective(ParseDepth(rawDepth))) ==
         Rows(FindChainSpec(param, rawDepth, None, w).store.value)
  {
    MissGoesToStore(param, rawDepth, w);
  }

  /** On a cache miss, a chain is read only through the two queries, for the
      address and depth of the request. */
  lemma MissGoesToStore(param: Bytes, rawDepth: Bytes, w: ChainWorld)
    requires FindChainSpec(param, rawDepth, None, w).store.Some?
    ensures SplitNodeID(Trim(param)).Success? && !ParseDepth(rawDepth).Malformed?
    ensures var (owner, hashid) := SplitNodeID(Trim(param)).value;
      FindChainSpec(param, rawDepth, None, w) == QueryChain(owner, hashid, ParseDepth(rawDepth), w)
  {
    match SplitNodeID(Trim(param))
    case Failure(_) =>
    case Success(_) =>
  }

  /** A chain is cached even when it cannot be rendered, so the failure
      repeats on every later request for the same key. */
  lemma UnrenderableChainCached(param: Bytes, rawDepth: Bytes, w: ChainWorld)
    requires FindChainSpec(param, rawDepth, None, w).store.Some?
    requires MarshalAll(FindChainSpec(param, rawDepth, None, w).store.value, w.objectOf).None?
    ensures FindChainSpec(param, rawDepth, None, w).reply == Reply(StatusInternalServerError, EchoError)
    ensures var chain := FindChainSpec(param, rawDepth, None, w).store.value;
      FindChainSpec(param, rawDepth, Some(chain), w).reply == Reply(StatusInternalServerError, EchoError)
  {
    MissGoesToStore(param, rawDepth, w);
    var chain := FindChainSpec(param, rawDepth, None, w).store.value;
    assert FindChainSpec(param, rawDepth, Some(chain), w) == ChainOutcome(RenderChain(chain, w.objectOf), None);
  }

  /** The chain under `k` in the cache, if any. */
  function CachedChain(entries: map<Bytes, CachedValue>, k: Bytes): Option<seq<ChainModel>> {
    if k in entries && entries[k].ChainEntry? then Some(entries[k].chain) else None
  }

  /** findChainHandler over the shared cache. A value found under a chain key
      is a chain, because the cache is well typed. */
  method FindChainHandler(cache: Cache.Cache<CachedValue>, param: Bytes, rawDepth: Bytes, w: ChainWorld)
    returns (reply: Reply<seq<ChainJson>>)
    requires cache.Valid() && WellTyped(cache.entries)
    modifies cache
    ensures cache.Valid() && WellTyped(cache.entries)
    ensures var out := FindChainSpec(param, rawDepth, CachedChain(old(cache.entries), ChainKey(Trim(param), rawDepth)), w);
      && reply == out.reply
      && cache.entries ==
         if out.store.Some? && cache.enabled
         then old(cache.entries)[ChainKey(Trim(param), rawDepth) := ChainEntry(out.store.value)]
         else old(cache.entries)
  {
    var nodeID := Trim(param);
    var split := SplitNodeID(nodeID);
    if split.Failure? {
      if split.error == BadId {
        return Reply(StatusBadRequest, ErrorBody(CantFindRef));
      }
      return Reply(StatusInternalServerError, EchoError);
    }
    var (owner, hashid) := split.value;

    var depth := ParseDepth(rawDepth);
    if depth.Malformed? {
      return Reply(StatusBadRequest, ErrorBody(MalformedDepth));
    }

    reply := ServeChain(cache, ChainKey(nodeID, rawDepth), owner, hashid, depth, w);
  }

  /** The part of findChainHandler after the request is parsed: the cached
      chain under `key` if there is one, otherwise the two queries, whose
      chain is then cached. */
  method ServeChain(cache: Cache.Cache<CachedValue>, key: Bytes, owner: Option<Bytes>, hashid: Bytes, depth: Depth, w: ChainWorld)
    returns (reply: Reply<seq<ChainJson>>)
    requires cache.Valid() && WellTyped(cache.entries) && HasPrefix(key, ChainKeyPrefix())
    modifies cache
    ensures cache.Valid() && WellTyped(cache.entries)
    ensures var cached := CachedChain(old(cache.entries), key);
      var out := if cached.Some? then ChainOutcome(RenderChain(cached.value, w.objectOf), None)
                 else QueryChain(owner, hashid, depth, w);
      && reply == out.reply
      && cache.entries ==
         if out.store.Some? && cache.enabled then old(cache.entries)[key := ChainEntry(out.store.value)]
         else old(cache.entries)
  {
    var cachedData := cache.Get(key);
    if cachedData.Some? {
      PrefixesDisjoint(key);
      return RenderChain(cachedData.value.chain, w.objectOf);
    }

    var out := RunQueries(owner, hashid, depth, w);
    if out.store.None? {
      return out.reply;
    }
    StoreKeepsWellTyped(cache.entries, key, ChainEntry(out.store.value));
    cache.Set(key, ChainEntry(out.store.value));
    reply := RenderChain(out.store.value, w.objectOf);
  }

  /** The queries of findChainHandler on a cache miss, with the owner-scope
      comparison written out as the handler does it. */
  method RunQueries(owner: Option<Bytes>, hashid: Bytes, depth: Depth, w: ChainWorld) returns (out: ChainOutcome)
    ensures out == QueryChain(owner, hashid, depth, w)
  {
    var check := w.checkOwner(hashid);
    if check.QueryFailed? {
      return ChainOutcome(ClassifyQueryError(check.err), None);
    }
    if check.Undecodable? {
      return ChainOutcome(Reply(StatusInternalServerError, ErrorBody(SomethingWentWrong)), None);
    }
    if |check.value| == 0 {
      return ChainOutcome(Reply(StatusBadRequest, ErrorBody(CantFindRef)), None);
    }
    var actualName := check.value[0];
    if owner.None? {
      if actualName.Some? {
        return ChainOutcome(Reply(StatusBadRequest, ErrorBody(CantFindRef)), None);
      }
    } else {
      if actualName.None? || actualName.value != owner.value {
        return ChainOutcome(Reply(StatusBadRequest, ErrorBody(CantFindRef)), None);
      }
    }

    var resp := w.chainQuery(hashid, RecurseDirective(depth));
    if resp.QueryFailed? {
      return ChainOutcome(ClassifyQueryError(resp.err), None);
    }
    if resp.Undecodable? {
      return ChainOutcome(Reply(StatusInternalServerError, ErrorBody(SomethingWentWrong)), None);
    }
    out := ChainOutcome(RenderChain(resp.value, w.objectOf), Some(resp.value));
  }
}
