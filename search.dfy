/** Search (GET /search/:terms): blank terms short-circuit to an empty
    object; otherwise the hits for the trimmed terms come from the shared
    cache or from one store query, and each hit is rendered with its public
    address. */
module Search {
  import opened Wrappers
  import opened Bytes
  import opened Http
  import opened Records
  import Address
  import Cache
  import FindChain

  /** A search hit as the client receives it. */
  datatype SearchJson = SearchJson(
    data: JsonObject,
    createdAt: int,
    searchTitle: Option<Bytes>,
    searchSynopsis: Option<Bytes>,
    id: Bytes)

  /** The body of a search reply: the empty object for blank terms, or the
      rendered hits. */
  datatype SearchBody = EmptyObject | Results(hits: seq<SearchJson>)

  /** searchRef.MarshalJSON: fails when the hit's data is not a JSON object. */
  function MarshalRef(s: SearchRef, objectOf: Bytes -> Option<JsonObject>): (r: Option<SearchJson>)
    ensures r.Some? <==> objectOf(s.data).Some?
    ensures r.Some? ==> r.value == SearchJson(objectOf(s.data).value, s.createdAt, s.searchTitle, s.searchSynopsis, Address.Format(s.name, s.id))
  {
    match objectOf(s.data)
    case None => None
    case Some(data) =>
      var id := if s.name.None? then s.id else [AT] + s.name.value + [SLASH] + s.id;
      Some(SearchJson(data, s.createdAt, s.searchTitle, s.searchSynopsis, id))
  }

  /** The hits in order; one that cannot be rendered fails them all. */
  function MarshalResults(rs: seq<SearchRef>, objectOf: Bytes -> Option<JsonObject>): (r: Option<seq<SearchJson>>)
    ensures r.Some? <==> forall i :: 0 <= i < |rs| ==> objectOf(rs[i].data).Some?
    ensures r.Some? ==>
      |r.value| == |rs| && forall i :: 0 <= i < |rs| ==> r.value[i] == MarshalRef(rs[i], objectOf).value
  {
    if rs == [] then Some([])
    else
      match MarshalRef(rs[0], objectOf)
      case None => None
      case Some(first) =>
        match MarshalResults(rs[1..], objectOf)
        case None => None
        case Some(rest) =>
          assert forall i :: 1 <= i < |rs| ==> rs[i] == rs[1..][i - 1];
          Some([first] + rest)
  }

  /** The id of a hit is the address the chain handler resolves back to the
      hit's owner and hashid. */
  lemma HitIdResolves(s: SearchRef, objectOf: Bytes -> Option<JsonObject>)
    requires MarshalRef(s, objectOf).Some?
    requires s.name.Some? ==> s.name.value != [] && Trimmed(s.name.value) && SLASH !in s.name.value
    requires s.id != [] && Trimmed(s.id) && SLASH !in s.id
    ensures FindChain.SplitNodeID(MarshalRef(s, objectOf).value.id) == Success((s.name, s.id))
  {
    FindChain.SplitNodeIDFormat(s.name, s.id);
  }

  /** The reply rendering the hits: 200, or the framework's 500 when a hit
      cannot be rendered. */
  function RenderResults(rs: seq<SearchRef>, objectOf: Bytes -> Option<JsonObject>): (r: Reply<SearchBody>)
    ensures r.status == StatusOK <==> MarshalResults(rs, objectOf).Some?
    ensures r.status == StatusOK ==> r.body == Payload(Results(MarshalResults(rs, objectOf).value))
    ensures r.status != StatusOK ==> r == Reply(StatusInternalServerError, EchoError)
  {
    match MarshalResults(rs, objectOf)
    case None => Reply(StatusInternalServerError, EchoError)
    case Some(hits) => Reply(StatusOK, Payload(Results(hits)))
  }

  /** The cache key of a search. */
  function SearchKey(terms: Bytes): (k: Bytes)
    ensures HasPrefix(k, SearchKeyPrefix())
  {
    SearchKeyPrefix() + terms
  }

  /** What the collaborators answer: the JSON decoder and the search query,
      which returns the searchable nodes matching the terms. */
  datatype SearchWorld = SearchWorld(objectOf: Bytes -> Option<JsonObject>, query: Bytes -> StoreRead<seq<SearchRef>>)

  /** The reply, and the hits the handler stores in the cache, if any. */
  datatype SearchOutcome = SearchOutcome(reply: Reply<SearchBody>, store: Option<seq<SearchRef>>)

  /** searchHandler, given what the cache holds under the request's key. */
  function SearchSpec(param: Bytes, cached: Option<seq<SearchRef>>, w: SearchWorld): SearchOutcome {
    var terms := Trim(param);
    if terms == [] then SearchOutcome(Reply(StatusOK, Payload(EmptyObject)), None)
    else if cached.Some? then SearchOutcome(RenderResults(cached.value, w.objectOf), None)
    else QuerySearch(terms, w)
  }

  /** The query of a cache miss, and what its answer leads to. */
  function QuerySearch(terms: Bytes, w: SearchWorld): SearchOutcome {
    match w.query(terms)
    case QueryFailed(err) => SearchOutcome(ClassifyQueryError(err), None)
    case Undecodable => SearchOutcome(Reply(StatusInternalServerError, ErrorBody(SomethingWentWrong)), None)
    case Rows(rs) => SearchOutcome(RenderResults(rs, w.objectOf), Some(rs))
  }

  /** Blank terms answer an empty object without looking at the cache or the
      store. */
  lemma BlankTermsShortCircuit(param: Bytes, cached: Option<seq<SearchRef>>, w: SearchWorld)
    requires Trim(param) == []
    ensures SearchSpec(param, cached, w) == SearchOutcome(Reply(StatusOK, Payload(EmptyObject)), None)
  {
  }

  /** A cached result is served as it is, rendered, without consulting the
      store. */
  lemma CachedResultsIgnoreStore(param: Bytes, rs: seq<SearchRef>, w1: SearchWorld, w2: SearchWorld)
    requires w1.objectOf == w2.objectOf
    ensures SearchSpec(param, Some(rs), w1) == SearchSpec(param, Some(rs), w2)
    ensures SearchSpec(param, Some(rs), w1).store.None?
    ensures Trim(param) != [] ==>
      SearchSpec(param, Some(rs), w1) == SearchOutcome(RenderResults(rs, w1.objectOf), None)
  {
  }

  /** Results are cached only after a successful query for the trimmed terms,
      and exactly as the store returned them; a failed query maps to 204, 408
      or 500 and caches nothing. */
  lemma CachedOnlyAfterQuery(param: Bytes, w: SearchWorld)
    ensures var out := SearchSpec(param, None, w);
      && (out.store.Some? <==> Trim(param) != [] && w.query(Trim(param)).Rows?)
      && (out.store.Some? ==> w.query(Trim(param)) == Rows(out.store.value))
      && (Trim(param) != [] && w.query(Trim(param)).QueryFailed? ==>
            out.reply.status in {StatusNoContent, StatusRequestTimeout, StatusInternalServerError})
  {
    var terms := Trim(param);
    if terms != [] && w.query(terms).QueryFailed? {
      var r := ClassifyQueryError<SearchBody>(w.query(terms).err);
      assert SearchSpec(param, None, w) == SearchOutcome(r, None);
    }
  }

  /** On a miss, the query's answer decides the reply: its hits rendered and
      cached, the classification of its error, or a 500 when it cannot be
      decoded. */
  lemma QueriedResultsServed(param: Bytes, w: SearchWorld)
    requires Trim(param) != []
    ensures match w.query(Trim(param))
      case Rows(rs) => SearchSpec(param, None, w) == SearchOutcome(RenderResults(rs, w.objectOf), Some(rs))
      case QueryFailed(err) => SearchSpec(param, None, w) == SearchOutcome(ClassifyQueryError(err), None)
      case Undecodable =>
        SearchSpec(param, None, w) == SearchOutcome(Reply(StatusInternalServerError, ErrorBody(SomethingWentWrong)), None)
  {
  }

  /** The hits under `k` in the cache, if any. */
  function CachedResults(entries: map<Bytes, CachedValue>, k: Bytes): Option<seq<SearchRef>> {
    if k in entries && entries[k].SearchEntry? then Some(entries[k].results) else None
  }

  /** searchHandler over the shared cache. */
  method SearchHandler(cache: Cache.Cache<CachedValue>, param: Bytes, w: SearchWorld) returns (reply: Reply<SearchBody>)
    requires cache.Valid() && WellTyped(cache.entries)
    modifies cache
    ensures cache.Valid() && WellTyped(cache.entries)
    ensures var out := SearchSpec(param, CachedResults(old(cache.entries), SearchKey(Trim(param))), w);
      && reply == out.reply
      && cache.entries ==
         if out.store.Some? && cache.enabled
         then old(cache.entries)[SearchKey(Trim(param)) := SearchEntry(out.store.value)]
         else old(cache.entries)
  {
    var terms := Trim(param);
    if terms == [] {
      return Reply(StatusOK, Payload(EmptyObject));
    }

    var key := SearchKey(terms);
    var cachedData := cache.Get(key);
    if cachedData.Some? {
      PrefixesDisjoint(key);
      return RenderResults(cachedData.value.results, w.objectOf);
    }

    var out := RunSearch(terms, w);
    if out.store.None? {
      return out.reply;
    }
    StoreKeepsWellTyped(cache.entries, key, SearchEntry(out.store.value));
    cache.Set(key, SearchEntry(out.store.value));
    reply := out.reply;
  }

  /** The search query of searchHandler on a cache miss. */
  method RunSearch(terms: Bytes, w: SearchWorld) returns (out: SearchOutcome)
    ensures out == QuerySearch(terms, w)
  {
    var resp := w.query(terms);
    if resp.QueryFailed? {
      return SearchOutcome(ClassifyQueryError(resp.err), None);
    }
    if resp.Undecodable? {
      return SearchOutcome(Reply(StatusInternalServerError, ErrorBody(SomethingWentWrong)), None);
    }
    out := SearchOutcome(RenderResults(resp.value, w.objectOf), Some(resp.value));
  }
}
