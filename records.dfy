/** The rows the read handlers decode from the store and keep in the shared
    response cache, and the rule that keeps the cache's values apart: the
    first bytes of a key say which handler wrote it, and so what kind of value
    sits under it. */
module Records {
  import opened Wrappers
  import opened Bytes

  /** One node of a chain as the recursive store query returns it. */
  datatype ChainModel = ChainModel(
    uid: Bytes,
    owner: seq<Bytes>,          // the user.name of each node.owner edge
    hashid: Bytes,
    xdata: Bytes,
    parent: seq<ChainModel>,
    facet: Option<Bytes>)       // facet of the edge from the child, absent at the root

  /** One search hit. `createdAt` stands for the stored timestamp. */
  datatype SearchRef = SearchRef(
    name: Option<Bytes>,
    id: Bytes,
    data: Bytes,
    searchTitle: Option<Bytes>,
    searchSynopsis: Option<Bytes>,
    createdAt: int)

  /** What a handler stores in the cache: a resolved chain, a search result,
      or a login (user name, uid and email). */
  datatype CachedValue =
    | ChainEntry(chain: seq<ChainModel>)
    | SearchEntry(results: seq<SearchRef>)
    | SessionEntry(user: Bytes, uid: Bytes, email: Bytes)

  function ChainKeyPrefix(): Bytes { Lit("*-") }

  function SearchKeyPrefix(): Bytes { Lit("search-") }

  function LoginKeyPrefix(): Bytes { Lit("middleware.loginChecker-") }

  /** The value under `k` is of the kind the handler owning `k`'s prefix writes. */
  predicate FitsKey(k: Bytes, v: CachedValue) {
    && (HasPrefix(k, ChainKeyPrefix()) ==> v.ChainEntry?)
    && (HasPrefix(k, SearchKeyPrefix()) ==> v.SearchEntry?)
    && (HasPrefix(k, LoginKeyPrefix()) ==> v.SessionEntry?)
  }

  predicate WellTyped(m: map<Bytes, CachedValue>) {
    forall k :: k in m ==> FitsKey(k, m[k])
  }

  /** The three key prefixes start with different bytes, so a key written by
      one handler is never read as another's. */
  lemma PrefixesDisjoint(k: Bytes)
    ensures !(HasPrefix(k, ChainKeyPrefix()) && HasPrefix(k, SearchKeyPrefix()))
    ensures !(HasPrefix(k, ChainKeyPrefix()) && HasPrefix(k, LoginKeyPrefix()))
    ensures !(HasPrefix(k, SearchKeyPrefix()) && HasPrefix(k, LoginKeyPrefix()))
  {
    if HasPrefix(k, ChainKeyPrefix()) {
      assert k[0] == ChainKeyPrefix()[0];
    }
    if HasPrefix(k, SearchKeyPrefix()) {
      assert k[0] == SearchKeyPrefix()[0];
    }
  }

  /** Storing a chain under a chain key, a search result under a search key,
      or a login under a login key keeps the cache well typed. */
  lemma StoreKeepsWellTyped(m: map<Bytes, CachedValue>, k: Bytes, v: CachedValue)
    requires WellTyped(m)
    requires v.ChainEntry? ==> HasPrefix(k, ChainKeyPrefix())
    requires v.SearchEntry? ==> HasPrefix(k, SearchKeyPrefix())
    requires v.SessionEntry? ==> HasPrefix(k, LoginKeyPrefix())
    ensures WellTyped(m[k := v])
  {
    PrefixesDisjoint(k);
  }
}
