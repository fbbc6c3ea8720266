/** The login check every request passes through: an account (name or
    email) and a password from the request headers are checked against the
    two user lookups, by email first and by name second; a successful login
    sets the identity the handlers see and is kept in the shared cache. */
module Middleware {
  import opened Wrappers
  import opened Bytes
  import opened Http
  import opened Records
  import Cache

  /** One row of a user lookup: uid, name, email, whether the email was
      validated, and whether the password matched. */
  datatype UserRow = UserRow(uid: Bytes, name: Bytes, email: Bytes, validated: bool, passwordOk: bool)

  /** What the middleware does with the request: hand it on with the
      identity found (if any), or answer it itself. */
  datatype Decision = Proceed(who: Option<Identity>) | Reject(reply: Reply<Bytes>)

  /** The decision, and the login the middleware stores in the cache, if any. */
  datatype LoginOutcome = LoginOutcome(decision: Decision, store: Option<Identity>)

  /** The user-name key: the account, lowercase, with one leading `@` removed. */
  function NameKey(account: Bytes): Bytes {
    ToLower(TrimPrefix(account, [AT]))
  }

  /** The email key: the whole account, lowercase. */
  function EmailKey(account: Bytes): Bytes {
    ToLower(account)
  }

  /** An account given without `@` is looked up under the same key by name
      and by email. */
  lemma KeysAgreeWithoutAt(account: Bytes)
    requires !HasPrefix(account, [AT])
    ensures NameKey(account) == EmailKey(account)
  {
  }

  /** An account given as `@name` is looked up by the name without the `@`. */
  lemma NameKeyDropsAt(name: Bytes)
    ensures NameKey([AT] + name) == ToLower(name)
    ensures EmailKey([AT] + name) == [AT] + ToLower(name)
  {
    assert HasPrefix([AT] + name, [AT]);
    assert EmailKey([AT] + name)[0] == LowerByte(AT) == AT;
    assert EmailKey([AT] + name) == [AT] + ToLower(name);
  }

  /** The cache key of a login. */
  function LoginKey(account: Bytes, password: Bytes): (k: Bytes)
    ensures HasPrefix(k, LoginKeyPrefix())
  {
    LoginKeyPrefix() + account + Lit("-") + password
  }

  /** The identity a matched row logs in as. */
  function RowIdentity(row: UserRow): Identity {
    Identity(row.name, row.uid, row.email)
  }

  /** The verdict on a matched row. */
  function CheckRow(row: UserRow, unvalidatedMsg: string): (out: LoginOutcome)
    ensures out.decision.Proceed? <==> row.passwordOk && row.validated
    ensures out.decision.Proceed? ==> out == LoginOutcome(Proceed(Some(RowIdentity(row))), Some(RowIdentity(row)))
    ensures out.decision.Reject? ==> out.store.None? && out.decision.reply.status == StatusUnauthorized
    ensures !row.passwordOk ==> out.decision == Reject(Reply(StatusUnauthorized, NoBody))
    ensures row.passwordOk && !row.validated ==> out.decision == Reject(Reply(StatusUnauthorized, ErrorBody(unvalidatedMsg)))
  {
    if !row.passwordOk then LoginOutcome(Reject(Reply(StatusUnauthorized, NoBody)), None)
    else if !row.validated then LoginOutcome(Reject(Reply(StatusUnauthorized, ErrorBody(unvalidatedMsg))), None)
    else LoginOutcome(Proceed(Some(RowIdentity(row))), Some(RowIdentity(row)))
  }

  /** loginChecker, given the raw headers, the login cached under the
      request's key, and the answer of the two lookups (by email key and by
      name key, with the password). */
  function LoginSpec(
    rawAccount: Bytes, rawPassword: Bytes, cached: Option<Identity>,
    lookup: (Bytes, Bytes, Bytes) -> StoreRead<(seq<UserRow>, seq<UserRow>)>)
    : LoginOutcome
  {
    var account := Trim(rawAccount);
    var password := Trim(rawPassword);
    if account == [] || password == [] then LoginOutcome(Proceed(None), None)
    else LookupSpec(lookup(EmailKey(account), NameKey(account), password), cached)
  }

  /** The verdict on the answer of the two lookups, given the login cached
      under the request's key. */
  function LookupSpec(resp: StoreRead<(seq<UserRow>, seq<UserRow>)>, cached: Option<Identity>): LoginOutcome {
    match resp
    case QueryFailed(_) => LoginOutcome(Reject(Reply(StatusInternalServerError, ErrorBody(SomethingWentWrong))), None)
    case Undecodable => LoginOutcome(Reject(Reply(StatusInternalServerError, ErrorBody(SomethingWentWrong))), None)
    case Rows((byEmail, byName)) =>
      if |byEmail| == 0 && |byName| == 0 then LoginOutcome(Reject(Reply(StatusUnauthorized, NoBody)), None)
      else if |byEmail| == 1 then CheckRow(byEmail[0], "account requires email validation")
      else if |byName| == 1 then CheckRow(byName[0], "account requires email verification")
      else LoginOutcome(Proceed(cached), None)
  }

  /** Blank credentials pass the request on anonymously, without a lookup. */
  lemma BlankCredentialsAnonymous(
    rawAccount: Bytes, rawPassword: Bytes, cached: Option<Identity>,
    lookup: (Bytes, Bytes, Bytes) -> StoreRead<(seq<UserRow>, seq<UserRow>)>)
    requires Trim(rawAccount) == [] || Trim(rawPassword) == []
    ensures LoginSpec(rawAccount, rawPassword, cached, lookup) == LoginOutcome(Proceed(None), None)
  {
  }

  /** An account neither lookup finds is refused with a 401 and no body,
      whatever is cached; a failed or undecodable lookup is a 500. */
  lemma UnknownAccountRefused(
    rawAccount: Bytes, rawPassword: Bytes, cached: Option<Identity>,
    lookup: (Bytes, Bytes, Bytes) -> StoreRead<(seq<UserRow>, seq<UserRow>)>)
    requires Trim(rawAccount) != [] && Trim(rawPassword) != []
    ensures var resp := lookup(EmailKey(Trim(rawAccount)), NameKey(Trim(rawAccount)), Trim(rawPassword));
      && (resp == Rows(([], [])) ==>
            LoginSpec(rawAccount, rawPassword, cached, lookup) == LoginOutcome(Reject(Reply(StatusUnauthorized, NoBody)), None))
      && (!resp.Rows? ==>
            LoginSpec(rawAccount, rawPassword, cached, lookup) ==
              LoginOutcome(Reject(Reply(StatusInternalServerError, ErrorBody(SomethingWentWrong))), None))
  {
  }

  /** Without exactly one row by email, a single row by name decides: it
      logs in when its password matched and it is validated, and is refused
      with the name lookup's own message otherwise. */
  lemma NameMatchSecond(
    rawAccount: Bytes, rawPassword: Bytes, cached: Option<Identity>,
    lookup: (Bytes, Bytes, Bytes) -> StoreRead<(seq<UserRow>, seq<UserRow>)>,
    byEmail: seq<UserRow>, row: UserRow)
    requires Trim(rawAccount) != [] && Trim(rawPassword) != []
    requires lookup(EmailKey(Trim(rawAccount)), NameKey(Trim(rawAccount)), Trim(rawPassword)) == Rows((byEmail, [row]))
    requires |byEmail| != 1
    ensures LoginSpec(rawAccount, rawPassword, cached, lookup) == CheckRow(row, "account requires email verification")
    ensures row.passwordOk && row.validated ==>
      LoginSpec(rawAccount, rawPassword, cached, lookup) ==
        LoginOutcome(Proceed(Some(RowIdentity(row))), Some(RowIdentity(row)))
    ensures !row.passwordOk ==>
      LoginSpec(rawAccount, rawPassword, cached, lookup).decision == Reject(Reply(StatusUnauthorized, NoBody))
    ensures row.passwordOk && !row.validated ==>
      LoginSpec(rawAccount, rawPassword, cached, lookup).decision ==
        Reject(Reply(StatusUnauthorized, ErrorBody("account requires email verification")))
  {
  }

  /** A login that the lookups establish comes from a row whose password
      matched and whose email was validated, taken from the email lookup when
      it found exactly one row and from the name lookup otherwise; that login
      is what gets cached. */
  lemma LoginNeedsPasswordAndValidation(
    rawAccount: Bytes, rawPassword: Bytes, cached: Option<Identity>,
    lookup: (Bytes, Bytes, Bytes) -> StoreRead<(seq<UserRow>, seq<UserRow>)>)
    requires LoginSpec(rawAccount, rawPassword, cached, lookup).store.Some?
    ensures var account := Trim(rawAccount);
      var password := Trim(rawPassword);
      var id := LoginSpec(rawAccount, rawPassword, cached, lookup).store.value;
      && account != [] && password != []
      && lookup(EmailKey(account), NameKey(account), password).Rows?
      && var (byEmail, byName) := lookup(EmailKey(account), NameKey(account), password).value;
         var row := if |byEmail| == 1 then byEmail[0] else byName[0];
         && (|byEmail| == 1 || |byName| == 1)
         && row.passwordOk && row.validated
         && id == RowIdentity(row)
         && LoginSpec(rawAccount, rawPassword, cached, lookup).decision == Proceed(Some(id))
  {
  }

  /** The email match takes precedence: with one row by email, the row by
      name is never looked at. */
  lemma EmailMatchFirst(
    rawAccount: Bytes, rawPassword: Bytes, cached: Option<Identity>,
    lookup: (Bytes, Bytes, Bytes) -> StoreRead<(seq<UserRow>, seq<UserRow>)>,
    byEmail: UserRow, byName1: seq<UserRow>, byName2: seq<UserRow>)
    requires Trim(rawAccount) != [] && Trim(rawPassword) != []
    requires lookup(EmailKey(Trim(rawAccount)), NameKey(Trim(rawAccount)), Trim(rawPassword)) == Rows(([byEmail], byName1))
    ensures LoginSpec(rawAccount, rawPassword, cached, lookup) == CheckRow(byEmail, "account requires email validation")
  {
  }

  /** A cached login does not spare the lookup: whatever the cache holds,
      the lookups decide, except when they return neither no row nor exactly
      one row. */
  lemma CacheDoesNotSkipLookup(
    rawAccount: Bytes, rawPassword: Bytes, c1: Option<Identity>, c2: Option<Identity>,
    lookup: (Bytes, Bytes, Bytes) -> StoreRead<(seq<UserRow>, seq<UserRow>)>)
    requires Trim(rawAccount) != [] && Trim(rawPassword) != []
    requires var r := lookup(EmailKey(Trim(rawAccount)), NameKey(Trim(rawAccount)), Trim(rawPassword));
      !r.Rows? || (|r.value.0| == 0 && |r.value.1| == 0) || |r.value.0| == 1 || |r.value.1| == 1
    ensures LoginSpec(rawAccount, rawPassword, c1, lookup) == LoginSpec(rawAccount, rawPassword, c2, lookup)
  {
  }

  /** The login under `k` in the cache, if any. */
  function CachedLogin(entries: map<Bytes, CachedValue>, k: Bytes): Option<Identity> {
    if k in entries && entries[k].SessionEntry? then
      Some(Identity(entries[k].user, entries[k].uid, entries[k].email))
    else None
  }

  /** loginChecker over the shared cache. The value found under a login key
      is always a login, so the cast of the cached value cannot fail. */
  method LoginChecker(
    cache: Cache.Cache<CachedValue>, rawAccount: Bytes, rawPassword: Bytes,
    lookup: (Bytes, Bytes, Bytes) -> StoreRead<(seq<UserRow>, seq<UserRow>)>)
    returns (decision: Decision)
    requires cache.Valid() && WellTyped(cache.entries)
    modifies cache
    ensures cache.Valid() && WellTyped(cache.entries)
    ensures var out := LoginSpec(rawAccount, rawPassword,
        CachedLogin(old(cache.entries), LoginKey(Trim(rawAccount), Trim(rawPassword))), lookup);
      && decision == out.decision
      && cache.entries ==
         if out.store.Some? && cache.enabled
         then old(cache.entries)[LoginKey(Trim(rawAccount), Trim(rawPassword)) :=
                SessionEntry(out.store.value.name, out.store.value.uid, out.store.value.email)]
         else old(cache.entries)
  {
    var account := Trim(rawAccount);
    var password := Trim(rawPassword);
    if account == [] || password == [] {
      return Proceed(None);
    }

    var who: Option<Identity> := None;
    var key := LoginKey(account, password);
    var cachedData := cache.Get(key);
    if cachedData.Some? {
      PrefixesDisjoint(key);
      var cd := cachedData.value;
      who := Some(Identity(cd.user, cd.uid, cd.email));
    }
    assert who == CachedLogin(old(cache.entries), key);

    decision := Lookup(cache, key, who, lookup(EmailKey(account), NameKey(account), password));
  }

  /** The lookups' answer checked, caching a successful login under `key`. */
  method Lookup(cache: Cache.Cache<CachedValue>, key: Bytes, who: Option<Identity>, resp: StoreRead<(seq<UserRow>, seq<UserRow>)>)
    returns (decision: Decision)
    requires cache.Valid() && WellTyped(cache.entries)
    requires HasPrefix(key, LoginKeyPrefix())
    modifies cache
    ensures cache.Valid() && WellTyped(cache.entries)
    ensures var out := LookupSpec(resp, who);
      && decision == out.decision
      && cache.entries ==
         if out.store.Some? && cache.enabled
         then old(cache.entries)[key := SessionEntry(out.store.value.name, out.store.value.uid, out.store.value.email)]
         else old(cache.entries)
  {
    if resp.QueryFailed? || resp.Undecodable? {
      return Reject(Reply(StatusInternalServerError, ErrorBody(SomethingWentWrong)));
    }
    var (check1, check2) := resp.value;

    if |check1| == 0 && |check2| == 0 {
      return Reject(Reply(StatusUnauthorized, NoBody));
    } else if |check1| == 1 {
      var out := LoginRow(cache, key, check1[0], "account requires email validation");
      return out.decision;
    } else if |check2| == 1 {
      var out := LoginRow(cache, key, check2[0], "account requires email verification");
      return out.decision;
    }
    decision := Proceed(who);
  }

  /** The verdict on a matched row, caching a successful login under `key`. */
  method LoginRow(cache: Cache.Cache<CachedValue>, key: Bytes, row: UserRow, unvalidatedMsg: string)
    returns (out: LoginOutcome)
    requires cache.Valid() && WellTyped(cache.entries)
    requires HasPrefix(key, LoginKeyPrefix())
    modifies cache
    ensures out == CheckRow(row, unvalidatedMsg)
    ensures cache.Valid() && WellTyped(cache.entries)
    ensures cache.entries ==
      if out.store.Some? && cache.enabled
      then old(cache.entries)[key := SessionEntry(row.name, row.uid, row.email)]
      else old(cache.entries)
  {
    if !row.passwordOk {
      return LoginOutcome(Reject(Reply(StatusUnauthorized, NoBody)), None);
    }
    if !row.validated {
      return LoginOutcome(Reject(Reply(StatusUnauthorized, ErrorBody(unvalidatedMsg))), None);
    }
    var who := Some(Identity(row.name, row.uid, row.email));
    StoreKeepsWellTyped(cache.entries, key, SessionEntry(row.name, row.uid, row.email));
    cache.Set(key, SessionEntry(row.name, row.uid, row.email));
    out := LoginOutcome(Proceed(who), who);
  }
}
