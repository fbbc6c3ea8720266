/** The account page (GET /accounts/:name): the account named `@name` with
    the refs it owns. Its owner, logged in, sees the email and every ref;
    anyone else sees no email and only the searchable refs. Every ref id is
    rewritten into the ref's public address. */
module AccountShow {
  import opened Wrappers
  import opened Bytes
  import opened Http
  import Address
  import FindChain

  /** A ref owned by the account. */
  datatype RefRow = RefRow(
    id: Bytes,
    data: Bytes,
    searchable: bool,
    searchTitle: Option<Bytes>,
    searchSynopsis: Option<Bytes>,
    createdAt: int)

  /** A user as stored, with every ref it owns, newest first. */
  datatype AccountRecord = AccountRecord(name: Bytes, email: Bytes, refs: seq<RefRow>)

  /** The account as the client receives it; `email` is absent in the public
      view. */
  datatype AccountView = AccountView(name: Bytes, email: Option<Bytes>, refs: seq<RefRow>)

  /** The searchable refs, in order. */
  function SearchableRefs(refs: seq<RefRow>): (r: seq<RefRow>)
    ensures forall x :: x in r <==> x in refs && x.searchable
    ensures |r| <= |refs|
  {
    if refs == [] then []
    else
      var rest := SearchableRefs(refs[1..]);
      assert forall x :: x in refs <==> x == refs[0] || x in refs[1..];
      if refs[0].searchable then [refs[0]] + rest else rest
  }

  /** The filter keeps the order of the refs: filtering a concatenation is
      concatenating the filtered parts. */
  lemma {:induction false} SearchableRefsKeepsOrder(a: seq<RefRow>, b: seq<RefRow>)
    ensures SearchableRefs(a + b) == SearchableRefs(a) + SearchableRefs(b)
  {
    if a == [] {
      assert a + b == b;
    } else {
      var ab := a + b;
      assert ab[0] == a[0] && ab[1..] == a[1..] + b;
      SearchableRefsKeepsOrder(a[1..], b);
      if a[0].searchable {
        calc {
          SearchableRefs(ab);
          [a[0]] + SearchableRefs(a[1..] + b);
          [a[0]] + (SearchableRefs(a[1..]) + SearchableRefs(b));
          ([a[0]] + SearchableRefs(a[1..])) + SearchableRefs(b);
        }
      }
    }
  }

  /** Each searchable ref is kept as often as it occurs, and no other ref
      is kept. */
  lemma {:induction false} SearchableRefsCount(refs: seq<RefRow>)
    ensures forall x :: multiset(SearchableRefs(refs))[x] == if x.searchable then multiset(refs)[x] else 0
  {
    if refs != [] {
      SearchableRefsCount(refs[1..]);
      assert refs == [refs[0]] + refs[1..];
    }
  }

  /** A single ref is kept exactly when it is searchable. */
  lemma SearchableRefsOne(x: RefRow)
    ensures SearchableRefs([x]) == if x.searchable then [x] else []
  {
    assert [x][1..] == [];
  }

  /** What each variant of the account query returns for a stored user: the
      private one adds the email, the public one keeps only searchable refs. */
  function Project(rec: AccountRecord, private: bool): (v: AccountView)
    ensures v.name == rec.name
    ensures private ==> v.email == Some(rec.email) && v.refs == rec.refs
    ensures !private ==> v.email.None? && v.refs == SearchableRefs(rec.refs)
  {
    if private then AccountView(rec.name, Some(rec.email), rec.refs)
    else AccountView(rec.name, None, SearchableRefs(rec.refs))
  }

  /** The lookup name: the parameter without its `@`, lowercase. */
  function LookupName(param: Bytes): Bytes {
    ToLower(TrimPrefix(param, [AT]))
  }

  /** The account as published: named `@name`, each ref id turned into the
      ref's address under that name, every other field kept. */
  function Publish(v: AccountView, name: Bytes): (p: AccountView)
    ensures p.name == [AT] + name && p.email == v.email && |p.refs| == |v.refs|
    ensures forall i :: 0 <= i < |v.refs| ==> p.refs[i] == v.refs[i].(id := Address.Format(Some(name), v.refs[i].id))
  {
    AccountView([AT] + name, v.email,
      seq(|v.refs|, i requires 0 <= i < |v.refs| => v.refs[i].(id := [AT] + name + [SLASH] + v.refs[i].id)))
  }

  /** showAccountHandler, given the logged-in user and the users the store
      holds under the lookup name. */
  function ShowSpec(param: Bytes, who: Option<Identity>, accounts: Bytes -> StoreRead<seq<AccountRecord>>): Reply<AccountView> {
    if !HasPrefix(param, [AT]) then Reply(StatusNotFound, NoBody)
    else
      var name := LookupName(param);
      var private := who.Some? && who.value.name == name;
      match accounts(name)
      case QueryFailed(_) => Reply(StatusInternalServerError, ErrorBody(SomethingWentWrong))
      case Undecodable => Reply(StatusInternalServerError, ErrorBody(SomethingWentWrong))
      case Rows(recs) =>
        if |recs| == 1 then Reply(StatusOK, Payload(Publish(Project(recs[0], private), name)))
        else Reply(StatusNotFound, NoBody)
  }

  /** A name without `@` is not found, whatever the store holds. */
  lemma NameNeedsAt(param: Bytes, who: Option<Identity>, accounts: Bytes -> StoreRead<seq<AccountRecord>>)
    requires !HasPrefix(param, [AT])
    ensures ShowSpec(param, who, accounts) == Reply(StatusNotFound, NoBody)
  {
  }

  /** The page is shown exactly when the parameter starts with `@` and the
      store holds exactly one user under the lowercase name, and it is named
      after that name; zero or several users are not found, and a failed or
      undecodable query is a 500. */
  lemma ShownAccountIsUnique(param: Bytes, who: Option<Identity>, accounts: Bytes -> StoreRead<seq<AccountRecord>>)
    ensures ShowSpec(param, who, accounts).status == StatusOK <==>
      HasPrefix(param, [AT]) && accounts(LookupName(param)).Rows? && |accounts(LookupName(param)).value| == 1
    ensures ShowSpec(param, who, accounts).status == StatusOK ==>
      ShowSpec(param, who, accounts).body.value.name == [AT] + LookupName(param)
    ensures HasPrefix(param, [AT]) && accounts(LookupName(param)).Rows? && |accounts(LookupName(param)).value| != 1 ==>
      ShowSpec(param, who, accounts) == Reply(StatusNotFound, NoBody)
    ensures HasPrefix(param, [AT]) && !accounts(LookupName(param)).Rows? ==>
      ShowSpec(param, who, accounts) == Reply(StatusInternalServerError, ErrorBody(SomethingWentWrong))
  {
  }

  /** The owner sees the email and every ref; anyone else sees no email and
      only the searchable refs. Either way the refs keep their order and
      their fields, with each id turned into the ref's address. */
  lemma Visibility(param: Bytes, who: Option<Identity>, accounts: Bytes -> StoreRead<seq<AccountRecord>>)
    requires ShowSpec(param, who, accounts).status == StatusOK
    ensures var name := LookupName(param);
      var rec := accounts(name).value[0];
      var v := ShowSpec(param, who, accounts).body.value;
      var shown := if who.Some? && who.value.name == name then rec.refs else SearchableRefs(rec.refs);
      && (who.Some? && who.value.name == name ==> v.email == Some(rec.email))
      && (!(who.Some? && who.value.name == name) ==>
            v.email.None? && forall i :: 0 <= i < |v.refs| ==> v.refs[i].searchable)
      && |v.refs| == |shown|
      && forall i :: 0 <= i < |shown| ==> v.refs[i] == shown[i].(id := Address.Format(Some(name), shown[i].id))
  {
    var rec := accounts(LookupName(param)).value[0];
    var private := who.Some? && who.value.name == LookupName(param);
    var pv := Project(rec, private);
    var v := ShowSpec(param, who, accounts).body.value;
    if !private {
      forall i | 0 <= i < |v.refs|
        ensures v.refs[i].searchable
      {
        assert pv.refs[i] in pv.refs;
      }
    }
  }

  /** Each ref id on the page is an address the chain handler resolves back
      to the account and the ref's hashid. */
  lemma RefIdsResolve(param: Bytes, who: Option<Identity>, accounts: Bytes -> StoreRead<seq<AccountRecord>>, i: int)
    requires ShowSpec(param, who, accounts).status == StatusOK
    requires var name := LookupName(param); name != [] && Trimmed(name) && SLASH !in name
    requires 0 <= i < |ShowSpec(param, who, accounts).body.value.refs|
    requires var private := who.Some? && who.value.name == LookupName(param);
      var h := Project(accounts(LookupName(param)).value[0], private).refs[i].id;
      h != [] && Trimmed(h) && SLASH !in h
    ensures var private := who.Some? && who.value.name == LookupName(param);
      FindChain.SplitNodeID(ShowSpec(param, who, accounts).body.value.refs[i].id) ==
        Success((Some(LookupName(param)), Project(accounts(LookupName(param)).value[0], private).refs[i].id))
  {
    var private := who.Some? && who.value.name == LookupName(param);
    FindChain.SplitNodeIDFormat(Some(LookupName(param)), Project(accounts(LookupName(param)).value[0], private).refs[i].id);
  }

  /** Rewrites every ref id in place into its address under `owner`
      (already `@name`). */
  method RewriteIds(refs: array<RefRow>, owner: Bytes)
    modifies refs
    ensures forall i :: 0 <= i < refs.Length ==> refs[i] == old(refs[i]).(id := owner + [SLASH] + old(refs[i]).id)
  {
    for i := 0 to refs.Length
      invariant forall j :: 0 <= j < i ==> refs[j] == old(refs[j]).(id := owner + [SLASH] + old(refs[j]).id)
      invariant forall j :: i <= j < refs.Length ==> refs[j] == old(refs[j])
    {
      refs[i] := refs[i].(id := owner + [SLASH] + refs[i].id);
    }
  }

  /** showAccountHandler: the single row is renamed, then its refs are
      rewritten in place. */
  method ShowAccount(param: Bytes, who: Option<Identity>, accounts: Bytes -> StoreRead<seq<AccountRecord>>)
    returns (reply: Reply<AccountView>)
    ensures reply == ShowSpec(param, who, accounts)
  {
    if !HasPrefix(param, [AT]) {
      return Reply(StatusNotFound, NoBody);
    }
    var name := LookupName(param);
    var private := who.Some? && who.value.name == name;

    var resp := accounts(name);
    if resp.QueryFailed? || resp.Undecodable? {
      return Reply(StatusInternalServerError, ErrorBody(SomethingWentWrong));
    }
    var model := resp.value;
    if |model| != 1 {
      return Reply(StatusNotFound, NoBody);
    }
    var v := Project(model[0], private);
    var accountName := [AT] + name;
    var refs := new RefRow[|v.refs|](i requires 0 <= i < |v.refs| => v.refs[i]);
    RewriteIds(refs, accountName);
    reply := Reply(StatusOK, Payload(AccountView(accountName, v.email, refs[..])));
    assert refs[..] == Publish(v, name).refs;
  }
}
