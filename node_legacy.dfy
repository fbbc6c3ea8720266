/** The earlier version of node creation, kept beside the current one: the
    same flow without search fields or a bot check, a looser facet rule (not
    trimmed, at most 30 bytes, any characters but `:`), at most 100 parents,
    an owner claim checked against the user name only, and nodes that are
    never searchable. */
module LegacyNode {
  import opened Wrappers
  import opened Bytes
  import opened Http
  import opened Store
  import NodeCreate
  import Address

  const MaxFacetLength: int := 30
  const MaxParents: int := 100

  const InvalidParent: string := "invalid parent"
  const ParentMissing: string := "provided parent does not exist"
  const LongFacet: string := "invalid parent: ref type must be at most 30 characters"
  const TooManyParents: string := "max 100 parents permitted"

  /** The body of a create request, as bound from JSON. */
  datatype Request = Request(owner: Option<Bytes>, parent: seq<Bytes>, data: Option<Bytes>)

  /** splitRefName of this version. */
  function SplitRefName(refName: Bytes): Result<NodeCreate.ParentRef, NodeCreate.RefError> {
    var ref := Trim(refName);
    if ref == [] then Failure(NodeCreate.Invalid(InvalidParent))
    else
      var splits := Split(ref, COLON);
      if |splits| == 1 then Failure(NodeCreate.Invalid(InvalidParent))
      else
        var facet := splits[0];
        if facet == [] then Failure(NodeCreate.Invalid(NodeCreate.EmptyFacet))
        else if |facet| > MaxFacetLength then Failure(NodeCreate.Invalid(LongFacet))
        else
          var remainder := Join(splits[1..], COLON);
          if remainder == [] then Failure(NodeCreate.Invalid(InvalidParent))
          else
            match NodeCreate.SplitScope(remainder, InvalidParent, ParentMissing)
            case Failure(e) => Failure(e)
            case Success((owner, hashid)) => Success(NodeCreate.ParentRef(facet, owner, hashid))
  }

  /** A facet this version accepts: 1 to 30 bytes without `:`, not starting
      with white space (the whole reference is trimmed first). */
  predicate LooseFacet(f: Bytes) {
    f != [] && !IsSpace(f[0]) && |f| <= MaxFacetLength && COLON !in f
  }

  /** A parsed reference of this version has an acceptable facet, a
      non-empty hashid, and a non-empty, trimmed, `/`-free owner when one is
      declared; an unscoped hashid has no `/`. */
  lemma SplitRefNameSound(refName: Bytes)
    requires SplitRefName(refName).Success?
    ensures LooseFacet(SplitRefName(refName).value.facet)
    ensures SplitRefName(refName).value.hashid != []
    ensures SplitRefName(refName).value.owner.Some? ==>
      var o := SplitRefName(refName).value.owner.value; o != [] && Trimmed(o) && SLASH !in o
    ensures SplitRefName(refName).value.owner.None? ==> SLASH !in SplitRefName(refName).value.hashid
  {
    var ref := Trim(refName);
    var splits := Split(ref, COLON);
    if COLON !in ref {
      SplitWithout(ref, COLON);
      assert false;
    }
    SplitFirst(ref, COLON);
    assert splits[0] == ref[..IndexOf(ref, COLON)];
    assert splits[0][0] == ref[0];
    var remainder := Join(splits[1..], COLON);
    NodeCreate.SplitScopeSound(remainder, InvalidParent, ParentMissing);
  }

  /** For a trimmed `rest`, a reference with an acceptable facet is parsed by
      parsing what follows the colon; the facet is kept as it is. */
  lemma SplitRefNameDelegates(f: Bytes, rest: Bytes)
    requires LooseFacet(f) && Trimmed(rest)
    ensures SplitRefName(f + [COLON] + rest) ==
      if rest == [] then Failure(NodeCreate.Invalid(InvalidParent))
      else match NodeCreate.SplitScope(rest, InvalidParent, ParentMissing)
        case Failure(e) => Failure(e)
        case Success((owner, hashid)) => Success(NodeCreate.ParentRef(f, owner, hashid))
  {
    var s := f + [COLON] + rest;
    assert s[0] == f[0];
    assert s[|s| - 1] == if rest == [] then COLON else rest[|rest| - 1];
    TrimOfTrimmed(s);
    SplitAfter(f, COLON, rest);
    JoinSplit(rest, COLON);
  }

  /** Trailing white space, `"`, `@` and `/` in a facet are all kept: an
      unscoped reference with any acceptable facet round-trips. */
  lemma SplitRefNameBare(f: Bytes, h: Bytes)
    requires LooseFacet(f)
    requires h != [] && Trimmed(h) && SLASH !in h
    ensures SplitRefName(f + [COLON] + h) == Success(NodeCreate.ParentRef(f, None, h))
  {
    SplitRefNameDelegates(f, h);
    SplitWithout(h, SLASH);
  }

  /** A scoped reference `facet:@owner/hashid` round-trips. */
  lemma SplitRefNameScoped(f: Bytes, o: Bytes, h: Bytes)
    requires LooseFacet(f)
    requires o != [] && Trimmed(o) && SLASH !in o
    requires h != [] && Trimmed(h)
    ensures SplitRefName(f + [COLON] + ([AT] + o + [SLASH] + h)) == Success(NodeCreate.ParentRef(f, Some(o), h))
  {
    var rest := [AT] + o + [SLASH] + h;
    assert rest[0] == AT && rest[|rest| - 1] == h[|h| - 1];
    SplitRefNameDelegates(f, rest);
    NodeCreate.SplitScopeScoped(o, h, InvalidParent, ParentMissing);
    TrimOfTrimmed(o);
  }

  /** The owner claim is compared with the logged-in user's name only. */
  function CheckOwner(owner: Option<Bytes>, who: Option<Identity>): (r: Result<Option<Identity>, Reply<Bytes>>)
    ensures owner.None? ==> r == Success(None)
    ensures owner.Some? && NodeCreate.ClaimedOwner(owner.value) == [] ==>
      r == Failure(Reply(StatusBadRequest, ErrorBody("owner is invalid")))
    ensures owner.Some? && NodeCreate.ClaimedOwner(owner.value) != [] ==>
      (r.Success? <==> who.Some? && who.value.name == NodeCreate.ClaimedOwner(owner.value))
    ensures owner.Some? && r.Success? ==> r.value == who
    ensures r.Failure? && r.error.status != StatusBadRequest ==>
      r.error == Reply(StatusUnauthorized, ErrorBody("owner requires login"))
  {
    if owner.None? then Success(None)
    else
      var claimed := NodeCreate.ClaimedOwner(owner.value);
      if claimed == [] then Failure(Reply(StatusBadRequest, ErrorBody("owner is invalid")))
      else if who.None? || who.value.name != claimed then
        Failure(Reply(StatusUnauthorized, ErrorBody("owner requires login")))
      else Success(who)
  }

  /** An owner claim naming the user's email, which the current version
      accepts, is refused here. */
  lemma EmailClaimRefused(claim: Bytes, who: Identity)
    requires NodeCreate.ClaimedOwner(claim) == who.email != who.name
    requires who.email != []
    ensures NodeCreate.CheckOwner(Some(claim), Some(who)) == Success(Some(who))
    ensures CheckOwner(Some(claim), Some(who)) == Failure(Reply(StatusUnauthorized, ErrorBody("owner requires login")))
  {
  }

  /** Everything a request must pass before anything is written. */
  function Validate(req: Request, who: Option<Identity>, w: NodeCreate.World): (r: Result<(NodeRecord, Option<Identity>), Reply<Bytes>>)
    ensures r.Failure? ==> r.error.status in {StatusBadRequest, StatusUnauthorized, StatusInternalServerError}
  {
    var xdata :- NodeCreate.CheckPayload(req.data, w.objectOf);
    var owner :- CheckOwner(req.owner, who);
    var links :- NodeCreate.ResolveParents(req.parent, SplitRefName, MaxParents, TooManyParents, ParentMissing, w.findNodes);
    var ownerUid := if owner.Some? then Some(owner.value.uid) else None;
    Success((NodeRecord(ownerUid, xdata, false, w.now, links, None, None), owner))
  }

  /** createNodeHandler of this version: the same transaction as the
      current one after its own validation. */
  function CreateSpec(req: Request, who: Option<Identity>, w: NodeCreate.World): NodeCreate.Outcome {
    match Validate(req, who, w)
    case Failure(reply) => NodeCreate.Outcome(reply, [])
    case Success((rec, owner)) => NodeCreate.Persist(rec, owner, w)
  }

  /** Only a 200 persists anything: one node, never searchable and without
      search fields, followed by its address. */
  lemma CreateAtomic(req: Request, who: Option<Identity>, w: NodeCreate.World)
    ensures var o := CreateSpec(req, who, w);
      && (o.reply.status == StatusOK <==> o.committed != [])
      && (o.committed != [] ==>
            |o.committed| == 2 && Addressed(o.committed) &&
            !o.committed[0].node.searchable &&
            o.committed[0].node.searchTitle.None? && o.committed[0].node.searchSynopsis.None?)
  {
    match Validate(req, who, w)
    case Failure(_) =>
    case Success((rec, owner)) => NodeCreate.PersistAtomic(rec, owner, w);
  }

  /** A reply of 200 carries the new node's address, `@user/hashid` under
      the logged-in user's name when an owner was claimed and the bare hashid
      otherwise, and commits the node with the compact payload, the user's
      uid as owner, the current time and one link per parent. */
  lemma CreateLink(req: Request, who: Option<Identity>, w: NodeCreate.World)
    requires CreateSpec(req, who, w).reply.status == StatusOK
    ensures w.assignedUid.Some? && |w.assignedUid.value| >= 2
    ensures var uid := w.assignedUid.value;
      w.encodeHex(uid[2..]).Some? &&
      CreateSpec(req, who, w).reply.body ==
        Payload(Address.Format(if req.owner.Some? then Some(who.value.name) else None, w.encodeHex(uid[2..]).value))
    ensures req.owner.Some? ==> (who.Some? && who.value.name == NodeCreate.ClaimedOwner(req.owner.value))
    ensures var rec := CreateSpec(req, who, w).committed[0].node;
      && rec.xdata == w.objectOf(req.data.value).value.compact
      && rec.owner == (if req.owner.Some? then Some(who.value.uid) else None)
      && !rec.searchable && rec.createdAt == w.now
      && NodeCreate.ResolveParents(req.parent, SplitRefName, MaxParents, TooManyParents, ParentMissing, w.findNodes)
         == Success(rec.parents)
  {
    assert Validate(req, who, w).Success?;
  }

  /** Creating a node keeps every committed node followed by its address. */
  lemma CreateKeepsAddressed(log: seq<Mutation>, req: Request, who: Option<Identity>, w: NodeCreate.World)
    requires Addressed(log)
    ensures Addressed(log + CreateSpec(req, who, w).committed)
  {
    CreateAtomic(req, who, w);
    if CreateSpec(req, who, w).committed == [] {
      assert log + [] == log;
    } else {
      AddressedAppend(log, CreateSpec(req, who, w).committed);
    }
  }

  /** More than 100 parents are refused before any of them is parsed, once
      the payload and the owner claim have passed. */
  lemma TooManyParentsRefused(req: Request, who: Option<Identity>, w: NodeCreate.World)
    requires |req.parent| > MaxParents
    requires NodeCreate.CheckPayload(req.data, w.objectOf).Success?
    requires CheckOwner(req.owner, who).Success?
    ensures CreateSpec(req, who, w) == NodeCreate.Outcome(Reply(StatusBadRequest, ErrorBody(TooManyParents)), [])
  {
    NodeCreate.ResolveParentsSpec(req.parent, SplitRefName, MaxParents, TooManyParents, ParentMissing, w.findNodes);
  }

  /** createNodeHandler of this version: the transaction is opened right
      after the payload check and discarded on every return. */
  method CreateNode(store: GraphStore, req: Request, who: Option<Identity>, w: NodeCreate.World) returns (reply: Reply<Bytes>)
    modifies store
    ensures reply == CreateSpec(req, who, w).reply
    ensures store.log == old(store.log) + CreateSpec(req, who, w).committed
  {
    var xdata := NodeCreate.CheckPayload(req.data, w.objectOf);
    if xdata.Failure? {
      return xdata.error;
    }

    var txn := new Txn.Begin(store);

    var owner := CheckOwner(req.owner, who);
    if owner.Failure? {
      txn.Discard();
      return owner.error;
    }

    var links := NodeCreate.ResolveParentRefs(req.parent, SplitRefName, MaxParents, TooManyParents, ParentMissing, w.findNodes);
    if links.Failure? {
      txn.Discard();
      return links.error;
    }

    var ownerUid := if owner.value.Some? then Some(owner.value.value.uid) else None;
    var rec := NodeRecord(ownerUid, xdata.value, false, w.now, links.value, None, None);
    assert Validate(req, who, w) == Success((rec, owner.value));
    reply := NodeCreate.Commit(txn, rec, owner.value, w);
    txn.Discard();
  }
}
