/** Node creation (POST /ref): the parent reference grammar
    `facet ":" ["@" owner "/"] hashid`, the fail-fast validation of a create
    request, the resolution of its parents against one batched lookup, and
    the two-mutation transaction that commits the node and its address. */
module NodeCreate {
  import opened Wrappers
  import opened Bytes
  import opened Http
  import opened Store
  import Address

  /** Default for MAX_PAYLOAD_KB. */
  const MaxDataPayloadKB: int := 12
  const MaxFacetLength: int := 75
  const MaxParents: int := 250
  const MaxTitleLength: int := 100
  const MaxSynopsisLength: int := 800

  const InvalidParentRef: string := "invalid parent ref"
  const ParentRefMissing: string := "provided parent ref does not exist"
  const EmptyFacet: string := "invalid parent: ref type must not be empty"
  const LongFacet: string := "invalid parent: ref type must be at most 75 characters"
  const TooManyParents: string := "max 250 parent refs permitted"
  const BadFacetChar: string := "invalid parent: ref type must not contain \", @ or /"

  /** A parsed parent reference. */
  datatype ParentRef = ParentRef(facet: Bytes, owner: Option<Bytes>, hashid: Bytes)

  /** Why a reference was refused: a message for the caller, or the
      out-of-range index that panics (and that the framework turns into a
      500). */
  datatype RefError = Invalid(msg: string) | IndexOutOfRange

  /** A row of the batched parent lookup. */
  datatype NodeRow = NodeRow(uid: Bytes, hashid: Bytes, ownerName: Option<Bytes>)

  /** The body of a create request, as bound from JSON. */
  datatype Request = Request(
    owner: Option<Bytes>,
    parents: seq<Bytes>,
    data: Option<Bytes>,
    searchable: bool,
    searchTitle: Option<Bytes>,
    searchSynopsis: Option<Bytes>,
    recaptchaCode: Bytes)

  /** What the collaborators answer during one request: the JSON decoder, the
      bot check, the parent lookup, the clock, the uid the store assigns to the
      new node (None: the first mutation fails), the hashid codec, and whether
      the address write and the commit succeed. */
  datatype World = World(
    objectOf: Bytes -> Option<JsonObject>,
    recaptcha: Bytes -> bool,
    findNodes: seq<Bytes> -> StoreRead<seq<NodeRow>>,
    now: int,
    assignedUid: Option<Bytes>,
    encodeHex: Bytes -> Option<Bytes>,
    addressWriteOk: bool,
    commitOk: bool)

  /** The reply to a create request and the mutations it made persistent. */
  datatype Outcome = Outcome(reply: Reply<Bytes>, committed: seq<Mutation>)

  // ---------------------------------------------------------------------
  // Parent reference grammar

  /** What a successful parse promises of a facet. */
  predicate ValidFacet(f: Bytes) {
    && f != []
    && Trimmed(f)
    && |f| <= MaxFacetLength
    && QUOTE !in f && AT !in f && SLASH !in f && COLON !in f
  }

  /** The part after the first `:`: `["@" owner "/"] hashid`. Shared by both
      versions of the handler, which differ only in their messages. */
  function SplitScope(remainder: Bytes, invalid: string, missing: string): Result<(Option<Bytes>, Bytes), RefError> {
    ScopeOfSegments(Split(remainder, SLASH), invalid, missing)
  }

  /** The scope cut at its slashes: one piece is a bare hashid; otherwise
      the first piece names the owner and the others, joined back, are the
      hashid. */
  function ScopeOfSegments(splits: seq<Bytes>, invalid: string, missing: string): Result<(Option<Bytes>, Bytes), RefError>
    requires |splits| >= 1
  {
    if |splits| == 1 then Success((None, splits[0]))
    else if |splits| == 2 && splits[0] == [] then Failure(Invalid(invalid))
    else if splits[0] == [] then Failure(IndexOutOfRange)
    else if splits[0][0] != AT then Failure(Invalid(missing))
    else
      var owner := Trim(TrimPrefix(splits[0], [AT]));
      if owner == [] then Failure(Invalid(invalid))
      else
        var hashid := Join(splits[1..], SLASH);
        if hashid == [] then Failure(Invalid(invalid)) else Success((Some(owner), hashid))
  }

  /** splitRefName. */
  function SplitRefName(refName: Bytes): Result<ParentRef, RefError> {
    var ref := Trim(refName);
    if ref == [] then Failure(Invalid(InvalidParentRef))
    else SplitSegments(Split(ref, COLON))
  }

  /** The reference cut at its colons: no colon is invalid; otherwise the
      first piece is the facet and the others, joined back, the scope. */
  function SplitSegments(splits: seq<Bytes>): Result<ParentRef, RefError> {
    if |splits| <= 1 then Failure(Invalid(InvalidParentRef))
    else
      var facet :- CheckFacet(splits[0]);
      ScopedRef(facet, Join(splits[1..], COLON))
  }

  /** A checked facet and what follows its colon. */
  function ScopedRef(facet: Bytes, remainder: Bytes): Result<ParentRef, RefError> {
    if remainder == [] then Failure(Invalid(InvalidParentRef))
    else
      match SplitScope(remainder, InvalidParentRef, ParentRefMissing)
      case Failure(e) => Failure(e)
      case Success((owner, hashid)) => Success(ParentRef(facet, owner, hashid))
  }

  /** The facet of a reference: the text before the first colon, trimmed,
      non-empty, at most 75 bytes and free of `"`, `@` and `/`. */
  function CheckFacet(raw: Bytes): (r: Result<Bytes, RefError>)
    ensures r.Success? <==>
      Trim(raw) != [] && |Trim(raw)| <= MaxFacetLength && QUOTE !in Trim(raw) && AT !in Trim(raw) && SLASH !in Trim(raw)
    ensures r.Success? ==> r.value == Trim(raw)
    ensures r.Failure? ==> r.error.Invalid?
  {
    var facet := Trim(raw);
    if facet == [] then Failure(Invalid(EmptyFacet))
    else if |facet| > MaxFacetLength then Failure(Invalid(LongFacet))
    else if QUOTE in facet || AT in facet || SLASH in facet then Failure(Invalid(BadFacetChar))
    else Success(facet)
  }

  /** What follows the first colon, once parsed: a non-empty hashid, free of
      `/` unless an owner was declared; a declared owner is non-empty,
      trimmed and free of `/`. */
  lemma SplitScopeSound(remainder: Bytes, invalid: string, missing: string)
    requires remainder != []
    requires SplitScope(remainder, invalid, missing).Success?
    ensures var (owner, hashid) := SplitScope(remainder, invalid, missing).value;
      && hashid != []
      && (owner.None? ==> SLASH !in hashid)
      && (owner.Some? ==> owner.value != [] && Trimmed(owner.value) && SLASH !in owner.value)
  {
    var splits := Split(remainder, SLASH);
    if |splits| == 1 {
      JoinSplit(remainder, SLASH);
    } else {
      var owner := Trim(TrimPrefix(splits[0], [AT]));
      if SLASH in owner {
        TrimKeeps(TrimPrefix(splits[0], [AT]), SLASH);
      }
    }
  }

  /** A parsed reference has a valid facet and a non-empty hashid; a declared
      owner is non-empty, trimmed and free of `/`; an unscoped hashid is free
      of `/`. */
  lemma SplitRefNameSound(refName: Bytes)
    requires SplitRefName(refName).Success?
    ensures ValidFacet(SplitRefName(refName).value.facet)
    ensures SplitRefName(refName).value.hashid != []
    ensures SplitRefName(refName).value.owner.Some? ==>
      var o := SplitRefName(refName).value.owner.value; o != [] && Trimmed(o) && SLASH !in o
    ensures SplitRefName(refName).value.owner.None? ==> SLASH !in SplitRefName(refName).value.hashid
  {
    var splits := Split(Trim(refName), COLON);
    assert SplitRefName(refName) == SplitSegments(splits);
    var facet := CheckFacet(splits[0]).value;
    assert COLON !in splits[0];
    if COLON in facet {
      TrimKeeps(splits[0], COLON);
    }
    var remainder := Join(splits[1..], COLON);
    assert SplitRefName(refName) == ScopedRef(facet, remainder);
    SplitScopeSound(remainder, InvalidParentRef, ParentRefMissing);
  }

  /** For a trimmed `rest`, a reference with a valid facet is parsed by
      parsing what follows the colon. */
  lemma SplitRefNameDelegates(f: Bytes, rest: Bytes)
    requires ValidFacet(f) && Trimmed(rest)
    ensures SplitRefName(f + [COLON] + rest) ==
      if rest == [] then Failure(Invalid(InvalidParentRef))
      else match SplitScope(rest, InvalidParentRef, ParentRefMissing)
        case Failure(e) => Failure(e)
        case Success((owner, hashid)) => Success(ParentRef(f, owner, hashid))
  {
    TrimOfTrimmed(f);
    assert CheckFacet(f) == Success(f);
    JoinSplit(rest, COLON);
    FacetColon(f, rest);
    var splits := [f] + Split(rest, COLON);
    assert splits[0] == f && splits[1..] == Split(rest, COLON);
    assert SplitSegments(splits) == ScopedRef(f, rest);
  }

  /** `f:rest`, with `f` trimmed and colon-free and `rest` trimmed, is cut at
      the colon after `f`. */
  lemma FacetColon(f: Bytes, rest: Bytes)
    requires f != [] && Trimmed(f) && COLON !in f && Trimmed(rest)
    ensures SplitRefName(f + [COLON] + rest) == SplitSegments([f] + Split(rest, COLON))
  {
    var s := f + [COLON] + rest;
    assert s[0] == f[0];
    assert s[|s| - 1] == if rest == [] then COLON else rest[|rest| - 1];
    TrimOfTrimmed(s);
    SplitAfter(f, COLON, rest);
  }

  /** A facet carrying `"`, `@` or `/` is refused whatever follows it. */
  lemma SplitRefNameRejectsFacetChar(f: Bytes, rest: Bytes)
    requires f != [] && Trimmed(f) && |f| <= MaxFacetLength && COLON !in f
    requires QUOTE in f || AT in f || SLASH in f
    requires Trimmed(rest)
    ensures SplitRefName(f + [COLON] + rest) == Failure(Invalid(BadFacetChar))
  {
    TrimOfTrimmed(f);
    assert CheckFacet(f) == Failure(Invalid(BadFacetChar));
    FacetColon(f, rest);
  }

  /** Round trip of an unscoped reference `facet:hashid`. */
  lemma SplitRefNameBare(f: Bytes, h: Bytes)
    requires ValidFacet(f) && h != [] && Trimmed(h) && SLASH !in h
    ensures SplitRefName(f + [COLON] + h) == Success(ParentRef(f, None, h))
  {
    SplitRefNameDelegates(f, h);
    SplitWithout(h, SLASH);
  }

  /** What follows the colon in a scoped reference: `@owner/hashid`, where
      the hashid may itself contain `/` (it is everything after the first). */
  lemma SplitScopeScoped(o: Bytes, h: Bytes, invalid: string, missing: string)
    requires SLASH !in o
    ensures SplitScope([AT] + o + [SLASH] + h, invalid, missing) ==
      if Trim(o) == [] || h == [] then Failure(Invalid(invalid)) else Success((Some(Trim(o)), h))
  {
    SplitAfter([AT] + o, SLASH, h);
    JoinSplit(h, SLASH);
    assert HasPrefix([AT] + o, [AT]);
  }

  /** Round trip of a scoped reference `facet:@owner/hashid`. */
  lemma SplitRefNameScoped(f: Bytes, o: Bytes, h: Bytes)
    requires ValidFacet(f)
    requires o != [] && Trimmed(o) && SLASH !in o
    requires h != [] && Trimmed(h)
    ensures SplitRefName(f + [COLON] + ([AT] + o + [SLASH] + h)) == Success(ParentRef(f, Some(o), h))
  {
    var rest := [AT] + o + [SLASH] + h;
    assert rest[0] == AT && rest[|rest| - 1] == h[|h| - 1];
    SplitRefNameDelegates(f, rest);
    SplitScopeScoped(o, h, InvalidParentRef, ParentRefMissing);
    TrimOfTrimmed(o);
  }

  /** A blank reference, or one without a colon, is invalid. */
  lemma SplitRefNameNeedsColon(refName: Bytes)
    requires COLON !in Trim(refName)
    ensures SplitRefName(refName) == Failure(Invalid(InvalidParentRef))
  {
    SplitWithout(Trim(refName), COLON);
  }

  /** After `/`, an owner segment that does not start with `@` reads as a
      reference to a node that does not exist. */
  lemma SplitScopeNeedsAt(a: Bytes, b: Bytes, invalid: string, missing: string)
    requires a != [] && a[0] != AT && SLASH !in a
    ensures SplitScope(a + [SLASH] + b, invalid, missing) == Failure(Invalid(missing))
  {
    SplitAfter(a, SLASH, b);
  }

  /** An empty owner segment is caught only when there is exactly one `/`:
      `/hashid` is invalid ... */
  lemma SplitScopeEmptyOwnerOneSlash(b: Bytes, invalid: string, missing: string)
    requires SLASH !in b
    ensures SplitScope([SLASH] + b, invalid, missing) == Failure(Invalid(invalid))
  {
    SplitAfter([], SLASH, b);
    assert [] + [SLASH] + b == [SLASH] + b;
    SplitWithout(b, SLASH);
  }

  /** ... while `/x/y` indexes the first byte of the empty segment and
      panics. */
  lemma SplitScopeEmptyOwnerTwoSlashes(b: Bytes, c: Bytes, invalid: string, missing: string)
    requires SLASH !in b
    ensures SplitScope([SLASH] + b + [SLASH] + c, invalid, missing) == Failure(IndexOutOfRange)
  {
    var s := [SLASH] + b + [SLASH] + c;
    EmptyFirstOfThree(b, c);
    assert SplitScope(s, invalid, missing) == ScopeOfSegments(Split(s, SLASH), invalid, missing);
  }

  /** `/b/c` cuts into at least three pieces, the first of them empty. */
  lemma EmptyFirstOfThree(b: Bytes, c: Bytes)
    requires SLASH !in b
    ensures var splits := Split([SLASH] + b + [SLASH] + c, SLASH); |splits| >= 3 && splits[0] == []
  {
    var tail := b + [SLASH] + c;
    assert [] + [SLASH] + tail == [SLASH] + b + [SLASH] + c;
    SplitAfter([], SLASH, tail);
    SplitAfter(b, SLASH, c);
  }

  // ---------------------------------------------------------------------
  // Validation stages

  function PayloadTooBig(): string { "data payload must be less than 12kB" }

  /** The payload is present, a JSON object, and at most the bound in bytes;
      the result is its compact form. */
  function CheckPayload(data: Option<Bytes>, objectOf: Bytes -> Option<JsonObject>): (r: Result<Bytes, Reply<Bytes>>)
    ensures data.None? ==> r == Failure(Reply(StatusBadRequest, ErrorBody("data payload must not be empty")))
    ensures data.Some? && objectOf(data.value).None? ==>
      r == Failure(Reply(StatusBadRequest, ErrorBody("data payload must be valid json object")))
    ensures data.Some? && objectOf(data.value).Some? ==>
      (r.Success? <==> |data.value| <= MaxDataPayloadKB * 1024)
    ensures r.Success? ==> data.Some? && r.value == objectOf(data.value).value.compact
    ensures r.Failure? ==> r.error.status == StatusBadRequest
  {
    if data.None? then Failure(Reply(StatusBadRequest, ErrorBody("data payload must not be empty")))
    else
      match objectOf(data.value)
      case None => Failure(Reply(StatusBadRequest, ErrorBody("data payload must be valid json object")))
      case Some(obj) =>
        if |data.value| > MaxDataPayloadKB * 1024 then Failure(Reply(StatusBadRequest, ErrorBody(PayloadTooBig())))
        else Success(obj.compact)
  }

  /** One optional search field: absent stays absent; present, it is
      trimmed and must be non-empty and at most `max` bytes. */
  function CheckField(field: Option<Bytes>, max: int, emptyMsg: string, longMsg: string): (r: Result<Option<Bytes>, Reply<Bytes>>)
    ensures field.None? ==> r == Success(None)
    ensures field.Some? ==>
      (r.Success? <==> 0 < |Trim(field.value)| <= max) &&
      (r.Success? ==> r.value == Some(Trim(field.value)))
    ensures r.Failure? ==> r.error in {Reply(StatusBadRequest, ErrorBody(emptyMsg)), Reply(StatusBadRequest, ErrorBody(longMsg))}
  {
    match field
    case None => Success(None)
    case Some(f) =>
      var t := Trim(f);
      if t == [] then Failure(Reply(StatusBadRequest, ErrorBody(emptyMsg)))
      else if |t| > max then Failure(Reply(StatusBadRequest, ErrorBody(longMsg)))
      else Success(Some(t))
  }

  /** The search title and synopsis after trimming, or the first complaint. */
  function CheckSearch(searchable: bool, title: Option<Bytes>, synopsis: Option<Bytes>): (r: Result<(Option<Bytes>, Option<Bytes>), Reply<Bytes>>)
    ensures searchable && title.None? && synopsis.None? ==> r.Failure?
    ensures r.Success? ==> (r.value.0.Some? <==> title.Some?) && (r.value.1.Some? <==> synopsis.Some?)
    ensures r.Success? && title.Some? ==>
      r.value.0.value == Trim(title.value) && 0 < |r.value.0.value| <= MaxTitleLength
    ensures r.Success? && synopsis.Some? ==>
      r.value.1.value == Trim(synopsis.value) && 0 < |r.value.1.value| <= MaxSynopsisLength
    ensures r.Failure? ==> r.error.status == StatusBadRequest
    ensures r.Success? <==>
      && !(searchable && title.None? && synopsis.None?)
      && (title.Some? ==> 0 < |Trim(title.value)| <= MaxTitleLength)
      && (synopsis.Some? ==> 0 < |Trim(synopsis.value)| <= MaxSynopsisLength)
  {
    if searchable && title.None? && synopsis.None? then
      Failure(Reply(StatusBadRequest, ErrorBody("when searchable is true, a search title or search synopsis is required")))
    else
      var t :- CheckField(title, MaxTitleLength, "search title must not be empty", "search title must be less than 100 characters");
      var s :- CheckField(synopsis, MaxSynopsisLength, "search synopsis must not be empty", "search synopsis must be less than 800 characters");
      Success((t, s))
  }

  /** The owner claim: trimmed, one leading `@` removed. */
  function ClaimedOwner(owner: Bytes): Bytes {
    TrimPrefix(Trim(owner), [AT])
  }

  /** An owner claim must name the logged-in user, by name or by email; the
      result is the identity the node will be owned by. */
  function CheckOwner(owner: Option<Bytes>, who: Option<Identity>): (r: Result<Option<Identity>, Reply<Bytes>>)
    ensures owner.None? ==> r == Success(None)
    ensures owner.Some? && ClaimedOwner(owner.value) == [] ==>
      r == Failure(Reply(StatusBadRequest, ErrorBody("owner is invalid")))
    ensures owner.Some? && ClaimedOwner(owner.value) != [] ==>
      (r.Success? <==> who.Some? && ClaimedOwner(owner.value) in {who.value.name, who.value.email})
    ensures owner.Some? && r.Success? ==> r.value == who
    ensures r.Failure? && r.error.status != StatusBadRequest ==>
      r.error == Reply(StatusUnauthorized, ErrorBody("owner requires login"))
  {
    if owner.None? then Success(None)
    else
      var claimed := ClaimedOwner(owner.value);
      if claimed == [] then Failure(Reply(StatusBadRequest, ErrorBody("owner is invalid")))
      else if who.None? || (who.value.name != claimed && who.value.email != claimed) then
        Failure(Reply(StatusUnauthorized, ErrorBody("owner requires login")))
      else Success(who)
  }

  // ---------------------------------------------------------------------
  // Parent resolution

  /** Parses every reference; the first failure wins. */
  function ParseAll(parents: seq<Bytes>, split: Bytes -> Result<ParentRef, RefError>): (r: Result<seq<ParentRef>, RefError>)
    ensures r.Success? ==>
      |r.value| == |parents| && forall i :: 0 <= i < |parents| ==> split(parents[i]) == Success(r.value[i])
    ensures r.Failure? ==> exists i :: 0 <= i < |parents| && split(parents[i]) == Failure(r.error)
    ensures r.Failure? <==> exists i :: 0 <= i < |parents| && split(parents[i]).Failure?
  {
    if parents == [] then Success([])
    else
      var last := parents[|parents| - 1];
      match ParseAll(parents[..|parents| - 1], split)
      case Failure(e) => Failure(e)
      case Success(ps) =>
        match split(last)
        case Failure(e) => Failure(e)
        case Success(p) => Success(ps + [p])
  }

  /** Once a prefix of the references fails to parse, the whole list fails
      with the same error. */
  lemma {:induction false} ParseAllFailureSticks(parents: seq<Bytes>, split: Bytes -> Result<ParentRef, RefError>, i: int)
    requires 0 <= i <= |parents|
    requires ParseAll(parents[..i], split).Failure?
    ensures ParseAll(parents, split) == ParseAll(parents[..i], split)
    decreases |parents|
  {
    if i < |parents| {
      var init := parents[..|parents| - 1];
      assert init[..i] == parents[..i];
      ParseAllFailureSticks(init, split, i);
    } else {
      assert parents[..i] == parents;
    }
  }

  /** The hashids the batched lookup asks for, in request order. */
  function HashIds(ps: seq<ParentRef>): (r: seq<Bytes>)
    ensures |r| == |ps| && forall i :: 0 <= i < |ps| ==> r[i] == ps[i].hashid
  {
    seq(|ps|, i requires 0 <= i < |ps| => ps[i].hashid)
  }

  /** No later row has the hashid of row `j`. */
  predicate LastWithHashid(rows: seq<NodeRow>, j: int)
    requires 0 <= j < |rows|
  {
    forall j' :: j < j' < |rows| ==> rows[j'].hashid != rows[j].hashid
  }

  /** The lookup rows keyed by hashid; of two rows with one hashid the later
      is kept. */
  function IndexRows(rows: seq<NodeRow>): (m: map<Bytes, NodeRow>)
    ensures forall j :: 0 <= j < |rows| ==> rows[j].hashid in m
    ensures forall k :: k in m ==> m[k].hashid == k && m[k] in rows
  {
    if rows == [] then map[]
    else IndexRows(rows[..|rows| - 1])[rows[|rows| - 1].hashid := rows[|rows| - 1]]
  }

  /** The row kept for a hashid is the last one carrying it. */
  lemma {:induction false} IndexRowsKeepsLast(rows: seq<NodeRow>, j: int)
    requires 0 <= j < |rows| && LastWithHashid(rows, j)
    ensures IndexRows(rows)[rows[j].hashid] == rows[j]
    decreases |rows|
  {
    if j < |rows| - 1 {
      var init := rows[..|rows| - 1];
      assert init[j] == rows[j];
      assert LastWithHashid(init, j);
      IndexRowsKeepsLast(init, j);
    }
  }

  /** The parent named by `p` was found and its actual owner is the one `p`
      declares. */
  predicate Found(p: ParentRef, index: map<Bytes, NodeRow>) {
    p.hashid in index && Address.OwnerScopeMatches(p.owner, index[p.hashid].ownerName)
  }

  /** The links for the parsed parents, one per parent in request order, or
      None when some parent is missing or scoped to the wrong owner. */
  function Resolve(ps: seq<ParentRef>, index: map<Bytes, NodeRow>): (r: Option<seq<Link>>)
    ensures r.Some? <==> forall i :: 0 <= i < |ps| ==> Found(ps[i], index)
    ensures r.Some? ==>
      (|r.value| == |ps| && forall i :: 0 <= i < |ps| ==> r.value[i] == Link(index[ps[i].hashid].uid, ps[i].facet))
  {
    if ps == [] then Some([])
    else
      var init := ps[..|ps| - 1];
      var p := ps[|ps| - 1];
      assert forall i :: 0 <= i < |init| ==> init[i] == ps[i];
      match Resolve(init, index)
      case None => None
      case Some(links) =>
        if !Found(p, index) then None
        else Some(links + [Link(index[p.hashid].uid, p.facet)])
  }

  /** The reply for a reference that did not parse. */
  function RefErrorReply(e: RefError): Reply<Bytes> {
    match e
    case Invalid(msg) => Reply(StatusBadRequest, ErrorBody(msg))
    case IndexOutOfRange => Reply(StatusInternalServerError, EchoError)
  }

  /** The parent stage of both handler versions: the count limit, then the
      parse of every reference, then one lookup, then the owner-scope check. */
  function ResolveParents(
    parents: seq<Bytes>, split: Bytes -> Result<ParentRef, RefError>, limit: int,
    limitMsg: string, missingMsg: string, findNodes: seq<Bytes> -> StoreRead<seq<NodeRow>>)
    : (r: Result<seq<Link>, Reply<Bytes>>)
    ensures r.Failure? ==> r.error.status in {StatusBadRequest, StatusInternalServerError}
    ensures r.Success? ==> |r.value| == |parents|
  {
    if |parents| == 0 then Success([])
    else if |parents| > limit then Failure(Reply(StatusBadRequest, ErrorBody(limitMsg)))
    else
      match ParseAll(parents, split)
      case Failure(e) => Failure(RefErrorReply(e))
      case Success(ps) =>
        match findNodes(HashIds(ps))
        case QueryFailed(_) => Failure(Reply(StatusInternalServerError, ErrorBody(SomethingWentWrong)))
        case Undecodable => Failure(Reply(StatusInternalServerError, ErrorBody(SomethingWentWrong)))
        case Rows(rows) =>
          match Resolve(ps, IndexRows(rows))
          case None => Failure(Reply(StatusBadRequest, ErrorBody(missingMsg)))
          case Some(links) => Success(links)
  }

  /** What the parent stage promises: too many parents are refused before
      anything is parsed; otherwise a success has exactly one link per
      parent, in request order, each to a row with the parsed hashid whose
      owner is the declared one. */
  lemma ResolveParentsSpec(
    parents: seq<Bytes>, split: Bytes -> Result<ParentRef, RefError>, limit: int,
    limitMsg: string, missingMsg: string, findNodes: seq<Bytes> -> StoreRead<seq<NodeRow>>)
    ensures |parents| > limit && parents != [] ==>
      ResolveParents(parents, split, limit, limitMsg, missingMsg, findNodes) ==
      Failure(Reply(StatusBadRequest, ErrorBody(limitMsg)))
    ensures var r := ResolveParents(parents, split, limit, limitMsg, missingMsg, findNodes);
      r.Success? ==>
        |r.value| == |parents| &&
        forall i :: 0 <= i < |parents| ==>
          split(parents[i]).Success? &&
          var p := split(parents[i]).value;
          r.value[i].facet == p.facet &&
          exists row :: row in findNodes(HashIds(ParseAll(parents, split).value)).value &&
            row.hashid == p.hashid && row.ownerName == p.owner && row.uid == r.value[i].uid
  {
    var r := ResolveParents(parents, split, limit, limitMsg, missingMsg, findNodes);
    if r.Success? && parents != [] {
      var ps := ParseAll(parents, split).value;
      var rows := findNodes(HashIds(ps)).value;
      var index := IndexRows(rows);
      forall i | 0 <= i < |parents|
        ensures split(parents[i]).Success? &&
          var p := split(parents[i]).value;
          r.value[i].facet == p.facet &&
          exists row :: row in rows && row.hashid == p.hashid && row.ownerName == p.owner && row.uid == r.value[i].uid
      {
        assert Found(ps[i], index);
        var row := index[ps[i].hashid];
        assert row in rows && row.hashid == ps[i].hashid && row.ownerName == ps[i].owner;
      }
    }
  }

  /** A parent whose declared owner scope differs from the owner the lookup
      reports is refused even though its hashid exists. */
  lemma ResolveRejectsWrongScope(
    parents: seq<Bytes>, split: Bytes -> Result<ParentRef, RefError>, limit: int,
    limitMsg: string, missingMsg: string, findNodes: seq<Bytes> -> StoreRead<seq<NodeRow>>, i: int)
    requires 0 <= i < |parents| <= limit
    requires ParseAll(parents, split).Success?
    requires findNodes(HashIds(ParseAll(parents, split).value)).Rows?
    requires var p := ParseAll(parents, split).value[i];
      forall row :: (row in findNodes(HashIds(ParseAll(parents, split).value)).value && row.hashid == p.hashid)
        ==> row.ownerName != p.owner
    ensures ResolveParents(parents, split, limit, limitMsg, missingMsg, findNodes) == Failure(Reply(StatusBadRequest, ErrorBody(missingMsg)))
  {
    ResolveParentsSpec(parents, split, limit, limitMsg, missingMsg, findNodes);
  }

  /** Validates every reference, looks the parents up in one batch, indexes
      the rows by hashid and resolves each reference against them. */
  method ResolveParentRefs(
    parents: seq<Bytes>, split: Bytes -> Result<ParentRef, RefError>, limit: int,
    limitMsg: string, missingMsg: string, findNodes: seq<Bytes> -> StoreRead<seq<NodeRow>>)
    returns (r: Result<seq<Link>, Reply<Bytes>>)
    ensures r == ResolveParents(parents, split, limit, limitMsg, missingMsg, findNodes)
  {
    if |parents| == 0 {
      return Success([]);
    }
    if |parents| > limit {
      return Failure(Reply(StatusBadRequest, ErrorBody(limitMsg)));
    }
    var parsed, hashids := ParseRefs(parents, split);
    if parsed.Failure? {
      return Failure(RefErrorReply(parsed.error));
    }
    var resp := findNodes(hashids);
    if resp.QueryFailed? || resp.Undecodable? {
      return Failure(Reply(StatusInternalServerError, ErrorBody(SomethingWentWrong)));
    }
    var rootKey := IndexRowsByHashid(resp.value);
    var links := ResolveRefs(parsed.value, rootKey);
    if links.None? {
      return Failure(Reply(StatusBadRequest, ErrorBody(missingMsg)));
    }
    r := Success(links.value);
  }

  /** The parse loop: every reference in order, stopping at the first that
      does not parse, collecting the hashids to look up. */
  method ParseRefs(parents: seq<Bytes>, split: Bytes -> Result<ParentRef, RefError>)
    returns (r: Result<seq<ParentRef>, RefError>, hashids: seq<Bytes>)
    ensures r == ParseAll(parents, split)
    ensures r.Success? ==> hashids == HashIds(r.value)
  {
    var ps: seq<ParentRef> := [];
    hashids := [];
    for i := 0 to |parents|
      invariant ParseAll(parents[..i], split) == Success(ps)
      invariant hashids == HashIds(ps)
    {
      assert parents[..i + 1][..i] == parents[..i];
      var parsed := split(parents[i]);
      if parsed.Failure? {
        assert ParseAll(parents[..i + 1], split) == Failure(parsed.error);
        ParseAllFailureSticks(parents, split, i + 1);
        return Failure(parsed.error), hashids;
      }
      ps := ps + [parsed.value];
      hashids := hashids + [parsed.value.hashid];
    }
    assert parents[..|parents|] == parents;
    r := Success(ps);
  }

  /** The indexing loop over the lookup rows. */
  method IndexRowsByHashid(rows: seq<NodeRow>) returns (rootKey: map<Bytes, NodeRow>)
    ensures rootKey == IndexRows(rows)
  {
    rootKey := map[];
    for j := 0 to |rows|
      invariant rootKey == IndexRows(rows[..j])
    {
      assert rows[..j + 1][..j] == rows[..j];
      rootKey := rootKey[rows[j].hashid := rows[j]];
    }
    assert rows[..|rows|] == rows;
  }

  /** The resolving loop: each parsed reference must name a row whose owner
      is the declared one, with the four-way owner comparison written out. */
  method ResolveRefs(ps: seq<ParentRef>, rootKey: map<Bytes, NodeRow>) returns (r: Option<seq<Link>>)
    ensures r == Resolve(ps, rootKey)
  {
    var links: seq<Link> := [];
    for i := 0 to |ps|
      invariant Resolve(ps[..i], rootKey) == Some(links)
    {
      assert ps[..i + 1][..i] == ps[..i];
      var p := ps[i];
      if p.hashid !in rootKey {
        assert Resolve(ps, rootKey).None?;
        return None;
      }
      var rk := rootKey[p.hashid];
      if p.owner.None? {
        if rk.ownerName.Some? {
          assert Resolve(ps, rootKey).None?;
          return None;
        }
      } else {
        if rk.ownerName.None? {
          assert Resolve(ps, rootKey).None?;
          return None;
        } else if p.owner.value != rk.ownerName.value {
          assert Resolve(ps, rootKey).None?;
          return None;
        }
      }
      links := links + [Link(rk.uid, p.facet)];
    }
    assert ps[..|ps|] == ps;
    r := Some(links);
  }

  // ---------------------------------------------------------------------
  // The handler

  /** Everything a request must pass before anything is written, and the
      node record and owner it leads to. */
  function Validate(req: Request, who: Option<Identity>, w: World): (r: Result<(NodeRecord, Option<Identity>), Reply<Bytes>>)
    ensures r.Failure? ==> r.error.status in {StatusBadRequest, StatusUnauthorized, StatusInternalServerError}
  {
    var checked :- PreChecks(req, w);
    ValidateInTxn(req, who, w, checked.0, checked.1)
  }

  /** The checks made before the transaction opens: the payload, the search
      fields, the bot check; the compact payload and trimmed search fields. */
  function PreChecks(req: Request, w: World): Result<(Bytes, (Option<Bytes>, Option<Bytes>)), Reply<Bytes>> {
    var xdata :- CheckPayload(req.data, w.objectOf);
    var search :- CheckSearch(req.searchable, req.searchTitle, req.searchSynopsis);
    if !w.recaptcha(req.recaptchaCode) then Failure(Reply(StatusBadRequest, ErrorBody("recaptcha invalid")))
    else Success((xdata, search))
  }

  /** The checks made once the transaction is open: the owner claim, then
      the parents; the record they lead to. */
  function ValidateInTxn(req: Request, who: Option<Identity>, w: World, xdata: Bytes, search: (Option<Bytes>, Option<Bytes>))
    : Result<(NodeRecord, Option<Identity>), Reply<Bytes>>
  {
    var owner :- CheckOwner(req.owner, who);
    var links :- ResolveParents(req.parents, SplitRefName, MaxParents, TooManyParents, ParentRefMissing, w.findNodes);
    var ownerUid := if owner.Some? then Some(owner.value.uid) else None;
    Success((NodeRecord(ownerUid, xdata, req.searchable, w.now, links, search.0, search.1), owner))
  }

  /** What a validation result leads to: its failure reply with nothing
      committed, or the transaction. */
  function Conclude(v: Result<(NodeRecord, Option<Identity>), Reply<Bytes>>, w: World): Outcome {
    match v
    case Failure(reply) => Outcome(reply, [])
    case Success((rec, owner)) => Persist(rec, owner, w)
  }

  /** The transaction after validation: create the node, derive its hashid
      from the assigned uid (without its "0x"), write the hashid, commit. */
  function Persist(rec: NodeRecord, owner: Option<Identity>, w: World): Outcome {
    match w.assignedUid
    case None => Outcome(Reply(StatusInternalServerError, ErrorBody(SomethingWentWrong)), [])
    case Some(uid) =>
      if |uid| < 2 then Outcome(Reply(StatusInternalServerError, EchoError), [])
      else
        match w.encodeHex(uid[2..])
        case None => Outcome(Reply(StatusInternalServerError, ErrorBody(SomethingWentWrong)), [])
        case Some(hashid) =>
          if !w.addressWriteOk || !w.commitOk then
            Outcome(Reply(StatusInternalServerError, ErrorBody(SomethingWentWrong)), [])
          else
            var link := Address.Format(if owner.Some? then Some(owner.value.name) else None, hashid);
            Outcome(Reply(StatusOK, Payload(link)), [SetNode(uid, rec), SetHashid(uid, hashid)])
  }

  /** createNodeHandler, as a function of the request, the logged-in user
      and the collaborators' answers. */
  function CreateSpec(req: Request, who: Option<Identity>, w: World): Outcome {
    Conclude(Validate(req, who, w), w)
  }

  /** The transaction either commits a node followed by its address, with a
      200, or commits nothing. */
  lemma PersistAtomic(rec: NodeRecord, owner: Option<Identity>, w: World)
    ensures var o := Persist(rec, owner, w);
      && (o.reply.status == StatusOK <==> o.committed != [])
      && (o.committed != [] ==> |o.committed| == 2 && Addressed(o.committed) && o.committed[0].node == rec)
  {
    var o := Persist(rec, owner, w);
    if o.committed != [] {
      assert o.committed[2..] == [];
    }
  }

  /** Atomicity: only a 200 persists anything, and what it persists is one
      node followed by its address. */
  lemma CreateAtomic(req: Request, who: Option<Identity>, w: World)
    ensures var o := CreateSpec(req, who, w);
      && (o.reply.status == StatusOK <==> o.committed != [])
      && (o.committed != [] ==> |o.committed| == 2 && Addressed(o.committed))
  {
    match Validate(req, who, w)
    case Failure(_) =>
    case Success((rec, owner)) => PersistAtomic(rec, owner, w);
  }

  /** The payload is checked first: missing, then not an object, then too
      big; a payload of exactly the bound passes this stage. */
  lemma PayloadCheckedFirst(req: Request, who: Option<Identity>, w: World)
    ensures req.data.None? ==>
      CreateSpec(req, who, w) == Outcome(Reply(StatusBadRequest, ErrorBody("data payload must not be empty")), [])
    ensures req.data.Some? && w.objectOf(req.data.value).None? ==>
      CreateSpec(req, who, w) == Outcome(Reply(StatusBadRequest, ErrorBody("data payload must be valid json object")), [])
    ensures req.data.Some? && w.objectOf(req.data.value).Some? && |req.data.value| > MaxDataPayloadKB * 1024 ==>
      CreateSpec(req, who, w) == Outcome(Reply(StatusBadRequest, ErrorBody(PayloadTooBig())), [])
    ensures req.data.Some? && w.objectOf(req.data.value).Some? && |req.data.value| == MaxDataPayloadKB * 1024 ==>
      CheckPayload(req.data, w.objectOf).Success?
  {
  }

  /** Creating a node keeps every committed node followed by its address. */
  lemma CreateKeepsAddressed(log: seq<Mutation>, req: Request, who: Option<Identity>, w: World)
    requires Addressed(log)
    ensures Addressed(log + CreateSpec(req, who, w).committed)
  {
    CreateAtomic(req, who, w);
    if CreateSpec(req, who, w).committed == [] {
      assert log + [] == log;
    } else {
      AddressedAppend(log, CreateSpec(req, who, w).committed);
    }
  }

  /** A reply of 200 carries the address of the new node: `@user/hashid`
      with the logged-in user's name when an owner was claimed (by name or by
      email), the bare hashid otherwise; and it was committed with that
      hashid, the compact payload and the validated search fields. */
  lemma CreateLink(req: Request, who: Option<Identity>, w: World)
    requires CreateSpec(req, who, w).reply.status == StatusOK
    ensures w.assignedUid.Some? && |w.assignedUid.value| >= 2
    ensures var uid := w.assignedUid.value;
      w.encodeHex(uid[2..]).Some? &&
      var hashid := w.encodeHex(uid[2..]).value;
      && CreateSpec(req, who, w).reply.body ==
           Payload(Address.Format(if req.owner.Some? then Some(who.value.name) else None, hashid))
      && CreateSpec(req, who, w).committed[1] == SetHashid(uid, hashid)
    ensures req.owner.Some? ==>
      (who.Some? && ClaimedOwner(req.owner.value) in {who.value.name, who.value.email})
    ensures var rec := CreateSpec(req, who, w).committed[0].node;
      && rec.xdata == w.objectOf(req.data.value).value.compact
      && rec.owner == (if req.owner.Some? then Some(who.value.uid) else None)
      && rec.searchable == req.searchable
      && CheckSearch(req.searchable, req.searchTitle, req.searchSynopsis).Success?
      && (rec.searchTitle, rec.searchSynopsis) == CheckSearch(req.searchable, req.searchTitle, req.searchSynopsis).value
      && rec.createdAt == w.now
      && ResolveParents(req.parents, SplitRefName, MaxParents, TooManyParents, ParentRefMissing, w.findNodes)
         == Success(rec.parents)
  {
    var v := Validate(req, who, w);
    assert v.Success?;
    var (rec, owner) := v.value;
    ValidatedRecord(req, who, w);
    PersistLink(rec, owner, w);
  }

  /** What a request that passes validation leads to: a record of its
      compact payload, its claimed owner's uid, its checked search fields,
      the current time and its resolved parents, and the logged-in user exactly when it claims an
      owner. */
  lemma ValidatedRecord(req: Request, who: Option<Identity>, w: World)
    requires Validate(req, who, w).Success?
    ensures var (rec, owner) := Validate(req, who, w).value;
      && req.data.Some? && w.objectOf(req.data.value).Some?
      && rec.xdata == w.objectOf(req.data.value).value.compact
      && owner == (if req.owner.Some? then who else None)
      && (req.owner.Some? ==> who.Some? && ClaimedOwner(req.owner.value) in {who.value.name, who.value.email})
      && rec.owner == (if req.owner.Some? then Some(who.value.uid) else None)
      && rec.searchable == req.searchable
      && CheckSearch(req.searchable, req.searchTitle, req.searchSynopsis).Success?
      && (rec.searchTitle, rec.searchSynopsis) == CheckSearch(req.searchable, req.searchTitle, req.searchSynopsis).value
      && rec.createdAt == w.now
      && ResolveParents(req.parents, SplitRefName, MaxParents, TooManyParents, ParentRefMissing, w.findNodes)
         == Success(rec.parents)
  {
    var xdata := CheckPayload(req.data, w.objectOf).value;
    var search := CheckSearch(req.searchable, req.searchTitle, req.searchSynopsis).value;
    assert PreChecks(req, w) == Success((xdata, search));
    assert Validate(req, who, w) == ValidateInTxn(req, who, w, xdata, search);
    var owner := CheckOwner(req.owner, who).value;
    var links := ResolveParents(req.parents, SplitRefName, MaxParents, TooManyParents, ParentRefMissing, w.findNodes).value;
    var ownerUid := if owner.Some? then Some(owner.value.uid) else None;
    assert Validate(req, who, w) ==
      Success((NodeRecord(ownerUid, xdata, req.searchable, w.now, links, search.0, search.1), owner));
  }

  /** A transaction that replies 200 used the assigned uid without its
      first two bytes to derive the hashid, answers the node's address, and
      commits the record followed by its address. */
  lemma PersistLink(rec: NodeRecord, owner: Option<Identity>, w: World)
    requires Persist(rec, owner, w).reply.status == StatusOK
    ensures w.assignedUid.Some? && |w.assignedUid.value| >= 2
    ensures var uid := w.assignedUid.value;
      w.encodeHex(uid[2..]).Some? &&
      var hashid := w.encodeHex(uid[2..]).value;
      && Persist(rec, owner, w).reply.body ==
           Payload(Address.Format(if owner.Some? then Some(owner.value.name) else None, hashid))
      && Persist(rec, owner, w).committed == [SetNode(uid, rec), SetHashid(uid, hashid)]
  {
  }

  /** createNodeHandler. The request is bound already; the trimmed search
      fields replace the bound ones as the handler goes, the transaction
      opened after the bot check is discarded on every return, and only the
      final commit makes the two mutations persistent. */
  method CreateNode(store: GraphStore, req: Request, who: Option<Identity>, w: World) returns (reply: Reply<Bytes>)
    modifies store
    ensures reply == CreateSpec(req, who, w).reply
    ensures store.log == old(store.log) + CreateSpec(req, who, w).committed
  {
    var checked := CheckRequest(req, w);
    if checked.Failure? {
      return checked.error;
    }
    var (xdata, search) := checked.value;
    assert Validate(req, who, w) == ValidateInTxn(req, who, w, xdata, search);
    var txn := new Txn.Begin(store);
    reply := InTxn(txn, req, who, w, xdata, search);
    txn.Discard();
  }

  /** The handler once the transaction is open: the owner claim, the
      parents, then the two mutations and the commit. The caller discards
      the transaction on return, whatever happened. */
  method InTxn(txn: Txn, req: Request, who: Option<Identity>, w: World, xdata: Bytes, search: (Option<Bytes>, Option<Bytes>))
    returns (reply: Reply<Bytes>)
    requires txn.pending == [] && !txn.finished
    modifies txn, txn.store
    ensures var o := Conclude(ValidateInTxn(req, who, w, xdata, search), w);
      reply == o.reply && txn.store.log == old(txn.store.log) + o.committed
  {
    var owner := CheckOwner(req.owner, who);
    if owner.Failure? {
      return owner.error;
    }

    var links := ResolveParentRefs(req.parents, SplitRefName, MaxParents, TooManyParents, ParentRefMissing, w.findNodes);
    if links.Failure? {
      return links.error;
    }

    var ownerUid := if owner.value.Some? then Some(owner.value.value.uid) else None;
    var rec := NodeRecord(ownerUid, xdata, req.searchable, w.now, links.value, search.0, search.1);
    assert ValidateInTxn(req, who, w, xdata, search) == Success((rec, owner.value));
    reply := Commit(txn, rec, owner.value, w);
  }

  /** The checks of createNodeHandler before its transaction opens. */
  method CheckRequest(req: Request, w: World) returns (r: Result<(Bytes, (Option<Bytes>, Option<Bytes>)), Reply<Bytes>>)
    ensures r == PreChecks(req, w)
  {
    var xdata := CheckPayload(req.data, w.objectOf);
    if xdata.Failure? {
      return Failure(xdata.error);
    }

    var search := CheckSearchFields(req.searchable, req.searchTitle, req.searchSynopsis);
    if search.Failure? {
      return Failure(search.error);
    }

    if !w.recaptcha(req.recaptchaCode) {
      return Failure(Reply(StatusBadRequest, ErrorBody("recaptcha invalid")));
    }
    r := Success((xdata.value, search.value));
  }

  /** The search checks of createNodeHandler, which replace the bound title
      and synopsis by their trimmed forms before checking them. */
  method CheckSearchFields(searchable: bool, title: Option<Bytes>, synopsis: Option<Bytes>)
    returns (r: Result<(Option<Bytes>, Option<Bytes>), Reply<Bytes>>)
    ensures r == CheckSearch(searchable, title, synopsis)
  {
    if searchable && title.None? && synopsis.None? {
      return Failure(Reply(StatusBadRequest, ErrorBody("when searchable is true, a search title or search synopsis is required")));
    }
    var searchTitle := TrimField(title, MaxTitleLength, "search title must not be empty", "search title must be less than 100 characters");
    if searchTitle.Failure? {
      return Failure(searchTitle.error);
    }
    var searchSynopsis := TrimField(synopsis, MaxSynopsisLength, "search synopsis must not be empty", "search synopsis must be less than 800 characters");
    if searchSynopsis.Failure? {
      return Failure(searchSynopsis.error);
    }
    r := Success((searchTitle.value, searchSynopsis.value));
  }

  /** Trims one search field in place and checks what is left. */
  method TrimField(field: Option<Bytes>, max: int, emptyMsg: string, longMsg: string) returns (r: Result<Option<Bytes>, Reply<Bytes>>)
    ensures r == CheckField(field, max, emptyMsg, longMsg)
  {
    var f := field;
    if f.Some? {
      f := Some(Trim(f.value));
      if f.value == [] {
        return Failure(Reply(StatusBadRequest, ErrorBody(emptyMsg)));
      }
      if |f.value| > max {
        return Failure(Reply(StatusBadRequest, ErrorBody(longMsg)));
      }
    }
    r := Success(f);
  }

  /** The two mutations and the commit of createNodeHandler. */
  method Commit(txn: Txn, rec: NodeRecord, owner: Option<Identity>, w: World) returns (reply: Reply<Bytes>)
    requires txn.pending == [] && !txn.finished
    modifies txn, txn.store
    ensures reply == Persist(rec, owner, w).reply
    ensures txn.store.log == old(txn.store.log) + Persist(rec, owner, w).committed
  {
    if w.assignedUid.None? {
      var _ := txn.Mutate(SetNode([], rec), false);
      return Reply(StatusInternalServerError, ErrorBody(SomethingWentWrong));
    }
    var uid := w.assignedUid.value;
    var _ := txn.Mutate(SetNode(uid, rec), true);
    if |uid| < 2 {
      return Reply(StatusInternalServerError, EchoError);
    }
    var hashid := w.encodeHex(uid[2..]);
    if hashid.None? {
      return Reply(StatusInternalServerError, ErrorBody(SomethingWentWrong));
    }
    var written := txn.Mutate(SetHashid(uid, hashid.value), w.addressWriteOk);
    if !written {
      return Reply(StatusInternalServerError, ErrorBody(SomethingWentWrong));
    }
    var linkAddress := Address.Format(if owner.Some? then Some(owner.value.name) else None, hashid.value);
    var committed := txn.Commit(w.commitOk);
    if !committed {
      return Reply(StatusInternalServerError, ErrorBody(SomethingWentWrong));
    }
    reply := Reply(StatusOK, Payload(linkAddress));
  }
}
