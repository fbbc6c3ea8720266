/** The public address of a node, `@owner/hashid` for an owned node and the
    bare `hashid` otherwise, and the owner-scope rule that both node creation
    and chain resolution apply to a caller-declared scope. */
module Address {
  import opened Wrappers
  import opened Bytes

  /** The address built by the create, chain, search and account handlers. */
  function Format(owner: Option<Bytes>, hashid: Bytes): Bytes {
    match owner
    case None => hashid
    case Some(name) => [AT] + name + [SLASH] + hashid
  }

  /** The four-way comparison of a declared owner with a node's actual owner:
      both absent, or both present and the same name. */
  function OwnerScopeMatches(declared: Option<Bytes>, actual: Option<Bytes>): (ok: bool)
    ensures ok <==> declared == actual
  {
    if declared.None? then
      actual.None?
    else if actual.None? then
      false
    else
      declared.value == actual.value
  }

  /** An owned address is never a bare one: it starts with `@` and contains a
      `/`, which an unowned hashid free of `/` cannot. */
  lemma OwnedAndBareDiffer(name: Bytes, hashid: Bytes, bare: Bytes)
    requires SLASH !in bare
    ensures Format(Some(name), hashid) != Format(None, bare)
  {
    assert Format(Some(name), hashid)[|name| + 1] == SLASH;
  }
}
