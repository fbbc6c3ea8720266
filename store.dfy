/** The write side of the graph store as node creation sees it: a transaction
    that collects mutations and either commits them all or is discarded, and
    the committed log of the store behind it. Both are ghost: the store is
    outside the program, and the model only follows what becomes persistent. */
module Store {
  import opened Wrappers
  import opened Bytes

  /** A `node.parent` edge: the parent's uid and the edge's facet. */
  datatype Link = Link(uid: Bytes, facet: Bytes)

  /** The predicates of a new node as the first mutation writes them.
      `owner` is the owner's uid; `createdAt` stands for time.Now(). */
  datatype NodeRecord = NodeRecord(
    owner: Option<Bytes>,
    xdata: Bytes,
    searchable: bool,
    createdAt: int,
    parents: seq<Link>,
    searchTitle: Option<Bytes>,
    searchSynopsis: Option<Bytes>)

  /** The first mutation creates the node (the store assigns `uid`); the
      second writes its address. */
  datatype Mutation = SetNode(uid: Bytes, node: NodeRecord) | SetHashid(uid: Bytes, hashid: Bytes)

  /** Every node in the log is followed at once by the write of its address:
      no committed node is without one. */
  ghost predicate Addressed(log: seq<Mutation>)
    decreases |log|
  {
    log == [] ||
    (|log| >= 2 && log[0].SetNode? && log[1].SetHashid? && log[0].uid == log[1].uid
     && Addressed(log[2..]))
  }

  lemma {:induction false} AddressedAppend(log: seq<Mutation>, more: seq<Mutation>)
    requires Addressed(log) && Addressed(more)
    ensures Addressed(log + more)
    decreases |log|
  {
    if log == [] {
      assert log + more == more;
    } else {
      AddressedAppend(log[2..], more);
      assert (log + more)[2..] == log[2..] + more;
      assert (log + more)[0] == log[0] && (log + more)[1] == log[1];
    }
  }

  class GraphStore {
    /** Every mutation committed so far, in commit order. */
    ghost var log: seq<Mutation>

    constructor ()
      ensures log == []
    {
      log := [];
    }
  }

  class Txn {
    const store: GraphStore
    /** Mutations made in this transaction and not yet committed. */
    ghost var pending: seq<Mutation>
    /** Committed or discarded. */
    var finished: bool

    constructor Begin(store: GraphStore)
      ensures this.store == store && pending == [] && !finished
    {
      this.store := store;
      pending := [];
      finished := false;
    }

    /** A mutation the store accepted (`ok`) joins the transaction. */
    method Mutate(m: Mutation, ok: bool) returns (success: bool)
      modifies this
      ensures success == ok && finished == old(finished)
      ensures pending == if ok then old(pending) + [m] else old(pending)
    {
      success := ok;
      if ok {
        pending := pending + [m];
      }
    }

    /** A successful commit makes every pending mutation persistent; a failed
        one aborts them all. */
    method Commit(ok: bool) returns (success: bool)
      requires !finished
      modifies this, store
      ensures success == ok && finished
      ensures store.log == old(store.log) + (if ok then old(pending) else [])
    {
      success := ok;
      if ok {
        store.log := store.log + pending;
      }
      finished := true;
    }

    /** Discard, deferred on every path: after a commit it does nothing, and
        it never persists anything. */
    method Discard()
      modifies this
      ensures finished
    {
      pending := [];
      finished := true;
    }
  }
}
