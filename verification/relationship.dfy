/**
 * The remove and block transactions of the relationship pipeline
 * (`friendRemove` and `friendBlock` after their request checks).
 */
module Relationship {
  import opened Outcomes
  import opened SocialGraph
  import opened Transaction

  /** Whether the delete of `src -> dst` removed a row. */
  predicate Had(s: Store, src: UserId, dst: UserId) {
    (src, dst) in s.edges
  }

  /**
   * The remove transaction: delete caller -> target and, if a row went,
   * decrement the caller's counter; then the same for target -> caller; then
   * commit. Each direction is handled on its own and a missing row is a
   * silent no-op. Both counter updates use the single timestamp `now`.
   */
  function RemoveTx(s: Store, caller: UserId, target: UserId, now: int, faults: Faults): (r: Result<Store, Failure>)
    requires caller != target
    ensures faults == {} ==> r.Ok?
    ensures r.Ok? <==>
      && Begin !in faults
      && DeleteStmt(caller, target) !in faults && (Had(s, caller, target) ==> DecrementStmt(caller) !in faults)
      && DeleteStmt(target, caller) !in faults && (Had(s, target, caller) ==> DecrementStmt(target) !in faults)
      && Commit !in faults
    ensures r.Err? ==> r.error.StorageFailure? && r.error.at in faults
    ensures r.Ok? ==> (caller, target) !in r.value.edges && (target, caller) !in r.value.edges
    ensures r.Ok? ==> forall k :: k != (caller, target) && k != (target, caller) ==>
      (k in r.value.edges <==> k in s.edges)
    ensures r.Ok? ==> forall k :: k in r.value.edges ==> r.value.edges[k] == s.edges[k]
    ensures r.Ok? ==> r.value.users == s.users && r.value.meta.Keys == s.meta.Keys
    ensures r.Ok? && caller in s.meta ==>
      r.value.meta[caller] == (if Had(s, caller, target) then Meta(s.meta[caller].count - 1, now) else s.meta[caller])
    ensures r.Ok? && target in s.meta ==>
      r.value.meta[target] == (if Had(s, target, caller) then Meta(s.meta[target].count - 1, now) else s.meta[target])
    ensures r.Ok? ==> forall u :: u in s.meta && u != caller && u != target ==> r.value.meta[u] == s.meta[u]
  {
    if Begin in faults then Err(StorageFailure(Begin))
    else if DeleteStmt(caller, target) in faults then Err(StorageFailure(DeleteStmt(caller, target)))
    else
      var (s1, n1) := DeleteEdge(s, caller, target);
      if n1 > 0 && DecrementStmt(caller) in faults then Err(StorageFailure(DecrementStmt(caller)))
      else
        var s2 := if n1 > 0 then AdjustCount(s1, caller, -1, now) else s1;
        if DeleteStmt(target, caller) in faults then Err(StorageFailure(DeleteStmt(target, caller)))
        else
          var (s3, n2) := DeleteEdge(s2, target, caller);
          if n2 > 0 && DecrementStmt(target) in faults then Err(StorageFailure(DecrementStmt(target)))
          else
            var s4 := if n2 > 0 then AdjustCount(s3, target, -1, now) else s3;
            if Commit in faults then Err(StorageFailure(Commit)) else Ok(s4)
  }

  /** The reverse row is deleted by a block exactly when it exists and is not itself a block. */
  predicate ReverseUnblocked(s: Store, caller: UserId, target: UserId) {
    (target, caller) in s.edges && s.edges[(target, caller)].state != Blocked
  }

  /**
   * The block transaction: set caller -> target to blocked, failing when
   * there is no such row; then delete target -> caller unless it is itself a
   * block, and decrement the target's counter when that delete removed a
   * row. The two statements read the clock separately, hence `t1` and `t2`.
   */
  function BlockTx(s: Store, caller: UserId, target: UserId, t1: int, t2: int, faults: Faults): (r: Result<Store, Failure>)
    requires caller != target
    ensures faults == {} ==> (r.Ok? <==> (caller, target) in s.edges)
    ensures r.Ok? <==>
      && Begin !in faults && BlockStmt(caller, target) !in faults && (caller, target) in s.edges
      && DeleteUnblockedStmt(target, caller) !in faults
      && (ReverseUnblocked(s, caller, target) ==> DecrementStmt(target) !in faults)
      && Commit !in faults
    ensures r.Err? ==> r.error == NotFound || r.error.at in faults
    ensures (caller, target) !in s.edges && Begin !in faults && BlockStmt(caller, target) !in faults ==>
      r == Err(NotFound)
    ensures r.Ok? ==> (caller, target) in s.edges
    ensures r.Ok? ==>
      (caller, target) in r.value.edges &&
      r.value.edges[(caller, target)] == Edge(s.edges[(caller, target)].position, t1, Blocked)
    ensures r.Ok? ==> ((target, caller) in r.value.edges <==> (target, caller) in s.edges && !ReverseUnblocked(s, caller, target))
    ensures r.Ok? ==> forall k :: k != (caller, target) && k != (target, caller) ==>
      (k in r.value.edges <==> k in s.edges)
    ensures r.Ok? ==> forall k :: k in r.value.edges && k != (caller, target) ==> r.value.edges[k] == s.edges[k]
    ensures r.Ok? ==> r.value.users == s.users && r.value.meta.Keys == s.meta.Keys
    ensures r.Ok? && caller in s.meta ==> r.value.meta[caller] == s.meta[caller]
    ensures r.Ok? && target in s.meta ==>
      r.value.meta[target] == (if ReverseUnblocked(s, caller, target) then Meta(s.meta[target].count - 1, t2) else s.meta[target])
    ensures r.Ok? ==> forall u :: u in s.meta && u != target ==> r.value.meta[u] == s.meta[u]
    ensures r.Ok? && !ReverseUnblocked(s, caller, target) ==> r.value.meta == s.meta
  {
    if Begin in faults then Err(StorageFailure(Begin))
    else if BlockStmt(caller, target) in faults then Err(StorageFailure(BlockStmt(caller, target)))
    else
      var (s1, n1) := BlockEdge(s, caller, target, t1);
      if n1 == 0 then Err(NotFound)
      else if DeleteUnblockedStmt(target, caller) in faults then Err(StorageFailure(DeleteUnblockedStmt(target, caller)))
      else
        var (s2, n2) := DeleteUnlessBlocked(s1, target, caller);
        if n2 == 1 && DecrementStmt(target) in faults then Err(StorageFailure(DecrementStmt(target)))
        else
          var s3 := if n2 == 1 then AdjustCount(s2, target, -1, t2) else s2;
          if Commit in faults then Err(StorageFailure(Commit)) else Ok(s3)
  }

  /** A successful remove keeps every counter equal to its user's out-degree. */
  lemma RemovePreservesCounts(s: Store, caller: UserId, target: UserId, now: int, faults: Faults)
    requires caller != target
    requires CountsConsistent(s)
    requires RemoveTx(s, caller, target, now, faults).Ok?
    ensures CountsConsistent(RemoveTx(s, caller, target, now, faults).value)
  {
    var r := RemoveTx(s, caller, target, now, faults).value;
    var mid := s.edges - {(caller, target)};
    assert r.edges == mid - {(target, caller)};
    forall u | u in r.meta
      ensures r.meta[u].count == OutDegree(r.edges, u)
    {
      DeleteDegree(s.edges, (caller, target), u);
      DeleteDegree(mid, (target, caller), u);
    }
  }

  /** A successful block keeps every counter equal to its user's out-degree. */
  lemma BlockPreservesCounts(s: Store, caller: UserId, target: UserId, t1: int, t2: int, faults: Faults)
    requires caller != target
    requires CountsConsistent(s)
    requires BlockTx(s, caller, target, t1, t2, faults).Ok?
    ensures CountsConsistent(BlockTx(s, caller, target, t1, t2, faults).value)
  {
    var r := BlockTx(s, caller, target, t1, t2, faults).value;
    var blocked := s.edges[(caller, target) := Edge(s.edges[(caller, target)].position, t1, Blocked)];
    if ReverseUnblocked(s, caller, target) {
      assert r.edges == blocked - {(target, caller)};
    } else {
      assert r.edges == blocked;
    }
    forall u | u in r.meta
      ensures r.meta[u].count == OutDegree(r.edges, u)
    {
      OverwriteDegree(s.edges, (caller, target), Edge(s.edges[(caller, target)].position, t1, Blocked), u);
      DeleteDegree(blocked, (target, caller), u);
    }
  }
}
