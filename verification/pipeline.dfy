/**
 * The relationship handlers as a session sees them: a request goes through
 * its check, then through one transaction, and is answered with exactly one
 * reply. A reply other than an acknowledgement leaves the store as it was.
 */
module Pipeline {
  import opened Outcomes
  import opened SocialGraph
  import opened Transaction
  import opened Validation
  import opened Relationship

  /** A friend-list entry: the peer's profile and the state of the caller's edge to it. */
  datatype Friend = Friend(id: UserId, user: User, state: int)

  datatype Reply =
    | Ack
    | BadInput(message: string)
    | RuntimeFailure(message: string)
    | FriendList(friends: seq<Friend>)

  /** The store after a request together with the reply sent for it. */
  datatype Handled = Handled(store: Store, reply: Reply)

  const RemoveFailed := "Failed to remove friend"
  const BlockBeginFailed := "Failed to block friend"
  const BlockFailed := "Could not block user"
  const ListFailed := "Could not get friends"

  /** `friendRemove`: check the request, run the remove transaction, reply. */
  function FriendRemove(s: Store, caller: UserId, ids: seq<Bytes>, now: int, faults: Faults): (h: Handled)
    ensures h.reply.BadInput? <==> CheckUserIds(caller, ids).Err?
    ensures h.reply.BadInput? ==> h.reply.message == RejectionMessage(RemoveFriend, CheckUserIds(caller, ids).error)
    ensures h.reply.Ack? || h.reply.BadInput? || h.reply == RuntimeFailure(RemoveFailed)
    ensures !h.reply.Ack? ==> h.store == s
    ensures CheckUserIds(caller, ids).Ok? && faults == {} ==> h.reply.Ack?
    ensures CheckUserIds(caller, ids).Ok? ==> (h.reply.Ack? <==> RemoveTx(s, caller, ids[0], now, faults).Ok?)
    ensures h.reply.Ack? ==>
      |ids| > 0 && ids[0] != caller &&
      (caller, ids[0]) !in h.store.edges && (ids[0], caller) !in h.store.edges
    ensures h.reply.Ack? ==>
      CheckUserIds(caller, ids) == Ok(ids[0]) &&
      RemoveTx(s, caller, ids[0], now, faults).Ok? && h.store == RemoveTx(s, caller, ids[0], now, faults).value
  {
    match CheckUserIds(caller, ids)
    case Err(why) => Handled(s, BadInput(RejectionMessage(RemoveFriend, why)))
    case Ok(target) =>
      match RemoveTx(s, caller, target, now, faults)
      case Ok(s') => Handled(s', Ack)
      case Err(_) => Handled(s, RuntimeFailure(RemoveFailed))
  }

  /**
   * `friendBlock`: check the request, run the block transaction, reply. A
   * failure to open the transaction is answered with a different message
   * than a failure inside it.
   */
  function FriendBlock(s: Store, caller: UserId, ids: seq<Bytes>, t1: int, t2: int, faults: Faults): (h: Handled)
    ensures h.reply.BadInput? <==> CheckUserIds(caller, ids).Err?
    ensures h.reply.BadInput? ==> h.reply.message == RejectionMessage(BlockUser, CheckUserIds(caller, ids).error)
    ensures h.reply.Ack? || h.reply.BadInput? || h.reply == RuntimeFailure(BlockBeginFailed) || h.reply == RuntimeFailure(BlockFailed)
    ensures h.reply == RuntimeFailure(BlockBeginFailed) <==> CheckUserIds(caller, ids).Ok? && Begin in faults
    ensures !h.reply.Ack? ==> h.store == s
    ensures CheckUserIds(caller, ids).Ok? && faults == {} ==> (h.reply.Ack? <==> (caller, ids[0]) in s.edges)
    ensures CheckUserIds(caller, ids).Ok? ==> (h.reply.Ack? <==> BlockTx(s, caller, ids[0], t1, t2, faults).Ok?)
    ensures h.reply.Ack? ==>
      |ids| > 0 && (caller, ids[0]) in s.edges &&
      (caller, ids[0]) in h.store.edges && h.store.edges[(caller, ids[0])].state == Blocked
    ensures h.reply.Ack? ==>
      CheckUserIds(caller, ids) == Ok(ids[0]) &&
      BlockTx(s, caller, ids[0], t1, t2, faults).Ok? && h.store == BlockTx(s, caller, ids[0], t1, t2, faults).value
  {
    match CheckUserIds(caller, ids)
    case Err(why) => Handled(s, BadInput(RejectionMessage(BlockUser, why)))
    case Ok(target) =>
      match BlockTx(s, caller, target, t1, t2, faults)
      case Ok(s') => Handled(s', Ack)
      case Err(e) => Handled(s, RuntimeFailure(if e == StorageFailure(Begin) then BlockBeginFailed else BlockFailed))
  }

  /** A rejected remove or block, self-targeted ones included, changes nothing. */
  lemma RejectedRequestsChangeNothing(s: Store, caller: UserId, ids: seq<Bytes>, now: int, t2: int, faults: Faults)
    requires CheckUserIds(caller, ids).Err?
    ensures FriendRemove(s, caller, ids, now, faults) == Handled(s, BadInput(RejectionMessage(RemoveFriend, CheckUserIds(caller, ids).error)))
    ensures FriendBlock(s, caller, ids, now, t2, faults) == Handled(s, BadInput(RejectionMessage(BlockUser, CheckUserIds(caller, ids).error)))
  {
  }

  /** Whatever a remove or block request does, every counter stays equal to its user's out-degree. */
  lemma HandlersPreserveCounts(s: Store, caller: UserId, ids: seq<Bytes>, t1: int, t2: int, faults: Faults)
    requires CountsConsistent(s)
    ensures CountsConsistent(FriendRemove(s, caller, ids, t1, faults).store)
    ensures CountsConsistent(FriendBlock(s, caller, ids, t1, t2, faults).store)
  {
    if FriendRemove(s, caller, ids, t1, faults).reply.Ack? {
      RemovePreservesCounts(s, caller, ids[0], t1, faults);
    }
    if FriendBlock(s, caller, ids, t1, t2, faults).reply.Ack? {
      BlockPreservesCounts(s, caller, ids[0], t1, t2, faults);
    }
  }

  /** Only the first id of a remove or block request has any effect. */
  lemma OnlyFirstTargetProcessed(s: Store, caller: UserId, first: Bytes, rest: seq<Bytes>, now: int, t2: int, faults: Faults)
    ensures FriendRemove(s, caller, [first] + rest, now, faults) == FriendRemove(s, caller, [first], now, faults)
    ensures FriendBlock(s, caller, [first] + rest, now, t2, faults) == FriendBlock(s, caller, [first], now, t2, faults)
  {
  }

  /** The peers listed for `caller`: destinations of its rows that have a user row to join with. */
  function ListedIds(s: Store, caller: UserId): set<UserId> {
    set k | k in s.edges && k.0 == caller && k.1 in s.users :: k.1
  }

  /**
   * The entry listed for peer `d`: the profile columns the list selects,
   * which do not include the external id, and the state of the caller's row.
   */
  function FriendOf(s: Store, caller: UserId, d: UserId): Friend
    requires (caller, d) in s.edges && d in s.users
  {
    Friend(d, s.users[d].(facebookId := None), s.edges[(caller, d)].state)
  }

  /**
   * `friendsList`: every row whose source is the caller, joined with the
   * destination's profile and annotated with the row's state. The query has
   * no ORDER BY, so the order is whatever the store yields; the model picks
   * peers in an unspecified order.
   */
  method FriendsList(s: Store, caller: UserId, faults: Faults) returns (reply: Reply)
    ensures ListStmt in faults ==> reply == RuntimeFailure(ListFailed)
    ensures ListStmt !in faults ==> reply.FriendList?
    ensures reply.FriendList? ==> |reply.friends| == |ListedIds(s, caller)|
    ensures reply.FriendList? ==> forall i :: 0 <= i < |reply.friends| ==>
      var d := reply.friends[i].id;
      (caller, d) in s.edges && d in s.users && reply.friends[i] == FriendOf(s, caller, d)
    ensures reply.FriendList? ==> forall i :: 0 <= i < |reply.friends| ==> reply.friends[i].user.facebookId.None?
    ensures reply.FriendList? ==> forall d :: d in ListedIds(s, caller) ==>
      exists i :: 0 <= i < |reply.friends| && reply.friends[i].id == d
    ensures reply.FriendList? ==> forall i, j :: 0 <= i < j < |reply.friends| ==> reply.friends[i].id != reply.friends[j].id
  {
    if ListStmt in faults {
      return RuntimeFailure(ListFailed);
    }
    var all := ListedIds(s, caller);
    var remaining := all;
    var fs: seq<Friend> := [];
    while remaining != {}
      invariant remaining <= all
      invariant |fs| + |remaining| == |all|
      invariant forall i :: 0 <= i < |fs| ==>
        var d := fs[i].id;
        (caller, d) in s.edges && d in s.users && fs[i] == FriendOf(s, caller, d) && d !in remaining
      invariant forall d :: d in all ==> d in remaining || exists i :: 0 <= i < |fs| && fs[i].id == d
      invariant forall i, j :: 0 <= i < j < |fs| ==> fs[i].id != fs[j].id
      decreases remaining
    {
      var d :| d in remaining;
      assert (caller, d) in s.edges && d in s.users;
      var before := fs;
      fs := fs + [FriendOf(s, caller, d)];
      assert fs[|fs| - 1].id == d;
      assert forall i :: 0 <= i < |before| ==> fs[i] == before[i];
      remaining := remaining - {d};
    }
    return FriendList(fs);
  }
}
