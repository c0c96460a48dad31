/**
 * The request checks that run before any transaction is opened. Every
 * operation takes a list of targets on the wire but handles only the first;
 * a rejected request is answered with a bad-input error and leaves the store
 * untouched.
 */
module Validation {
  import opened Outcomes
  import opened SocialGraph

  datatype Operation = AddFriend | RemoveFriend | BlockUser

  /** Why a request was refused before reaching the store. */
  datatype Rejection =
    | NoTargets       // the target list is empty
    | IdMissing       // the first target id has no bytes
    | IdInvalid       // the first target id is not a 16-byte UUID
    | SelfTarget      // the first target is the caller
    | HandleRejected  // add by handle with an empty handle or the caller's own

  /** The bad-input message each rejection is answered with. */
  function RejectionMessage(op: Operation, why: Rejection): string {
    match why
    case NoTargets => if op == AddFriend then "At least one friend must be present" else "At least one user ID must be present"
    case IdMissing => "User ID must be present"
    case IdInvalid => "Invalid User ID"
    case SelfTarget =>
      (match op
       case AddFriend => "Cannot add self"
       case RemoveFriend => "Cannot remove self"
       case BlockUser => "Cannot block self")
    case HandleRejected => "User handle must be present and not equal to user's handle"
  }

  /** The id checks of add-by-id, remove and block on one target id. */
  function CheckTargetId(caller: UserId, id: Bytes): (r: Result<UserId, Rejection>)
    ensures r.Ok? <==> IsUuid(id) && id != caller
    ensures r.Ok? ==> r.value == id
    ensures r == Err(IdMissing) <==> |id| == 0
    ensures r == Err(IdInvalid) <==> |id| != 0 && !IsUuid(id)
    ensures r == Err(SelfTarget) <==> IsUuid(id) && id == caller
  {
    if |id| == 0 then Err(IdMissing)
    else if !IsUuid(id) then Err(IdInvalid)
    else if id == caller then Err(SelfTarget)
    else Ok(id)
  }

  /**
   * The request check of remove and block: a non-empty list whose FIRST id is
   * a UUID other than the caller's; every later id is ignored.
   */
  function CheckUserIds(caller: UserId, ids: seq<Bytes>): (r: Result<UserId, Rejection>)
    ensures r.Ok? <==> |ids| > 0 && IsUuid(ids[0]) && ids[0] != caller
    ensures r.Ok? ==> r.value == ids[0] && r.value != caller && IsUuid(r.value)
    ensures r == Err(NoTargets) <==> |ids| == 0
    ensures |ids| > 0 ==> r == CheckTargetId(caller, ids[0])
  {
    if |ids| == 0 then Err(NoTargets) else CheckTargetId(caller, ids[0])
  }

  /** One entry of an add request: the target is named by id or by handle, or by neither. */
  datatype FriendRef = ById(id: Bytes) | ByHandle(handle: string) | Unset

  /** What a well-formed add request hands on to the add transaction. */
  datatype AddRequest = AddById(target: UserId) | AddByHandle(handle: string)

  datatype AddCheck =
    | Proceed(request: AddRequest)
    | Reject(why: Rejection)
    | Unanswered  // an entry naming neither an id nor a handle matches no case and gets no reply

  /**
   * The request check of add: only the first entry is looked at; an id goes
   * through the same checks as remove and block, a handle must be non-empty
   * and differ from the caller's own handle.
   */
  function CheckAdd(caller: UserId, callerHandle: string, friends: seq<FriendRef>): (r: AddCheck)
    ensures r == Reject(NoTargets) <==> |friends| == 0
    ensures r.Unanswered? <==> |friends| > 0 && friends[0].Unset?
    ensures r.Proceed? <==>
      |friends| > 0 &&
      ((friends[0].ById? && IsUuid(friends[0].id) && friends[0].id != caller) ||
       (friends[0].ByHandle? && friends[0].handle != "" && friends[0].handle != callerHandle))
    ensures r.Proceed? && r.request.AddById? ==> friends[0] == ById(r.request.target) && r.request.target != caller
    ensures r.Proceed? && r.request.AddByHandle? ==> friends[0] == ByHandle(r.request.handle)
    ensures |friends| > 0 && friends[0].ById? && CheckTargetId(caller, friends[0].id).Err? ==>
      r == Reject(CheckTargetId(caller, friends[0].id).error)
    ensures r == Reject(HandleRejected) <==> |friends| > 0 && friends[0].ByHandle? && (friends[0].handle == "" || friends[0].handle == callerHandle)
  {
    if |friends| == 0 then Reject(NoTargets)
    else
      match friends[0]
      case ById(id) =>
        (match CheckTargetId(caller, id)
         case Ok(target) => Proceed(AddById(target))
         case Err(why) => Reject(why))
      case ByHandle(h) => if h == "" || h == callerHandle then Reject(HandleRejected) else Proceed(AddByHandle(h))
      case Unset => Unanswered
  }

  /** An add request is decided by its first entry alone. */
  lemma AddFirstEntryOnly(caller: UserId, callerHandle: string, first: FriendRef, rest: seq<FriendRef>)
    ensures CheckAdd(caller, callerHandle, [first] + rest) == CheckAdd(caller, callerHandle, [first])
  {
  }

  /** A remove or block request is decided by its first id alone. */
  lemma FirstIdOnly(caller: UserId, first: Bytes, rest: seq<Bytes>)
    ensures CheckUserIds(caller, [first] + rest) == CheckUserIds(caller, [first])
  {
  }
}
