/**
 * Storage failures and the all-or-nothing transaction boundary.
 *
 * A storage failure is an input: the set of statements that would fail if
 * they were issued. An operation issues its statements in source order and
 * stops at the first one in that set; the deferred handler then rolls the
 * transaction back, which the model expresses by returning `Err` so that the
 * caller keeps the store it started from.
 */
module Transaction {
  import opened SocialGraph

  /** The statements the relationship operations issue. */
  datatype Stmt =
    | Begin
    | DeleteStmt(src: UserId, dst: UserId)
    | DecrementStmt(owner: UserId)
    | BlockStmt(src: UserId, dst: UserId)
    | DeleteUnblockedStmt(src: UserId, dst: UserId)
    | LookupStmt
    | InsertEdgesStmt
    | BumpPeersStmt
    | SetCallerCountStmt
    | ListStmt
    | Commit

  /** The statements that fail when issued. */
  type Faults = set<Stmt>

  /** Why a transaction was rolled back. */
  datatype Failure =
    | StorageFailure(at: Stmt)
    | NotFound
}
