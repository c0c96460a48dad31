/**
 * The import merge of `addFacebookFriends`: the caller's external contacts
 * that are registered users become mirrored connections in one
 * transaction, and after a successful commit each of them is sent one
 * "friend joined" notification.
 */
module Import {
  import opened Outcomes
  import opened SocialGraph
  import opened Transaction

  /** The classification code of a "friend joined" notification. */
  datatype NotificationCode = FriendJoinGame

  /** A notification record; its random id is not modelled and its content is an opaque payload. */
  datatype Notification = Notification(
    recipient: UserId,
    sender: UserId,
    subject: string,
    content: Bytes,
    code: NotificationCode,
    createdAt: int,
    expiresAt: int,
    persistent: bool)

  const FriendJoinSubject := "Your friend has just joined the game"

  /** The external client could not list the contacts. */
  datatype FetchError = FetchFailed

  /** The store after an import together with the notifications handed to the dispatcher. */
  datatype ImportReport = ImportReport(store: Store, notified: seq<Notification>)

  /**
   * The statements shared by both versions of the merge: the multi-row
   * insert of the mirrored rows, which fails on a key conflict, then the +1
   * bump of every match's counter.
   */
  function InsertAndBump(s: Store, caller: UserId, matched: seq<UserId>, ts: int, faults: Faults): (r: Result<Store, Failure>)
    ensures r.Ok? <==> InsertEdgesStmt !in faults && FreshPeers(s.edges, caller, matched) && BumpPeersStmt !in faults
    ensures r.Err? ==> r.error.StorageFailure?
    ensures r.Ok? ==>
      !InsertConflict(s.edges, MirroredRows(caller, matched, ts)) &&
      r.value.edges == InsertRows(s.edges, MirroredRows(caller, matched, ts))
    ensures r.Ok? ==> r.value.users == s.users && r.value.meta.Keys == s.meta.Keys
    ensures r.Ok? ==> forall v :: v in s.meta ==>
      r.value.meta[v] == if v in matched then Meta(s.meta[v].count + 1, ts) else s.meta[v]
  {
    MirroredInsertConflictFree(s.edges, caller, matched, ts);
    var rows := MirroredRows(caller, matched, ts);
    if InsertEdgesStmt in faults || InsertConflict(s.edges, rows) then Err(StorageFailure(InsertEdgesStmt))
    else
      var s1 := s.(edges := InsertRows(s.edges, rows));
      if BumpPeersStmt in faults then Err(StorageFailure(BumpPeersStmt))
      else Ok(BumpCounts(s1, matched, ts))
  }

  /** None of the statements a merge with matches issues fails. */
  predicate MergeUnfaulted(faults: Faults) {
    && Begin !in faults && LookupStmt !in faults && InsertEdgesStmt !in faults
    && BumpPeersStmt !in faults && SetCallerCountStmt !in faults && Commit !in faults
  }

  /**
   * What both versions of the merge do to store `s`, leaving `t`, apart from
   * the caller's own counter: both connected rows (position and update time
   * `ts`) for every match, every existing row kept as it was, no other new
   * row, the users and the set of counters unchanged, each match's counter
   * raised by one and stamped `ts`, every other counter but the caller's
   * unchanged.
   */
  ghost predicate MergeEffect(s: Store, t: Store, caller: UserId, matched: seq<UserId>, ts: int) {
    && (forall i :: 0 <= i < |matched| ==>
          (caller, matched[i]) in t.edges && t.edges[(caller, matched[i])] == Edge(ts, ts, Connected) &&
          (matched[i], caller) in t.edges && t.edges[(matched[i], caller)] == Edge(ts, ts, Connected))
    && (forall k :: k in s.edges ==> k in t.edges && t.edges[k] == s.edges[k])
    && (forall k :: k in t.edges && k !in s.edges ==>
          exists i :: 0 <= i < |matched| && (k == (caller, matched[i]) || k == (matched[i], caller)))
    && t.users == s.users && t.meta.Keys == s.meta.Keys
    && (forall v :: v in s.meta && v in matched ==> t.meta[v] == Meta(s.meta[v].count + 1, ts))
    && (forall v :: v in s.meta && v != caller && v !in matched ==> t.meta[v] == s.meta[v])
  }

  /**
   * The merge transaction as the import writes it: after the insert and the
   * peers' bump, the caller's counter is SET to the number of matches.
   * With no matches the transaction commits without a change.
   */
  function ImportTxAsWritten(s: Store, caller: UserId, matched: seq<UserId>, ts: int, faults: Faults): (r: Result<Store, Failure>)
    ensures r.Ok? && |matched| == 0 ==> r.value == s
    ensures r.Ok? && |matched| > 0 ==> FreshPeers(s.edges, caller, matched)
    ensures faults == {} ==> (r.Ok? <==> |matched| == 0 || FreshPeers(s.edges, caller, matched))
    ensures |matched| > 0 ==> (r.Ok? <==> MergeUnfaulted(faults) && FreshPeers(s.edges, caller, matched))
    ensures r.Err? ==> r.error.StorageFailure? && r.error.at in faults + {InsertEdgesStmt}
    ensures r.Ok? ==> MergeEffect(s, r.value, caller, matched, ts)
    ensures r.Ok? && |matched| > 0 && caller in s.meta ==> r.value.meta[caller] == Meta(|matched|, ts)
  {
    if Begin in faults then Err(StorageFailure(Begin))
    else if LookupStmt in faults then Err(StorageFailure(LookupStmt))
    else if |matched| == 0 then (if Commit in faults then Err(StorageFailure(Commit)) else Ok(s))
    else
      match InsertAndBump(s, caller, matched, ts, faults)
      case Err(e) => Err(e)
      case Ok(s2) =>
        if SetCallerCountStmt in faults then Err(StorageFailure(SetCallerCountStmt))
        else
          MirroredRowsInserted(s.edges, caller, matched, ts);
          var s3 := SetCount(s2, caller, |matched|, ts);
          if Commit in faults then Err(StorageFailure(Commit)) else Ok(s3)
  }

  /**
   * The merge transaction with the caller's counter RAISED by the number of
   * matches, as the statement's own comment describes it.
   * Everything else is as written: Begin, the lookup, the insert of the
   * mirrored rows, the peers' bump, the caller's counter, the commit.
   */
  function ImportTx(s: Store, caller: UserId, matched: seq<UserId>, ts: int, faults: Faults): (r: Result<Store, Failure>)
    ensures faults == {} ==> (r.Ok? <==> |matched| == 0 || FreshPeers(s.edges, caller, matched))
    ensures |matched| > 0 ==> (r.Ok? <==> MergeUnfaulted(faults) && FreshPeers(s.edges, caller, matched))
    ensures r.Err? ==> r.error.StorageFailure? && r.error.at in faults + {InsertEdgesStmt}
    ensures r.Ok? && |matched| == 0 ==> r.value == s
    ensures r.Ok? && |matched| > 0 ==> FreshPeers(s.edges, caller, matched)
    ensures r.Ok? ==> MergeEffect(s, r.value, caller, matched, ts)
    ensures r.Ok? && caller in s.meta ==> r.value.meta[caller] == if |matched| == 0 then s.meta[caller] else Meta(s.meta[caller].count + |matched|, ts)
  {
    if Begin in faults then Err(StorageFailure(Begin))
    else if LookupStmt in faults then Err(StorageFailure(LookupStmt))
    else if |matched| == 0 then (if Commit in faults then Err(StorageFailure(Commit)) else Ok(s))
    else
      match InsertAndBump(s, caller, matched, ts, faults)
      case Err(e) => Err(e)
      case Ok(s2) =>
        if SetCallerCountStmt in faults then Err(StorageFailure(SetCallerCountStmt))
        else
          MirroredRowsInserted(s.edges, caller, matched, ts);
          var s3 := AdjustCount(s2, caller, |matched|, ts);
          if Commit in faults then Err(StorageFailure(Commit)) else Ok(s3)
  }

  /** What a conflict-free insert of the mirrored rows adds, row by row. */
  lemma MirroredRowsInserted(edges: map<Key, Edge>, caller: UserId, matched: seq<UserId>, ts: int)
    requires FreshPeers(edges, caller, matched)
    ensures !InsertConflict(edges, MirroredRows(caller, matched, ts))
    ensures var r := InsertRows(edges, MirroredRows(caller, matched, ts));
      && (forall i :: 0 <= i < |matched| ==>
            (caller, matched[i]) in r && r[(caller, matched[i])] == Edge(ts, ts, Connected) &&
            (matched[i], caller) in r && r[(matched[i], caller)] == Edge(ts, ts, Connected))
      && (forall k :: k in r && k !in edges ==>
            exists i :: 0 <= i < |matched| && (k == (caller, matched[i]) || k == (matched[i], caller)))
  {
    MirroredInsertConflictFree(edges, caller, matched, ts);
    var rows := MirroredRows(caller, matched, ts);
    var r := InsertRows(edges, rows);
    forall i | 0 <= i < |matched|
      ensures (caller, matched[i]) in r && r[(caller, matched[i])] == Edge(ts, ts, Connected)
      ensures (matched[i], caller) in r && r[(matched[i], caller)] == Edge(ts, ts, Connected)
    {
      MirroredRowAt(caller, matched, ts, i);
      assert rows[2 * i].0 == (caller, matched[i]);
      assert rows[2 * i + 1].0 == (matched[i], caller);
    }
    forall k | k in r && k !in edges
      ensures exists i :: 0 <= i < |matched| && (k == (caller, matched[i]) || k == (matched[i], caller))
    {
      var j :| 0 <= j < |rows| && rows[j].0 == k;
      MirroredRowShape(caller, matched, ts, j);
    }
  }

  /** A successful merge with matches is the insert and bump followed by the caller's raise. */
  lemma ImportTxSteps(s: Store, caller: UserId, matched: seq<UserId>, ts: int, faults: Faults)
    requires |matched| > 0
    requires ImportTx(s, caller, matched, ts, faults).Ok?
    ensures InsertAndBump(s, caller, matched, ts, faults).Ok?
    ensures ImportTx(s, caller, matched, ts, faults).value
      == AdjustCount(InsertAndBump(s, caller, matched, ts, faults).value, caller, |matched|, ts)
  {
  }

  /** One user's counter after a successful merge equals its out-degree. */
  lemma ImportCountOf(s: Store, caller: UserId, matched: seq<UserId>, ts: int, faults: Faults, u: UserId)
    requires CountsConsistent(s)
    requires InsertAndBump(s, caller, matched, ts, faults).Ok?
    requires u in s.meta
    ensures var r := AdjustCount(InsertAndBump(s, caller, matched, ts, faults).value, caller, |matched|, ts);
      r.meta[u].count == OutDegree(r.edges, u)
  {
    var s2 := InsertAndBump(s, caller, matched, ts, faults).value;
    var rows := MirroredRows(caller, matched, ts);
    InsertRowsDegree(s.edges, rows, u);
    MirroredSourceCount(caller, matched, ts, u);
  }

  /** A successful merge keeps every counter equal to its user's out-degree. */
  lemma ImportPreservesCounts(s: Store, caller: UserId, matched: seq<UserId>, ts: int, faults: Faults, r: Store)
    requires CountsConsistent(s)
    requires ImportTx(s, caller, matched, ts, faults) == Ok(r)
    ensures CountsConsistent(r)
  {
    if |matched| > 0 {
      ImportTxSteps(s, caller, matched, ts, faults);
      forall u | u in r.meta
        ensures r.meta[u].count == OutDegree(r.edges, u)
      {
        ImportCountOf(s, caller, matched, ts, faults, u);
      }
    }
  }

  /** A successful merge as written, with matches, is the insert and bump followed by the caller's SET. */
  lemma AsWrittenSteps(s: Store, caller: UserId, matched: seq<UserId>, ts: int, faults: Faults)
    requires |matched| > 0
    requires ImportTxAsWritten(s, caller, matched, ts, faults).Ok?
    ensures InsertAndBump(s, caller, matched, ts, faults).Ok?
    ensures ImportTxAsWritten(s, caller, matched, ts, faults).value
      == SetCount(InsertAndBump(s, caller, matched, ts, faults).value, caller, |matched|, ts)
  {
  }

  /**
   * The merge as written loses the caller's earlier rows from its counter:
   * after importing into a consistent store, a caller that already had an
   * outgoing row is left with a counter below its out-degree.
   */
  lemma AsWrittenCountDrifts(s: Store, caller: UserId, matched: seq<UserId>, ts: int, faults: Faults)
    requires CountsConsistent(s)
    requires caller in s.meta && OutDegree(s.edges, caller) > 0
    requires |matched| > 0
    requires MergeUnfaulted(faults) && FreshPeers(s.edges, caller, matched)
    ensures ImportTxAsWritten(s, caller, matched, ts, faults).Ok?
    ensures ImportTxAsWritten(s, caller, matched, ts, faults).value.meta[caller].count
      < OutDegree(ImportTxAsWritten(s, caller, matched, ts, faults).value.edges, caller)
    ensures !CountsConsistent(ImportTxAsWritten(s, caller, matched, ts, faults).value)
  {
    AsWrittenSteps(s, caller, matched, ts, faults);
    MirroredInsertConflictFree(s.edges, caller, matched, ts);
    var rows := MirroredRows(caller, matched, ts);
    InsertRowsDegree(s.edges, rows, caller);
    MirroredSourceCount(caller, matched, ts, caller);
  }

  /** A 16-byte user id made of one repeated byte, for concrete scenarios. */
  function FilledId(b: byte): (id: UserId)
    ensures IsUuid(id) && id[0] == b
  {
    seq(UuidLength, _ => b)
  }

  /**
   * A concrete run of the merge as written: the caller already has one
   * friend (one row each way, both counters at 1) and imports one new
   * match. The caller's counter ends at 1 while it has two outgoing rows;
   * the corrected merge ends it at 2.
   */
  lemma AsWrittenCounterexample()
    ensures var caller, friend, joiner := FilledId(1), FilledId(2), FilledId(3);
      var e := Edge(0, 0, Connected);
      var s := Store(map[], map[(caller, friend) := e, (friend, caller) := e],
                     map[caller := Meta(1, 0), friend := Meta(1, 0), joiner := Meta(0, 0)]);
      && CountsConsistent(s)
      && ImportTxAsWritten(s, caller, [joiner], 5, {}).Ok?
      && ImportTxAsWritten(s, caller, [joiner], 5, {}).value.meta[caller].count == 1
      && OutDegree(ImportTxAsWritten(s, caller, [joiner], 5, {}).value.edges, caller) == 2
      && ImportTx(s, caller, [joiner], 5, {}).value.meta[caller].count == 2
  {
    var caller, friend, joiner := FilledId(1), FilledId(2), FilledId(3);
    var e := Edge(0, 0, Connected);
    var s := Store(map[], map[(caller, friend) := e, (friend, caller) := e],
                   map[caller := Meta(1, 0), friend := Meta(1, 0), joiner := Meta(0, 0)]);
    assert caller != friend && caller != joiner && friend != joiner;
    assert OutKeys(s.edges, caller) == {(caller, friend)};
    assert OutKeys(s.edges, friend) == {(friend, caller)};
    assert OutKeys(s.edges, joiner) == {};
    assert CountsConsistent(s);
    assert FreshPeers(s.edges, caller, [joiner]);
    AsWrittenCountDrifts(s, caller, [joiner], 5, {});
    var r := ImportTxAsWritten(s, caller, [joiner], 5, {}).value;
    MirroredInsertConflictFree(s.edges, caller, [joiner], 5);
    InsertRowsDegree(s.edges, MirroredRows(caller, [joiner], 5), caller);
    MirroredSourceCount(caller, [joiner], 5, caller);
  }

  /** One "friend joined" notification per match, in scan order, all sharing one timestamp and expiry. */
  function FriendJoinNotifications(caller: UserId, matched: seq<UserId>, ts: int, expiryMs: int, content: Bytes): (ns: seq<Notification>)
    ensures |ns| == |matched|
    ensures forall i :: 0 <= i < |ns| ==>
      && ns[i].recipient == matched[i] && ns[i].sender == caller
      && ns[i].subject == FriendJoinSubject && ns[i].code == FriendJoinGame && ns[i].content == content
      && ns[i].createdAt == ts && ns[i].expiresAt - ns[i].createdAt == expiryMs && ns[i].persistent
    ensures forall u :: u in matched <==> exists i :: 0 <= i < |ns| && ns[i].recipient == u
  {
    seq(|matched|, i requires 0 <= i < |matched| =>
      Notification(matched[i], caller, FriendJoinSubject, content, FriendJoinGame, ts, ts + expiryMs, true))
  }

  /**
   * `addFacebookFriends` after the external client has answered: nothing
   * happens when it failed or listed no contacts; otherwise `matched` are
   * the registered users the lookup found, in the order the store returned
   * them, and the merge runs. Notifications go out only after a commit.
   */
  function AddFacebookFriends(s: Store, caller: UserId, fetched: Result<seq<ExternalId>, FetchError>, matched: seq<UserId>,
                              ts: int, expiryMs: int, content: Bytes, faults: Faults): (r: ImportReport)
    ensures fetched.Err? || |fetched.value| == 0 ==> r == ImportReport(s, [])
    ensures r.notified == [] ==> r.store == s
    ensures r.store != s ==> |r.notified| == |matched| > 0
    ensures |matched| == 0 ==> r == ImportReport(s, [])
    ensures |r.notified| == 0 || |r.notified| == |matched|
    ensures forall i :: 0 <= i < |r.notified| ==>
      r.notified[i] == Notification(matched[i], caller, FriendJoinSubject, content, FriendJoinGame, ts, ts + expiryMs, true)
    ensures forall n :: n in r.notified ==>
      (caller, n.recipient) in r.store.edges && r.store.edges[(caller, n.recipient)].state == Connected &&
      (n.recipient, caller) in r.store.edges && r.store.edges[(n.recipient, caller)].state == Connected
    ensures fetched.Ok? && |fetched.value| > 0 && faults == {} && FreshPeers(s.edges, caller, matched) ==>
      |r.notified| == |matched|
    ensures fetched.Ok? && |fetched.value| > 0 && |matched| > 0 ==>
      (r.notified != [] <==> ImportTx(s, caller, matched, ts, faults).Ok?)
    ensures r.notified != [] ==> r.store == ImportTx(s, caller, matched, ts, faults).value
  {
    if fetched.Err? || |fetched.value| == 0 then ImportReport(s, [])
    else
      match ImportTx(s, caller, matched, ts, faults)
      case Err(_) => ImportReport(s, [])
      case Ok(s') => ImportReport(s', FriendJoinNotifications(caller, matched, ts, expiryMs, content))
  }

  /** The users the lookup returns: registered users whose external id is among the contacts. */
  ghost predicate IsLookupResult(users: map<UserId, User>, externals: seq<ExternalId>, matched: seq<UserId>) {
    && (forall i, j :: 0 <= i < j < |matched| ==> matched[i] != matched[j])
    && (forall u :: u in matched <==> u in users && users[u].facebookId.Some? && users[u].facebookId.value in externals)
  }

  /**
   * `SELECT id FROM users WHERE facebook_id IN (...)`: each matching user
   * once, in an order the store chooses and the model leaves open.
   */
  method LookupMatches(users: map<UserId, User>, externals: seq<ExternalId>) returns (matched: seq<UserId>)
    ensures IsLookupResult(users, externals, matched)
  {
    var wanted := set u | u in users && users[u].facebookId.Some? && users[u].facebookId.value in externals;
    var remaining := wanted;
    matched := [];
    while remaining != {}
      invariant remaining <= wanted
      invariant forall i :: 0 <= i < |matched| ==> matched[i] in wanted && matched[i] !in remaining
      invariant forall u :: u in wanted ==> u in remaining || u in matched
      invariant forall i, j :: 0 <= i < j < |matched| ==> matched[i] != matched[j]
      decreases remaining
    {
      var u :| u in remaining;
      matched := matched + [u];
      remaining := remaining - {u};
    }
  }

  /** The contacts the external client listed, none when it failed. */
  function Contacts(fetched: Result<seq<ExternalId>, FetchError>): seq<ExternalId> {
    if fetched.Ok? then fetched.value else []
  }

  /** The registered users among the contacts. */
  function Registered(users: map<UserId, User>, externals: seq<ExternalId>): set<UserId> {
    set u | u in users && users[u].facebookId.Some? && users[u].facebookId.value in externals
  }

  /**
   * The whole import: look the contacts up, merge, notify. Only registered
   * contacts are notified, each once; when nothing fails, they are notified
   * exactly when there is at least one and none is the caller or already
   * has a row with the caller.
   */
  method ImportFriends(s: Store, caller: UserId, fetched: Result<seq<ExternalId>, FetchError>,
                       ts: int, expiryMs: int, content: Bytes, faults: Faults) returns (r: ImportReport, matched: seq<UserId>)
    ensures fetched.Ok? ==> IsLookupResult(s.users, fetched.value, matched)
    ensures r == AddFacebookFriends(s, caller, fetched, matched, ts, expiryMs, content, faults)
    ensures fetched.Err? || |fetched.value| == 0 ==> r == ImportReport(s, [])
    ensures r.notified != [] ==>
      (set i | 0 <= i < |r.notified| :: r.notified[i].recipient) == Registered(s.users, Contacts(fetched))
    ensures forall i, j :: 0 <= i < j < |r.notified| ==> r.notified[i].recipient != r.notified[j].recipient
    ensures fetched.Ok? && |fetched.value| > 0 && faults == {} ==>
      (r.notified != [] <==>
        var found := Registered(s.users, fetched.value);
        found != {} && caller !in found && forall u :: u in found ==> (caller, u) !in s.edges && (u, caller) !in s.edges)
  {
    if fetched.Err? || |fetched.value| == 0 {
      return ImportReport(s, []), [];
    }
    matched := LookupMatches(s.users, fetched.value);
    var found := Registered(s.users, fetched.value);
    assert forall u :: u in matched <==> u in found;
    assert |matched| == 0 <==> found == {} by {
      if |matched| > 0 {
        assert matched[0] in found;
      }
    }
    r := AddFacebookFriends(s, caller, fetched, matched, ts, expiryMs, content, faults);
    if r.notified != [] {
      forall u | u in found
        ensures u in (set i | 0 <= i < |r.notified| :: r.notified[i].recipient)
      {
        var i :| 0 <= i < |matched| && matched[i] == u;
        assert r.notified[i].recipient == u;
      }
    }
  }
}
