/**
 * The persisted social graph and the atomic statements the relationship
 * pipeline issues against it (the edge store).
 *
 * The three relations are modelled as finite maps:
 *  - `users`: the user rows, keyed by the 16-byte user id;
 *  - `edges`: the `user_edge` rows, keyed by (source id, destination id);
 *  - `meta`:  the `user_edge_metadata` rows, keyed by source id.
 *
 * Each statement is a pure function from a store to the store it leaves
 * behind, together with the number of rows it affected where the pipeline
 * inspects that number.
 */
module SocialGraph {
  import opened Outcomes

  newtype byte = x: int | 0 <= x < 256

  type Bytes = seq<byte>

  /** The raw bytes of a user id; a well-formed one is a 16-byte UUID. */
  type UserId = Bytes

  /** An identifier of a contact on the external social network. */
  type ExternalId = string

  const UuidLength: nat := 16

  /** What `uuid.FromBytes` accepts: exactly sixteen bytes. */
  predicate IsUuid(b: Bytes) {
    |b| == UuidLength
  }

  /** Edge state codes stored in the `state` column. */
  const Connected: int := 0
  const Blocked: int := 3

  /** One `user_edge` row without its key. */
  datatype Edge = Edge(position: int, updatedAt: int, state: int)

  /** One `user_edge_metadata` row without its key. */
  datatype Meta = Meta(count: int, updatedAt: int)

  /** The profile columns of a `users` row read by the friend list and the import lookup. */
  datatype User = User(
    handle: string,
    fullname: string,
    avatarUrl: string,
    lang: string,
    location: string,
    timezone: string,
    metadata: Bytes,
    createdAt: int,
    updatedAt: int,
    lastOnlineAt: int,
    facebookId: Option<ExternalId>)

  type Key = (UserId, UserId)

  datatype Store = Store(users: map<UserId, User>, edges: map<Key, Edge>, meta: map<UserId, Meta>)

  /** The keys of the rows whose source is `u`. */
  function OutKeys(edges: map<Key, Edge>, u: UserId): set<Key> {
    set k | k in edges && k.0 == u
  }

  /** The number of outgoing rows of `u`, whatever their state. */
  function OutDegree(edges: map<Key, Edge>, u: UserId): nat {
    |OutKeys(edges, u)|
  }

  /**
   * The counter discipline the statements below maintain: every metadata row
   * counts the outgoing edge rows of its user. Blocking overwrites the
   * caller's own row without decrementing, and removing deletes rows of any
   * state with a decrement, so the counted rows are all outgoing rows and not
   * only the connected ones.
   */
  ghost predicate CountsConsistent(s: Store) {
    forall u :: u in s.meta ==> s.meta[u].count == OutDegree(s.edges, u)
  }

  /** `DELETE FROM user_edge WHERE source_id = src AND destination_id = dst`, with rows affected. */
  function DeleteEdge(s: Store, src: UserId, dst: UserId): (r: (Store, nat))
    ensures (src, dst) !in r.0.edges
    ensures r.1 == 1 <==> (src, dst) in s.edges
    ensures r.1 == 0 <==> (src, dst) !in s.edges
    ensures forall k :: k != (src, dst) ==> (k in r.0.edges <==> k in s.edges)
    ensures forall k :: k in r.0.edges ==> r.0.edges[k] == s.edges[k]
    ensures r.0.users == s.users && r.0.meta == s.meta
  {
    (s.(edges := s.edges - {(src, dst)}), if (src, dst) in s.edges then 1 else 0)
  }

  /** The same delete restricted by `AND state != 3`: a row the peer blocked with survives. */
  function DeleteUnlessBlocked(s: Store, src: UserId, dst: UserId): (r: (Store, nat))
    ensures r.1 == 1 <==> (src, dst) in s.edges && s.edges[(src, dst)].state != Blocked
    ensures r.1 <= 1
    ensures (src, dst) in r.0.edges <==> (src, dst) in s.edges && s.edges[(src, dst)].state == Blocked
    ensures forall k :: k != (src, dst) ==> (k in r.0.edges <==> k in s.edges)
    ensures forall k :: k in r.0.edges ==> r.0.edges[k] == s.edges[k]
    ensures r.0.users == s.users && r.0.meta == s.meta
  {
    if (src, dst) in s.edges && s.edges[(src, dst)].state != Blocked then DeleteEdge(s, src, dst)
    else (s, 0)
  }

  /** `UPDATE user_edge SET state = 3, updated_at = ts WHERE ...`, with rows affected. */
  function BlockEdge(s: Store, src: UserId, dst: UserId, ts: int): (r: (Store, nat))
    ensures r.1 == 1 <==> (src, dst) in s.edges
    ensures r.1 == 0 <==> (src, dst) !in s.edges
    ensures r.0.edges.Keys == s.edges.Keys
    ensures (src, dst) in s.edges ==>
      r.0.edges[(src, dst)] == Edge(s.edges[(src, dst)].position, ts, Blocked)
    ensures forall k :: k in s.edges && k != (src, dst) ==> r.0.edges[k] == s.edges[k]
    ensures r.0.users == s.users && r.0.meta == s.meta
  {
    if (src, dst) in s.edges then
      (s.(edges := s.edges[(src, dst) := s.edges[(src, dst)].(state := Blocked, updatedAt := ts)]), 1)
    else (s, 0)
  }

  /**
   * `UPDATE user_edge_metadata SET count = count + delta, updated_at = ts WHERE source_id = u`:
   * a user without a metadata row is left as is.
   */
  function AdjustCount(s: Store, u: UserId, delta: int, ts: int): (r: Store)
    ensures r.meta.Keys == s.meta.Keys
    ensures u in s.meta ==> r.meta[u] == Meta(s.meta[u].count + delta, ts)
    ensures forall v :: v in s.meta && v != u ==> r.meta[v] == s.meta[v]
    ensures r.users == s.users && r.edges == s.edges
  {
    if u in s.meta then s.(meta := s.meta[u := Meta(s.meta[u].count + delta, ts)]) else s
  }

  /** `UPDATE user_edge_metadata SET count = n, updated_at = ts WHERE source_id = u`. */
  function SetCount(s: Store, u: UserId, n: int, ts: int): (r: Store)
    ensures r.meta.Keys == s.meta.Keys
    ensures u in s.meta ==> r.meta[u] == Meta(n, ts)
    ensures forall v :: v in s.meta && v != u ==> r.meta[v] == s.meta[v]
    ensures r.users == s.users && r.edges == s.edges
  {
    if u in s.meta then s.(meta := s.meta[u := Meta(n, ts)]) else s
  }

  /**
   * `UPDATE user_edge_metadata SET count = count + 1, updated_at = ts WHERE source_id IN (us)`:
   * every metadata row named in `us` is bumped once, however often it is named.
   */
  function BumpCounts(s: Store, us: seq<UserId>, ts: int): (r: Store)
    ensures r.meta.Keys == s.meta.Keys
    ensures forall v :: v in s.meta && v in us ==> r.meta[v] == Meta(s.meta[v].count + 1, ts)
    ensures forall v :: v in s.meta && v !in us ==> r.meta[v] == s.meta[v]
    ensures r.users == s.users && r.edges == s.edges
  {
    s.(meta := map v | v in s.meta :: if v in us then Meta(s.meta[v].count + 1, ts) else s.meta[v])
  }

  /** The rows of a multi-row `INSERT`, in statement order. */
  type Row = (Key, Edge)

  /** The keys `rows` would create. */
  function RowKeys(rows: seq<Row>): set<Key> {
    set i | 0 <= i < |rows| :: rows[i].0
  }

  /**
   * True when the insert of `rows` violates the (source, destination) key:
   * some row repeats the key of a later row or of an existing one.
   */
  predicate InsertConflict(edges: map<Key, Edge>, rows: seq<Row>) {
    exists i :: 0 <= i < |rows| && (rows[i].0 in edges || exists j :: i < j < |rows| && rows[j].0 == rows[i].0)
  }

  /** The edge rows after a conflict-free multi-row `INSERT`. */
  function InsertRows(edges: map<Key, Edge>, rows: seq<Row>): (r: map<Key, Edge>)
    requires !InsertConflict(edges, rows)
    ensures forall i :: 0 <= i < |rows| ==> rows[i].0 in r && r[rows[i].0] == rows[i].1
    ensures forall k :: k in edges ==> k in r && r[k] == edges[k]
    ensures r.Keys == edges.Keys + RowKeys(rows)
    decreases |rows|
  {
    if rows == [] then edges
    else
      var next := edges[rows[0].0 := rows[0].1];
      assert !InsertConflict(next, rows[1..]) by {
        forall i | 0 <= i < |rows[1..]|
          ensures rows[1..][i].0 !in next
          ensures forall j :: i < j < |rows[1..]| ==> rows[1..][j].0 != rows[1..][i].0
        {
          assert rows[1..][i] == rows[i + 1];
          forall j | i < j < |rows[1..]|
            ensures rows[1..][j].0 != rows[1..][i].0
          {
            assert rows[1..][j] == rows[j + 1];
          }
        }
      }
      var r := InsertRows(next, rows[1..]);
      assert RowKeys(rows) == {rows[0].0} + RowKeys(rows[1..]) by {
        forall k | k in RowKeys(rows) ensures k in {rows[0].0} + RowKeys(rows[1..]) {
          var i :| 0 <= i < |rows| && rows[i].0 == k;
          if i > 0 {
            assert rows[1..][i - 1] == rows[i];
          }
        }
        forall k | k in RowKeys(rows[1..]) ensures k in RowKeys(rows) {
          var i :| 0 <= i < |rows[1..]| && rows[1..][i].0 == k;
          assert rows[i + 1].0 == k;
        }
      }
      forall i | 0 <= i < |rows|
        ensures rows[i].0 in r && r[rows[i].0] == rows[i].1
      {
        if i > 0 {
          assert rows[1..][i - 1] == rows[i];
        }
      }
      r
  }

  /** The connected row both ways between `caller` and each match, inserted by the import with position = updated_at = ts. */
  function MirroredRows(caller: UserId, matched: seq<UserId>, ts: int): (r: seq<Row>)
    ensures |r| == 2 * |matched|
    decreases |matched|
  {
    if matched == [] then []
    else
      [((caller, matched[0]), Edge(ts, ts, Connected)), ((matched[0], caller), Edge(ts, ts, Connected))]
      + MirroredRows(caller, matched[1..], ts)
  }

  /** The i-th match contributes rows 2i (caller to match) and 2i+1 (match to caller). */
  lemma {:induction false} MirroredRowAt(caller: UserId, matched: seq<UserId>, ts: int, i: nat)
    requires i < |matched|
    ensures MirroredRows(caller, matched, ts)[2 * i] == ((caller, matched[i]), Edge(ts, ts, Connected))
    ensures MirroredRows(caller, matched, ts)[2 * i + 1] == ((matched[i], caller), Edge(ts, ts, Connected))
    decreases i
  {
    if i > 0 {
      MirroredRowAt(caller, matched[1..], ts, i - 1);
      assert matched[1..][i - 1] == matched[i];
    }
  }

  /** The matches are new peers: none is the caller, none repeats, and no row exists between them and the caller. */
  predicate FreshPeers(edges: map<Key, Edge>, caller: UserId, matched: seq<UserId>) {
    && caller !in matched
    && (forall i, j :: 0 <= i < j < |matched| ==> matched[i] != matched[j])
    && (forall u :: u in matched ==> (caller, u) !in edges && (u, caller) !in edges)
  }

  /** Every mirrored row names the caller and one match. */
  lemma MirroredRowShape(caller: UserId, matched: seq<UserId>, ts: int, i: nat)
    requires i < 2 * |matched|
    ensures var k := MirroredRows(caller, matched, ts)[i].0;
      (i % 2 == 0 && k == (caller, matched[i / 2])) || (i % 2 == 1 && k == (matched[i / 2], caller))
  {
    var h := i / 2;
    assert i == 2 * h || i == 2 * h + 1;
    MirroredRowAt(caller, matched, ts, h);
  }

  /** The mirrored insert violates no key exactly when the matches are new peers. */
  lemma {:induction false} MirroredInsertConflictFree(edges: map<Key, Edge>, caller: UserId, matched: seq<UserId>, ts: int)
    ensures !InsertConflict(edges, MirroredRows(caller, matched, ts)) <==> FreshPeers(edges, caller, matched)
  {
    var rows := MirroredRows(caller, matched, ts);
    if FreshPeers(edges, caller, matched) {
      forall i | 0 <= i < |rows|
        ensures rows[i].0 !in edges
        ensures forall j :: i < j < |rows| ==> rows[j].0 != rows[i].0
      {
        MirroredRowShape(caller, matched, ts, i);
        assert matched[i / 2] in matched;
        forall j | i < j < |rows|
          ensures rows[j].0 != rows[i].0
        {
          MirroredRowShape(caller, matched, ts, j);
          assert matched[j / 2] in matched;
          if i / 2 != j / 2 {
            assert i / 2 < j / 2;
            assert matched[i / 2] != matched[j / 2];
          }
        }
      }
    } else {
      if caller in matched {
        var k :| 0 <= k < |matched| && matched[k] == caller;
        MirroredRowAt(caller, matched, ts, k);
        assert rows[2 * k].0 == rows[2 * k + 1].0;
      } else if exists i, j :: 0 <= i < j < |matched| && matched[i] == matched[j] {
        var i, j :| 0 <= i < j < |matched| && matched[i] == matched[j];
        MirroredRowAt(caller, matched, ts, i);
        MirroredRowAt(caller, matched, ts, j);
        assert rows[2 * i].0 == rows[2 * j].0;
      } else {
        var u :| u in matched && ((caller, u) in edges || (u, caller) in edges);
        var k :| 0 <= k < |matched| && matched[k] == u;
        MirroredRowAt(caller, matched, ts, k);
        assert rows[2 * k].0 in edges || rows[2 * k + 1].0 in edges;
      }
    }
  }

  /** The number of rows among `rows` whose source is `u`. */
  function SourceCount(rows: seq<Row>, u: UserId): nat
    decreases |rows|
  {
    if rows == [] then 0 else (if rows[0].0.0 == u then 1 else 0) + SourceCount(rows[1..], u)
  }

  // ---------------------------------------------------------------------------
  // How single-row changes move the out-degree of a user.
  // ---------------------------------------------------------------------------

  lemma DeleteDegree(edges: map<Key, Edge>, k: Key, u: UserId)
    ensures OutDegree(edges - {k}, u) == OutDegree(edges, u) - (if k in edges && k.0 == u then 1 else 0)
  {
    var before := OutKeys(edges, u);
    var after := OutKeys(edges - {k}, u);
    assert after == before - {k};
    if k in edges && k.0 == u {
      assert k in before;
      assert |before| == |after| + 1 by {
        assert before == after + {k};
      }
    } else {
      assert after == before;
    }
  }

  lemma OverwriteDegree(edges: map<Key, Edge>, k: Key, e: Edge, u: UserId)
    requires k in edges
    ensures OutDegree(edges[k := e], u) == OutDegree(edges, u)
  {
    assert OutKeys(edges[k := e], u) == OutKeys(edges, u);
  }

  lemma InsertDegree(edges: map<Key, Edge>, k: Key, e: Edge, u: UserId)
    requires k !in edges
    ensures OutDegree(edges[k := e], u) == OutDegree(edges, u) + (if k.0 == u then 1 else 0)
  {
    var before := OutKeys(edges, u);
    var after := OutKeys(edges[k := e], u);
    if k.0 == u {
      assert after == before + {k};
      assert k !in before;
    } else {
      assert after == before;
    }
  }

  /** A conflict-free insert raises each user's out-degree by the number of inserted rows it is the source of. */
  lemma {:induction false} InsertRowsDegree(edges: map<Key, Edge>, rows: seq<Row>, u: UserId)
    requires !InsertConflict(edges, rows)
    ensures OutDegree(InsertRows(edges, rows), u) == OutDegree(edges, u) + SourceCount(rows, u)
    decreases |rows|
  {
    if rows != [] {
      var next := edges[rows[0].0 := rows[0].1];
      assert rows[0].0 !in edges;
      InsertDegree(edges, rows[0].0, rows[0].1, u);
      assert !InsertConflict(next, rows[1..]) by {
        forall i | 0 <= i < |rows[1..]|
          ensures rows[1..][i].0 !in next
          ensures forall j :: i < j < |rows[1..]| ==> rows[1..][j].0 != rows[1..][i].0
        {
          assert rows[1..][i] == rows[i + 1];
          forall j | i < j < |rows[1..]|
            ensures rows[1..][j].0 != rows[1..][i].0
          {
            assert rows[1..][j] == rows[j + 1];
          }
        }
      }
      InsertRowsDegree(next, rows[1..], u);
    }
  }

  /**
   * In the mirrored rows for new peers, the caller is the source of one row
   * per match and each match the source of exactly one row.
   */
  lemma {:induction false} MirroredSourceCount(caller: UserId, matched: seq<UserId>, ts: int, u: UserId)
    requires caller !in matched
    requires forall i, j :: 0 <= i < j < |matched| ==> matched[i] != matched[j]
    ensures SourceCount(MirroredRows(caller, matched, ts), u) ==
      (if u == caller then |matched| else if u in matched then 1 else 0)
    decreases |matched|
  {
    if |matched| > 0 {
      var rows := MirroredRows(caller, matched, ts);
      var rest := MirroredRows(caller, matched[1..], ts);
      assert rows[1..] == [rows[1]] + rest;
      assert rows[1..][1..] == rest;
      assert forall i, j :: 0 <= i < j < |matched[1..]| ==> matched[1..][i] != matched[1..][j] by {
        forall i, j | 0 <= i < j < |matched[1..]| ensures matched[1..][i] != matched[1..][j] {
          assert matched[1..][i] == matched[i + 1] && matched[1..][j] == matched[j + 1];
        }
      }
      MirroredSourceCount(caller, matched[1..], ts, u);
      assert u in matched <==> u == matched[0] || u in matched[1..] by {
        assert matched == [matched[0]] + matched[1..];
      }
      if u == matched[0] {
        assert u !in matched[1..] by {
          forall j | 0 <= j < |matched[1..]| ensures matched[1..][j] != u {
            assert matched[1..][j] == matched[j + 1];
          }
        }
      }
    }
  }
}
