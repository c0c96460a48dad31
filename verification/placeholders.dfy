/**
 * The positional-parameter text of the import's batch statements: the
 * `IN (...)` list of the lookup, the multi-row VALUES list of the edge
 * insert and the `IN (...)` list of the counter bump. Each builder appends to
 * its text and its parameter list in one pass over the input, as the import
 * does; the rendered text is related to a structured template, and each
 * template slot is resolved against the parameter list.
 */
module Placeholders {
  import opened Outcomes
  import opened SocialGraph

  predicate IsDigit(c: char) {
    '0' <= c <= '9'
  }

  function DigitChar(d: nat): (c: char)
    requires d < 10
    ensures IsDigit(c)
  {
    ('0' as int + d) as char
  }

  function DigitValue(c: char): nat
    requires IsDigit(c)
  {
    c as int - '0' as int
  }

  predicate AllDigits(s: string) {
    forall i :: 0 <= i < |s| ==> IsDigit(s[i])
  }

  /** `%v` of a natural number: its decimal digits, most significant first, without leading zeros. */
  function Decimal(n: nat): (r: string)
    ensures |r| >= 1 && AllDigits(r)
    ensures r[0] == '0' ==> n == 0
    decreases n
  {
    if n < 10 then [DigitChar(n)] else Decimal(n / 10) + [DigitChar(n % 10)]
  }

  /** The number a string of decimal digits denotes. */
  function DigitsValue(s: string): nat
    requires AllDigits(s)
    decreases |s|
  {
    if s == [] then 0 else DigitsValue(s[..|s| - 1]) * 10 + DigitValue(s[|s| - 1])
  }

  /** Reading the digits back gives the number that was rendered. */
  lemma {:induction false} DecimalRoundTrip(n: nat)
    ensures DigitsValue(Decimal(n)) == n
    decreases n
  {
    if n >= 10 {
      var r := Decimal(n);
      assert r[..|r| - 1] == Decimal(n / 10);
      DecimalRoundTrip(n / 10);
    }
  }

  /** `$k`: a reference to the k-th statement parameter, counting from 1. */
  function Placeholder(k: nat): string {
    "$" + Decimal(k)
  }

  /** Distinct parameter numbers are rendered as distinct references. */
  lemma PlaceholderInjective(a: nat, b: nat)
    ensures Placeholder(a) == Placeholder(b) <==> a == b
  {
    if Placeholder(a) == Placeholder(b) {
      assert Decimal(a) == Placeholder(a)[1..];
      assert Decimal(b) == Placeholder(b)[1..];
      DecimalRoundTrip(a);
      DecimalRoundTrip(b);
    }
  }

  /** `items` separated by `sep`, as the builders produce it by appending. */
  function Join(items: seq<string>, sep: string): string
    decreases |items|
  {
    if |items| == 0 then ""
    else if |items| == 1 then items[0]
    else Join(items[..|items| - 1], sep) + sep + items[|items| - 1]
  }

  lemma JoinSnoc(items: seq<string>, x: string, sep: string)
    ensures Join(items + [x], sep) == if |items| == 0 then x else Join(items, sep) + sep + x
  {
    assert (items + [x])[..|items|] == items;
  }

  /** The comma-separated references to the parameters numbered by `slots`. */
  function PlaceholderList(slots: seq<nat>): string {
    Join(seq(|slots|, i requires 0 <= i < |slots| => Placeholder(slots[i])), ", ")
  }

  lemma PlaceholderListSnoc(slots: seq<nat>, k: nat)
    ensures PlaceholderList(slots + [k]) ==
      if |slots| == 0 then Placeholder(k) else PlaceholderList(slots) + ", " + Placeholder(k)
  {
    var items := seq(|slots|, i requires 0 <= i < |slots| => Placeholder(slots[i]));
    assert seq(|slots + [k]|, i requires 0 <= i < |slots + [k]| => Placeholder((slots + [k])[i])) == items + [Placeholder(k)];
    JoinSnoc(items, Placeholder(k), ", ");
  }

  /** A statement parameter. */
  datatype Value = UserValue(id: UserId) | TextValue(text: string) | IntValue(n: int)

  /** The parameter `$k` refers to, if there is one. */
  function Resolve(params: seq<Value>, k: nat): Option<Value> {
    if 1 <= k <= |params| then Some(params[k - 1]) else None
  }

  // ---------------------------------------------------------------------------
  // The lookup of registered users by external id.
  // ---------------------------------------------------------------------------

  const LookupPrefix := "SELECT id FROM users WHERE facebook_id IN ("

  /** The lookup refers to its n external ids as `$1 .. $n`. */
  function LookupSlots(n: nat): (r: seq<nat>)
    ensures |r| == n
  {
    seq(n, i => i + 1)
  }

  /**
   * The lookup statement for `externals`: `$1, ..., $n` inside the `IN`
   * list, and the external ids as the parameters in input order.
   */
  method BuildLookup(externals: seq<ExternalId>) returns (query: string, params: seq<Value>)
    ensures query == LookupPrefix + PlaceholderList(LookupSlots(|externals|)) + ")"
    ensures |params| == |externals|
    ensures forall i :: 0 <= i < |externals| ==> Resolve(params, LookupSlots(|externals|)[i]) == Some(TextValue(externals[i]))
  {
    var inList := "";
    params := [];
    for i := 0 to |externals|
      invariant inList == PlaceholderList(LookupSlots(i))
      invariant |params| == i
      invariant forall j :: 0 <= j < i ==> params[j] == TextValue(externals[j])
    {
      PlaceholderListSnoc(LookupSlots(i), i + 1);
      assert LookupSlots(i + 1) == LookupSlots(i) + [i + 1];
      if i != 0 {
        inList := inList + ", ";
      }
      inList := inList + ("$" + Decimal(i + 1));
      params := params + [TextValue(externals[i])];
    }
    query := LookupPrefix + inList + ")";
  }

  /** For three contacts the lookup's list reads `$1, $2, $3`. */
  lemma LookupListOfThree()
    ensures PlaceholderList(LookupSlots(3)) == "$1, $2, $3"
  {
    DecimalSmall(1);
    DecimalSmall(2);
    DecimalSmall(3);
    PlaceholderListSnoc([], 1);
    assert LookupSlots(1) == [] + [1];
    PlaceholderListSnoc(LookupSlots(1), 2);
    assert LookupSlots(2) == LookupSlots(1) + [2];
    PlaceholderListSnoc(LookupSlots(2), 3);
    assert LookupSlots(3) == LookupSlots(2) + [3];
  }

  // ---------------------------------------------------------------------------
  // The mirrored edge insert and the peers' counter bump.
  // ---------------------------------------------------------------------------

  const EdgeInsertPrefix := "INSERT INTO user_edge (source_id, position, updated_at, destination_id, state) VALUES "
  const CounterBumpPrefix := "UPDATE user_edge_metadata SET count = count + 1, updated_at = $1 WHERE source_id IN ("

  /** One parenthesised row of a VALUES list: four parameter references and a literal state. */
  datatype RowTemplate = RowTemplate(source: nat, position: nat, updatedAt: nat, destination: nat, state: nat)

  function RenderRow(t: RowTemplate): string {
    "(" + Placeholder(t.source) + ", " + Placeholder(t.position) + ", " + Placeholder(t.updatedAt) + ", "
      + Placeholder(t.destination) + ", " + Decimal(t.state) + ")"
  }

  function RenderRows(ts: seq<RowTemplate>): string {
    Join(seq(|ts|, i requires 0 <= i < |ts| => RenderRow(ts[i])), ", ")
  }

  /**
   * The rows for m matched users: the k-th match (from 0) is parameter
   * `$(k+3)`, and contributes caller -> match then match -> caller, both
   * with the timestamp `$2` as position and update time and state 0.
   */
  function EdgeTemplates(m: nat): (r: seq<RowTemplate>)
    ensures |r| == 2 * m
  {
    seq(2 * m, i requires 0 <= i < 2 * m =>
      if i % 2 == 0 then RowTemplate(1, 2, 2, i / 2 + 3, Connected as nat)
      else RowTemplate(i / 2 + 3, 2, 2, 1, Connected as nat))
  }

  /** The bump refers to the m matched users as `$2 .. $(m+1)`. */
  function BumpSlots(m: nat): (r: seq<nat>)
    ensures |r| == m
  {
    seq(m, i => i + 2)
  }

  lemma DecimalSmall(d: nat)
    requires d < 10
    ensures Decimal(d) == [DigitChar(d)]
  {
  }

  lemma OutgoingRowText(p: nat)
    ensures RenderRow(RowTemplate(1, 2, 2, p, 0)) == "($1, $2, $2, $" + Decimal(p) + ", 0)"
  {
  }

  lemma IncomingRowText(p: nat)
    ensures RenderRow(RowTemplate(p, 2, 2, 1, 0)) == "($" + Decimal(p) + ", $2, $2, $1, 0)"
  {
  }

  /** The text the import appends for the match numbered p, as its format string spells it. */
  lemma PairText(p: nat)
    ensures RenderRow(RowTemplate(1, 2, 2, p, 0)) + ", " + RenderRow(RowTemplate(p, 2, 2, 1, 0))
      == "($1, $2, $2, $" + Decimal(p) + ", 0), ($" + Decimal(p) + ", $2, $2, $1, 0)"
  {
    OutgoingRowText(p);
    IncomingRowText(p);
    var d := Decimal(p);
    assert "($1, $2, $2, $" + d + ", 0)" + ", " + ("($" + d + ", $2, $2, $1, 0)")
      == "($1, $2, $2, $" + d + (", 0)" + ", " + "($") + d + ", $2, $2, $1, 0)";
    assert ", 0)" + ", " + "($" == ", 0), ($";
  }

  lemma RenderRowsSnocPair(ts: seq<RowTemplate>, a: RowTemplate, b: RowTemplate)
    ensures RenderRows(ts + [a, b]) ==
      if |ts| == 0 then RenderRow(a) + ", " + RenderRow(b) else RenderRows(ts) + ", " + RenderRow(a) + ", " + RenderRow(b)
  {
    var items := seq(|ts|, i requires 0 <= i < |ts| => RenderRow(ts[i]));
    var all := ts + [a, b];
    assert seq(|all|, i requires 0 <= i < |all| => RenderRow(all[i])) == (items + [RenderRow(a)]) + [RenderRow(b)];
    JoinSnoc(items + [RenderRow(a)], RenderRow(b), ", ");
    JoinSnoc(items, RenderRow(a), ", ");
  }

  /** The parameter list of the edge insert: the caller, the timestamp, then the matches in scan order. */
  function EdgeParams(caller: UserId, ts: int, matched: seq<UserId>): (r: seq<Value>)
    ensures |r| == |matched| + 2
  {
    [UserValue(caller), IntValue(ts)] + seq(|matched|, i requires 0 <= i < |matched| => UserValue(matched[i]))
  }

  /** The parameter list of the counter bump: the timestamp, then the matches in scan order. */
  function BumpParams(ts: int, matched: seq<UserId>): (r: seq<Value>)
    ensures |r| == |matched| + 1
  {
    [IntValue(ts)] + seq(|matched|, i requires 0 <= i < |matched| => UserValue(matched[i]))
  }

  lemma EdgeTemplatesSnoc(k: nat)
    ensures EdgeTemplates(k + 1) == EdgeTemplates(k) + [RowTemplate(1, 2, 2, k + 3, 0), RowTemplate(k + 3, 2, 2, 1, 0)]
  {
  }

  lemma RegroupPair(x: string, a: string, b: string)
    ensures x + ", " + a + ", " + b == x + ", " + (a + ", " + b)
  {
  }

  /** One step of the VALUES list: the rows of match k (from 0), after a separator unless first. */
  lemma EdgeQueryStep(k: nat)
    ensures RenderRows(EdgeTemplates(k + 1)) ==
      (if k == 0 then "" else RenderRows(EdgeTemplates(k)) + ", ")
      + ("($1, $2, $2, $" + Decimal(k + 3) + ", 0), ($" + Decimal(k + 3) + ", $2, $2, $1, 0)")
  {
    var a := RowTemplate(1, 2, 2, k + 3, 0);
    var b := RowTemplate(k + 3, 2, 2, 1, 0);
    var before := EdgeTemplates(k);
    EdgeTemplatesSnoc(k);
    RenderRowsSnocPair(before, a, b);
    PairText(k + 3);
    var pair := "($1, $2, $2, $" + Decimal(k + 3) + ", 0), ($" + Decimal(k + 3) + ", $2, $2, $1, 0)";
    assert RenderRow(a) + ", " + RenderRow(b) == pair;
    if k == 0 {
      assert before == [];
      assert "" + pair == pair;
    } else {
      RegroupPair(RenderRows(before), RenderRow(a), RenderRow(b));
    }
  }

  /** One step of the bump's `IN` list: the reference to match k (from 0), after a separator unless first. */
  lemma BumpQueryStep(k: nat)
    ensures PlaceholderList(BumpSlots(k + 1)) ==
      (if k == 0 then "" else PlaceholderList(BumpSlots(k)) + ", ") + ("$" + Decimal(k + 2))
  {
    assert BumpSlots(k + 1) == BumpSlots(k) + [k + 2];
    PlaceholderListSnoc(BumpSlots(k), k + 2);
  }

  lemma ParamsSnoc(caller: UserId, ts: int, matched: seq<UserId>, k: nat)
    requires k < |matched|
    ensures EdgeParams(caller, ts, matched[..k + 1]) == EdgeParams(caller, ts, matched[..k]) + [UserValue(matched[k])]
    ensures BumpParams(ts, matched[..k + 1]) == BumpParams(ts, matched[..k]) + [UserValue(matched[k])]
  {
  }

  /** The row a template denotes once its references are replaced by the parameters. */
  function EvalRow(t: RowTemplate, params: seq<Value>): Option<Row> {
    match (Resolve(params, t.source), Resolve(params, t.position), Resolve(params, t.updatedAt), Resolve(params, t.destination))
    case (Some(UserValue(src)), Some(IntValue(pos)), Some(IntValue(upd)), Some(UserValue(dst))) =>
      Some(((src, dst), Edge(pos, upd, t.state)))
    case _ => None
  }

  /** Read against its parameters, the VALUES list denotes exactly the mirrored rows, in order. */
  lemma EdgeTemplatesDenoteMirroredRows(caller: UserId, ts: int, matched: seq<UserId>)
    ensures forall i :: 0 <= i < 2 * |matched| ==>
      EvalRow(EdgeTemplates(|matched|)[i], EdgeParams(caller, ts, matched)) == Some(MirroredRows(caller, matched, ts)[i])
  {
  }

  /** The bump's `$1` is the timestamp and its k-th list entry the k-th match. */
  lemma BumpSlotsDenoteMatches(ts: int, matched: seq<UserId>)
    ensures Resolve(BumpParams(ts, matched), 1) == Some(IntValue(ts))
    ensures forall i :: 0 <= i < |matched| ==> Resolve(BumpParams(ts, matched), BumpSlots(|matched|)[i]) == Some(UserValue(matched[i]))
  {
  }

  /**
   * The statements the import builds while scanning the matched users: the
   * VALUES list with two rows per match, the bump's `IN` list over
   * `$2 .. $(m+1)`, and their parameter lists in scan order. The two lists
   * are accumulated on their own and put behind their fixed statement heads
   * at the end, which yields the same text as appending to the heads.
   */
  method BuildMerge(caller: UserId, ts: int, matched: seq<UserId>)
    returns (edgeQuery: string, edgeParams: seq<Value>, bumpQuery: string, bumpParams: seq<Value>)
    ensures edgeQuery == EdgeInsertPrefix + RenderRows(EdgeTemplates(|matched|))
    ensures edgeParams == EdgeParams(caller, ts, matched)
    ensures bumpQuery == CounterBumpPrefix + PlaceholderList(BumpSlots(|matched|)) + ")"
    ensures bumpParams == BumpParams(ts, matched)
    ensures forall i :: 0 <= i < 2 * |matched| ==>
      EvalRow(EdgeTemplates(|matched|)[i], edgeParams) == Some(MirroredRows(caller, matched, ts)[i])
    ensures Resolve(bumpParams, 1) == Some(IntValue(ts))
    ensures forall i :: 0 <= i < |matched| ==> Resolve(bumpParams, BumpSlots(|matched|)[i]) == Some(UserValue(matched[i]))
  {
    var values := "";
    var inList := "";
    edgeParams := [UserValue(caller), IntValue(ts)];
    bumpParams := [IntValue(ts)];
    for k := 0 to |matched|
      invariant values == RenderRows(EdgeTemplates(k))
      invariant edgeParams == EdgeParams(caller, ts, matched[..k])
      invariant inList == PlaceholderList(BumpSlots(k))
      invariant bumpParams == BumpParams(ts, matched[..k])
    {
      EdgeQueryStep(k);
      BumpQueryStep(k);
      ParamsSnoc(caller, ts, matched, k);

      if |edgeParams| != 2 {
        values := values + ", ";
      }
      edgeParams := edgeParams + [UserValue(matched[k])];
      var p := Decimal(|edgeParams|);
      values := values + ("($1, $2, $2, $" + p + ", 0), ($" + p + ", $2, $2, $1, 0)");

      if |bumpParams| != 1 {
        inList := inList + ", ";
      }
      bumpParams := bumpParams + [UserValue(matched[k])];
      inList := inList + ("$" + Decimal(|bumpParams|));
    }
    assert matched[..|matched|] == matched;
    edgeQuery := EdgeInsertPrefix + values;
    bumpQuery := CounterBumpPrefix + inList + ")";
    EdgeTemplatesDenoteMirroredRows(caller, ts, matched);
    BumpSlotsDenoteMatches(ts, matched);
  }
}
