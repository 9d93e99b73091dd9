/** Joint comparison of a fixed finalist set: robust pairwise dominance, the maximal set
    and its tie-break. Floating-point values are reals. */
module Finalists {
  import opened Wrappers
  import opened Order

  datatype Gate = Pass | Fail | Unknown

  datatype Finalist = Finalist(
    id: string, gate: Gate,
    uncertaintyWidth: Option<real>, dataQuality: Option<real>,
    failureRisk: Option<real>, adversarialMateriality: Option<real>, historicalReliability: Option<real>)

  /** What the strength rule makes of one finalist's raw components on one draw. */
  datatype Measure = Incomplete | Invalid | Unresolved | Known(strength: real)

  datatype Region = Region(left: string, right: string, lower: real, upper: real, supported: bool, rule: nat)

  datatype Joint = Joint(
    supported: bool, finalistIds: seq<string>, drawIds: seq<string>,
    draws: map<string, map<string, Measure>>, regions: seq<Region>, rule: nat)
  {
    /** What the constructor of the joint support guarantees. */
    predicate Valid() {
      && Ascending(finalistIds) && Ascending(drawIds)
      && (forall r :: r in regions ==> Less(r.left, r.right) && (r.supported ==> r.lower <= r.upper))
      && (forall i, j :: 0 <= i < j < |regions| ==>
            !(regions[i].left == regions[j].left && regions[i].right == regions[j].right))
    }
  }

  /** The remaining inputs: do the identities agree, does the policy define a strength, and
      the user's preference order. */
  datatype Context = Context(identityMatches: bool, strengthDefined: bool, userOrder: seq<string>)

  datatype Pair = Pair(left: string, right: string, differences: map<string, real>,
                       lower: real, upper: real, winner: Option<string>)

  datatype Comparison = Comparison(
    supported: bool, finalistIds: seq<string>, strengths: map<string, map<string, real>>,
    pairs: seq<Pair>, maximal: seq<string>, ordered: seq<string>,
    primary: Option<string>, reasons: seq<string>)

  // Sorting by identity -----------------------------------------------------

  function Insert(x: Finalist, s: seq<Finalist>): seq<Finalist> {
    if s == [] || Less(x.id, s[0].id) then [x] + s else [s[0]] + Insert(x, s[1..])
  }

  function SortById(s: seq<Finalist>): seq<Finalist> {
    if s == [] then [] else Insert(s[|s| - 1], SortById(s[..|s| - 1]))
  }

  function Ids(s: seq<Finalist>): seq<string> {
    seq(|s|, i requires 0 <= i < |s| => s[i].id)
  }

  predicate DistinctIds(s: seq<Finalist>) {
    forall i, j :: 0 <= i < j < |s| ==> s[i].id != s[j].id
  }

  // The comparison ----------------------------------------------------------

  /** Every pair once, in ascending order. */
  function Pairs(ids: seq<string>): seq<(string, string)> {
    if ids == [] then []
    else seq(|ids| - 1, i requires 0 <= i < |ids| - 1 => (ids[0], ids[i + 1])) + Pairs(ids[1..])
  }

  function RegionFor(regions: seq<Region>, pair: (string, string)): Option<Region> {
    if regions == [] then None
    else if (regions[0].left, regions[0].right) == pair then Some(regions[0])
    else RegionFor(regions[1..], pair)
  }

  predicate BaseSupported(candidates: seq<Finalist>, joint: Joint, context: Context) {
    var ids := Ids(candidates);
    && candidates != [] && DistinctIds(candidates)
    && context.identityMatches
    && joint.supported && joint.finalistIds == ids
    && (forall i :: 0 <= i < |candidates| ==> candidates[i].gate.Pass?)
    && joint.drawIds != [] && joint.draws.Keys == (set id | id in ids)
    && context.strengthDefined
  }

  /** The first reason, in draw order, why a finalist's row of measures is unusable. */
  function RowReason(row: map<string, Measure>, drawIds: seq<string>): Option<string>
    requires forall d :: d in drawIds ==> d in row
  {
    if drawIds == [] then None
    else match row[drawIds[0]]
      case Incomplete => Some("JOINT_COMPONENT_DRAW_INCOMPLETE")
      case Invalid => Some("JOINT_COMPONENT_DRAW_INVALID")
      case Unresolved => Some("SELECTION_STRENGTH_UNKNOWN")
      case Known(_) => RowReason(row, drawIds[1..])
  }

  function RowsReason(ids: seq<string>, joint: Joint): Option<string>
    requires forall id :: id in ids ==> id in joint.draws
  {
    if ids == [] then None
    else
      var row := joint.draws[ids[0]];
      if row.Keys != (set d | d in joint.drawIds) then Some("COMMON_DRAW_SET_INCOMPLETE")
      else
        var reason := RowReason(row, joint.drawIds);
        if reason.Some? then reason else RowsReason(ids[1..], joint)
  }

  predicate Measured(ids: seq<string>, joint: Joint) {
    && (forall id :: id in ids ==> id in joint.draws)
    && (forall id, d :: id in ids && d in joint.drawIds ==> d in joint.draws[id] && joint.draws[id][d].Known?)
  }

  function Strength(joint: Joint, id: string, draw: string): real
    requires id in joint.draws && draw in joint.draws[id] && joint.draws[id][draw].Known?
  {
    joint.draws[id][draw].strength
  }

  function Named(regions: seq<Region>): set<(string, string)> {
    set r | r in regions :: (r.left, r.right)
  }

  predicate RegionsComplete(ids: seq<string>, joint: Joint) {
    Named(joint.regions) == set p | p in Pairs(ids)
  }

  /** The region brackets the strength difference on every common draw. */
  predicate Covers(region: Region, joint: Joint)
    requires Measured([region.left, region.right], joint)
  {
    forall d :: d in joint.drawIds ==>
      region.lower <= Strength(joint, region.left, d) - Strength(joint, region.right, d) <= region.upper
  }

  function PairReason(region: Region, joint: Joint): Option<string>
    requires Measured([region.left, region.right], joint)
  {
    if !region.supported || region.rule != joint.rule then Some("PAIRED_REGION_SUPPORT_UNKNOWN")
    else if !Covers(region, joint) then Some("PAIRED_REGION_DOES_NOT_COVER_COMMON_DRAWS")
    else None
  }

  function PairsReason(pairs: seq<(string, string)>, joint: Joint): Option<string>
    requires forall p :: p in pairs ==> RegionFor(joint.regions, p).Some? && Measured([p.0, p.1], joint)
  {
    if pairs == [] then None
    else
      RegionForNamed(joint.regions, pairs[0]);
      var reason := PairReason(RegionFor(joint.regions, pairs[0]).value, joint);
      if reason.Some? then reason else PairsReason(pairs[1..], joint)
  }

  lemma {:induction false} RegionForNamed(regions: seq<Region>, pair: (string, string))
    ensures var r := RegionFor(regions, pair);
      r.Some? ==> r.value in regions && (r.value.left, r.value.right) == pair
    ensures RegionFor(regions, pair).Some? <==> exists q :: q in regions && (q.left, q.right) == pair
  {
    if regions != [] {
      RegionForNamed(regions[1..], pair);
      if exists q :: q in regions && (q.left, q.right) == pair {
        var q :| q in regions && (q.left, q.right) == pair;
        assert q == regions[0] || q in regions[1..];
      }
    }
  }

  function Winner(region: Region): Option<string> {
    if region.lower > 0.0 then Some(region.left)
    else if region.upper < 0.0 then Some(region.right)
    else None
  }

  function PairResult(region: Region, joint: Joint): Pair
    requires Measured([region.left, region.right], joint)
  {
    Pair(region.left, region.right,
      map d | d in joint.drawIds :: Strength(joint, region.left, d) - Strength(joint, region.right, d),
      region.lower, region.upper, Winner(region))
  }

  /** Losers of the judged pairs. */
  function Outranked(pairs: seq<Pair>): set<string> {
    set p | p in pairs && p.winner.Some? :: if p.winner.value == p.left then p.right else p.left
  }

  /** The finalists nobody outranks, in their order. */
  function Without(ids: seq<string>, losers: set<string>): seq<string> {
    if ids == [] then []
    else (if ids[0] in losers then [] else [ids[0]]) + Without(ids[1..], losers)
  }

  // Tie-break ---------------------------------------------------------------

  function Abs(x: real): real {
    if x < 0.0 then -x else x
  }

  function Max(x: real, y: real): real {
    if x < y then y else x
  }

  /** math.isclose with its default relative tolerance and an absolute one of 1e-12. */
  predicate Close(a: real, b: real) {
    Abs(a - b) <= Max(0.000000001 * Max(Abs(a), Abs(b)), 0.000000000001)
  }

  datatype Criterion = Criterion(name: string, largest: bool)

  const CRITERIA: seq<Criterion> := [
    Criterion("uncertainty_width", false), Criterion("data_quality", true),
    Criterion("failure_risk", false), Criterion("historical_reliability", true)]

  function Value(f: Finalist, name: string): Option<real> {
    if name == "uncertainty_width" then f.uncertaintyWidth
    else if name == "data_quality" then f.dataQuality
    else if name == "failure_risk" then
      if f.failureRisk.None? then f.adversarialMateriality else f.failureRisk
    else f.historicalReliability
  }

  /** The best value of a criterion among the remaining finalists. */
  function Target(remaining: seq<string>, byId: map<string, Finalist>, c: Criterion): real
    requires remaining != [] && forall id :: id in remaining ==> id in byId && Value(byId[id], c.name).Some?
  {
    var v := Value(byId[remaining[0]], c.name).value;
    if |remaining| == 1 then v
    else
      var w := Target(remaining[1..], byId, c);
      if c.largest == (v >= w) then v else w
  }

  function KeepClose(remaining: seq<string>, byId: map<string, Finalist>, c: Criterion, target: real): seq<string>
    requires forall id :: id in remaining ==> id in byId && Value(byId[id], c.name).Some?
  {
    if remaining == [] then []
    else
      var rest := KeepClose(remaining[1..], byId, c, target);
      if Close(Value(byId[remaining[0]], c.name).value, target) then [remaining[0]] + rest else rest
  }

  datatype Narrowed = Left(ids: seq<string>) | Missing(field: string)

  function Narrow(remaining: seq<string>, byId: map<string, Finalist>, criteria: seq<Criterion>): Narrowed
    requires forall id :: id in remaining ==> id in byId
    decreases |criteria|
  {
    if criteria == [] || |remaining| < 2 then Left(remaining)
    else
      var c := criteria[0];
      if exists id :: id in remaining && Value(byId[id], c.name).None? then Missing(c.name)
      else
        KeepCloseSubset(remaining, byId, c, Target(remaining, byId, c));
        Narrow(KeepClose(remaining, byId, c, Target(remaining, byId, c)), byId, criteria[1..])
  }

  lemma {:induction false} KeepCloseSubset(
    remaining: seq<string>, byId: map<string, Finalist>, c: Criterion, target: real)
    requires forall id :: id in remaining ==> id in byId && Value(byId[id], c.name).Some?
    ensures forall id :: id in KeepClose(remaining, byId, c, target) <==>
      id in remaining && Close(Value(byId[id], c.name).value, target)
  {
    if remaining != [] {
      KeepCloseSubset(remaining[1..], byId, c, target);
    }
  }

  /** Position in the user's order; a repeated identity counts at its last place. */
  function Places(userOrder: seq<string>): map<string, nat> {
    if userOrder == [] then map[]
    else Places(userOrder[..|userOrder| - 1])[userOrder[|userOrder| - 1] := |userOrder| - 1]
  }

  function Rank(id: string, places: map<string, nat>): nat {
    if id in places then places[id] else |places| + 100000
  }

  predicate Before(a: string, b: string, places: map<string, nat>) {
    Rank(a, places) < Rank(b, places) || (Rank(a, places) == Rank(b, places) && Less(a, b))
  }

  /** First of the remaining finalists by user order, then identity. */
  function Foremost(remaining: seq<string>, places: map<string, nat>): string
    requires remaining != []
  {
    if |remaining| == 1 then remaining[0]
    else
      var rest := Foremost(remaining[1..], places);
      if Before(rest, remaining[0], places) then rest else remaining[0]
  }

  function OrderMaximal(maximal: seq<string>, primary: string): seq<string> {
    [primary] + Sorted((set id | id in maximal) - {primary})
  }

  // The whole result --------------------------------------------------------

  predicate DistinctPairs(pairs: seq<Pair>) {
    forall i, j :: 0 <= i < j < |pairs| ==> !(pairs[i].left == pairs[j].left && pairs[i].right == pairs[j].right)
  }

  /** The checks of the result's own constructor; a refused result is an exception. */
  predicate ResultValid(c: Comparison) {
    && Ascending(c.finalistIds) && Ascending(c.maximal)
    && (forall id :: id in c.maximal ==> id in c.finalistIds)
    && (c.supported ==>
          && (set id | id in c.ordered) == (set id | id in c.maximal) && |c.ordered| == |c.maximal|
          && (if c.maximal != [] then c.ordered != [] && c.primary == Some(c.ordered[0]) else c.primary.None?))
    && (!c.supported ==> c.ordered == [] && c.primary.None?)
    && (c.primary.Some? ==> c.primary.value in c.maximal)
    && DistinctPairs(c.pairs)
  }

  function Checked(c: Comparison): Option<Comparison> {
    if ResultValid(c) then Some(c) else None
  }

  function UnknownResult(ids: seq<string>, reason: string): Comparison {
    Comparison(false, ids, map[], [], [], [], None, [reason])
  }

  function Table(ids: seq<string>, joint: Joint): map<string, map<string, real>>
    requires Measured(ids, joint)
  {
    map id | id in ids :: map d | d in joint.drawIds :: Strength(joint, id, d)
  }

  lemma {:induction false} RowKnown(row: map<string, Measure>, drawIds: seq<string>)
    requires forall d :: d in drawIds ==> d in row
    ensures RowReason(row, drawIds).None? <==> forall d :: d in drawIds ==> row[d].Known?
  {
    if drawIds != [] {
      RowKnown(row, drawIds[1..]);
      assert forall d :: d in drawIds <==> d == drawIds[0] || d in drawIds[1..];
    }
  }

  lemma {:induction false} RowsMeasured(ids: seq<string>, joint: Joint)
    requires forall id :: id in ids ==> id in joint.draws
    requires RowsReason(ids, joint).None?
    ensures Measured(ids, joint)
  {
    if ids != [] {
      RowKnown(joint.draws[ids[0]], joint.drawIds);
      RowsMeasured(ids[1..], joint);
      assert forall d :: d in joint.drawIds ==> d in joint.draws[ids[0]].Keys;
      assert forall id :: id in ids <==> id == ids[0] || id in ids[1..];
    }
  }

  lemma {:induction false} PairsWithin(ids: seq<string>, p: (string, string))
    requires p in Pairs(ids)
    ensures exists i, j :: 0 <= i < j < |ids| && p == (ids[i], ids[j])
  {
    var row := seq(|ids| - 1, i requires 0 <= i < |ids| - 1 => (ids[0], ids[i + 1]));
    if p in row {
      var k :| 0 <= k < |row| && row[k] == p;
      assert p == (ids[0], ids[k + 1]);
    } else {
      assert p in Pairs(ids[1..]);
      PairsWithin(ids[1..], p);
      var i, j :| 0 <= i < j < |ids[1..]| && p == (ids[1..][i], ids[1..][j]);
      assert p == (ids[i + 1], ids[j + 1]);
    }
  }

  /** Complete regions answer every pair, and every pair is measured. */
  lemma PairsReady(ids: seq<string>, joint: Joint)
    requires Measured(ids, joint) && RegionsComplete(ids, joint)
    ensures forall p :: p in Pairs(ids) ==> RegionFor(joint.regions, p).Some? && Measured([p.0, p.1], joint)
  {
    forall p | p in Pairs(ids) ensures RegionFor(joint.regions, p).Some? && Measured([p.0, p.1], joint) {
      PairsWithin(ids, p);
      RegionForNamed(joint.regions, p);
      assert p in Named(joint.regions);
      var r :| r in joint.regions && (r.left, r.right) == p;
      assert p.0 in ids && p.1 in ids;
    }
  }

  predicate Answered(pairs: seq<(string, string)>, joint: Joint) {
    forall p :: p in pairs ==> RegionFor(joint.regions, p).Some? && Measured([p.0, p.1], joint)
  }

  /** The judged pairs, each by its own region. */
  function Judged(pairs: seq<(string, string)>, joint: Joint): seq<Pair>
    requires Answered(pairs, joint)
  {
    if pairs == [] then []
    else
      RegionForNamed(joint.regions, pairs[0]);
      [PairResult(RegionFor(joint.regions, pairs[0]).value, joint)] + Judged(pairs[1..], joint)
  }

  function ById(candidates: seq<Finalist>): map<string, Finalist> {
    if candidates == [] then map[]
    else ById(candidates[..|candidates| - 1])[candidates[|candidates| - 1].id := candidates[|candidates| - 1]]
  }

  lemma {:induction false} ByIdKeys(candidates: seq<Finalist>)
    ensures ById(candidates).Keys == set id | id in Ids(candidates)
  {
    if candidates != [] {
      var front, last := candidates[..|candidates| - 1], candidates[|candidates| - 1];
      ByIdKeys(front);
      assert Ids(candidates) == Ids(front) + [last.id];
    }
  }

  lemma {:induction false} WithoutKeeps(ids: seq<string>, losers: set<string>)
    ensures forall id :: id in Without(ids, losers) <==> id in ids && id !in losers
  {
    if ids != [] {
      WithoutKeeps(ids[1..], losers);
    }
  }

  lemma {:induction false} TargetAttained(remaining: seq<string>, byId: map<string, Finalist>, c: Criterion)
    requires remaining != [] && forall id :: id in remaining ==> id in byId && Value(byId[id], c.name).Some?
    ensures exists id :: id in remaining && Value(byId[id], c.name).value == Target(remaining, byId, c)
    ensures forall id :: id in remaining ==>
      var v, t := Value(byId[id], c.name).value, Target(remaining, byId, c);
      if c.largest then v <= t else v >= t
  {
    if |remaining| > 1 {
      TargetAttained(remaining[1..], byId, c);
      var best :| best in remaining[1..] && Value(byId[best], c.name).value == Target(remaining[1..], byId, c);
      assert best in remaining;
      assert remaining[0] in remaining;
      assert Target(remaining, byId, c) in {Value(byId[remaining[0]], c.name).value, Value(byId[best], c.name).value};
      assert forall id :: id in remaining ==> id == remaining[0] || id in remaining[1..];
    } else {
      assert remaining[0] in remaining;
    }
  }

  /** Narrowing never empties the field: the finalist attaining each target stays. */
  lemma {:induction false} NarrowKeeps(remaining: seq<string>, byId: map<string, Finalist>, criteria: seq<Criterion>)
    requires remaining != [] && forall id :: id in remaining ==> id in byId
    ensures var n := Narrow(remaining, byId, criteria);
      n.Left? ==> n.ids != [] && forall id :: id in n.ids ==> id in remaining
    decreases |criteria|
  {
    if criteria != [] && |remaining| >= 2 {
      var c := criteria[0];
      if forall id :: id in remaining ==> Value(byId[id], c.name).Some? {
        var target := Target(remaining, byId, c);
        TargetAttained(remaining, byId, c);
        KeepCloseSubset(remaining, byId, c, target);
        var id :| id in remaining && Value(byId[id], c.name).value == target;
        assert Close(target, target);
        assert id in KeepClose(remaining, byId, c, target);
        NarrowKeeps(KeepClose(remaining, byId, c, target), byId, criteria[1..]);
      }
    }
  }

  lemma {:induction false} ForemostFirst(remaining: seq<string>, places: map<string, nat>)
    requires remaining != []
    ensures Foremost(remaining, places) in remaining
    ensures forall id :: id in remaining ==> !Before(id, Foremost(remaining, places), places)
  {
    if |remaining| > 1 {
      ForemostFirst(remaining[1..], places);
      var best := Foremost(remaining, places);
      forall id | id in remaining ensures !Before(id, best, places) {
        LessTotal(remaining[0], Foremost(remaining[1..], places));
        LessTotal(id, best);
        if id != remaining[0] {
          assert id in remaining[1..];
          BeforeTransitive(id, best, Foremost(remaining[1..], places), places);
        }
      }
    } else {
      LessTotal(remaining[0], remaining[0]);
    }
  }

  lemma BeforeTransitive(a: string, b: string, c: string, places: map<string, nat>)
    ensures Before(a, b, places) && Before(b, c, places) ==> Before(a, c, places)
  {
    if Less(a, b) && Less(b, c) {
      LessTransitive(a, b, c);
    }
  }

  function Resolve(ids: seq<string>, joint: Joint, byId: map<string, Finalist>, context: Context): Comparison
    requires Measured(ids, joint) && Answered(Pairs(ids), joint)
    requires forall id :: id in ids ==> id in byId
  {
    var pairs := Judged(Pairs(ids), joint);
    var maximal := Without(ids, Outranked(pairs));
    WithoutKeeps(ids, Outranked(pairs));
    if maximal == [] then UnknownResult(ids, "ROBUST_COMPARISON_CYCLE")
    else
      NarrowKeeps(maximal, byId, CRITERIA);
      match Narrow(maximal, byId, CRITERIA)
      case Missing(field) =>
        Comparison(false, ids, Table(ids, joint), pairs, maximal, [], None, ["TIE_BREAK_SUPPORT_UNKNOWN:" + field])
      case Left(remaining) =>
        var ordered := OrderMaximal(maximal, Foremost(remaining, Places(context.userOrder)));
        Comparison(true, ids, Table(ids, joint), pairs, maximal, ordered, Some(ordered[0]), [])
  }

  /** The first reason to leave the comparison unknown, in the order the checks are made. */
  function Refusal(candidates: seq<Finalist>, joint: Joint, context: Context): Option<string> {
    var ids := Ids(candidates);
    if !BaseSupported(candidates, joint, context) then Some("JOINT_COMPARISON_SUPPORT_UNKNOWN")
    else if RowsReason(ids, joint).Some? then RowsReason(ids, joint)
    else if !RegionsComplete(ids, joint) then Some("PAIRED_REGION_SET_INCOMPLETE")
    else
      RowsMeasured(ids, joint);
      PairsReady(ids, joint);
      PairsReason(Pairs(ids), joint)
  }

  function Result(finalists: seq<Finalist>, joint: Joint, context: Context): Option<Comparison> {
    var candidates := SortById(finalists);
    var ids := Ids(candidates);
    var refusal := Refusal(candidates, joint, context);
    if refusal.Some? then Checked(UnknownResult(ids, refusal.value))
    else
      RowsMeasured(ids, joint);
      PairsReady(ids, joint);
      ByIdKeys(candidates);
      Checked(Resolve(ids, joint, ById(candidates), context))
  }

  // The loops ---------------------------------------------------------------

  lemma {:induction false} JudgedAppend(pairs: seq<(string, string)>, p: (string, string), joint: Joint)
    requires Answered(pairs, joint) && Answered([p], joint) && Answered(pairs + [p], joint)
    ensures Judged(pairs + [p], joint) == Judged(pairs, joint) + Judged([p], joint)
  {
    if pairs == [] {
      assert pairs + [p] == [p];
    } else {
      assert Answered(pairs[1..], joint) && Answered(pairs[1..] + [p], joint);
      JudgedAppend(pairs[1..], p, joint);
      assert (pairs + [p])[1..] == pairs[1..] + [p];
    }
  }

  /** One finalist's strength on every common draw, or the reason it has none. */
  method StrengthRow(row: map<string, Measure>, drawIds: seq<string>)
    returns (reason: Option<string>, strengths: map<string, real>)
    requires forall d :: d in drawIds ==> d in row
    ensures reason == RowReason(row, drawIds)
    ensures reason.None? ==> (forall d :: d in drawIds ==> row[d].Known?)
    ensures reason.None? ==> strengths == map d | d in drawIds && row[d].Known? :: row[d].strength
  {
    strengths := map[];
    var k := 0;
    while k < |drawIds|
      invariant 0 <= k <= |drawIds|
      invariant RowReason(row, drawIds) == RowReason(row, drawIds[k..])
      invariant forall d :: d in drawIds[..k] ==> row[d].Known?
      invariant strengths == map d | d in drawIds[..k] && row[d].Known? :: row[d].strength
    {
      var draw := drawIds[k];
      match row[draw] {
        case Incomplete => return Some("JOINT_COMPONENT_DRAW_INCOMPLETE"), map[];
        case Invalid => return Some("JOINT_COMPONENT_DRAW_INVALID"), map[];
        case Unresolved => return Some("SELECTION_STRENGTH_UNKNOWN"), map[];
        case Known(strength) => strengths := strengths[draw := strength];
      }
      assert drawIds[..k + 1] == drawIds[..k] + [draw];
      k := k + 1;
    }
    assert drawIds[..k] == drawIds;
    reason := None;
  }

  lemma TableEmpty(joint: Joint)
    ensures Measured([], joint) && Table([], joint) == map[]
  {
  }

  lemma TableAppend(ids: seq<string>, id: string, joint: Joint, strengths: map<string, real>)
    requires Measured(ids, joint) && id in joint.draws
    requires forall d :: d in joint.drawIds ==> d in joint.draws[id] && joint.draws[id][d].Known?
    requires strengths.Keys == set d | d in joint.drawIds
    requires forall d :: d in joint.drawIds ==> strengths[d] == joint.draws[id][d].strength
    ensures Measured(ids + [id], joint)
    ensures Table(ids + [id], joint) == Table(ids, joint)[id := strengths]
  {
    var row := map d | d in joint.drawIds :: Strength(joint, id, d);
    assert row == strengths;
  }

  method StrengthTable(ids: seq<string>, joint: Joint)
    returns (reason: Option<string>, table: map<string, map<string, real>>)
    requires forall id :: id in ids ==> id in joint.draws
    ensures reason == RowsReason(ids, joint)
    ensures reason.None? ==> Measured(ids, joint) && table == Table(ids, joint)
  {
    hide RowReason, Measured, Table;
    table := map[];
    var k := 0;
    TableEmpty(joint);
    while k < |ids|
      invariant 0 <= k <= |ids|
      invariant RowsReason(ids, joint) == RowsReason(ids[k..], joint)
      invariant Measured(ids[..k], joint)
      invariant table == Table(ids[..k], joint)
    {
      var id := ids[k];
      var row := joint.draws[id];
      if row.Keys != (set d | d in joint.drawIds) {
        return Some("COMMON_DRAW_SET_INCOMPLETE"), map[];
      }
      assert forall d :: d in joint.drawIds ==> d in row.Keys;
      var strengths;
      reason, strengths := StrengthRow(row, joint.drawIds);
      if reason.Some? {
        return reason, map[];
      }
      TableAppend(ids[..k], id, joint, strengths);
      assert ids[..k + 1] == ids[..k] + [id];
      table := table[id := strengths];
      k := k + 1;
    }
    assert ids[..k] == ids;
    reason := None;
  }

  lemma JudgedNone(joint: Joint)
    ensures Judged([], joint) == [] && Outranked([]) == {}
  {
  }

  lemma OutrankedAppend(pairs: seq<Pair>, last: Pair)
    ensures Outranked(pairs + [last]) ==
      if last.winner.None? then Outranked(pairs)
      else Outranked(pairs) + {if last.winner.value == last.left then last.right else last.left}
  {
    var all := pairs + [last];
    forall p ensures p in all <==> p in pairs || p == last {
    }
  }

  method JudgePairs(pairs: seq<(string, string)>, joint: Joint)
    returns (reason: Option<string>, judged: seq<Pair>, outranked: set<string>)
    requires Answered(pairs, joint)
    ensures reason == PairsReason(pairs, joint)
    ensures reason.None? ==> judged == Judged(pairs, joint) && outranked == Outranked(judged)
  {
    hide Covers, RegionFor, Outranked;
    JudgedNone(joint);
    judged, outranked := [], {};
    var k := 0;
    while k < |pairs|
      invariant 0 <= k <= |pairs|
      invariant PairsReason(pairs, joint) == PairsReason(pairs[k..], joint)
      invariant judged == Judged(pairs[..k], joint)
      invariant outranked == Outranked(judged)
    {
      RegionForNamed(joint.regions, pairs[k]);
      assert pairs[k..][0] == pairs[k] && pairs[k..][1..] == pairs[k + 1..];
      var region := RegionFor(joint.regions, pairs[k]).value;
      if !region.supported || region.rule != joint.rule {
        return Some("PAIRED_REGION_SUPPORT_UNKNOWN"), [], {};
      }
      if !Covers(region, joint) {
        return Some("PAIRED_REGION_DOES_NOT_COVER_COMMON_DRAWS"), [], {};
      }
      var winner := Winner(region);
      OutrankedAppend(judged, PairResult(region, joint));
      if winner.Some? {
        outranked := outranked + {if winner.value == region.left then region.right else region.left};
      }
      JudgedAppend(pairs[..k], pairs[k], joint);
      assert pairs[..k + 1] == pairs[..k] + [pairs[k]];
      judged := judged + [PairResult(region, joint)];
      k := k + 1;
    }
    assert pairs[..k] == pairs;
    reason := None;
  }

  method AllKnown(ids: seq<string>, byId: map<string, Finalist>, name: string) returns (known: bool)
    requires forall id :: id in ids ==> id in byId
    ensures known <==> forall id :: id in ids ==> Value(byId[id], name).Some?
  {
    hide Value;
    var i := 0;
    while i < |ids|
      invariant 0 <= i <= |ids|
      invariant forall id :: id in ids[..i] ==> Value(byId[id], name).Some?
    {
      if Value(byId[ids[i]], name).None? {
        assert ids[i] in ids;
        return false;
      }
      i := i + 1;
    }
    assert ids[..i] == ids;
    known := true;
  }

  method OrderMaximalSet(maximal: seq<string>, byId: map<string, Finalist>, userOrder: seq<string>)
    returns (ordered: seq<string>, missing: Option<string>)
    requires maximal != [] && forall id :: id in maximal ==> id in byId
    ensures match Narrow(maximal, byId, CRITERIA)
      case Missing(field) => ordered == [] && missing == Some(field)
      case Left(remaining) =>
        remaining != [] && missing.None? && ordered != [] &&
        ordered == OrderMaximal(maximal, Foremost(remaining, Places(userOrder)))
  {
    hide Value, Target, KeepClose, Close, Places, Foremost, Sorted;
    NarrowKeeps(maximal, byId, CRITERIA);
    var remaining, k := maximal, 0;
    while k < |CRITERIA| && |remaining| >= 2
      invariant 0 <= k <= |CRITERIA|
      invariant forall id :: id in remaining ==> id in byId
      invariant Narrow(maximal, byId, CRITERIA) == Narrow(remaining, byId, CRITERIA[k..])
    {
      var c := CRITERIA[k];
      var known := AllKnown(remaining, byId, c.name);
      if !known {
        return [], Some(c.name);
      }
      var target := Target(remaining, byId, c);
      KeepCloseSubset(remaining, byId, c, target);
      remaining := KeepClose(remaining, byId, c, target);
      k := k + 1;
    }
    ordered, missing := OrderMaximal(maximal, Foremost(remaining, Places(userOrder))), None;
  }

  method Compare(finalists: seq<Finalist>, joint: Joint, context: Context) returns (r: Option<Comparison>)
    ensures r == Result(finalists, joint, context)
  {
    hide Narrow, Judged, PairsReason, RowsReason, Pairs, ResultValid, SortById, ById, Table, OrderMaximal;
    var candidates := SortById(finalists);
    var ids := Ids(candidates);
    if !BaseSupported(candidates, joint, context) {
      return Checked(UnknownResult(ids, "JOINT_COMPARISON_SUPPORT_UNKNOWN"));
    }
    var reason, table := StrengthTable(ids, joint);
    if reason.Some? {
      return Checked(UnknownResult(ids, reason.value));
    }
    if !RegionsComplete(ids, joint) {
      return Checked(UnknownResult(ids, "PAIRED_REGION_SET_INCOMPLETE"));
    }
    PairsReady(ids, joint);
    ByIdKeys(candidates);
    var judged, outranked;
    reason, judged, outranked := JudgePairs(Pairs(ids), joint);
    if reason.Some? {
      return Checked(UnknownResult(ids, reason.value));
    }
    var maximal := Without(ids, outranked);
    WithoutKeeps(ids, outranked);
    if maximal == [] {
      return Checked(UnknownResult(ids, "ROBUST_COMPARISON_CYCLE"));
    }
    var ordered, missing := OrderMaximalSet(maximal, ById(candidates), context.userOrder);
    if missing.Some? {
      return Checked(Comparison(false, ids, table, judged, maximal, [], None,
                                ["TIE_BREAK_SUPPORT_UNKNOWN:" + missing.value]));
    }
    r := Checked(Comparison(true, ids, table, judged, maximal, ordered, Some(ordered[0]), []));
  }
}
