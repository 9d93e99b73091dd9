/** What a finalist comparison says, read off the finalists and regions themselves: who can be
    compared, who is beaten, and how the tie is broken. */
module ComparisonMeaning {
  import opened Wrappers
  import opened Order
  import opened Finalists
  import opened ComparisonLaws

  // The tie-break -----------------------------------------------------------

  function Width(f: Finalist): Option<real> {
    f.uncertaintyWidth
  }

  function Quality(f: Finalist): Option<real> {
    f.dataQuality
  }

  function Risk(f: Finalist): Option<real> {
    if f.failureRisk.Some? then f.failureRisk else f.adversarialMateriality
  }

  function Reliability(f: Finalist): Option<real> {
    f.historicalReliability
  }

  /** Apart by at most a billionth of the larger magnitude, or by at most 1e-12. */
  predicate Near(a: real, b: real) {
    var apart := if a < b then b - a else a - b;
    || apart <= 0.000000000001
    || apart <= 0.000000001 * (if a < 0.0 then -a else a)
    || apart <= 0.000000001 * (if b < 0.0 then -b else b)
  }

  /** Every rival has the value, unless there is no rival. */
  predicate Told(field: set<Finalist>, value: Finalist -> Option<real>) {
    |field| < 2 || forall f :: f in field ==> value(f).Some?
  }

  /** The least, or greatest, of the field's values. */
  predicate Top(best: real, field: set<Finalist>, value: Finalist -> Option<real>, greatest: bool) {
    && (exists g :: g in field && value(g) == Some(best))
    && forall g :: g in field ==>
         value(g).Some? && if greatest then value(g).value <= best else value(g).value >= best
  }

  ghost predicate NearTop(f: Finalist, field: set<Finalist>, value: Finalist -> Option<real>, greatest: bool) {
    exists best :: Top(best, field, value, greatest) && value(f).Some? && Near(value(f).value, best)
  }

  /** Of two or more rivals, those near the least, or greatest, value of all. */
  ghost function Keep(field: set<Finalist>, value: Finalist -> Option<real>, greatest: bool): set<Finalist> {
    if |field| < 2 then field
    else set f | f in field && NearTop(f, field, value, greatest)
  }

  /** The finalists of a list of identities. */
  function Chosen(ids: seq<string>, byId: map<string, Finalist>): set<Finalist>
    requires forall id :: id in ids ==> id in byId
  {
    set id | id in ids :: byId[id]
  }

  predicate Directory(byId: map<string, Finalist>) {
    forall id :: id in byId ==> byId[id].id == id
  }

  lemma ChosenSize(ids: seq<string>, byId: map<string, Finalist>)
    requires Directory(byId) && Ascending(ids) && forall id :: id in ids ==> id in byId
    ensures |Chosen(ids, byId)| == |ids|
    decreases |ids|
  {
    if ids != [] {
      ChosenSize(ids[1..], byId);
      AscendingDistinct(ids);
      assert Chosen(ids, byId) == {byId[ids[0]]} + Chosen(ids[1..], byId);
    } else {
      assert Chosen(ids, byId) == {};
    }
  }

  lemma NearIff(a: real, b: real)
    ensures Near(a, b) <==> Close(a, b)
  {
  }

  /** One criterion of the loop is one round of keeping. */
  lemma KeepStep(ids: seq<string>, byId: map<string, Finalist>, criteria: seq<Criterion>,
                 value: Finalist -> Option<real>)
    returns (next: seq<string>)
    requires Directory(byId) && Ascending(ids) && ids != [] && forall id :: id in ids ==> id in byId
    requires criteria != [] && forall f :: Value(f, criteria[0].name) == value(f)
    ensures forall id :: id in next ==> id in ids
    ensures !Told(Chosen(ids, byId), value) ==> Narrow(ids, byId, criteria) == Missing(criteria[0].name)
    ensures Told(Chosen(ids, byId), value) ==>
      && Ascending(next) && next != []
      && Narrow(ids, byId, criteria) == Narrow(next, byId, criteria[1..])
      && Chosen(next, byId) == Keep(Chosen(ids, byId), value, criteria[0].largest)
  {
    hide Value, Close, Near, Target, KeepClose, Ascending;
    var field, c := Chosen(ids, byId), criteria[0];
    ChosenSize(ids, byId);
    forall id | id in ids ensures byId[id] in field {
    }
    next := ids;
    if |ids| >= 2 && Told(field, value) {
      var target := Target(ids, byId, c);
      next := KeepClose(ids, byId, c, target);
      KeepCloseSubset(ids, byId, c, target);
      KeepCloseAscends(ids, byId, c, target);
      TargetAttained(ids, byId, c);
      CloseItself(target);
      var first :| first in ids && Value(byId[first], c.name).value == target;
      assert first in next;
      assert Top(target, field, value, c.largest) by {
        assert byId[first] in field && value(byId[first]) == Some(target);
      }
      forall f ensures f in Chosen(next, byId) <==> f in Keep(field, value, c.largest) {
        if f in field {
          var id :| id in ids && byId[id] == f;
          assert id in next <==> Close(value(f).value, target);
          NearIff(value(f).value, target);
          forall best | Top(best, field, value, c.largest) ensures best == target {
          }
        }
        if f in Chosen(next, byId) {
          var id :| id in next && byId[id] == f;
          assert f in field;
        }
      }
    }
  }

  // The user's order --------------------------------------------------------

  /** An identity's rank: the place where the user last named it, or one behind all places. */
  predicate RankIs(userOrder: seq<string>, id: string, n: nat) {
    if id in userOrder then
      n < |userOrder| && userOrder[n] == id && forall j :: n < j < |userOrder| ==> userOrder[j] != id
    else n == |set x | x in userOrder| + 100000
  }

  lemma {:induction false} PlacesMean(userOrder: seq<string>)
    ensures Places(userOrder).Keys == set x | x in userOrder
    ensures forall id :: id in userOrder ==> RankIs(userOrder, id, Places(userOrder)[id])
  {
    if userOrder != [] {
      var front, last := userOrder[..|userOrder| - 1], userOrder[|userOrder| - 1];
      PlacesMean(front);
      assert userOrder == front + [last];
      forall id | id in userOrder ensures RankIs(userOrder, id, Places(userOrder)[id]) {
        if id != last { assert id in front; }
      }
    }
  }

  lemma RankMeans(userOrder: seq<string>, id: string, n: nat)
    ensures RankIs(userOrder, id, n) <==> n == Rank(id, Places(userOrder))
  {
    hide Places;
    PlacesMean(userOrder);
    var places := Places(userOrder);
    assert places.Keys == set x | x in userOrder;
    assert |places| == |places.Keys|;
    assert id in places <==> id in userOrder;
    if id in userOrder && RankIs(userOrder, id, n) {
      var m := places[id];
      assert RankIs(userOrder, id, m);
      assert !(m < n) && !(n < m);
    }
  }

  // The whole result --------------------------------------------------------

  /** The four rounds of the loop. */
  lemma NarrowMeans(ids: seq<string>, byId: map<string, Finalist>) returns (left: seq<string>)
    requires Directory(byId) && Ascending(ids) && ids != [] && forall id :: id in ids ==> id in byId
    ensures forall id :: id in left ==> id in ids
    ensures var s0 := Chosen(ids, byId);
      var s1 := Keep(s0, Width, false);
      var s2 := Keep(s1, Quality, true);
      var s3 := Keep(s2, Risk, false);
      var s4 := Keep(s3, Reliability, true);
      if !Told(s0, Width) then Narrow(ids, byId, CRITERIA) == Missing("uncertainty_width")
      else if !Told(s1, Quality) then Narrow(ids, byId, CRITERIA) == Missing("data_quality")
      else if !Told(s2, Risk) then Narrow(ids, byId, CRITERIA) == Missing("failure_risk")
      else if !Told(s3, Reliability) then Narrow(ids, byId, CRITERIA) == Missing("historical_reliability")
      else Narrow(ids, byId, CRITERIA) == Left(left) && Chosen(left, byId) == s4
  {
    hide Narrow, Keep, Told, Chosen, Ascending;
    left := KeepStep(ids, byId, CRITERIA, Width);
    if Told(Chosen(ids, byId), Width) {
      left := KeepStep(left, byId, CRITERIA[1..], Quality);
      if Told(Keep(Chosen(ids, byId), Width, false), Quality) {
        left := KeepStep(left, byId, CRITERIA[2..], Risk);
        if Told(Keep(Keep(Chosen(ids, byId), Width, false), Quality, true), Risk) {
          left := KeepStep(left, byId, CRITERIA[3..], Reliability);
          assert CRITERIA[3..][1..] == CRITERIA[4..];
          NarrowDone(left, byId);
        }
      }
    }
  }

  lemma NarrowDone(ids: seq<string>, byId: map<string, Finalist>)
    requires forall id :: id in ids ==> id in byId
    ensures Narrow(ids, byId, CRITERIA[4..]) == Left(ids)
  {
  }

  /** The winner stands before every other by rank, and by identity where ranks are equal. */
  ghost predicate Leads(winner: string, others: set<Finalist>, userOrder: seq<string>) {
    forall f, m, n :: f in others && f.id != winner && RankIs(userOrder, winner, m) && RankIs(userOrder, f.id, n) ==>
      m < n || (m == n && Less(winner, f.id))
  }

  lemma ForemostLeads(left: seq<string>, byId: map<string, Finalist>, userOrder: seq<string>)
    requires Directory(byId) && left != [] && forall id :: id in left ==> id in byId
    ensures Foremost(left, Places(userOrder)) in left
    ensures Leads(Foremost(left, Places(userOrder)), Chosen(left, byId), userOrder)
  {
    hide Foremost, Places, RankIs;
    var winner := Foremost(left, Places(userOrder));
    ForemostFirst(left, Places(userOrder));
    forall f, m, n | f in Chosen(left, byId) && f.id != winner
        && RankIs(userOrder, winner, m) && RankIs(userOrder, f.id, n)
      ensures m < n || (m == n && Less(winner, f.id))
    {
      RankMeans(userOrder, winner, m);
      RankMeans(userOrder, f.id, n);
      LessTotal(winner, f.id);
      assert f.id in left;
      assert !Before(f.id, winner, Places(userOrder));
    }
  }

  lemma {:induction false} ByIdDirectory(s: seq<Finalist>)
    ensures Directory(ById(s)) && forall id :: id in ById(s) ==> ById(s)[id] in s
  {
    if s != [] { ByIdDirectory(s[..|s| - 1]); }
  }

  /** The directory of the sorted finalists picks out of the given ones by identity. */
  lemma ChosenFrom(finalists: seq<Finalist>, ids: seq<string>)
    requires DistinctIds(finalists) && forall id :: id in ids ==> id in ById(SortById(finalists))
    ensures Chosen(ids, ById(SortById(finalists))) == set f | f in finalists && f.id in ids
  {
    hide SortById, ById;
    var byId := ById(SortById(finalists));
    SortByIdSorts(finalists);
    ByIdDirectory(SortById(finalists));
    forall f ensures f in finalists <==> f in SortById(finalists) {
      assert f in multiset(finalists) <==> f in multiset(SortById(finalists));
    }
    forall f ensures f in Chosen(ids, byId) <==> f in finalists && f.id in ids {
      if f in finalists && f.id in ids {
        assert byId[f.id] in finalists;
        assert byId[f.id].id == f.id;
      }
    }
  }

  /** From the finalists of the maximal set only those near the least uncertainty stay, then
      near the best data quality, then near the least failure risk, or adversarial materiality
      in its absence, then near the greatest historical reliability. The result is supported
      exactly when no value was missing while two or more remained, and the primary leads the
      finalists left in the user's order. */
  lemma TieBreakMeans(finalists: seq<Finalist>, joint: Joint, context: Context)
    requires joint.Valid() && DistinctIds(finalists)
    ensures Result(finalists, joint, context).Some?
    ensures var r := Result(finalists, joint, context).value;
      r.maximal != [] ==>
        var s0 := set f | f in finalists && f.id in r.maximal;
        var s1 := Keep(s0, Width, false);
        var s2 := Keep(s1, Quality, true);
        var s3 := Keep(s2, Risk, false);
        var s4 := Keep(s3, Reliability, true);
        && (r.supported <==> Told(s0, Width) && Told(s1, Quality) && Told(s2, Risk) && Told(s3, Reliability))
        && (r.supported ==> exists f :: f in s4 && r.primary == Some(f.id) && Leads(f.id, s4, context.userOrder))
        && r.reasons ==
             (if !Told(s0, Width) then ["TIE_BREAK_SUPPORT_UNKNOWN:" + "uncertainty_width"]
              else if !Told(s1, Quality) then ["TIE_BREAK_SUPPORT_UNKNOWN:" + "data_quality"]
              else if !Told(s2, Risk) then ["TIE_BREAK_SUPPORT_UNKNOWN:" + "failure_risk"]
              else if !Told(s3, Reliability) then ["TIE_BREAK_SUPPORT_UNKNOWN:" + "historical_reliability"]
              else [])
  {
    hide Judged, PairsReason, RowsReason, Pairs, SortById, ById, Table, Refusal, ResultValid;
    hide RegionsComplete, Measured, Answered, Outranked, BaseSupported, Resolve;
    hide Keep, Told, Leads, Ids, Ascending, Chosen;
    ResultIff(finalists, joint, context);
    var candidates := SortById(finalists);
    var ids := Ids(candidates);
    if Refusal(candidates, joint, context).None? {
      Unrefused(candidates, joint, context);
      ByIdDirectory(candidates);
      ResolveBreaks(ids, joint, ById(candidates), context);
      ChosenFrom(finalists, Resolve(ids, joint, ById(candidates), context).maximal);
    }
  }

  lemma ResolveBreaks(ids: seq<string>, joint: Joint, byId: map<string, Finalist>, context: Context)
    requires Directory(byId) && Ascending(ids) && Measured(ids, joint) && Answered(Pairs(ids), joint)
    requires forall id :: id in ids ==> id in byId
    ensures var r := Resolve(ids, joint, byId, context);
      && (forall id :: id in r.maximal ==> id in byId)
      && (r.maximal != [] ==>
        var s0 := Chosen(r.maximal, byId);
        var s1 := Keep(s0, Width, false);
        var s2 := Keep(s1, Quality, true);
        var s3 := Keep(s2, Risk, false);
        var s4 := Keep(s3, Reliability, true);
        && (r.supported <==> Told(s0, Width) && Told(s1, Quality) && Told(s2, Risk) && Told(s3, Reliability))
        && (r.supported ==> exists f :: f in s4 && r.primary == Some(f.id) && Leads(f.id, s4, context.userOrder))
        && r.reasons ==
             (if !Told(s0, Width) then ["TIE_BREAK_SUPPORT_UNKNOWN:" + "uncertainty_width"]
              else if !Told(s1, Quality) then ["TIE_BREAK_SUPPORT_UNKNOWN:" + "data_quality"]
              else if !Told(s2, Risk) then ["TIE_BREAK_SUPPORT_UNKNOWN:" + "failure_risk"]
              else if !Told(s3, Reliability) then ["TIE_BREAK_SUPPORT_UNKNOWN:" + "historical_reliability"]
              else []))
  {
    hide Pairs, Judged, Answered, Measured, Outranked, Narrow, Foremost, Places, Without;
    hide Keep, Told, Leads, Ascending, Chosen, Table;
    var losers := Outranked(Judged(Pairs(ids), joint));
    var maximal := Without(ids, losers);
    WithoutKeeps(ids, losers);
    WithoutAscends(ids, losers);
    if maximal != [] {
      NarrowKeeps(maximal, byId, CRITERIA);
      var left := NarrowMeans(maximal, byId);
      if Narrow(maximal, byId, CRITERIA).Left? {
        ForemostLeads(left, byId, context.userOrder);
        ChosenHas(left, byId, Foremost(left, Places(context.userOrder)));
      }
    }
  }

  lemma ChosenHas(ids: seq<string>, byId: map<string, Finalist>, id: string)
    requires Directory(byId) && id in ids && forall k :: k in ids ==> k in byId
    ensures byId[id] in Chosen(ids, byId) && byId[id].id == id
  {
  }

  // Who can be compared -----------------------------------------------------

  function IdsOf(finalists: seq<Finalist>): set<string> {
    set f | f in finalists :: f.id
  }

  /** Every finalist passes its gate, and the supported joint draws are of exactly these. */
  predicate Ready(finalists: seq<Finalist>, joint: Joint, context: Context) {
    && finalists != [] && context.identityMatches && context.strengthDefined
    && joint.supported && joint.drawIds != []
    && (forall f :: f in finalists ==> f.gate.Pass?)
    && (set id | id in joint.finalistIds) == IdsOf(finalists)
    && joint.draws.Keys == IdsOf(finalists)
  }

  /** The identity has a known strength on every common draw and on no other. */
  predicate Drawn(id: string, joint: Joint) {
    && id in joint.draws && joint.draws[id].Keys == (set d | d in joint.drawIds)
    && forall d :: d in joint.draws[id] ==> joint.draws[id][d].Known?
  }

  /** Any two finalists have a region, and every region is of two finalists. */
  predicate Paired(finalists: seq<Finalist>, joint: Joint) {
    && (forall f, g :: f in finalists && g in finalists && Less(f.id, g.id) ==>
          exists r :: r in joint.regions && r.left == f.id && r.right == g.id)
    && (forall r :: r in joint.regions ==> r.left in IdsOf(finalists) && r.right in IdsOf(finalists))
  }

  /** The region is supported under the joint rule and contains every difference drawn. */
  predicate Bracketed(r: Region, joint: Joint)
    requires Drawn(r.left, joint) && Drawn(r.right, joint)
  {
    && r.supported && r.rule == joint.rule
    && forall d :: d in joint.drawIds ==>
         && d in joint.draws[r.left] && d in joint.draws[r.right]
         && r.lower <= joint.draws[r.left][d].strength - joint.draws[r.right][d].strength <= r.upper
  }

  lemma SameIds(finalists: seq<Finalist>)
    ensures (set id | id in Ids(SortById(finalists))) == IdsOf(finalists)
    ensures forall f :: f in SortById(finalists) <==> f in finalists
  {
    var s := SortById(finalists);
    SortByIdSorts(finalists);
    forall f ensures f in s <==> f in finalists {
      assert f in multiset(s) <==> f in multiset(finalists);
    }
    forall id ensures id in Ids(s) <==> id in IdsOf(finalists) {
      if id in Ids(s) {
        var k :| 0 <= k < |s| && Ids(s)[k] == id;
        assert s[k] in finalists;
      }
      if id in IdsOf(finalists) {
        var f :| f in finalists && f.id == id;
        var k :| 0 <= k < |s| && s[k] == f;
        assert Ids(s)[k] == id;
      }
    }
  }

  lemma ReadyIff(finalists: seq<Finalist>, joint: Joint, context: Context)
    requires joint.Valid() && DistinctIds(finalists)
    ensures BaseSupported(SortById(finalists), joint, context) <==> Ready(finalists, joint, context)
  {
    hide SortById, Less;
    var s := SortById(finalists);
    SameIds(finalists);
    SortByIdSorts(finalists);
    CandidatesAscend(finalists);
    assert |s| == |multiset(s)| == |multiset(finalists)| == |finalists|;
    assert forall i :: 0 <= i < |s| ==> s[i] in s;
    assert forall f :: f in s ==> exists i :: 0 <= i < |s| && s[i] == f;
    if (set id | id in joint.finalistIds) == IdsOf(finalists) {
      var given, sorted := set x | x in joint.finalistIds, set x | x in Ids(s);
      assert given == sorted;
      forall id ensures id in joint.finalistIds <==> id in Ids(s) {
        assert id in given <==> id in sorted;
      }
      AscendingUnique(joint.finalistIds, Ids(s));
    }
  }

  lemma RowIff(id: string, joint: Joint)
    requires id in joint.draws && joint.draws[id].Keys == (set d | d in joint.drawIds)
    ensures forall d :: d in joint.drawIds ==> d in joint.draws[id]
    ensures RowReason(joint.draws[id], joint.drawIds).None? <==> Drawn(id, joint)
  {
    assert forall d :: d in joint.drawIds ==> d in joint.draws[id].Keys;
    RowKnown(joint.draws[id], joint.drawIds);
  }

  /** The reason of the first finalist not drawn: a wrong set of draws, or its first draw that
      has no strength. */
  lemma {:induction false} RowsFirst(ids: seq<string>, joint: Joint, k: nat)
    requires forall id :: id in ids ==> id in joint.draws
    requires k <= |ids| && forall i :: 0 <= i < k ==> Drawn(ids[i], joint)
    requires k < |ids| ==> !Drawn(ids[k], joint)
    ensures k == |ids| ==> RowsReason(ids, joint).None?
    ensures k < |ids| ==>
      var row := joint.draws[ids[k]];
      if row.Keys != (set d | d in joint.drawIds) then RowsReason(ids, joint) == Some("COMMON_DRAW_SET_INCOMPLETE")
      else
        exists i :: 0 <= i < |joint.drawIds| && Blamed(row, joint.drawIds, i, RowsReason(ids, joint))
    decreases k
  {
    if ids != [] {
      if k == 0 {
        if joint.draws[ids[0]].Keys == (set d | d in joint.drawIds) {
          RowIff(ids[0], joint);
          RowFirst(joint.draws[ids[0]], joint.drawIds);
          assert RowsReason(ids, joint) == RowReason(joint.draws[ids[0]], joint.drawIds);
        }
      } else {
        assert Drawn(ids[0], joint);
        RowIff(ids[0], joint);
        RowsFirst(ids[1..], joint, k - 1);
        assert RowsReason(ids, joint) == RowsReason(ids[1..], joint);
        assert k < |ids| ==> ids[1..][k - 1] == ids[k];
      }
    }
  }

  /** The draw at place `i` is the first without a strength, and the reason is its own. */
  predicate Blamed(row: map<string, Measure>, drawIds: seq<string>, i: nat, reason: Option<string>)
    requires i < |drawIds|
  {
    && (forall j :: 0 <= j < i ==> drawIds[j] in row && row[drawIds[j]].Known?)
    && drawIds[i] in row
    && match row[drawIds[i]]
       case Incomplete => reason == Some("JOINT_COMPONENT_DRAW_INCOMPLETE")
       case Invalid => reason == Some("JOINT_COMPONENT_DRAW_INVALID")
       case Unresolved => reason == Some("SELECTION_STRENGTH_UNKNOWN")
       case Known(_) => false
  }

  lemma {:induction false} RowFirst(row: map<string, Measure>, drawIds: seq<string>)
    requires forall d :: d in drawIds ==> d in row
    requires RowReason(row, drawIds).Some?
    ensures exists i :: 0 <= i < |drawIds| && Blamed(row, drawIds, i, RowReason(row, drawIds))
  {
    if row[drawIds[0]].Known? {
      RowFirst(row, drawIds[1..]);
      var i :| 0 <= i < |drawIds[1..]| && Blamed(row, drawIds[1..], i, RowReason(row, drawIds[1..]));
      forall j | 0 <= j < i + 1 ensures drawIds[j] in row && row[drawIds[j]].Known? {
        if j > 0 { assert drawIds[1..][j - 1] == drawIds[j]; }
      }
      assert Blamed(row, drawIds, i + 1, RowReason(row, drawIds));
    } else {
      assert Blamed(row, drawIds, 0, RowReason(row, drawIds));
    }
  }

  lemma RowsIff(ids: seq<string>, joint: Joint)
    requires forall id :: id in ids ==> id in joint.draws
    ensures RowsReason(ids, joint).None? <==> forall id :: id in ids ==> Drawn(id, joint)
  {
    hide Drawn;
    if ids != [] {
      RowsIff(ids[1..], joint);
      assert forall id :: id in ids <==> id == ids[0] || id in ids[1..];
      if joint.draws[ids[0]].Keys == (set d | d in joint.drawIds) {
        RowIff(ids[0], joint);
      } else {
        UndrawnKeys(ids[0], joint);
      }
    }
  }

  lemma UndrawnKeys(id: string, joint: Joint)
    requires id in joint.draws && joint.draws[id].Keys != (set d | d in joint.drawIds)
    ensures !Drawn(id, joint)
  {
  }

  lemma {:induction false} PairsHave(ids: seq<string>, i: nat, j: nat)
    requires i < j < |ids|
    ensures (ids[i], ids[j]) in Pairs(ids)
  {
    var row := seq(|ids| - 1, k requires 0 <= k < |ids| - 1 => (ids[0], ids[k + 1]));
    if i == 0 {
      assert row[j - 1] == (ids[0], ids[j]);
    } else {
      PairsHave(ids[1..], i - 1, j - 1);
    }
  }

  lemma PairsAre(ids: seq<string>, p: (string, string))
    requires Ascending(ids)
    ensures p in Pairs(ids) <==> p.0 in ids && p.1 in ids && Less(p.0, p.1)
  {
    if p in Pairs(ids) { PairsWithin(ids, p); }
    if p.0 in ids && p.1 in ids && Less(p.0, p.1) {
      var i :| 0 <= i < |ids| && ids[i] == p.0;
      var j :| 0 <= j < |ids| && ids[j] == p.1;
      LessTotal(p.0, p.1);
      PairsHave(ids, i, j);
    }
  }

  lemma PairedIff(finalists: seq<Finalist>, joint: Joint)
    requires joint.Valid() && DistinctIds(finalists)
    ensures RegionsComplete(Ids(SortById(finalists)), joint) <==> Paired(finalists, joint)
  {
    hide SortById, Pairs, Less, Ids, DistinctIds;
    var ids := Ids(SortById(finalists));
    var required := set p | p in Pairs(ids);
    SameIds(finalists);
    CandidatesAscend(finalists);
    forall id ensures id in ids <==> id in IdsOf(finalists) {
      assert id in ids <==> id in (set x | x in ids);
    }
    forall p ensures p in required <==> p.0 in IdsOf(finalists) && p.1 in IdsOf(finalists) && Less(p.0, p.1) {
      PairsAre(ids, p);
    }
    if Paired(finalists, joint) {
      forall p ensures p in Named(joint.regions) <==> p in required {
        if p in required {
          var f :| f in finalists && f.id == p.0;
          var g :| g in finalists && g.id == p.1;
          var r :| r in joint.regions && r.left == f.id && r.right == g.id;
        }
      }
    }
    if RegionsComplete(ids, joint) {
      forall r | r in joint.regions ensures r.left in IdsOf(finalists) && r.right in IdsOf(finalists) {
        assert (r.left, r.right) in Named(joint.regions);
        assert (r.left, r.right) in required;
      }
      forall f, g | f in finalists && g in finalists && Less(f.id, g.id)
        ensures exists r :: r in joint.regions && r.left == f.id && r.right == g.id
      {
        assert (f.id, g.id) in required;
        assert (f.id, g.id) in Named(joint.regions);
      }
    }
  }

  predicate LexLess(p: (string, string), q: (string, string)) {
    Less(p.0, q.0) || (p.0 == q.0 && Less(p.1, q.1))
  }

  lemma {:induction false} PairsAscend(ids: seq<string>)
    requires Ascending(ids)
    ensures forall i, j :: 0 <= i < j < |Pairs(ids)| ==> LexLess(Pairs(ids)[i], Pairs(ids)[j])
  {
    if ids != [] {
      var row := seq(|ids| - 1, k requires 0 <= k < |ids| - 1 => (ids[0], ids[k + 1]));
      var rest := Pairs(ids[1..]);
      PairsAscend(ids[1..]);
      forall j | 0 <= j < |rest| ensures Less(ids[0], rest[j].0) {
        PairsWithin(ids[1..], rest[j]);
        assert rest[j].0 in ids[1..];
      }
      assert Pairs(ids) == row + rest;
    }
  }

  /** The first pair whose region gives a reason, if there is one. */
  lemma {:induction false} PairsFirst(pairs: seq<(string, string)>, joint: Joint) returns (k: nat)
    requires Answered(pairs, joint)
    ensures k <= |pairs| && (k == |pairs| <==> PairsReason(pairs, joint).None?)
    ensures forall j :: 0 <= j <= k && j < |pairs| ==>
      var r := RegionFor(joint.regions, pairs[j]).value;
      && r in joint.regions && (r.left, r.right) == pairs[j] && Measured([r.left, r.right], joint)
      && (if j < k then PairReason(r, joint).None?
          else PairsReason(pairs, joint).Some? && PairReason(r, joint) == PairsReason(pairs, joint))
    decreases |pairs|
  {
    hide PairReason;
    if pairs == [] {
      k := 0;
    } else {
      RegionForNamed(joint.regions, pairs[0]);
      if PairReason(RegionFor(joint.regions, pairs[0]).value, joint).Some? {
        k := 0;
      } else {
        var n := PairsFirst(pairs[1..], joint);
        k := n + 1;
        assert forall j :: 0 < j < |pairs| ==> pairs[j] == pairs[1..][j - 1];
      }
    }
  }

  predicate Fault(r: Region, joint: Joint, reason: Option<string>)
    requires Drawn(r.left, joint) && Drawn(r.right, joint)
  {
    if Bracketed(r, joint) then reason.None?
    else if !r.supported || r.rule != joint.rule then reason == Some("PAIRED_REGION_SUPPORT_UNKNOWN")
    else reason == Some("PAIRED_REGION_DOES_NOT_COVER_COMMON_DRAWS")
  }

  lemma FaultIs(r: Region, joint: Joint)
    requires Drawn(r.left, joint) && Drawn(r.right, joint)
    ensures Measured([r.left, r.right], joint) && Fault(r, joint, PairReason(r, joint))
  {
    forall id, d | id in [r.left, r.right] && d in joint.drawIds
      ensures d in joint.draws[id] && joint.draws[id][d].Known?
    {
      assert d in joint.draws[id].Keys;
    }
  }

  /** The first region, in the order of its pair, that does not bracket its draws. */
  lemma RegionsFirst(ids: seq<string>, joint: Joint)
    requires joint.Valid() && Ascending(ids) && RegionsComplete(ids, joint) && Answered(Pairs(ids), joint)
    requires forall r :: r in joint.regions ==> Drawn(r.left, joint) && Drawn(r.right, joint)
    ensures PairsReason(Pairs(ids), joint).None? <==> forall r :: r in joint.regions ==> Bracketed(r, joint)
    ensures PairsReason(Pairs(ids), joint).Some? ==>
      exists r :: r in joint.regions && Fault(r, joint, PairsReason(Pairs(ids), joint))
        && forall q :: q in joint.regions && LexLess((q.left, q.right), (r.left, r.right)) ==> Bracketed(q, joint)
  {
    hide Pairs, PairReason, Drawn, Bracketed, Measured, Answered, LexLess;
    var pairs := Pairs(ids);
    var k := PairsFirst(pairs, joint);
    PairsAscend(ids);
    forall q | q in joint.regions
      ensures exists m :: 0 <= m < |pairs| && pairs[m] == (q.left, q.right)
      ensures RegionFor(joint.regions, (q.left, q.right)) == Some(q)
      ensures Measured([q.left, q.right], joint)
      ensures Bracketed(q, joint) <==> PairReason(q, joint).None?
    {
      assert (q.left, q.right) in Named(joint.regions);
      assert (q.left, q.right) in pairs;
      RegionUnique(joint, q);
      FaultIs(q, joint);
    }
    if k < |pairs| {
      var r := RegionFor(joint.regions, pairs[k]).value;
      FaultIs(r, joint);
      forall q | q in joint.regions && LexLess((q.left, q.right), (r.left, r.right)) ensures Bracketed(q, joint) {
        var m :| 0 <= m < |pairs| && pairs[m] == (q.left, q.right);
        LexAsymmetric(pairs[k], pairs[m]);
      }
    }
  }

  lemma LexAsymmetric(p: (string, string), q: (string, string))
    ensures LexLess(p, q) ==> !LexLess(q, p) && p != q
  {
    LessTotal(p.0, q.0);
    LessTotal(p.1, q.1);
  }

  predicate AllDrawn(finalists: seq<Finalist>, joint: Joint) {
    forall f :: f in finalists ==> Drawn(f.id, joint)
  }

  /** Everything the comparison needs is there. */
  predicate Comparable(finalists: seq<Finalist>, joint: Joint, context: Context) {
    && Ready(finalists, joint, context) && AllDrawn(finalists, joint) && Paired(finalists, joint)
    && forall r :: r in joint.regions ==>
         Drawn(r.left, joint) && Drawn(r.right, joint) && Bracketed(r, joint)
  }

  /** The first finalist by identity that is not drawn, and why: a wrong set of draws, or the
      first draw without a strength. */
  predicate Undrawn(f: Finalist, finalists: seq<Finalist>, joint: Joint, reason: Option<string>) {
    && !Drawn(f.id, joint) && f.id in joint.draws
    && (forall g :: g in finalists && Less(g.id, f.id) ==> Drawn(g.id, joint))
    && if joint.draws[f.id].Keys != (set d | d in joint.drawIds) then reason == Some("COMMON_DRAW_SET_INCOMPLETE")
       else exists i :: 0 <= i < |joint.drawIds| && Blamed(joint.draws[f.id], joint.drawIds, i, reason)
  }

  /** The reason for leaving finalists uncompared: the first check they fail, and in it the
      first finalist by identity or the first region by its pair. */
  ghost predicate Because(finalists: seq<Finalist>, joint: Joint, context: Context, reason: string) {
    if !Ready(finalists, joint, context) then reason == "JOINT_COMPARISON_SUPPORT_UNKNOWN"
    else if !AllDrawn(finalists, joint) then
      exists f :: f in finalists && Undrawn(f, finalists, joint, Some(reason))
    else if !Paired(finalists, joint) then reason == "PAIRED_REGION_SET_INCOMPLETE"
    else
      exists r :: r in joint.regions && Drawn(r.left, joint) && Drawn(r.right, joint)
        && Fault(r, joint, Some(reason))
        && forall q :: q in joint.regions && LexLess((q.left, q.right), (r.left, r.right)) ==>
             Drawn(q.left, joint) && Drawn(q.right, joint) && Bracketed(q, joint)
  }

  lemma DrawnRows(finalists: seq<Finalist>, joint: Joint)
    requires DistinctIds(finalists) && joint.draws.Keys == IdsOf(finalists)
    ensures var ids := Ids(SortById(finalists));
      && (forall id :: id in ids ==> id in joint.draws)
      && (RowsReason(ids, joint).None? <==> AllDrawn(finalists, joint))
      && (RowsReason(ids, joint).Some? ==>
            exists f :: f in finalists && Undrawn(f, finalists, joint, RowsReason(ids, joint)))
  {
    hide SortById, Drawn, Undrawn, RowsReason, DistinctIds;
    var s, ids := SortById(finalists), Ids(SortById(finalists));
    SameIds(finalists);
    forall id ensures id in ids <==> id in IdsOf(finalists) {
      assert id in ids <==> id in (set x | x in ids);
    }
    assert forall id :: id in ids ==> id in joint.draws.Keys;
    RowsIff(ids, joint);
    if !AllDrawn(finalists, joint) {
      var k := FirstUndrawn(ids, joint);
      UndrawnAt(finalists, joint, k);
      assert s[k] in finalists;
    }
  }

  lemma UndrawnAt(finalists: seq<Finalist>, joint: Joint, k: nat)
    requires DistinctIds(finalists) && k < |SortById(finalists)|
    requires var ids := Ids(SortById(finalists));
      && (forall id :: id in ids ==> id in joint.draws)
      && !Drawn(ids[k], joint) && forall i :: 0 <= i < k ==> Drawn(ids[i], joint)
    ensures Undrawn(SortById(finalists)[k], finalists, joint, RowsReason(Ids(SortById(finalists)), joint))
  {
    hide SortById, Drawn, Blamed, RowsReason;
    var s, ids := SortById(finalists), Ids(SortById(finalists));
    SameIds(finalists);
    CandidatesAscend(finalists);
    RowsFirst(ids, joint, k);
    assert ids[k] == s[k].id;
    forall g | g in finalists && Less(g.id, s[k].id) ensures Drawn(g.id, joint) {
      var m :| 0 <= m < |s| && s[m] == g;
      assert ids[m] == g.id;
      LessTotal(ids[k], ids[m]);
    }
  }

  lemma {:induction false} FirstUndrawn(ids: seq<string>, joint: Joint) returns (k: nat)
    requires exists id :: id in ids && !Drawn(id, joint)
    ensures k < |ids| && !Drawn(ids[k], joint) && forall i :: 0 <= i < k ==> Drawn(ids[i], joint)
  {
    hide Drawn;
    if !Drawn(ids[0], joint) {
      k := 0;
    } else {
      var n := FirstUndrawn(ids[1..], joint);
      k := n + 1;
      assert forall i :: 0 < i < |ids| ==> ids[i] == ids[1..][i - 1];
    }
  }

  /** The comparison is refused exactly when something is missing, for the first reason. */
  lemma RefusalMeans(finalists: seq<Finalist>, joint: Joint, context: Context)
    requires joint.Valid() && DistinctIds(finalists)
    ensures var refusal := Refusal(SortById(finalists), joint, context);
      && (refusal.None? <==> Comparable(finalists, joint, context))
      && (refusal.Some? ==> Because(finalists, joint, context, refusal.value))
  {
    hide SortById, RowsReason, PairsReason, Pairs, BaseSupported, RegionsComplete, Measured, Answered, Ids, Less;
    hide Drawn, Bracketed, Blamed, Ready, Paired, AllDrawn, DistinctIds, Fault, LexLess;
    var ids := Ids(SortById(finalists));
    ReadyIff(finalists, joint, context);
    if Ready(finalists, joint, context) {
      ReadyDraws(finalists, joint, context);
      DrawnRows(finalists, joint);
      if AllDrawn(finalists, joint) {
        PairedIff(finalists, joint);
        if Paired(finalists, joint) {
          RowsMeasured(ids, joint);
          PairsAnswered(ids, joint);
          CandidatesAscend(finalists);
          PairedDrawn(finalists, joint);
          RegionsFirst(ids, joint);
        }
      }
    }
  }

  lemma ReadyDraws(finalists: seq<Finalist>, joint: Joint, context: Context)
    requires Ready(finalists, joint, context)
    ensures joint.draws.Keys == IdsOf(finalists)
  {
  }

  lemma PairedDrawn(finalists: seq<Finalist>, joint: Joint)
    requires AllDrawn(finalists, joint) && Paired(finalists, joint)
    ensures forall r :: r in joint.regions ==> Drawn(r.left, joint) && Drawn(r.right, joint)
  {
    hide Drawn;
  }

  /** The pair is what its region and the common draws say. */
  predicate PairOf(q: Region, p: Pair, joint: Joint)
    requires Drawn(q.left, joint) && Drawn(q.right, joint)
  {
    && p.left == q.left && p.right == q.right && p.lower == q.lower && p.upper == q.upper
    && p.differences.Keys == (set d | d in joint.drawIds)
    && (forall d :: d in p.differences ==>
          && d in joint.draws[q.left] && d in joint.draws[q.right]
          && p.differences[d] == joint.draws[q.left][d].strength - joint.draws[q.right][d].strength)
    && p.winner == if q.lower > 0.0 then Some(q.left) else if q.upper < 0.0 then Some(q.right) else None
  }

  lemma PairIs(r: Region, joint: Joint)
    requires Drawn(r.left, joint) && Drawn(r.right, joint)
    ensures Measured([r.left, r.right], joint) && PairOf(r, PairResult(r, joint), joint)
  {
    FaultIs(r, joint);
  }

  lemma JudgedMeans(ids: seq<string>, joint: Joint)
    requires joint.Valid() && Answered(Pairs(ids), joint) && RegionsComplete(ids, joint)
    requires PairsReason(Pairs(ids), joint).None?
    requires forall r :: r in joint.regions ==> Drawn(r.left, joint) && Drawn(r.right, joint)
    ensures forall r :: r in joint.regions ==> exists p :: p in Judged(Pairs(ids), joint) && PairOf(r, p, joint)
    ensures forall p :: p in Judged(Pairs(ids), joint) ==> exists r :: r in joint.regions && PairOf(r, p, joint)
  {
    hide Pairs, Judged, Drawn, PairOf, PairResult, Measured, Answered, PairsReason;
    forall r | r in joint.regions ensures exists p :: p in Judged(Pairs(ids), joint) && PairOf(r, p, joint) {
      assert (r.left, r.right) in Named(joint.regions);
      assert (r.left, r.right) in Pairs(ids);
      RegionUnique(joint, r);
      JudgedHas(Pairs(ids), joint, (r.left, r.right));
      PairIs(r, joint);
    }
    forall p | p in Judged(Pairs(ids), joint) ensures exists r :: r in joint.regions && PairOf(r, p, joint) {
      var r := JudgedFrom(Pairs(ids), joint, p);
      PairIs(r, joint);
    }
  }

  lemma TableMeans(ids: seq<string>, joint: Joint)
    requires Measured(ids, joint) && forall id :: id in ids ==> Drawn(id, joint)
    ensures Table(ids, joint).Keys == set id | id in ids
    ensures forall id :: id in ids ==>
      && Table(ids, joint)[id].Keys == (set d | d in joint.drawIds)
      && forall d :: d in Table(ids, joint)[id] ==> Table(ids, joint)[id][d] == joint.draws[id][d].strength
  {
  }

  /** What a result says: nothing but its reason where something is missing, and otherwise the
      strengths drawn, one pair for each region, and as the maximal set the finalists no region
      puts strictly below another. */
  lemma ResultSays(finalists: seq<Finalist>, joint: Joint, context: Context)
    requires joint.Valid() && DistinctIds(finalists)
    ensures var result := Result(finalists, joint, context);
      && result.Some?
      && var r := result.value;
      && Ascending(r.finalistIds) && (set id | id in r.finalistIds) == IdsOf(finalists)
      && (if !Comparable(finalists, joint, context) then
            exists reason :: Because(finalists, joint, context, reason)
              && r == Comparison(false, r.finalistIds, map[], [], [], [], None, [reason])
          else
            && r.maximal != [] && Ascending(r.maximal)
            && (forall id :: id in r.maximal <==>
                  && id in IdsOf(finalists)
                  && forall q :: q in joint.regions ==>
                       (q.left == id ==> q.upper >= 0.0) && (q.right == id ==> q.lower <= 0.0))
            && r.strengths.Keys == IdsOf(finalists)
            && (forall id :: id in r.strengths ==>
                  && r.strengths[id].Keys == (set d | d in joint.drawIds)
                  && id in joint.draws
                  && forall d :: d in r.strengths[id] ==>
                       d in joint.draws[id] && joint.draws[id][d] == Known(r.strengths[id][d]))
            && DistinctPairs(r.pairs)
            && (forall q :: q in joint.regions ==> exists p :: p in r.pairs && PairOf(q, p, joint))
            && (forall p :: p in r.pairs ==> exists q :: q in joint.regions && PairOf(q, p, joint)))
  {
    hide SortById, RowsReason, PairsReason, Pairs, BaseSupported, RegionsComplete, Measured, Answered, Ids, Less;
    hide Bracketed, Blamed, Ready, Paired, DistinctIds, Fault, LexLess, Judged, Refusal, PairOf, DistinctPairs;
    hide Because, Ascending, Resolve, Table, ById;
    var candidates := SortById(finalists);
    var ids := Ids(candidates);
    ResultIff(finalists, joint, context);
    RefusalMeans(finalists, joint, context);
    SameIds(finalists);
    CandidatesAscend(finalists);
    if Refusal(candidates, joint, context).None? {
      Unrefused(candidates, joint, context);
      forall id ensures id in ids <==> id in IdsOf(finalists) {
        assert id in ids <==> id in (set x | x in ids);
      }
      ResolveSays(ids, joint, ById(candidates), context);
    }
  }

  lemma ResolveSays(ids: seq<string>, joint: Joint, byId: map<string, Finalist>, context: Context)
    requires joint.Valid() && Ascending(ids) && Measured(ids, joint) && Answered(Pairs(ids), joint)
    requires RegionsComplete(ids, joint) && PairsReason(Pairs(ids), joint).None?
    requires ids != [] && joint.drawIds != []
    requires forall id :: id in ids ==> id in byId && Drawn(id, joint)
    requires forall r :: r in joint.regions ==> Drawn(r.left, joint) && Drawn(r.right, joint)
    ensures var r := Resolve(ids, joint, byId, context);
      && r.maximal != [] && Ascending(r.maximal)
      && (forall id :: id in r.maximal <==> id in ids && Unbeaten(id, joint.regions))
      && r.strengths == Table(ids, joint) && DistinctPairs(r.pairs)
      && (forall q :: q in joint.regions ==> exists p :: p in r.pairs && PairOf(q, p, joint))
      && (forall p :: p in r.pairs ==> exists q :: q in joint.regions && PairOf(q, p, joint))
      && r.strengths.Keys == (set id | id in ids)
      && (forall id :: id in r.strengths ==>
            && r.strengths[id].Keys == (set d | d in joint.drawIds)
            && id in joint.draws
            && forall d :: d in r.strengths[id] ==>
                 d in joint.draws[id] && joint.draws[id][d] == Known(r.strengths[id][d]))
  {
    hide Pairs, Judged, Answered, Outranked, Narrow, Foremost, Places, OrderMaximal, Without;
    hide PairsReason, RegionsComplete, Unbeaten, Ascending, PairOf, DistinctPairs, Table;
    var losers := Outranked(Judged(Pairs(ids), joint));
    WithoutKeeps(ids, losers);
    WithoutAscends(ids, losers);
    ResolveMeans(ids, joint, byId, context);
    JudgedMeans(ids, joint);
    PairsValid(ids, joint);
    TableMeans(ids, joint);
  }
}
