/** What a finalist comparison guarantees, for every finalist set and joint support. */
module ComparisonLaws {
  import opened Wrappers
  import opened Order
  import opened Finalists

  // Sorting -----------------------------------------------------------------

  lemma {:induction false} InsertAscends(x: Finalist, s: seq<Finalist>)
    requires Ascending(Ids(s)) && forall f :: f in s ==> f.id != x.id
    ensures Ascending(Ids(Insert(x, s)))
  {
    if s == [] {
    } else if Less(x.id, s[0].id) {
      TailAscends(s);
      forall f | f in s ensures Less(x.id, f.id) {
        if f in s[1..] {
          LessTransitive(x.id, s[0].id, f.id);
        }
      }
      PrependAscends(x, s);
    } else {
      var t := Insert(x, s[1..]);
      TailAscends(s);
      InsertAscends(x, s[1..]);
      LessTotal(x.id, s[0].id);
      forall f | f in t ensures Less(s[0].id, f.id) {
        InsertedFrom(x, s, f);
      }
      PrependAscends(s[0], t);
    }
  }

  lemma PrependAscends(x: Finalist, s: seq<Finalist>)
    requires Ascending(Ids(s)) && forall f :: f in s ==> Less(x.id, f.id)
    ensures Ascending(Ids([x] + s))
  {
    assert Ids([x] + s) == [x.id] + Ids(s);
    forall j | 0 <= j < |s| ensures Less(x.id, Ids(s)[j]) {
      assert s[j] in s;
    }
  }

  lemma TailAscends(s: seq<Finalist>)
    requires s != [] && Ascending(Ids(s))
    ensures Ascending(Ids(s[1..]))
    ensures forall f :: f in s[1..] ==> Less(s[0].id, f.id)
  {
    assert Ids(s[1..]) == Ids(s)[1..];
    forall f | f in s[1..] ensures Less(s[0].id, f.id) {
      var j :| 0 <= j < |s[1..]| && s[1..][j] == f;
      assert Less(Ids(s)[0], Ids(s)[j + 1]);
    }
  }

  lemma InsertedFrom(x: Finalist, s: seq<Finalist>, f: Finalist)
    requires s != [] && f in Insert(x, s[1..])
    ensures f == x || f in s[1..]
  {
    InsertMultiset(x, s[1..]);
    assert f in multiset(Insert(x, s[1..]));
  }

  lemma {:induction false} InsertMultiset(x: Finalist, s: seq<Finalist>)
    ensures multiset(Insert(x, s)) == multiset(s) + multiset{x}
  {
    if !(s == [] || Less(x.id, s[0].id)) {
      InsertMultiset(x, s[1..]);
      assert s == [s[0]] + s[1..];
    }
  }

  /** Sorting permutes, and orders the identities when they are distinct. */
  lemma {:induction false} SortByIdSorts(s: seq<Finalist>)
    ensures multiset(SortById(s)) == multiset(s)
    ensures DistinctIds(s) ==> Ascending(Ids(SortById(s)))
  {
    if s != [] {
      var front, last := s[..|s| - 1], s[|s| - 1];
      SortByIdSorts(front);
      InsertMultiset(last, SortById(front));
      assert s == front + [last];
      if DistinctIds(s) {
        forall f | f in SortById(front) ensures f.id != last.id {
          assert f in multiset(SortById(front));
          assert f in front;
        }
        InsertAscends(last, SortById(front));
      }
    }
  }

  lemma AscendingDistinct(s: seq<string>)
    requires Ascending(s)
    ensures forall i, j :: 0 <= i < j < |s| ==> s[i] != s[j]
  {
    forall i, j | 0 <= i < j < |s| ensures s[i] != s[j] {
      LessTotal(s[i], s[j]);
    }
  }

  /** Distinct identities survive any permutation. */
  lemma {:induction false} DistinctPermutes(s: seq<Finalist>, t: seq<Finalist>)
    requires multiset(s) == multiset(t) && DistinctIds(s)
    ensures DistinctIds(t)
  {
    forall i, j | 0 <= i < j < |t| ensures t[i].id != t[j].id {
      assert t[i] in multiset(s) && t[j] in multiset(s);
      if t[i] == t[j] {
        TwiceInMultiset(t, i, j);
        OnceInMultiset(s, t[i]);
      }
    }
  }

  lemma TwiceInMultiset(t: seq<Finalist>, i: nat, j: nat)
    requires i < j < |t| && t[i] == t[j]
    ensures multiset(t)[t[i]] >= 2
  {
    assert t == t[..j] + [t[j]] + t[j + 1..];
    assert t[i] in t[..j];
  }

  lemma OnceInMultiset(s: seq<Finalist>, f: Finalist)
    requires DistinctIds(s)
    ensures multiset(s)[f] <= 1
  {
    if f in s {
      var k :| 0 <= k < |s| && s[k] == f;
      assert s == s[..k] + [s[k]] + s[k + 1..];
      assert f !in s[..k] && f !in s[k + 1..];
    }
  }

  /** The candidates the comparison works on: ascending exactly when identities are distinct. */
  lemma CandidatesAscend(finalists: seq<Finalist>)
    ensures Ascending(Ids(SortById(finalists))) <==> DistinctIds(finalists)
    ensures DistinctIds(SortById(finalists)) <==> DistinctIds(finalists)
  {
    var s := SortById(finalists);
    SortByIdSorts(finalists);
    if Ascending(Ids(s)) {
      AscendingDistinct(Ids(s));
      forall i, j | 0 <= i < j < |s| ensures s[i].id != s[j].id {
        assert Ids(s)[i] != Ids(s)[j];
      }
    }
    if DistinctIds(s) {
      DistinctPermutes(s, finalists);
    }
    if DistinctIds(finalists) {
      DistinctPermutes(finalists, s);
    }
  }

  lemma CandidatesUnique(s: seq<Finalist>, t: seq<Finalist>)
    requires multiset(s) == multiset(t) && DistinctIds(s) && DistinctIds(t)
    requires Ascending(Ids(s)) && Ascending(Ids(t))
    ensures s == t
  {
    forall id | id in Ids(s) ensures id in Ids(t) {
      var k :| 0 <= k < |s| && s[k].id == id;
      assert s[k] in multiset(t);
      var j :| 0 <= j < |t| && t[j] == s[k];
      assert Ids(t)[j] == id;
    }
    forall id | id in Ids(t) ensures id in Ids(s) {
      var k :| 0 <= k < |t| && t[k].id == id;
      assert t[k] in multiset(s);
      var j :| 0 <= j < |s| && s[j] == t[k];
      assert Ids(s)[j] == id;
    }
    AscendingUnique(Ids(s), Ids(t));
    assert |s| == |t|;
    forall i | 0 <= i < |s| ensures s[i] == t[i] {
      assert s[i] in multiset(t);
      var j :| 0 <= j < |t| && t[j] == s[i];
      assert Ids(s)[i] == Ids(t)[i] == Ids(t)[j];
    }
  }

  // Dominance ---------------------------------------------------------------

  /** Every judged pair comes from one region that covers the common draws. */
  lemma {:induction false} JudgedFrom(pairs: seq<(string, string)>, joint: Joint, p: Pair) returns (r: Region)
    requires Answered(pairs, joint) && PairsReason(pairs, joint).None? && p in Judged(pairs, joint)
    ensures r in joint.regions && Measured([r.left, r.right], joint)
    ensures p == PairResult(r, joint) && r.supported && Covers(r, joint)
    ensures (r.left, r.right) in pairs
  {
    RegionForNamed(joint.regions, pairs[0]);
    r := RegionFor(joint.regions, pairs[0]).value;
    if p != PairResult(r, joint) {
      assert p in Judged(pairs[1..], joint);
      r := JudgedFrom(pairs[1..], joint, p);
    }
  }

  /** Conversely every required pair is judged, by the region that names it. */
  lemma {:induction false} JudgedHas(pairs: seq<(string, string)>, joint: Joint, pair: (string, string))
    requires Answered(pairs, joint) && pair in pairs
    ensures RegionFor(joint.regions, pair).Some?
    ensures var r := RegionFor(joint.regions, pair).value;
      Measured([r.left, r.right], joint) && PairResult(r, joint) in Judged(pairs, joint)
  {
    RegionForNamed(joint.regions, pair);
    RegionForNamed(joint.regions, pairs[0]);
    if pair != pairs[0] {
      assert pair in pairs[1..];
      JudgedHas(pairs[1..], joint, pair);
    }
  }

  predicate Strongest(id: string, draw: string, ids: seq<string>, joint: Joint)
    requires Measured(ids, joint) && draw in joint.drawIds && id in ids
  {
    forall other :: other in ids ==> Strength(joint, other, draw) <= Strength(joint, id, draw)
  }

  lemma {:induction false} SomeStrongest(ids: seq<string>, draw: string, joint: Joint) returns (id: string)
    requires ids != [] && Measured(ids, joint) && draw in joint.drawIds
    ensures id in ids && Strongest(id, draw, ids, joint)
  {
    id := ids[0];
    if |ids| > 1 {
      var best := SomeStrongest(ids[1..], draw, joint);
      if Strength(joint, id, draw) < Strength(joint, best, draw) {
        id := best;
      }
      forall other | other in ids ensures Strength(joint, other, draw) <= Strength(joint, id, draw) {
        assert other == ids[0] || other in ids[1..];
      }
    }
  }

  lemma WinnerStronger(r: Region, joint: Joint, draw: string)
    requires r.left != r.right && Measured([r.left, r.right], joint) && Covers(r, joint) && draw in joint.drawIds
    requires Winner(r).Some?
    ensures var left, right := Strength(joint, r.left, draw), Strength(joint, r.right, draw);
      if Winner(r).value == r.left then left > right else right > left
  {
    assert r.lower <= Strength(joint, r.left, draw) - Strength(joint, r.right, draw) <= r.upper;
  }

  /** Whoever is strongest on any one common draw is outranked by nobody. */
  lemma StrongestNeverOutranked(ids: seq<string>, joint: Joint, id: string, draw: string)
    requires joint.Valid() && Measured(ids, joint) && Answered(Pairs(ids), joint)
    requires PairsReason(Pairs(ids), joint).None?
    requires draw in joint.drawIds && id in ids && Strongest(id, draw, ids, joint)
    ensures id !in Outranked(Judged(Pairs(ids), joint))
  {
    if id in Outranked(Judged(Pairs(ids), joint)) {
      var p :| p in Judged(Pairs(ids), joint) && p.winner.Some? &&
        id == (if p.winner.value == p.left then p.right else p.left);
      var r := JudgedFrom(Pairs(ids), joint, p);
      PairsWithin(ids, (r.left, r.right));
      LessTotal(r.left, r.right);
      WinnerStronger(r, joint, draw);
      assert false;
    }
  }

  /** So the maximal set is never empty: the cycle refusal is dead code. */
  lemma MaximalNonempty(ids: seq<string>, joint: Joint)
    requires joint.Valid() && Measured(ids, joint) && Answered(Pairs(ids), joint)
    requires PairsReason(Pairs(ids), joint).None?
    requires ids != [] && joint.drawIds != []
    ensures Without(ids, Outranked(Judged(Pairs(ids), joint))) != []
  {
    var draw := joint.drawIds[0];
    var id := SomeStrongest(ids, draw, joint);
    StrongestNeverOutranked(ids, joint, id, draw);
    WithoutKeeps(ids, Outranked(Judged(Pairs(ids), joint)));
  }

  /** A region is the only one for its pair. */
  lemma RegionUnique(joint: Joint, r: Region)
    requires joint.Valid() && r in joint.regions
    ensures RegionFor(joint.regions, (r.left, r.right)) == Some(r)
  {
    RegionForNamed(joint.regions, (r.left, r.right));
    var q := RegionFor(joint.regions, (r.left, r.right)).value;
    var i :| 0 <= i < |joint.regions| && joint.regions[i] == r;
    var j :| 0 <= j < |joint.regions| && joint.regions[j] == q;
    assert i == j;
  }

  /** No region puts the finalist strictly below the other of its pair. */
  predicate Unbeaten(id: string, regions: seq<Region>) {
    forall r :: r in regions ==> (r.left == id ==> r.upper >= 0.0) && (r.right == id ==> r.lower <= 0.0)
  }

  lemma OutrankedIff(ids: seq<string>, joint: Joint, id: string)
    requires joint.Valid() && Measured(ids, joint) && Answered(Pairs(ids), joint)
    requires RegionsComplete(ids, joint) && PairsReason(Pairs(ids), joint).None?
    ensures id in Outranked(Judged(Pairs(ids), joint)) <==> !Unbeaten(id, joint.regions)
  {
    var judged := Judged(Pairs(ids), joint);
    if id in Outranked(judged) {
      var p :| p in judged && p.winner.Some? && id == (if p.winner.value == p.left then p.right else p.left);
      var r := JudgedFrom(Pairs(ids), joint, p);
      LessTotal(r.left, r.right);
    }
    if !Unbeaten(id, joint.regions) {
      var r :| r in joint.regions && ((r.left == id && r.upper < 0.0) || (r.right == id && r.lower > 0.0));
      assert (r.left, r.right) in Named(joint.regions);
      assert (r.left, r.right) in Pairs(ids);
      RegionUnique(joint, r);
      JudgedHas(Pairs(ids), joint, (r.left, r.right));
      var p := PairResult(r, joint);
      assert p in judged;
      var s := JudgedFrom(Pairs(ids), joint, p);
      RegionUnique(joint, s);
      LessTotal(r.left, r.right);
      assert p.winner.Some? && id == (if p.winner.value == p.left then p.right else p.left);
    }
  }

  // The constructor's checks ------------------------------------------------

  lemma {:induction false} WithoutAscends(ids: seq<string>, losers: set<string>)
    requires Ascending(ids)
    ensures Ascending(Without(ids, losers))
  {
    if ids != [] {
      var rest := Without(ids[1..], losers);
      WithoutAscends(ids[1..], losers);
      WithoutKeeps(ids[1..], losers);
      forall j | 0 <= j < |rest| ensures Less(ids[0], rest[j]) {
        assert rest[j] in ids[1..];
      }
    }
  }

  lemma RestAscends(maximal: seq<string>, k: nat)
    requires Ascending(maximal) && k < |maximal|
    ensures maximal[..k] + maximal[k + 1..] == Sorted((set id | id in maximal) - {maximal[k]})
  {
    var rest := maximal[..k] + maximal[k + 1..];
    AscendingDistinct(maximal);
    assert forall i :: 0 <= i < |rest| ==> rest[i] == maximal[if i < k then i else i + 1];
    forall id ensures id in rest <==> id in maximal && id != maximal[k] {
      if id in maximal && id != maximal[k] {
        var j :| 0 <= j < |maximal| && maximal[j] == id;
        assert rest[if j < k then j else j - 1] == id;
      }
    }
    AscendingUnique(rest, Sorted((set id | id in maximal) - {maximal[k]}));
  }

  /** The order written out is the maximal set itself, the primary moved to the front. */
  lemma OrderPermutes(maximal: seq<string>, primary: string)
    requires Ascending(maximal) && primary in maximal
    ensures multiset(OrderMaximal(maximal, primary)) == multiset(maximal)
    ensures |OrderMaximal(maximal, primary)| == |maximal|
    ensures Ascending(OrderMaximal(maximal, primary)[1..])
  {
    hide Ascending, Sorted;
    var k :| 0 <= k < |maximal| && maximal[k] == primary;
    var a, b := maximal[..k], maximal[k + 1..];
    RestAscends(maximal, k);
    assert OrderMaximal(maximal, primary) == [primary] + (a + b);
    assert OrderMaximal(maximal, primary)[1..] == Sorted((set id | id in maximal) - {primary});
    assert maximal == a + [primary] + b;
  }

  lemma {:induction false} JudgedNames(pairs: seq<(string, string)>, joint: Joint)
    requires Answered(pairs, joint)
    ensures |Judged(pairs, joint)| == |pairs|
    ensures forall k :: 0 <= k < |pairs| ==>
      (Judged(pairs, joint)[k].left, Judged(pairs, joint)[k].right) == pairs[k]
  {
    if pairs != [] {
      RegionForNamed(joint.regions, pairs[0]);
      JudgedNames(pairs[1..], joint);
    }
  }

  lemma {:induction false} PairsDistinct(ids: seq<string>)
    requires Ascending(ids)
    ensures forall i, j :: 0 <= i < j < |Pairs(ids)| ==> Pairs(ids)[i] != Pairs(ids)[j]
  {
    if ids != [] {
      var row := seq(|ids| - 1, k requires 0 <= k < |ids| - 1 => (ids[0], ids[k + 1]));
      var rest := Pairs(ids[1..]);
      PairsDistinct(ids[1..]);
      AscendingDistinct(ids);
      forall j | 0 <= j < |rest| ensures rest[j].0 != ids[0] {
        PairsWithin(ids[1..], rest[j]);
      }
      assert Pairs(ids) == row + rest;
    }
  }

  lemma PairsValid(ids: seq<string>, joint: Joint)
    requires Ascending(ids) && Answered(Pairs(ids), joint)
    ensures DistinctPairs(Judged(Pairs(ids), joint))
  {
    hide Pairs, Judged, Answered;
    var pairs, names := Judged(Pairs(ids), joint), Pairs(ids);
    JudgedNames(names, joint);
    PairsDistinct(ids);
    forall i, j | 0 <= i < j < |pairs|
      ensures !(pairs[i].left == pairs[j].left && pairs[i].right == pairs[j].right)
    {
      assert names[i] != names[j];
    }
  }

  lemma ResolveValid(ids: seq<string>, joint: Joint, byId: map<string, Finalist>, context: Context)
    requires Ascending(ids) && Measured(ids, joint) && Answered(Pairs(ids), joint)
    requires forall id :: id in ids ==> id in byId
    ensures ResultValid(Resolve(ids, joint, byId, context))
  {
    hide Pairs, Judged, Answered, Measured, Outranked, Narrow, Foremost, Places, OrderMaximal, Without, Ascending;
    hide Table, DistinctPairs;
    var losers := Outranked(Judged(Pairs(ids), joint));
    var maximal := Without(ids, losers);
    WithoutKeeps(ids, losers);
    WithoutAscends(ids, losers);
    PairsValid(ids, joint);
    NoneAscend();
    if maximal != [] {
      NarrowKeeps(maximal, byId, CRITERIA);
      var narrowed := Narrow(maximal, byId, CRITERIA);
      if narrowed.Left? {
        ForemostFirst(narrowed.ids, Places(context.userOrder));
        OrderedValid(maximal, Foremost(narrowed.ids, Places(context.userOrder)));
        assert Resolve(ids, joint, byId, context).supported;
      } else {
        var c := Resolve(ids, joint, byId, context);
        assert c.pairs == Judged(Pairs(ids), joint) && c.maximal == maximal;
      }
    }
  }

  lemma NoneAscend()
    ensures Ascending([]) && DistinctPairs([])
  {
  }

  lemma OrderedValid(maximal: seq<string>, primary: string)
    requires Ascending(maximal) && primary in maximal
    ensures var o := OrderMaximal(maximal, primary);
      && |o| == |maximal| && o != [] && o[0] == primary
      && (set id | id in o) == (set id | id in maximal)
  {
    var o := OrderMaximal(maximal, primary);
    OrderPermutes(maximal, primary);
    forall id ensures id in o <==> id in maximal {
      assert id in multiset(o) <==> id in multiset(maximal);
    }
  }

  // Main results ------------------------------------------------------------

  lemma RowReasonNames(row: map<string, Measure>, drawIds: seq<string>)
    requires forall d :: d in drawIds ==> d in row
    ensures RowReason(row, drawIds).Some? ==>
      RowReason(row, drawIds).value in
        ["JOINT_COMPONENT_DRAW_INCOMPLETE", "JOINT_COMPONENT_DRAW_INVALID", "SELECTION_STRENGTH_UNKNOWN"]
  {
    if drawIds != [] && row[drawIds[0]].Known? {
      RowReasonNames(row, drawIds[1..]);
    }
  }

  lemma RowsReasonNames(ids: seq<string>, joint: Joint)
    requires forall id :: id in ids ==> id in joint.draws
    ensures RowsReason(ids, joint).Some? ==>
      RowsReason(ids, joint).value in
        ["COMMON_DRAW_SET_INCOMPLETE", "JOINT_COMPONENT_DRAW_INCOMPLETE", "JOINT_COMPONENT_DRAW_INVALID",
         "SELECTION_STRENGTH_UNKNOWN"]
  {
    if ids != [] {
      var row := joint.draws[ids[0]];
      if row.Keys == (set d | d in joint.drawIds) {
        assert forall d :: d in joint.drawIds ==> d in row.Keys;
        RowReasonNames(row, joint.drawIds);
        RowsReasonNames(ids[1..], joint);
      }
    }
  }

  lemma PairsReasonNames(pairs: seq<(string, string)>, joint: Joint)
    requires Answered(pairs, joint)
    ensures PairsReason(pairs, joint).Some? ==>
      PairsReason(pairs, joint).value in
        ["PAIRED_REGION_SUPPORT_UNKNOWN", "PAIRED_REGION_DOES_NOT_COVER_COMMON_DRAWS"]
  {
    if pairs != [] {
      RegionForNamed(joint.regions, pairs[0]);
      PairsReasonNames(pairs[1..], joint);
    }
  }

  const CYCLE := "ROBUST_COMPARISON_CYCLE"

  lemma RefusalNotCycle(candidates: seq<Finalist>, joint: Joint, context: Context)
    ensures Refusal(candidates, joint, context) != Some(CYCLE)
  {
    hide RowsReason, PairsReason, Pairs, Measured, Answered, RegionsComplete;
    var ids := Ids(candidates);
    if BaseSupported(candidates, joint, context) {
      RowsReasonNames(ids, joint);
      if RowsReason(ids, joint).None? && RegionsComplete(ids, joint) {
        RowsMeasured(ids, joint);
        PairsReady(ids, joint);
        PairsAnswered(ids, joint);
        PairsReasonNames(Pairs(ids), joint);
      }
    }
  }

  lemma PairsAnswered(ids: seq<string>, joint: Joint)
    requires Measured(ids, joint) && RegionsComplete(ids, joint)
    ensures Answered(Pairs(ids), joint)
  {
    PairsReady(ids, joint);
  }

  /** A result is returned, rather than an exception raised, exactly when the finalists have
      distinct identities, and its reason is never a dominance cycle. */
  lemma ResultIff(finalists: seq<Finalist>, joint: Joint, context: Context)
    requires joint.Valid()
    ensures Result(finalists, joint, context).Some? <==> DistinctIds(finalists)
    ensures var r := Result(finalists, joint, context);
      r.Some? ==>
        && CYCLE !in r.value.reasons && ResultValid(r.value)
        && r.value.finalistIds == Ids(SortById(finalists))
  {
    hide Narrow, Judged, PairsReason, RowsReason, Pairs, SortById, ById, Table, OrderMaximal, Without;
    hide Foremost, Places, RegionsComplete, Measured, Answered, Outranked, Refusal, BaseSupported;
    var candidates := SortById(finalists);
    var ids := Ids(candidates);
    CandidatesAscend(finalists);
    RefusalNotCycle(candidates, joint, context);
    if Refusal(candidates, joint, context).None? {
      Unrefused(candidates, joint, context);
      ResolveValid(ids, joint, ById(candidates), context);
      ResolveNotCycle(ids, joint, ById(candidates), context);
    }
  }

  /** Nothing refused: the sets are in order and every region covers its draws. */
  lemma Unrefused(candidates: seq<Finalist>, joint: Joint, context: Context)
    requires Refusal(candidates, joint, context).None?
    ensures var ids := Ids(candidates);
      && ids != [] && joint.drawIds != [] && joint.finalistIds == ids && (joint.Valid() ==> Ascending(ids))
      && Measured(ids, joint) && RegionsComplete(ids, joint) && Answered(Pairs(ids), joint)
      && PairsReason(Pairs(ids), joint).None?
      && forall id :: id in ids ==> id in ById(candidates)
  {
    var ids := Ids(candidates);
    RowsMeasured(ids, joint);
    PairsAnswered(ids, joint);
    ByIdKeys(candidates);
    assert forall id :: id in ids ==> id in ById(candidates).Keys;
  }

  lemma ResolveNotCycle(ids: seq<string>, joint: Joint, byId: map<string, Finalist>, context: Context)
    requires joint.Valid() && Measured(ids, joint) && Answered(Pairs(ids), joint)
    requires PairsReason(Pairs(ids), joint).None? && ids != [] && joint.drawIds != []
    requires forall id :: id in ids ==> id in byId
    ensures CYCLE !in Resolve(ids, joint, byId, context).reasons
    ensures Resolve(ids, joint, byId, context).maximal != []
    ensures Resolve(ids, joint, byId, context).finalistIds == ids
  {
    hide Pairs, Judged, Answered, Measured, Outranked, Narrow, Foremost, Places, OrderMaximal, Without, PairsReason;
    MaximalNonempty(ids, joint);
    var maximal := Without(ids, Outranked(Judged(Pairs(ids), joint)));
    WithoutKeeps(ids, Outranked(Judged(Pairs(ids), joint)));
    NarrowKeeps(maximal, byId, CRITERIA);
    var n := Narrow(maximal, byId, CRITERIA);
    if n.Missing? {
      assert ("TIE_BREAK_SUPPORT_UNKNOWN:" + n.field)[0] == 'T';
    }
  }

  /** The finalists' input order never changes the result. */
  lemma InputOrderIrrelevant(finalists: seq<Finalist>, permuted: seq<Finalist>, joint: Joint, context: Context)
    requires multiset(finalists) == multiset(permuted) && joint.Valid()
    ensures Result(finalists, joint, context) == Result(permuted, joint, context)
  {
    hide Result;
    ResultIff(finalists, joint, context);
    ResultIff(permuted, joint, context);
    if DistinctIds(finalists) {
      DistinctPermutes(finalists, permuted);
      SortByIdSorts(finalists);
      SortByIdSorts(permuted);
      CandidatesAscend(finalists);
      CandidatesAscend(permuted);
      CandidatesUnique(SortById(finalists), SortById(permuted));
      SameCandidates(finalists, permuted, joint, context);
    } else if DistinctIds(permuted) {
      DistinctPermutes(permuted, finalists);
    }
  }

  lemma SameCandidates(finalists: seq<Finalist>, permuted: seq<Finalist>, joint: Joint, context: Context)
    requires SortById(finalists) == SortById(permuted)
    ensures Result(finalists, joint, context) == Result(permuted, joint, context)
  {
    hide Narrow, Judged, PairsReason, RowsReason, Pairs, SortById, ById, Table, OrderMaximal, Without, Resolve;
    hide Foremost, Places, RegionsComplete, Measured, Answered, Outranked, Refusal, BaseSupported, Checked;
  }

  // The tie-break -----------------------------------------------------------

  predicate Best(best: string, among: set<string>, byId: map<string, Finalist>, c: Criterion)
    requires best in byId && forall k :: k in among ==> k in byId
  {
    && best in among && Value(byId[best], c.name).Some?
    && forall k :: k in among ==>
         && Value(byId[k], c.name).Some?
         && (if c.largest then Value(byId[k], c.name).value <= Value(byId[best], c.name).value
             else Value(byId[k], c.name).value >= Value(byId[best], c.name).value)
  }

  /** Within the comparison's tolerance of the best of its rivals. */
  predicate NearBest(id: string, among: set<string>, byId: map<string, Finalist>, c: Criterion)
    requires id in byId && forall k :: k in among ==> k in byId
  {
    && Value(byId[id], c.name).Some?
    && exists best :: best in among && Best(best, among, byId, c)
                      && Close(Value(byId[id], c.name).value, Value(byId[best], c.name).value)
  }

  /** The rivals left once each criterion in turn has dropped all but the near-best. */
  ghost function Survivors(field: set<string>, byId: map<string, Finalist>, criteria: seq<Criterion>): set<string>
    requires forall k :: k in field ==> k in byId
    decreases |criteria|
  {
    if criteria == [] || |field| < 2 then field
    else Survivors((set k | k in field && NearBest(k, field, byId, criteria[0])), byId, criteria[1..])
  }

  function AsSet(s: seq<string>): set<string> {
    set k | k in s
  }

  lemma KeptNearBest(remaining: seq<string>, byId: map<string, Finalist>, c: Criterion, id: string)
    requires remaining != [] && id in remaining && forall k :: k in remaining ==> k in byId
    requires forall k :: k in remaining ==> Value(byId[k], c.name).Some?
    ensures id in KeepClose(remaining, byId, c, Target(remaining, byId, c)) <==>
      NearBest(id, AsSet(remaining), byId, c)
  {
    hide Value, Close, Target, KeepClose;
    var target := Target(remaining, byId, c);
    TargetAttained(remaining, byId, c);
    KeepCloseSubset(remaining, byId, c, target);
    var best :| best in remaining && Value(byId[best], c.name).value == target;
    assert Best(best, AsSet(remaining), byId, c);
    if NearBest(id, AsSet(remaining), byId, c) {
      var other :| other in AsSet(remaining) && Best(other, AsSet(remaining), byId, c)
        && Close(Value(byId[id], c.name).value, Value(byId[other], c.name).value);
      assert Value(byId[other], c.name).value == target;
    }
  }

  lemma {:induction false} KeepCloseAscends(
    remaining: seq<string>, byId: map<string, Finalist>, c: Criterion, target: real)
    requires Ascending(remaining)
    requires forall k :: k in remaining ==> k in byId && Value(byId[k], c.name).Some?
    ensures Ascending(KeepClose(remaining, byId, c, target))
  {
    if remaining != [] {
      var rest := KeepClose(remaining[1..], byId, c, target);
      KeepCloseAscends(remaining[1..], byId, c, target);
      KeepCloseSubset(remaining[1..], byId, c, target);
      forall j | 0 <= j < |rest| ensures Less(remaining[0], rest[j]) {
        assert rest[j] in remaining[1..];
      }
    }
  }

  lemma {:induction false} AscendingSize(s: seq<string>)
    requires Ascending(s)
    ensures |AsSet(s)| == |s|
  {
    if s != [] {
      AscendingSize(s[1..]);
      AscendingDistinct(s);
      assert AsSet(s) == {s[0]} + AsSet(s[1..]);
    }
  }

  /** The narrowing loop keeps exactly the survivors. */
  lemma {:induction false} NarrowSurvivors(
    remaining: seq<string>, byId: map<string, Finalist>, criteria: seq<Criterion>)
    requires Ascending(remaining) && remaining != [] && forall k :: k in remaining ==> k in byId
    requires Narrow(remaining, byId, criteria).Left?
    ensures AsSet(Narrow(remaining, byId, criteria).ids) == Survivors(AsSet(remaining), byId, criteria)
    decreases |criteria|
  {
    hide Value, Close, Target, KeepClose, NearBest, Ascending;
    AscendingSize(remaining);
    if criteria != [] && |remaining| >= 2 {
      var c := criteria[0];
      var target := Target(remaining, byId, c);
      var kept := KeepClose(remaining, byId, c, target);
      KeepCloseSubset(remaining, byId, c, target);
      KeepCloseAscends(remaining, byId, c, target);
      TargetAttained(remaining, byId, c);
      CloseItself(target);
      var best :| best in remaining && Value(byId[best], c.name).value == target;
      assert best in kept;
      NarrowSurvivors(kept, byId, criteria[1..]);
      forall k ensures k in kept <==> k in AsSet(remaining) && NearBest(k, AsSet(remaining), byId, c) {
        if k in remaining {
          KeptNearBest(remaining, byId, c, k);
        }
      }
      assert AsSet(kept) == set k | k in AsSet(remaining) && NearBest(k, AsSet(remaining), byId, c);
    }
  }

  lemma CloseItself(x: real)
    ensures Close(x, x)
  {
  }

  /** What a returned result says: the maximal set is exactly the finalists no region puts
      strictly below another; the order is that set with the primary moved to the front; the
      primary survives every criterion and no other survivor precedes it in the user's order. */
  lemma ResultMeans(finalists: seq<Finalist>, joint: Joint, context: Context)
    requires joint.Valid() && DistinctIds(finalists)
    ensures var r := Result(finalists, joint, context);
      && r.Some?
      && (r.value.maximal == [] <==> Refusal(SortById(finalists), joint, context).Some?)
      && (r.value.maximal != [] ==> forall id :: id in r.value.maximal <==>
            id in r.value.finalistIds && Unbeaten(id, joint.regions))
      && (r.value.supported ==>
            && r.value.ordered != [] && r.value.primary == Some(r.value.ordered[0])
            && multiset(r.value.ordered) == multiset(r.value.maximal) && Ascending(r.value.ordered[1..])
            && PrimaryWins(r.value, ById(SortById(finalists)), context.userOrder))
  {
    hide Narrow, Judged, PairsReason, RowsReason, Pairs, SortById, ById, Table, OrderMaximal, Without;
    hide Foremost, Places, RegionsComplete, Measured, Answered, Outranked, Refusal, BaseSupported, ResultValid;
    hide Resolve, Unbeaten, PrimaryWins, Ids, Ascending;
    var candidates := SortById(finalists);
    var ids := Ids(candidates);
    ResultIff(finalists, joint, context);
    if Refusal(candidates, joint, context).None? {
      Unrefused(candidates, joint, context);
      ResolveMeans(ids, joint, ById(candidates), context);
    }
  }

  ghost predicate PrimaryWins(c: Comparison, byId: map<string, Finalist>, userOrder: seq<string>) {
    && c.primary.Some?
    && (forall id :: id in c.maximal ==> id in byId)
    && var field := Survivors(AsSet(c.maximal), byId, CRITERIA);
    && c.primary.value in field
    && forall id :: id in field ==> !Before(id, c.primary.value, Places(userOrder))
  }

  lemma ResolveMeans(ids: seq<string>, joint: Joint, byId: map<string, Finalist>, context: Context)
    requires joint.Valid() && Ascending(ids) && Measured(ids, joint) && Answered(Pairs(ids), joint)
    requires RegionsComplete(ids, joint) && PairsReason(Pairs(ids), joint).None?
    requires ids != [] && joint.drawIds != []
    requires forall id :: id in ids ==> id in byId
    ensures var c := Resolve(ids, joint, byId, context);
      && c.maximal != [] && c.finalistIds == ids
      && (forall id :: id in c.maximal <==> id in ids && Unbeaten(id, joint.regions))
      && (c.supported ==>
            && c.ordered != [] && c.primary == Some(c.ordered[0])
            && multiset(c.ordered) == multiset(c.maximal) && Ascending(c.ordered[1..])
            && PrimaryWins(c, byId, context.userOrder))
  {
    hide Pairs, Judged, Answered, Measured, Outranked, Narrow, Foremost, Places, OrderMaximal, Without;
    hide PairsReason, RegionsComplete, Unbeaten, Ascending, Survivors, Before;
    var losers := Outranked(Judged(Pairs(ids), joint));
    var maximal := Without(ids, losers);
    MaximalNonempty(ids, joint);
    WithoutKeeps(ids, losers);
    WithoutAscends(ids, losers);
    forall id | id in ids ensures id in maximal <==> Unbeaten(id, joint.regions) {
      OutrankedIff(ids, joint, id);
    }
    NarrowKeeps(maximal, byId, CRITERIA);
    var narrowed := Narrow(maximal, byId, CRITERIA);
    if narrowed.Left? {
      var places := Places(context.userOrder);
      var primary := Foremost(narrowed.ids, places);
      ForemostFirst(narrowed.ids, places);
      NarrowSurvivors(maximal, byId, CRITERIA);
      OrderPermutes(maximal, primary);
      OrderedValid(maximal, primary);
      var field := Survivors(AsSet(maximal), byId, CRITERIA);
      assert primary in AsSet(narrowed.ids);
      assert forall id :: id in field ==> id in narrowed.ids;
    }
  }
}
