/** The research decision: one row per enabled preference, then one outcome built from the
    finalists' comparison and checked by the result's own validator. */
module Decision {
  import opened Wrappers
  import opened Order
  import opened Finalists
  import opened ComparisonLaws

  /** An enabled preference with what the gates made of it. `based` says whether the
      predecessor result has its row; `evidence` is absent when its tie-break values refuse
      to form a finalist. */
  datatype Preference = Preference(
    id: string, based: bool, g05: Gate, gates: seq<Gate>, evidence: Option<Finalist>)

  datatype Terminal = Primary | Survives | Rejected | Undecided

  datatype Row = Row(id: string, terminal: Terminal)

  datatype Outcome = Recommendation | Avoid

  datatype Decision = Decision(
    rows: seq<Row>, outcome: Outcome, reason: Option<string>,
    primary: Option<string>, unresolved: seq<string>)

  const NO_PASS := "NO_PREFERENCE_PASSED_ABSOLUTE_GATES"
  const UNRESOLVED := "PRIMARY_SELECTION_UNRESOLVED"

  function Verdict(p: Preference): Terminal {
    match p.g05
    case Fail => Rejected
    case Unknown => Undecided
    case Pass =>
      if Gate.Fail in p.gates then Rejected
      else if Gate.Unknown in p.gates || p.evidence.None? then Undecided
      else Survives
  }

  function Rows(preferences: seq<Preference>): seq<Row> {
    seq(|preferences|, i requires 0 <= i < |preferences| =>
      Row(preferences[i].id, Verdict(preferences[i])))
  }

  function FinalistsOf(preferences: seq<Preference>): seq<Finalist> {
    if preferences == [] then []
    else
      var p, front := preferences[|preferences| - 1], FinalistsOf(preferences[..|preferences| - 1]);
      if Verdict(p).Survives? then front + [p.evidence.value.(id := p.id, gate := Pass)] else front
  }

  function UnknownIds(preferences: seq<Preference>): set<string> {
    set i | 0 <= i < |preferences| && Verdict(preferences[i]).Undecided? :: preferences[i].id
  }

  function SurvivorIds(preferences: seq<Preference>): set<string> {
    set i | 0 <= i < |preferences| && Verdict(preferences[i]).Survives? :: preferences[i].id
  }

  /** The joint comparison, bypassed when it cannot be made. */
  function Compared(unknown: bool, finalists: seq<Finalist>, joint: Joint, context: Context, available: bool):
    Option<Comparison>
  {
    var ids := Ids(SortById(finalists));
    if unknown then Checked(UnknownResult(ids, "FINALIST_SUPPORT_UNKNOWN"))
    else if finalists == [] then Checked(Comparison(true, [], map[], [], [], [], None, ["NO_FINALISTS"]))
    else if !available then Checked(UnknownResult(ids, "JOINT_SOURCE_ARTIFACT_UNAVAILABLE"))
    else Result(finalists, joint, context)
  }

  /** The rows once the outcome is known. */
  function Settle(rows: seq<Row>, primary: Option<string>, finalists: set<string>): seq<Row> {
    seq(|rows|, i requires 0 <= i < |rows| =>
      if primary == Some(rows[i].id) then rows[i].(terminal := Primary)
      else if rows[i].id in finalists && !rows[i].terminal.Undecided? then rows[i].(terminal := Survives)
      else rows[i])
  }

  function Conclude(rows: seq<Row>, unknown: set<string>, finalists: set<string>, c: Comparison): Decision {
    if !c.supported then
      Decision(Settle(rows, None, finalists), Avoid, Some(UNRESOLVED), None, Sorted(unknown + finalists))
    else if c.primary.Some? then
      Decision(Settle(rows, c.primary, finalists), Recommendation, None, c.primary, [])
    else
      Decision(Settle(rows, None, finalists), Avoid, Some(NO_PASS), None, [])
  }

  function PrimaryRows(rows: seq<Row>): seq<string> {
    if rows == [] then []
    else
      var row, front := rows[|rows| - 1], PrimaryRows(rows[..|rows| - 1]);
      if row.terminal.Primary? then front + [row.id] else front
  }

  predicate DistinctRows(rows: seq<Row>) {
    forall i, j :: 0 <= i < j < |rows| ==> rows[i].id != rows[j].id
  }

  /** The result's own validator. */
  predicate Accepted(d: Decision) {
    && d.rows != [] && DistinctRows(d.rows)
    && match d.outcome
       case Recommendation => d.primary.Some? && d.reason.None? && PrimaryRows(d.rows) == [d.primary.value]
       case Avoid =>
         && d.primary.None? && PrimaryRows(d.rows) == []
         && d.reason in {Some(NO_PASS), Some(UNRESOLVED)}
         && (d.reason == Some(UNRESOLVED) ==> d.unresolved != [])
         && (d.reason == Some(NO_PASS) ==> d.unresolved == [])
  }

  predicate Based(preferences: seq<Preference>) {
    forall p :: p in preferences ==> p.based
  }

  /** What the loop builds, before the validator; None where it raises. */
  function Build(preferences: seq<Preference>, joint: Joint, context: Context, available: bool): Option<Decision> {
    if !Based(preferences) then None
    else
      var finalists := FinalistsOf(preferences);
      var c :- Compared(UnknownIds(preferences) != {}, finalists, joint, context, available);
      Some(Conclude(Rows(preferences), UnknownIds(preferences), set f | f in finalists :: f.id, c))
  }

  function Decide(preferences: seq<Preference>, joint: Joint, context: Context, available: bool): Option<Decision> {
    var d :- Build(preferences, joint, context, available);
    if Accepted(d) then Some(d) else None
  }

  // The loop ----------------------------------------------------------------

  method Compete(unknown: bool, finalists: seq<Finalist>, joint: Joint, context: Context, available: bool)
    returns (c: Option<Comparison>)
    ensures c == Compared(unknown, finalists, joint, context, available)
  {
    hide Result, Checked, SortById;
    var ids := Ids(SortById(finalists));
    if unknown {
      c := Checked(UnknownResult(ids, "FINALIST_SUPPORT_UNKNOWN"));
    } else if finalists == [] {
      c := Checked(Comparison(true, [], map[], [], [], [], None, ["NO_FINALISTS"]));
    } else if !available {
      c := Checked(UnknownResult(ids, "JOINT_SOURCE_ARTIFACT_UNAVAILABLE"));
    } else {
      c := Compare(finalists, joint, context);
    }
  }

  method Resolve(preferences: seq<Preference>, joint: Joint, context: Context, available: bool)
    returns (d: Option<Decision>)
    ensures d == Decide(preferences, joint, context, available)
  {
    hide Compared, Accepted, Sorted;
    var rows: seq<Row> := [];
    var finalists: seq<Finalist> := [];
    var unknown: set<string> := {};
    var k := 0;
    while k < |preferences|
      invariant 0 <= k <= |preferences|
      invariant Based(preferences[..k])
      invariant rows == Rows(preferences[..k])
      invariant finalists == FinalistsOf(preferences[..k])
      invariant unknown == UnknownIds(preferences[..k])
    {
      var p := preferences[k];
      if !p.based {
        assert p in preferences;
        return None;
      }
      var terminal;
      match p.g05 {
        case Fail => terminal := Rejected;
        case Unknown =>
          terminal := Undecided;
        case Pass =>
          if Gate.Fail in p.gates {
            terminal := Rejected;
          } else if Gate.Unknown in p.gates {
            terminal := Undecided;
          } else if p.evidence.Some? {
            terminal := Survives;
            finalists := finalists + [p.evidence.value.(id := p.id, gate := Pass)];
          } else {
            terminal := Undecided;
          }
      }
      if terminal.Undecided? {
        unknown := unknown + {p.id};
      }
      rows := rows + [Row(p.id, terminal)];
      PrefixGrows(preferences, k);
      k := k + 1;
    }
    assert preferences[..k] == preferences;
    var c := Compete(unknown != {}, finalists, joint, context, available);
    if c.None? {
      return None;
    }
    var decision := Conclude(rows, unknown, set f | f in finalists :: f.id, c.value);
    d := if Accepted(decision) then Some(decision) else None;
  }

  lemma PrefixGrows(preferences: seq<Preference>, k: nat)
    requires k < |preferences|
    ensures var a, b, p := preferences[..k], preferences[..k + 1], preferences[k];
      && Rows(b) == Rows(a) + [Row(p.id, Verdict(p))]
      && UnknownIds(b) == UnknownIds(a) + (if Verdict(p).Undecided? then {p.id} else {})
      && FinalistsOf(b) == FinalistsOf(a) +
         (if Verdict(p).Survives? then [p.evidence.value.(id := p.id, gate := Pass)] else [])
      && (Based(b) <==> Based(a) && p.based)
  {
    var a, b, p := preferences[..k], preferences[..k + 1], preferences[k];
    assert b == a + [p] && b[..|b| - 1] == a;
    UnknownGrows(a, p);
  }

  lemma UnknownGrows(a: seq<Preference>, p: Preference)
    ensures UnknownIds(a + [p]) == UnknownIds(a) + (if Verdict(p).Undecided? then {p.id} else {})
  {
    var b := a + [p];
    forall id | id in UnknownIds(a) ensures id in UnknownIds(b) {
      var i :| 0 <= i < |a| && Verdict(a[i]).Undecided? && a[i].id == id;
      assert b[i] == a[i];
    }
    assert b[|a|] == p;
    forall id | id in UnknownIds(b) ensures id in UnknownIds(a) || (Verdict(p).Undecided? && id == p.id) {
      var i :| 0 <= i < |b| && Verdict(b[i]).Undecided? && b[i].id == id;
      if i < |a| {
        assert b[i] == a[i];
      }
    }
  }

  // What the decision guarantees --------------------------------------------

  predicate DistinctPreferences(preferences: seq<Preference>) {
    forall i, j :: 0 <= i < j < |preferences| ==> preferences[i].id != preferences[j].id
  }

  lemma {:induction false} FinalistsAre(preferences: seq<Preference>)
    ensures (set f | f in FinalistsOf(preferences) :: f.id) == SurvivorIds(preferences)
    ensures DistinctPreferences(preferences) ==> DistinctIds(FinalistsOf(preferences))
  {
    if preferences != [] {
      var p, front := preferences[|preferences| - 1], preferences[..|preferences| - 1];
      FinalistsAre(front);
      assert preferences == front + [p];
      SurvivorsGrow(front, p);
      var fs := FinalistsOf(front);
      if Verdict(p).Survives? {
        var last := p.evidence.value.(id := p.id, gate := Pass);
        assert FinalistsOf(preferences) == fs + [last];
        assert (set f | f in fs + [last] :: f.id) == (set f | f in fs :: f.id) + {p.id};
      }
      if DistinctPreferences(preferences) {
        assert forall i :: 0 <= i < |front| ==> preferences[i].id != p.id;
        forall f | f in fs ensures f.id != p.id {
          assert f.id in SurvivorIds(front);
        }
      }
    }
  }

  lemma SurvivorsGrow(a: seq<Preference>, p: Preference)
    ensures SurvivorIds(a + [p]) == SurvivorIds(a) + (if Verdict(p).Survives? then {p.id} else {})
  {
    var b := a + [p];
    forall id | id in SurvivorIds(a) ensures id in SurvivorIds(b) {
      var i :| 0 <= i < |a| && Verdict(a[i]).Survives? && a[i].id == id;
      assert b[i] == a[i];
    }
    assert b[|a|] == p;
    forall id | id in SurvivorIds(b) ensures id in SurvivorIds(a) || (Verdict(p).Survives? && id == p.id) {
      var i :| 0 <= i < |b| && Verdict(b[i]).Survives? && b[i].id == id;
      if i < |a| {
        assert b[i] == a[i];
      }
    }
  }

  lemma {:induction false} PrimaryRowsAre(rows: seq<Row>)
    ensures forall id :: id in PrimaryRows(rows) <==> exists i :: 0 <= i < |rows| && rows[i] == Row(id, Primary)
    ensures DistinctRows(rows) ==> forall i, j :: 0 <= i < j < |PrimaryRows(rows)| ==>
      PrimaryRows(rows)[i] != PrimaryRows(rows)[j]
  {
    if rows != [] {
      var row, front := rows[|rows| - 1], rows[..|rows| - 1];
      PrimaryRowsAre(front);
      assert rows == front + [row];
      forall id ensures id in PrimaryRows(rows) <==> exists i :: 0 <= i < |rows| && rows[i] == Row(id, Primary) {
        if id in PrimaryRows(front) {
          var i :| 0 <= i < |front| && front[i] == Row(id, Primary);
          assert rows[i] == Row(id, Primary);
        }
        if i :| 0 <= i < |rows| && rows[i] == Row(id, Primary) {
          assert i < |front| ==> front[i] == rows[i];
        }
      }
      if DistinctRows(rows) && row.terminal.Primary? {
        forall j | 0 <= j < |PrimaryRows(front)| ensures PrimaryRows(front)[j] != row.id {
          assert PrimaryRows(front)[j] in PrimaryRows(front);
        }
      }
    }
  }

  lemma SettledRows(preferences: seq<Preference>, primary: Option<string>)
    requires DistinctPreferences(preferences)
    requires primary.Some? ==> primary.value in SurvivorIds(preferences)
    ensures var rows := Settle(Rows(preferences), primary, SurvivorIds(preferences));
      && DistinctRows(rows)
      && PrimaryRows(rows) == (if primary.Some? then [primary.value] else [])
  {
    var before := Rows(preferences);
    var rows := Settle(before, primary, SurvivorIds(preferences));
    PrimaryRowsAre(rows);
    if primary.Some? {
      var i :| 0 <= i < |preferences| && Verdict(preferences[i]).Survives? && preferences[i].id == primary.value;
      assert rows[i] == Row(primary.value, Primary);
      OneOf(PrimaryRows(rows), primary.value);
    } else {
      NoneOf(PrimaryRows(rows));
    }
  }

  lemma NoneOf(ids: seq<string>)
    ensures ids == [] <==> forall id :: id !in ids
  {
    assert ids != [] ==> ids[0] in ids;
  }

  lemma OneOf(ids: seq<string>, id: string)
    ensures id in ids && (forall i, j :: 0 <= i < j < |ids| ==> ids[i] != ids[j]) && (forall k :: k in ids ==> k == id)
      ==> ids == [id]
  {
    assert |ids| >= 2 ==> ids[0] in ids && ids[1] in ids;
  }

  lemma UnsupportedHasIds(s: set<string>)
    ensures Sorted(s) == [] <==> s == {}
  {
    if s != {} {
      var k :| k in s;
      assert k in Sorted(s);
    }
  }

  lemma CandidateIds(finalists: seq<Finalist>, id: string)
    ensures id in Ids(SortById(finalists)) <==> id in set f | f in finalists :: f.id
  {
    var s := SortById(finalists);
    SortByIdSorts(finalists);
    if id in Ids(s) {
      var i :| 0 <= i < |s| && s[i].id == id;
      assert s[i] in multiset(finalists);
    }
    if f :| f in finalists && f.id == id {
      assert f in multiset(s);
      var i :| 0 <= i < |s| && s[i] == f;
      assert Ids(s)[i] == id;
    }
  }

  lemma ResultFacts(finalists: seq<Finalist>, joint: Joint, context: Context)
    requires joint.Valid()
    ensures DistinctIds(finalists) <==> Result(finalists, joint, context).Some?
    ensures var c := Result(finalists, joint, context);
      c.Some? ==>
        && (c.value.supported <==> c.value.primary.Some?)
        && (c.value.primary.Some? ==> c.value.primary.value in set f | f in finalists :: f.id)
  {
    hide Result, SortById, Refusal, Unbeaten, PrimaryWins, ById, Ids;
    ResultIff(finalists, joint, context);
    var c := Result(finalists, joint, context);
    if DistinctIds(finalists) {
      ResultMeans(finalists, joint, context);
      if c.value.primary.Some? {
        CandidateIds(finalists, c.value.primary.value);
      }
    }
  }

  /** A comparison's primary, when it has one, is one of the finalists it compared, and one
      that settles nothing had nobody to compare or lacked support. */
  lemma ComparedMeans(unknown: bool, finalists: seq<Finalist>, joint: Joint, context: Context, available: bool)
    requires joint.Valid()
    ensures DistinctIds(finalists) ==> Compared(unknown, finalists, joint, context, available).Some?
    ensures var c := Compared(unknown, finalists, joint, context, available);
      c.Some? ==>
        && (unknown ==> !c.value.supported)
        && (!c.value.supported ==> unknown || finalists != [])
        && (c.value.supported ==> (c.value.primary.Some? <==> finalists != []))
        && (c.value.primary.Some? ==> c.value.supported && c.value.primary.value in set f | f in finalists :: f.id)
  {
    hide Result, SortById;
    CandidatesAscend(finalists);
    ResultFacts(finalists, joint, context);
  }

  lemma EmptyFinalists(preferences: seq<Preference>)
    ensures FinalistsOf(preferences) == [] <==> SurvivorIds(preferences) == {}
  {
    FinalistsAre(preferences);
    var fs := FinalistsOf(preferences);
    assert fs != [] ==> fs[0] in fs && fs[0].id in SurvivorIds(preferences);
    if SurvivorIds(preferences) != {} {
      var id :| id in SurvivorIds(preferences);
      var f :| f in fs && f.id == id;
    }
  }

  /** Every decision the loop builds for distinct preferences passes the validator. */
  lemma BuiltAccepted(preferences: seq<Preference>, c: Comparison)
    requires preferences != [] && DistinctPreferences(preferences)
    requires c.supported ==> UnknownIds(preferences) == {} && (c.primary.Some? <==> SurvivorIds(preferences) != {})
    requires c.primary.Some? ==> c.primary.value in SurvivorIds(preferences)
    requires !c.supported ==> UnknownIds(preferences) + SurvivorIds(preferences) != {}
    ensures Accepted(Conclude(Rows(preferences), UnknownIds(preferences), SurvivorIds(preferences), c))
  {
    hide Verdict, Sorted, UnknownIds, SurvivorIds, DistinctRows;
    SettledRows(preferences, if c.supported then c.primary else None);
    UnsupportedHasIds(UnknownIds(preferences) + SurvivorIds(preferences));
  }

  lemma AcceptedDistinct(preferences: seq<Preference>, unknown: set<string>, finalists: set<string>, c: Comparison)
    requires Accepted(Conclude(Rows(preferences), unknown, finalists, c))
    ensures preferences != [] && DistinctPreferences(preferences)
  {
    hide Verdict, Sorted;
    var rows := Conclude(Rows(preferences), unknown, finalists, c).rows;
    assert forall i :: 0 <= i < |rows| ==> rows[i].id == preferences[i].id;
    forall i, j | 0 <= i < j < |preferences| ensures preferences[i].id != preferences[j].id {
      assert rows[i].id != rows[j].id;
    }
  }

  /** What `Build` compares, as facts about the preferences. */
  lemma BuildFacts(preferences: seq<Preference>, joint: Joint, context: Context, available: bool)
    requires joint.Valid()
    ensures var unknown, survivors := UnknownIds(preferences), SurvivorIds(preferences);
      var c := Compared(unknown != {}, FinalistsOf(preferences), joint, context, available);
      && (set f | f in FinalistsOf(preferences) :: f.id) == survivors
      && (DistinctPreferences(preferences) ==> c.Some?)
      && (c.Some? ==>
        && (c.value.supported ==> unknown == {} && (c.value.primary.Some? <==> survivors != {}))
        && (c.value.primary.Some? ==> c.value.supported && c.value.primary.value in survivors)
        && (!c.value.supported ==> unknown + survivors != {}))
  {
    hide Compared, UnknownIds, SurvivorIds, FinalistsOf, DistinctIds;
    FinalistsAre(preferences);
    EmptyFinalists(preferences);
    ComparedMeans(UnknownIds(preferences) != {}, FinalistsOf(preferences), joint, context, available);
  }

  /** A decision comes out exactly for a nonempty list of distinct preferences that all have
      their predecessor row: nothing else the loop can meet makes the validator refuse. */
  lemma DecideIff(preferences: seq<Preference>, joint: Joint, context: Context, available: bool)
    requires joint.Valid()
    ensures Decide(preferences, joint, context, available).Some? <==>
      preferences != [] && DistinctPreferences(preferences) && Based(preferences)
  {
    hide Compared, UnknownIds, SurvivorIds, FinalistsOf, Accepted, Conclude, DistinctPreferences, Based, Rows;
    BuildFacts(preferences, joint, context, available);
    var unknown, survivors := UnknownIds(preferences), SurvivorIds(preferences);
    var c := Compared(unknown != {}, FinalistsOf(preferences), joint, context, available);
    if Based(preferences) && c.Some? {
      if Accepted(Conclude(Rows(preferences), unknown, survivors, c.value)) {
        AcceptedDistinct(preferences, unknown, survivors, c.value);
      }
      if preferences != [] && DistinctPreferences(preferences) {
        BuiltAccepted(preferences, c.value);
      }
    }
  }

  /** Where a decision comes out: the rows follow the preferences in order; a recommendation
      needs every preference settled and at least one survivor, and its primary is the one
      survivor row marked so; a refusal to choose lists every unsettled or surviving preference;
      and nothing is left unresolved exactly when all were rejected. */
  lemma DecisionMeans(preferences: seq<Preference>, joint: Joint, context: Context, available: bool)
    requires joint.Valid() && Decide(preferences, joint, context, available).Some?
    ensures var d := Decide(preferences, joint, context, available).value;
      && |d.rows| == |preferences|
      && (forall i :: 0 <= i < |preferences| ==>
            && d.rows[i].id == preferences[i].id
            && (d.rows[i].terminal.Rejected? <==> Verdict(preferences[i]).Rejected?)
            && (d.rows[i].terminal.Undecided? <==> Verdict(preferences[i]).Undecided?)
            && (d.rows[i].terminal.Primary? <==> d.primary == Some(preferences[i].id)))
      && (d.outcome.Recommendation? <==> d.primary.Some?)
      && (d.primary.Some? ==> UnknownIds(preferences) == {} && d.primary.value in SurvivorIds(preferences))
      && (d.reason == Some(UNRESOLVED) ==> forall id :: id in d.unresolved <==>
            id in UnknownIds(preferences) || id in SurvivorIds(preferences))
      && (d.reason == Some(NO_PASS) <==> forall p :: p in preferences ==> Verdict(p).Rejected?)
  {
    hide Compared, UnknownIds, SurvivorIds, FinalistsOf, Accepted, DistinctPreferences, Based, Verdict, Sorted;
    DecideIff(preferences, joint, context, available);
    BuildFacts(preferences, joint, context, available);
    var unknown, survivors := UnknownIds(preferences), SurvivorIds(preferences);
    var c := Compared(unknown != {}, FinalistsOf(preferences), joint, context, available).value;
    var d := Conclude(Rows(preferences), unknown, survivors, c);
    ConcludeRows(preferences, c);
    AllRejected(preferences);
  }

  lemma AllRejected(preferences: seq<Preference>)
    ensures UnknownIds(preferences) + SurvivorIds(preferences) == {} <==>
      forall p :: p in preferences ==> Verdict(p).Rejected?
  {
    if UnknownIds(preferences) + SurvivorIds(preferences) == {} {
      forall p | p in preferences ensures Verdict(p).Rejected? {
        var i :| 0 <= i < |preferences| && preferences[i] == p;
        assert preferences[i].id !in UnknownIds(preferences) && preferences[i].id !in SurvivorIds(preferences);
      }
    }
    if forall p :: p in preferences ==> Verdict(p).Rejected? {
      assert forall i :: 0 <= i < |preferences| ==> preferences[i] in preferences;
    }
  }

  lemma ConcludeRows(preferences: seq<Preference>, c: Comparison)
    requires DistinctPreferences(preferences)
    requires c.primary.Some? ==> c.supported && c.primary.value in SurvivorIds(preferences)
    ensures var d := Conclude(Rows(preferences), UnknownIds(preferences), SurvivorIds(preferences), c);
      && |d.rows| == |preferences|
      && (forall i :: 0 <= i < |preferences| ==>
            && d.rows[i].id == preferences[i].id
            && (d.rows[i].terminal.Rejected? <==> Verdict(preferences[i]).Rejected?)
            && (d.rows[i].terminal.Undecided? <==> Verdict(preferences[i]).Undecided?)
            && (d.rows[i].terminal.Primary? <==> d.primary == Some(preferences[i].id)))
  {
    hide Sorted;
    var d := Conclude(Rows(preferences), UnknownIds(preferences), SurvivorIds(preferences), c);
    forall i | 0 <= i < |preferences|
      ensures preferences[i].id in SurvivorIds(preferences) <==> Verdict(preferences[i]).Survives?
    {
      if preferences[i].id in SurvivorIds(preferences) {
        var j :| 0 <= j < |preferences| && Verdict(preferences[j]).Survives? && preferences[j].id == preferences[i].id;
        assert i == j;
      }
    }
  }
}
