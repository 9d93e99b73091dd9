/** What a research decision says, read off the preferences' gates and the comparison of those
    that pass them all. */
module DecisionMeaning {
  import opened Wrappers
  import opened Order
  import opened Finalists
  import opened ComparisonLaws
  import opened Decision

  /** Some gate failed: the first one, or one of the rest where the first passed. */
  predicate Fails(p: Preference) {
    p.g05.Fail? || (p.g05.Pass? && exists g :: g in p.gates && g.Fail?)
  }

  /** Every gate passed and the tie-break values form a finalist. */
  predicate Passes(p: Preference) {
    p.g05.Pass? && (forall g :: g in p.gates ==> g.Pass?) && p.evidence.Some?
  }

  lemma VerdictMeans(p: Preference)
    ensures Verdict(p).Rejected? <==> Fails(p)
    ensures Verdict(p).Survives? <==> Passes(p)
    ensures Verdict(p).Undecided? <==> !Fails(p) && !Passes(p)
  {
    assert Gate.Fail in p.gates <==> exists g :: g in p.gates && g.Fail?;
    assert Gate.Unknown in p.gates <==> exists g :: g in p.gates && g.Unknown?;
  }

  /** The finalist a preference enters as. */
  function Entry(p: Preference): Finalist
    requires p.evidence.Some?
  {
    p.evidence.value.(id := p.id, gate := Pass)
  }

  /** The finalists are the entries of the passing preferences, in any order. */
  predicate EntriesOf(preferences: seq<Preference>, finalists: seq<Finalist>) {
    && DistinctIds(finalists)
    && (forall f :: f in finalists ==> exists p :: p in preferences && Passes(p) && f == Entry(p))
    && (forall p :: p in preferences && Passes(p) ==> Entry(p) in finalists)
  }

  lemma {:induction false} FinalistsEnter(preferences: seq<Preference>)
    requires DistinctPreferences(preferences)
    ensures EntriesOf(preferences, FinalistsOf(preferences))
  {
    hide Verdict, Passes;
    FinalistsAre(preferences);
    if preferences != [] {
      var p, front := preferences[|preferences| - 1], preferences[..|preferences| - 1];
      FinalistsEnter(front);
      VerdictMeans(p);
      EvidenceThere(p);
      assert preferences == front + [p];
      forall q ensures q in preferences <==> q in front || q == p {
      }
    }
  }

  lemma EvidenceThere(p: Preference)
    ensures Passes(p) ==> p.evidence.Some?
  {
  }

  lemma SameMembers(s: seq<Finalist>, t: seq<Finalist>)
    requires DistinctIds(s) && DistinctIds(t) && forall f :: f in s <==> f in t
    ensures multiset(s) == multiset(t)
  {
    forall f ensures multiset(s)[f] == multiset(t)[f] {
      OnceInMultiset(s, f);
      OnceInMultiset(t, f);
      assert f in multiset(s) <==> f in s;
      assert f in multiset(t) <==> f in t;
    }
  }

  lemma NotRejected(preferences: seq<Preference>)
    ensures UnknownIds(preferences) == {} <==> forall p :: p in preferences ==> Fails(p) || Passes(p)
    ensures forall id :: id in UnknownIds(preferences) + SurvivorIds(preferences) <==>
      exists p :: p in preferences && !Fails(p) && p.id == id
  {
    hide Verdict, Fails, Passes;
    forall p ensures Verdict(p).Rejected? <==> Fails(p)
      ensures Verdict(p).Survives? <==> Passes(p)
      ensures Verdict(p).Undecided? <==> !Fails(p) && !Passes(p)
    {
      VerdictMeans(p);
    }
    if UnknownIds(preferences) == {} {
      forall p | p in preferences ensures Fails(p) || Passes(p) {
        var i :| 0 <= i < |preferences| && preferences[i] == p;
        assert preferences[i].id !in UnknownIds(preferences);
      }
    }
    forall id ensures id in UnknownIds(preferences) + SurvivorIds(preferences) <==>
      exists p :: p in preferences && !Fails(p) && p.id == id
    {
      if p :| p in preferences && !Fails(p) && p.id == id {
        var i :| 0 <= i < |preferences| && preferences[i] == p;
        assert Verdict(p).Undecided? || Verdict(p).Survives?;
      }
      if id in UnknownIds(preferences) + SurvivorIds(preferences) {
        var i :| 0 <= i < |preferences| && !Verdict(preferences[i]).Rejected? && preferences[i].id == id;
        assert preferences[i] in preferences;
      }
    }
  }

  /** The three ways a decision can come out. */
  lemma DecideParts(preferences: seq<Preference>, joint: Joint, context: Context, available: bool)
    requires joint.Valid() && Decide(preferences, joint, context, available).Some?
    requires Result(FinalistsOf(preferences), joint, context).Some?
    ensures var d, u, s := Decide(preferences, joint, context, available).value, UnknownIds(preferences),
        SurvivorIds(preferences);
      var fs := FinalistsOf(preferences);
      var c := Result(fs, joint, context).value;
      if u != {} || (fs != [] && (!available || !c.supported)) then
        d.outcome.Avoid? && d.reason == Some(UNRESOLVED) && d.primary.None? && d.unresolved == Sorted(u + s)
      else if fs == [] then
        d.outcome.Avoid? && d.reason == Some(NO_PASS) && d.primary.None? && d.unresolved == []
      else
        d.outcome.Recommendation? && d.reason.None? && d.primary == c.primary && d.primary.Some? && d.unresolved == []
  {
    hide Result, UnknownIds, SurvivorIds, FinalistsOf, Accepted, Rows, Settle, ResultValid, Sorted;
    var unknown, fs := UnknownIds(preferences), FinalistsOf(preferences);
    BuildFacts(preferences, joint, context, available);
    ResultFacts(fs, joint, context);
  }

  /** Each row says what the gates say, and which preference is recommended. */
  lemma RowsSay(preferences: seq<Preference>, joint: Joint, context: Context, available: bool)
    requires joint.Valid() && Decide(preferences, joint, context, available).Some?
    ensures var d := Decide(preferences, joint, context, available).value;
      && |d.rows| == |preferences|
      && forall i :: 0 <= i < |preferences| ==>
           && d.rows[i].id == preferences[i].id
           && d.rows[i].terminal == (
                if Fails(preferences[i]) then Rejected
                else if !Passes(preferences[i]) then Undecided
                else if d.primary == Some(preferences[i].id) then Primary else Survives)
  {
    hide Decide, Verdict, Fails, Passes, UnknownIds, SurvivorIds;
    DecisionMeans(preferences, joint, context, available);
    forall i | 0 <= i < |preferences|
      ensures Verdict(preferences[i]).Rejected? <==> Fails(preferences[i])
      ensures Verdict(preferences[i]).Undecided? <==> !Fails(preferences[i]) && !Passes(preferences[i])
    {
      VerdictMeans(preferences[i]);
    }
  }

  /** Where a decision comes out, one preference is recommended
      exactly when none is undecided, some pass, the joint source is there and their comparison is
      supported, and then it is that comparison's primary; all were rejected exactly when the
      reason is that none passed; otherwise every preference not rejected is listed. */
  lemma DecisionSays(preferences: seq<Preference>, finalists: seq<Finalist>, joint: Joint, context: Context,
                     available: bool)
    requires joint.Valid() && Decide(preferences, joint, context, available).Some?
    requires EntriesOf(preferences, finalists)
    ensures Result(finalists, joint, context).Some?
    ensures var d, c := Decide(preferences, joint, context, available).value, Result(finalists, joint, context).value;
      && (d.outcome.Recommendation? <==>
            && finalists != [] && (forall p :: p in preferences ==> Fails(p) || Passes(p))
            && available && c.supported)
      && (if d.outcome.Recommendation? then
            d.primary == c.primary && d.primary.Some? && d.reason.None? && d.unresolved == []
          else if forall p :: p in preferences ==> Fails(p) then
            d.primary.None? && d.reason == Some("NO_PREFERENCE_PASSED_ABSOLUTE_GATES") && d.unresolved == []
          else
            && d.primary.None? && d.reason == Some("PRIMARY_SELECTION_UNRESOLVED") && Ascending(d.unresolved)
            && forall id :: id in d.unresolved <==> exists p :: p in preferences && !Fails(p) && p.id == id)
  {
    hide Result, Fails, Passes, Decide, UnknownIds, SurvivorIds, FinalistsOf, Ascending, DistinctPreferences;
    DecideIff(preferences, joint, context, available);
    FinalistsEnter(preferences);
    var fs := FinalistsOf(preferences);
    SameEntries(preferences, fs, finalists);
    InputOrderIrrelevant(fs, finalists, joint, context);
    ResultFacts(fs, joint, context);
    DecideParts(preferences, joint, context, available);
    NotRejected(preferences);
    EmptyFinalists(preferences);
    NoneLeft(preferences);
  }

  lemma NoneLeft(preferences: seq<Preference>)
    ensures (forall p :: p in preferences ==> Fails(p)) <==> UnknownIds(preferences) + SurvivorIds(preferences) == {}
  {
    hide Fails, UnknownIds, SurvivorIds;
    NotRejected(preferences);
    var left := UnknownIds(preferences) + SurvivorIds(preferences);
    if forall p :: p in preferences ==> Fails(p) {
      assert forall id :: id !in left;
    }
    forall p | left == {} && p in preferences ensures Fails(p) {
      assert p.id !in left;
    }
  }

  lemma SameEntries(preferences: seq<Preference>, s: seq<Finalist>, t: seq<Finalist>)
    requires EntriesOf(preferences, s) && EntriesOf(preferences, t)
    ensures multiset(s) == multiset(t) && (s == [] <==> t == [])
    ensures DistinctIds(s)
  {
    hide Passes;
    SameMembers(s, t);
    assert |multiset(s)| == |s| && |multiset(t)| == |t|;
  }
}
