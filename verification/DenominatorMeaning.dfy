/** What inspecting a cohort shows, pair by pair, and when it refuses, in terms of the selected
    receipts and their records. */
module DenominatorMeaning {
  import opened Wrappers
  import opened Order
  import opened Denominator

  /** Record `t` of receipt `s` is there. */
  predicate There(receipts: seq<Receipt>, s: nat, t: nat) {
    s < |receipts| && t < |receipts[s].records|
  }

  /** It is a record of this membership and preference. */
  predicate Names(receipts: seq<Receipt>, s: nat, t: nat, membership: string, preference: string) {
    && There(receipts, s, t)
    && receipts[s].membership == membership && receipts[s].records[t].preference == preference
  }

  /** Where the claim of a record stands among all claims. */
  function Place(receipts: seq<Receipt>, s: nat, t: nat): nat
    requires There(receipts, s, t)
  {
    |Claims(receipts[..s])| + t
  }

  lemma {:induction false} ClaimAt(receipts: seq<Receipt>, s: nat, t: nat)
    requires There(receipts, s, t)
    ensures Place(receipts, s, t) < |Claims(receipts)|
    ensures Claims(receipts)[Place(receipts, s, t)] == ClaimsOf(receipts[s])[t]
    decreases |receipts|
  {
    hide ClaimsOf;
    var n := |receipts| - 1;
    assert |ClaimsOf(receipts[s])| == |receipts[s].records| by { ClaimsSize(receipts[s]); }
    if s < n {
      ClaimAt(receipts[..n], s, t);
      assert receipts[..n][..s] == receipts[..s];
    }
  }

  lemma ClaimsSize(r: Receipt)
    ensures |ClaimsOf(r)| == |r.records|
  {
  }

  lemma {:induction false} PlaceOf(receipts: seq<Receipt>, k: nat) returns (s: nat, t: nat)
    requires k < |Claims(receipts)|
    ensures There(receipts, s, t) && Place(receipts, s, t) == k
    decreases |receipts|
  {
    hide ClaimsOf;
    var n := |receipts| - 1;
    ClaimsSize(receipts[n]);
    if k < |Claims(receipts[..n])| {
      s, t := PlaceOf(receipts[..n], k);
      assert receipts[..n][..s] == receipts[..s];
    } else {
      s, t := n, k - |Claims(receipts[..n])|;
    }
  }

  lemma {:induction false} PlacesRise(receipts: seq<Receipt>, s: nat, t: nat, u: nat)
    requires There(receipts, s, t) && s < u <= |receipts|
    ensures Place(receipts, s, t) < |Claims(receipts[..u])|
    decreases u
  {
    hide ClaimsOf;
    ClaimsSize(receipts[u - 1]);
    ClaimsGrow(receipts, u - 1);
    if s < u - 1 { PlacesRise(receipts, s, t, u - 1); }
  }

  /** Two records that are not one name different pairs. */
  predicate NamedOnce(receipts: seq<Receipt>) {
    forall s, t, u, v | 0 <= s < |receipts| && 0 <= u < |receipts|
        && 0 <= t < |receipts[s].records| && 0 <= v < |receipts[u].records| && (s, t) != (u, v) ::
      (receipts[s].membership, receipts[s].records[t].preference)
        != (receipts[u].membership, receipts[u].records[v].preference)
  }

  lemma DistinctIff(receipts: seq<Receipt>)
    ensures DistinctClaims(Claims(receipts)) <==> NamedOnce(receipts)
  {
    hide Claims, ClaimsOf, Place;
    var claims := Claims(receipts);
    forall s: nat, t: nat | There(receipts, s, t)
      ensures Place(receipts, s, t) < |claims|
      ensures claims[Place(receipts, s, t)].pair == (receipts[s].membership, receipts[s].records[t].preference)
    {
      ClaimAt(receipts, s, t);
      ClaimIs(receipts[s], t);
    }
    if NamedOnce(receipts) {
      forall i, j | 0 <= i < j < |claims| ensures claims[i].pair != claims[j].pair {
        var s, t := PlaceOf(receipts, i);
        var u, v := PlaceOf(receipts, j);
      }
    }
    if DistinctClaims(claims) {
      forall s: nat, t: nat, u: nat, v: nat | 0 <= s < |receipts| && 0 <= u < |receipts|
          && 0 <= t < |receipts[s].records| && 0 <= v < |receipts[u].records| && (s, t) != (u, v)
        ensures (receipts[s].membership, receipts[s].records[t].preference)
          != (receipts[u].membership, receipts[u].records[v].preference)
      {
        assert There(receipts, s, t) && There(receipts, u, v);
        PlacesDiffer(receipts, s, t, u, v);
      }
    }
  }

  lemma ClaimIs(r: Receipt, t: nat)
    requires t < |r.records|
    ensures |ClaimsOf(r)| == |r.records|
    ensures ClaimsOf(r)[t] == Claim((r.membership, r.records[t].preference), r.publication, r.batch, r.records[t])
  {
  }

  lemma PlacesDiffer(receipts: seq<Receipt>, s: nat, t: nat, u: nat, v: nat)
    requires There(receipts, s, t) && There(receipts, u, v) && (s, t) != (u, v)
    ensures Place(receipts, s, t) != Place(receipts, u, v)
  {
    hide Claims;
    if s < u {
      PlacesRise(receipts, s, t, u);
    } else if u < s {
      PlacesRise(receipts, u, v, s);
    }
  }

  lemma {:induction false} PairsNamed(memberships: seq<Membership>, preferences: seq<string>, p: (string, string))
    requires Distinct(Denominator.Names(memberships)) && Distinct(preferences)
    ensures p in PairsOf(Product(memberships, preferences)) <==>
      (exists m :: m in memberships && m.id == p.0) && p.1 in preferences
  {
    hide Product, Blank;
    var rows := Product(memberships, preferences);
    ProductDistinct(memberships, preferences);
    PairsAre(rows);
    if p in PairsOf(rows) {
      var r :| r in rows && r.Pair() == p;
      RowNamed(memberships, preferences, r);
    }
    if (exists m :: m in memberships && m.id == p.0) && p.1 in preferences {
      var m :| m in memberships && m.id == p.0;
      var i :| 0 <= i < |memberships| && memberships[i] == m;
      var j :| 0 <= j < |preferences| && preferences[j] == p.1;
      ProductIs(memberships, preferences, i, j);
      BlankPair(m, p.1);
      assert rows[i * |preferences| + j].Pair() == p;
    }
  }

  lemma BlankPair(m: Membership, preference: string)
    ensures Blank(m, preference).Pair() == (m.id, preference)
  {
  }

  lemma {:induction false} RowNamed(memberships: seq<Membership>, preferences: seq<string>, r: Row)
    requires r in Product(memberships, preferences)
    ensures (exists m :: m in memberships && m.id == r.membership) && r.preference in preferences
  {
    var n := |memberships| - 1;
    if r in Product(memberships[..n], preferences) {
      RowNamed(memberships[..n], preferences, r);
      var m :| m in memberships[..n] && m.id == r.membership;
      assert m in memberships;
    } else {
      assert r in RowsFor(memberships[n], preferences);
      assert memberships[n] in memberships;
    }
  }

  /** The pair is one of the denominator. */
  predicate Frozen(memberships: seq<Membership>, preferences: seq<string>, membership: string, preference: string) {
    (exists m :: m in memberships && m.id == membership) && preference in preferences
  }

  lemma InsideIff(memberships: seq<Membership>, preferences: seq<string>, receipts: seq<Receipt>)
    requires Distinct(Denominator.Names(memberships)) && Distinct(preferences)
    ensures Inside(PairsOf(Product(memberships, preferences)), Claims(receipts)) <==>
      forall s, t :: 0 <= s < |receipts| && 0 <= t < |receipts[s].records| ==>
        Frozen(memberships, preferences, receipts[s].membership, receipts[s].records[t].preference)
  {
    hide Product, Claims, PairsOf, ClaimsOf, Place, Distinct, Frozen;
    var pairs, claims := PairsOf(Product(memberships, preferences)), Claims(receipts);
    if Inside(pairs, claims) {
      forall s, t | 0 <= s < |receipts| && 0 <= t < |receipts[s].records|
        ensures Frozen(memberships, preferences, receipts[s].membership, receipts[s].records[t].preference)
      {
        ClaimAt(receipts, s, t);
        ClaimIs(receipts[s], t);
        assert claims[Place(receipts, s, t)].pair in pairs;
        FrozenIff(memberships, preferences, receipts[s].membership, receipts[s].records[t].preference);
      }
    }
    if forall s, t :: 0 <= s < |receipts| && 0 <= t < |receipts[s].records| ==>
        Frozen(memberships, preferences, receipts[s].membership, receipts[s].records[t].preference) {
      forall k | 0 <= k < |claims| ensures claims[k].pair in pairs {
        var s, t := PlaceOf(receipts, k);
        ClaimAt(receipts, s, t);
        ClaimIs(receipts[s], t);
        FrozenIff(memberships, preferences, receipts[s].membership, receipts[s].records[t].preference);
      }
    }
  }

  lemma FrozenIff(memberships: seq<Membership>, preferences: seq<string>, membership: string, preference: string)
    requires Distinct(Denominator.Names(memberships)) && Distinct(preferences)
    ensures Frozen(memberships, preferences, membership, preference) <==>
      (membership, preference) in PairsOf(Product(memberships, preferences))
  {
    PairsNamed(memberships, preferences, (membership, preference));
  }

  /** A cohort is shown exactly when no publication is selected twice and every record of a
      selected receipt names a pair of the denominator that no other record names. */
  lemma InspectedIff(memberships: seq<Membership>, preferences: seq<string>, receipts: seq<Receipt>,
                     failures: map<string, seq<string>>, reasons: set<string>)
    requires Distinct(Denominator.Names(memberships)) && Distinct(preferences)
    ensures Inspected(Product(memberships, preferences), receipts, failures, reasons).Some? <==>
      && (forall s, u :: 0 <= s < u < |receipts| ==> receipts[s].publication != receipts[u].publication)
      && NamedOnce(receipts)
      && (forall s, t :: 0 <= s < |receipts| && 0 <= t < |receipts[s].records| ==>
            Frozen(memberships, preferences, receipts[s].membership, receipts[s].records[t].preference))
  {
    hide Product, Claims, Enrol, PairsOf, NamedOnce, DistinctClaims, Overlaid, Inside, Frozen, Distinct, Publications;
    EnrolIff(PairsOf(Product(memberships, preferences)), Claims(receipts));
    DistinctIff(receipts);
    InsideIff(memberships, preferences, receipts);
    PublicationsDiffer(receipts);
  }

  lemma PublicationsDiffer(receipts: seq<Receipt>)
    ensures Distinct(Publications(receipts)) <==>
      forall s, u :: 0 <= s < u < |receipts| ==> receipts[s].publication != receipts[u].publication
  {
    var p := Publications(receipts);
    assert forall s :: 0 <= s < |receipts| ==> p[s] == receipts[s].publication;
  }

  /** A pair without a record: excluded for the membership's reasons, or incomplete, with the
      membership's failures and why nothing was selected. */
  predicate Unclaimed(r: Row, m: Membership, failures: map<string, seq<string>>, reasons: set<string>) {
    && r.batch.None? && r.publication.None? && r.enrollment.None?
    && if !m.included then r.state == "EXCLUDED" && r.failures == [] && r.reasons == Sorted(m.reasons)
       else
         && r.failures == (if m.id in failures then failures[m.id] else [])
         && r.state == (if r.failures == [] then "INCOMPLETE_FOR_NOT_ATTEMPTED" else "INCOMPLETE")
         && r.reasons == Sorted({"NO_EXACT_SELECTED_PUBLICATION_FOR_DENOMINATOR_PAIR"} + reasons)
  }

  /** The row of membership `i` and preference `j`: their own, showing the record that names them
      where there is one. */
  lemma InspectedSays(memberships: seq<Membership>, preferences: seq<string>, receipts: seq<Receipt>,
                      failures: map<string, seq<string>>, reasons: set<string>, i: nat, j: nat)
    requires Distinct(Denominator.Names(memberships)) && Distinct(preferences)
    requires Inspected(Product(memberships, preferences), receipts, failures, reasons).Some?
    requires i < |memberships| && j < |preferences|
    ensures var after := Inspected(Product(memberships, preferences), receipts, failures, reasons).value;
      && |after| == |memberships| * |preferences| && 0 <= i * |preferences| + j < |after|
      && var r, m, p := after[i * |preferences| + j], memberships[i], preferences[j];
      && r.membership == m.id && r.fixture == m.fixture && r.preference == p && r.included == m.included
      && (forall s: nat, t: nat :: Names(receipts, s, t, m.id, p) ==>
            var record := receipts[s].records[t];
            && r.state == record.disposition && r.reasons == record.reasons
            && r.batch == Some(receipts[s].batch) && r.publication == Some(receipts[s].publication)
            && r.enrollment == Some(record.enrollment)
            && r.failures == (if m.included && m.id in failures then failures[m.id] else []))
      && ((forall s: nat, t: nat :: !Names(receipts, s, t, m.id, p)) ==> Unclaimed(r, m, failures, reasons))
  {
    hide Inspected, Product, Claims, Enrol, PairsOf, ClaimsOf, Place, Overlay, DistinctClaims, Covered, Placed, Blank;
    hide Unclaimed, Distinct;
    var rows := Product(memberships, preferences);
    var pairs, claims := PairsOf(rows), Claims(receipts);
    InspectedRows(rows, receipts, failures, reasons);
    var e := Enrol(pairs, claims).value;
    ProductIs(memberships, preferences, i, j);
    EnrolIff(pairs, claims);
    var x, m, p := i * |preferences| + j, memberships[i], preferences[j];
    ProductDistinct(memberships, preferences);
    PairsAre(rows);
    BlankPair(m, p);
    assert rows[x].Pair() == (m.id, p) && pairs[(m.id, p)] == rows[x];
    forall s: nat, t: nat | Names(receipts, s, t, m.id, p)
      ensures (m.id, p) in e
      ensures e[(m.id, p)] ==
        Enrolled(rows[x], Claim((m.id, p), receipts[s].publication, receipts[s].batch, receipts[s].records[t]))
    {
      ClaimAt(receipts, s, t);
      ClaimIs(receipts[s], t);
      PlacedAt(pairs, claims, e, Place(receipts, s, t));
    }
    if (m.id, p) in e {
      var k := CoveredBy(claims, e, (m.id, p));
      var s, t := PlaceOf(receipts, k);
      ClaimAt(receipts, s, t);
      ClaimIs(receipts[s], t);
      assert Names(receipts, s, t, m.id, p);
    }
    BlankOverlaid(m, p, failures, reasons, e);
  }

  lemma PlacedAt(pairs: Pairs, claims: seq<Claim>, e: Pairs, k: nat)
    requires Holds(pairs, claims, e) && k < |claims|
    ensures claims[k].pair in pairs && claims[k].pair in e
    ensures e[claims[k].pair] == Enrolled(pairs[claims[k].pair], claims[k])
  {
    hide Enrolled;
  }

  lemma CoveredBy(claims: seq<Claim>, e: Pairs, p: (string, string)) returns (k: nat)
    requires Covered(claims, e) && p in e
    ensures k < |claims| && claims[k].pair == p
  {
    k :| 0 <= k < |claims| && claims[k].pair == p;
  }

  /** What the overlay makes of a blank row. */
  lemma BlankOverlaid(m: Membership, p: string, failures: map<string, seq<string>>, reasons: set<string>, e: Pairs)
    ensures var r := Overlay(Blank(m, p), failures, reasons, e);
      if (m.id, p) in e then
        r == e[(m.id, p)].(failures := if m.included && m.id in failures then failures[m.id] else [])
      else
        && r.membership == m.id && r.fixture == m.fixture && r.preference == p && r.included == m.included
        && Unclaimed(r, m, failures, reasons)
    ensures var b := Blank(m, p);
      b.membership == m.id && b.fixture == m.fixture && b.preference == p && b.included == m.included
  {
    OnlyOne("NO_EXACT_SELECTED_PUBLICATION_FOR_DENOMINATOR_PAIR");
  }

  lemma OnlyOne(s: string)
    ensures (set x | x in [s]) == {s}
  {
    assert s in [s];
  }
}
