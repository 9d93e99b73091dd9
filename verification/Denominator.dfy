/** The evaluation denominator: every frozen membership by every enabled preference, and what
    receipts, failures and scope counts do to it. */
module Denominator {
  import opened Wrappers
  import opened Order

  datatype Membership = Membership(id: string, fixture: string, included: bool, reasons: set<string>, scope: string)

  /** One pair. `state` is the disposition shown for it. */
  datatype Row = Row(
    membership: string, fixture: string, preference: string, included: bool, state: string,
    batch: Option<string>, publication: Option<string>, enrollment: Option<string>,
    failures: seq<string>, reasons: seq<string>)
  {
    function Pair(): (string, string) {
      (membership, preference)
    }
  }

  type Pairs = map<(string, string), Row>

  // The product -------------------------------------------------------------

  const NOT_ATTEMPTED := "INCOMPLETE_FOR_NOT_ATTEMPTED"

  function Blank(m: Membership, preference: string): Row {
    Row(m.id, m.fixture, preference, m.included, if m.included then NOT_ATTEMPTED else "EXCLUDED", None, None, None, [],
        if m.included then ["NO_EXACT_SELECTED_PUBLICATION_FOR_DENOMINATOR_PAIR"] else Sorted(m.reasons))
  }

  function RowsFor(m: Membership, preferences: seq<string>): seq<Row> {
    seq(|preferences|, j requires 0 <= j < |preferences| => Blank(m, preferences[j]))
  }

  /** Every membership by every preference, in order. */
  function Product(memberships: seq<Membership>, preferences: seq<string>): seq<Row> {
    if memberships == [] then []
    else Product(memberships[..|memberships| - 1], preferences) + RowsFor(memberships[|memberships| - 1], preferences)
  }

  lemma {:induction false} ProductIs(memberships: seq<Membership>, preferences: seq<string>, i: nat, j: nat)
    requires i < |memberships| && j < |preferences|
    ensures |Product(memberships, preferences)| == |memberships| * |preferences|
    ensures 0 <= i * |preferences| + j < |memberships| * |preferences|
    ensures Product(memberships, preferences)[i * |preferences| + j] == Blank(memberships[i], preferences[j])
  {
    hide Blank;
    var n, k := |memberships| - 1, |preferences|;
    ProductSize(memberships, preferences);
    ProductSize(memberships[..n], preferences);
    IndexBound(i, n + 1, j, k);
    var front, last := Product(memberships[..n], preferences), RowsFor(memberships[n], preferences);
    if i < n {
      ProductIs(memberships[..n], preferences, i, j);
      InFront(front, last, i * k + j);
    } else {
      InLast(front, last, j);
    }
  }

  lemma InFront(a: seq<Row>, b: seq<Row>, x: nat)
    requires x < |a|
    ensures (a + b)[x] == a[x]
  {
  }

  lemma InLast(a: seq<Row>, b: seq<Row>, x: nat)
    requires x < |b|
    ensures (a + b)[|a| + x] == b[x]
  {
  }

  lemma IndexBound(i: nat, n: nat, j: nat, k: nat)
    requires i < n && j < k
    ensures 0 <= i * k + j < n * k
  {
    assert (i + 1) * k <= n * k;
  }

  lemma {:induction false} ProductSize(memberships: seq<Membership>, preferences: seq<string>)
    ensures |Product(memberships, preferences)| == |memberships| * |preferences|
  {
    if memberships != [] {
      var n := |memberships| - 1;
      ProductSize(memberships[..n], preferences);
      assert (n + 1) * |preferences| == n * |preferences| + |preferences|;
    }
  }

  predicate Distinct(s: seq<string>) {
    forall i, j :: 0 <= i < j < |s| ==> s[i] != s[j]
  }

  function Names(memberships: seq<Membership>): seq<string> {
    seq(|memberships|, i requires 0 <= i < |memberships| => memberships[i].id)
  }

  predicate DistinctPairs(rows: seq<Row>) {
    forall i, j :: 0 <= i < j < |rows| ==> rows[i].Pair() != rows[j].Pair()
  }

  lemma {:induction false} ProductDistinct(memberships: seq<Membership>, preferences: seq<string>)
    requires Distinct(Names(memberships)) && Distinct(preferences)
    ensures DistinctPairs(Product(memberships, preferences))
    ensures forall r :: r in Product(memberships, preferences) ==> exists m :: m in memberships && m.id == r.membership
  {
    if memberships != [] {
      var n := |memberships| - 1;
      var front, last := memberships[..n], memberships[n];
      assert Names(front) == Names(memberships)[..n];
      ProductDistinct(front, preferences);
      assert memberships == front + [last];
      var a, b := Product(front, preferences), RowsFor(last, preferences);
      forall r | r in a ensures r.membership != last.id {
        var m :| m in front && m.id == r.membership;
        var i :| 0 <= i < n && front[i] == m;
        assert Names(memberships)[i] != Names(memberships)[n];
      }
      forall r | r in b ensures r.membership == last.id {
      }
      forall r | r in a + b ensures exists m :: m in memberships && m.id == r.membership {
        if r in a {
          var m :| m in front && m.id == r.membership;
          assert m in memberships;
        } else {
          assert last in memberships;
        }
      }
      forall i, j | 0 <= i < j < |a + b| ensures (a + b)[i].Pair() != (a + b)[j].Pair() {
        assert i < |a| ==> (a + b)[i] in a;
        assert j >= |a| ==> (a + b)[j] in b;
      }
    }
  }

  // Receipts ----------------------------------------------------------------

  datatype Record = Record(preference: string, enrollment: string, disposition: string, reasons: seq<string>)

  datatype Receipt = Receipt(publication: string, batch: string, membership: string, records: seq<Record>)

  /** One record of one receipt, laid on its pair. */
  datatype Claim = Claim(pair: (string, string), publication: string, batch: string, record: Record)

  function ClaimsOf(r: Receipt): seq<Claim> {
    seq(|r.records|, i requires 0 <= i < |r.records| =>
      Claim((r.membership, r.records[i].preference), r.publication, r.batch, r.records[i]))
  }

  function Claims(receipts: seq<Receipt>): seq<Claim> {
    if receipts == [] then [] else Claims(receipts[..|receipts| - 1]) + ClaimsOf(receipts[|receipts| - 1])
  }

  function PairsOf(rows: seq<Row>): Pairs {
    if rows == [] then map[] else PairsOf(rows[..|rows| - 1])[rows[|rows| - 1].Pair() := rows[|rows| - 1]]
  }

  function Enrolled(row: Row, c: Claim): Row {
    row.(state := c.record.disposition, batch := Some(c.batch), publication := Some(c.publication),
         enrollment := Some(c.record.enrollment), reasons := c.record.reasons)
  }

  /** The enrolled pairs, or a refusal of a repeated or an added one. */
  function Enrol(pairs: Pairs, claims: seq<Claim>): Option<Pairs> {
    if claims == [] then Some(map[])
    else
      var c := claims[|claims| - 1];
      var before :- Enrol(pairs, claims[..|claims| - 1]);
      if c.pair !in pairs || c.pair in before then None else Some(before[c.pair := Enrolled(pairs[c.pair], c)])
  }

  predicate DistinctClaims(claims: seq<Claim>) {
    forall i, j :: 0 <= i < j < |claims| ==> claims[i].pair != claims[j].pair
  }

  /** Every enrolled pair is some claim's. */
  predicate Covered(claims: seq<Claim>, e: Pairs) {
    forall p :: p in e ==> exists i :: 0 <= i < |claims| && claims[i].pair == p
  }

  /** Every claim sits on its own pair's row. */
  predicate Placed(pairs: Pairs, claims: seq<Claim>, e: Pairs) {
    forall i :: 0 <= i < |claims| ==>
      claims[i].pair in pairs && claims[i].pair in e && e[claims[i].pair] == Enrolled(pairs[claims[i].pair], claims[i])
  }

  /** What a map of enrolled pairs holds: one entry per claim, under its pair. */
  predicate Holds(pairs: Pairs, claims: seq<Claim>, e: Pairs) {
    |e| == |claims| && DistinctClaims(claims) && Covered(claims, e) && Placed(pairs, claims, e)
  }

  lemma HoldsNext(pairs: Pairs, claims: seq<Claim>, e: Pairs, c: Claim)
    requires Holds(pairs, claims, e) && c.pair in pairs && c.pair !in e
    ensures Holds(pairs, claims + [c], e[c.pair := Enrolled(pairs[c.pair], c)])
  {
    hide Enrolled, DistinctClaims, Covered, Placed;
    var row := Enrolled(pairs[c.pair], c);
    assert e[c.pair := row].Keys == e.Keys + {c.pair};
    CoveredNext(claims, e, c, row);
    PlacedNext(pairs, claims, e, c);
    PlacedElsewhere(pairs, claims, e, c);
    ClaimsNext(claims, c);
  }

  lemma CoveredNext(claims: seq<Claim>, e: Pairs, c: Claim, row: Row)
    requires Covered(claims, e)
    ensures Covered(claims + [c], e[c.pair := row])
  {
    var after, all := e[c.pair := row], claims + [c];
    forall p | p in after ensures exists i :: 0 <= i < |all| && all[i].pair == p {
      if p == c.pair {
        assert all[|claims|] == c;
      } else {
        var i :| 0 <= i < |claims| && claims[i].pair == p;
        assert all[i] == claims[i];
      }
    }
  }

  lemma PlacedNext(pairs: Pairs, claims: seq<Claim>, e: Pairs, c: Claim)
    requires Placed(pairs, claims, e) && c.pair in pairs && c.pair !in e
    ensures Placed(pairs, claims + [c], e[c.pair := Enrolled(pairs[c.pair], c)])
  {
    hide Enrolled;
    var all := claims + [c];
    assert forall i :: 0 <= i < |claims| ==> all[i] == claims[i];
  }

  lemma PlacedElsewhere(pairs: Pairs, claims: seq<Claim>, e: Pairs, c: Claim)
    requires Placed(pairs, claims, e) && c.pair !in e
    ensures forall i :: 0 <= i < |claims| ==> claims[i].pair != c.pair
  {
  }

  lemma ClaimsNext(claims: seq<Claim>, c: Claim)
    requires DistinctClaims(claims) && forall i :: 0 <= i < |claims| ==> claims[i].pair != c.pair
    ensures DistinctClaims(claims + [c])
  {
  }

  /** No claim adds a pair to the denominator. */
  predicate Inside(pairs: Pairs, claims: seq<Claim>) {
    forall i :: 0 <= i < |claims| ==> claims[i].pair in pairs
  }

  /** Enrolment succeeds exactly when every claim's pair is in the denominator and no pair is
      claimed twice; then each claim sits on its own row. */
  lemma {:induction false} EnrolIff(pairs: Pairs, claims: seq<Claim>)
    ensures Enrol(pairs, claims).Some? <==> DistinctClaims(claims) && Inside(pairs, claims)
    ensures Enrol(pairs, claims).Some? ==> Holds(pairs, claims, Enrol(pairs, claims).value)
  {
    hide Enrolled, Holds, DistinctClaims, Inside;
    if claims == [] {
      HoldsNothing(pairs);
    } else {
      var n := |claims| - 1;
      var front, c := claims[..n], claims[n];
      EnrolIff(pairs, front);
      assert claims == front + [c];
      if Enrol(pairs, front).Some? {
        var before := Enrol(pairs, front).value;
        HoldsKeys(pairs, front, before, c.pair);
        if c.pair in pairs && c.pair !in before {
          HoldsNext(pairs, front, before, c);
        }
      }
      DistinctSplit(pairs, claims);
    }
  }

  lemma HoldsNothing(pairs: Pairs)
    ensures Holds(pairs, [], map[]) && DistinctClaims([]) && Inside(pairs, [])
  {
  }

  lemma HoldsKeys(pairs: Pairs, claims: seq<Claim>, e: Pairs, p: (string, string))
    requires Holds(pairs, claims, e)
    ensures p in e <==> exists i :: 0 <= i < |claims| && claims[i].pair == p
  {
  }

  lemma DistinctSplit(pairs: Pairs, claims: seq<Claim>)
    requires claims != []
    ensures var n := |claims| - 1;
      && (DistinctClaims(claims) <==>
            DistinctClaims(claims[..n]) && !exists i :: 0 <= i < |claims[..n]| && claims[..n][i].pair == claims[n].pair)
      && (Inside(pairs, claims) <==> Inside(pairs, claims[..n]) && claims[n].pair in pairs)
  {
    var n := |claims| - 1;
    if Inside(pairs, claims[..n]) && claims[n].pair in pairs {
      assert forall i :: 0 <= i < n ==> claims[i] == claims[..n][i];
    }
  }

  // The overlay -------------------------------------------------------------

  /** Failures by membership, and further reasons for every included row not enrolled. */
  function Failed(row: Row, failures: map<string, seq<string>>, reasons: set<string>): Row {
    if !row.included then row
    else
      var f := if row.membership in failures then failures[row.membership] else [];
      row.(state := if f != [] then "INCOMPLETE" else NOT_ATTEMPTED, failures := f,
           reasons := Sorted((set x | x in row.reasons) + reasons))
  }

  function Overlay(row: Row, failures: map<string, seq<string>>, reasons: set<string>, enrolled: Pairs): Row {
    var failed := Failed(row, failures, reasons);
    if row.Pair() in enrolled then enrolled[row.Pair()].(failures := failed.failures) else failed
  }

  function Overlaid(
    rows: seq<Row>, failures: map<string, seq<string>>, reasons: set<string>, enrolled: Pairs): seq<Row>
  {
    seq(|rows|, i requires 0 <= i < |rows| => Overlay(rows[i], failures, reasons, enrolled))
  }

  function Publications(receipts: seq<Receipt>): seq<string> {
    seq(|receipts|, i requires 0 <= i < |receipts| => receipts[i].publication)
  }

  function Inspected(rows: seq<Row>, receipts: seq<Receipt>, failures: map<string, seq<string>>, reasons: set<string>):
    Option<seq<Row>>
  {
    if !Distinct(Publications(receipts)) then None
    else
      var enrolled :- Enrol(PairsOf(rows), Claims(receipts));
      Some(Overlaid(rows, failures, reasons, enrolled))
  }

  lemma {:induction false} PairsAre(rows: seq<Row>)
    requires DistinctPairs(rows)
    ensures forall i :: 0 <= i < |rows| ==> rows[i].Pair() in PairsOf(rows) && PairsOf(rows)[rows[i].Pair()] == rows[i]
    ensures forall p :: p in PairsOf(rows) ==> exists r :: r in rows && r.Pair() == p
  {
    if rows != [] {
      var n := |rows| - 1;
      PairsAre(rows[..n]);
      assert rows == rows[..n] + [rows[n]];
      forall p | p in PairsOf(rows) ensures exists r :: r in rows && r.Pair() == p {
        if p in PairsOf(rows[..n]) {
          var r :| r in rows[..n] && r.Pair() == p;
          assert r in rows;
        } else {
          assert rows[n] in rows;
        }
      }
    }
  }

  lemma ClaimsGrow(receipts: seq<Receipt>, k: nat)
    requires k < |receipts|
    ensures Claims(receipts[..k + 1]) == Claims(receipts[..k]) + ClaimsOf(receipts[k])
  {
    assert receipts[..k + 1][..k] == receipts[..k];
  }

  lemma {:induction false} EnrolPrefix(pairs: Pairs, claims: seq<Claim>, more: seq<Claim>)
    requires Enrol(pairs, claims).None?
    ensures Enrol(pairs, claims + more).None?
  {
    if more == [] {
      assert claims + more == claims;
    } else {
      EnrolPrefix(pairs, claims, more[..|more| - 1]);
      assert (claims + more)[..|claims + more| - 1] == claims + more[..|more| - 1];
    }
  }

  /** Lays one receipt's records on the rows, refusing a pair repeated or added. */
  method EnrolReceipt(pairs: Pairs, receipt: Receipt, before: Pairs, ghost done: seq<Claim>)
    returns (ok: bool, enrolled: Pairs, refused: nat)
    requires Enrol(pairs, done) == Some(before)
    ensures ok ==> Enrol(pairs, done + ClaimsOf(receipt)) == Some(enrolled)
    ensures !ok ==> refused <= |ClaimsOf(receipt)| && Enrol(pairs, done + ClaimsOf(receipt)[..refused]).None?
  {
    enrolled := before;
    refused := 0;
    var claims := ClaimsOf(receipt);
    assert done + claims[..0] == done;
    var j := 0;
    while j < |receipt.records|
      invariant 0 <= j <= |receipt.records|
      invariant Enrol(pairs, done + claims[..j]) == Some(enrolled)
    {
      var record := receipt.records[j];
      var pair := (receipt.membership, record.preference);
      EnrolNext(pairs, done, claims, j);
      if pair !in pairs || pair in enrolled {
        return false, enrolled, j + 1;
      }
      enrolled := enrolled[pair := pairs[pair].(
          state := record.disposition, batch := Some(receipt.batch), publication := Some(receipt.publication),
          enrollment := Some(record.enrollment), reasons := record.reasons)];
      j := j + 1;
    }
    assert claims[..j] == claims;
    ok := true;
  }

  lemma EnrolNext(pairs: Pairs, done: seq<Claim>, claims: seq<Claim>, j: nat)
    requires j < |claims| && Enrol(pairs, done + claims[..j]).Some?
    ensures var e, c := Enrol(pairs, done + claims[..j]).value, claims[j];
      Enrol(pairs, done + claims[..j + 1]) ==
        if c.pair !in pairs || c.pair in e then None else Some(e[c.pair := Enrolled(pairs[c.pair], c)])
  {
    var next := done + claims[..j + 1];
    assert next[..|next| - 1] == done + claims[..j] && next[|next| - 1] == claims[j];
  }

  /** Lays every selected receipt on the rows, then overlays failures. */
  method InspectCohort(rows: seq<Row>, receipts: seq<Receipt>, failures: map<string, seq<string>>, reasons: set<string>)
    returns (r: Option<seq<Row>>)
    ensures r == Inspected(rows, receipts, failures, reasons)
  {
    hide Overlaid, Sorted, ClaimsOf, Claims, PairsOf, Enrolled;
    if !Distinct(Publications(receipts)) { return None; }
    var pairs := PairsOf(rows);
    var enrolled: Pairs := map[];
    NoClaims();
    assert receipts[..0] == [];
    var i := 0;
    while i < |receipts|
      invariant 0 <= i <= |receipts|
      invariant Enrol(pairs, Claims(receipts[..i])) == Some(enrolled)
    {
      ghost var done := Claims(receipts[..i]);
      var ok, next, refused := EnrolReceipt(pairs, receipts[i], enrolled, done);
      if !ok {
        ClaimsSplit(receipts, i, refused);
        EnrolPrefix(pairs, done + ClaimsOf(receipts[i])[..refused],
                    ClaimsOf(receipts[i])[refused..] + ClaimsAfter(receipts, i + 1));
        return None;
      }
      ClaimsGrow(receipts, i);
      enrolled := next;
      i := i + 1;
    }
    assert receipts[..i] == receipts;
    r := Some(Overlaid(rows, failures, reasons, enrolled));
  }

  lemma NoClaims()
    ensures Claims([]) == []
  {
  }

  function ClaimsAfter(receipts: seq<Receipt>, k: nat): seq<Claim>
    requires k <= |receipts|
    decreases |receipts| - k
  {
    if k == |receipts| then [] else ClaimsOf(receipts[k]) + ClaimsAfter(receipts, k + 1)
  }

  lemma {:induction false} ClaimsJoin(receipts: seq<Receipt>, k: nat)
    requires k <= |receipts|
    ensures Claims(receipts) == Claims(receipts[..k]) + ClaimsAfter(receipts, k)
    decreases |receipts| - k
  {
    hide ClaimsOf, Claims;
    if k == |receipts| {
      assert receipts[..k] == receipts;
    } else {
      ClaimsJoin(receipts, k + 1);
      ClaimsGrow(receipts, k);
      var a, b, c := Claims(receipts[..k]), ClaimsOf(receipts[k]), ClaimsAfter(receipts, k + 1);
      assert Claims(receipts) == a + b + c;
      assert a + b + c == a + (b + c);
    }
  }

  lemma ClaimsSplit(receipts: seq<Receipt>, i: nat, j: nat)
    requires i < |receipts| && j <= |ClaimsOf(receipts[i])|
    ensures Claims(receipts) ==
      Claims(receipts[..i]) + ClaimsOf(receipts[i])[..j] + (ClaimsOf(receipts[i])[j..] + ClaimsAfter(receipts, i + 1))
  {
    hide ClaimsOf, Claims;
    ClaimsJoin(receipts, i);
    Regroup(Claims(receipts[..i]), ClaimsOf(receipts[i]), j, ClaimsAfter(receipts, i + 1));
  }

  lemma Regroup(a: seq<Claim>, b: seq<Claim>, j: nat, c: seq<Claim>)
    requires j <= |b|
    ensures a + (b + c) == a + b[..j] + (b[j..] + c)
  {
    assert b == b[..j] + b[j..];
  }

  // Conservation ------------------------------------------------------------

  /** The parts of a row that say what it counts. */
  predicate SameUnit(a: Row, b: Row) {
    a.membership == b.membership && a.fixture == b.fixture && a.preference == b.preference && a.included == b.included
  }

  /** An inspection returns each row with what was overlaid on it. */
  lemma InspectedRows(rows: seq<Row>, receipts: seq<Receipt>, failures: map<string, seq<string>>, reasons: set<string>)
    requires Inspected(rows, receipts, failures, reasons).Some?
    ensures Enrol(PairsOf(rows), Claims(receipts)).Some?
    ensures var after := Inspected(rows, receipts, failures, reasons).value;
      && |after| == |rows|
      && forall i :: 0 <= i < |after| ==>
           after[i] == Overlay(rows[i], failures, reasons, Enrol(PairsOf(rows), Claims(receipts)).value)
  {
    hide Overlay, Enrol, PairsOf, Claims, Distinct;
  }

  /** The same units in the same order, and claims and the rows showing one in one-to-one
      correspondence. */
  predicate Conserved(before: seq<Row>, after: seq<Row>, claims: seq<Claim>) {
    && |after| == |before|
    && (forall i :: 0 <= i < |after| ==> SameUnit(after[i], before[i]))
    && DistinctPairs(before) && DistinctClaims(claims)
    && (forall k :: 0 <= k < |claims| ==> Sits(claims[k], after))
    && (forall i :: 0 <= i < |after| ==> Shows(after[i], claims))
  }

  /** Some row shows the claim. */
  predicate Sits(c: Claim, rows: seq<Row>) {
    exists i :: 0 <= i < |rows| && Carries(rows[i], c)
  }

  /** A row with a publication shows some claim. */
  predicate Shows(row: Row, claims: seq<Claim>) {
    row.publication.Some? ==> exists k :: 0 <= k < |claims| && Carries(row, claims[k])
  }

  /** After receipts and failures are laid on it, the denominator still has the same units in
      the same order; each enrolled row carries exactly one claim, each claim sits on exactly
      one row, and whatever was not enrolled shows no publication. */
  lemma DenominatorConserved(
    memberships: seq<Membership>, preferences: seq<string>, receipts: seq<Receipt>,
    failures: map<string, seq<string>>, reasons: set<string>)
    requires Distinct(Names(memberships)) && Distinct(preferences)
    requires Inspected(Product(memberships, preferences), receipts, failures, reasons).Some?
    ensures var before, claims := Product(memberships, preferences), Claims(receipts);
      var after := Inspected(before, receipts, failures, reasons).value;
      |after| == |memberships| * |preferences| && Conserved(before, after, claims)
  {
    hide Inspected, Overlaid, Distinct, Names, DistinctPairs, Blank, Failed, Product, RowsFor, Claims, Enrol, Overlay;
    hide Carries, SameUnit, PairsOf, Holds, Shows;
    var before, claims := Product(memberships, preferences), Claims(receipts);
    ProductSize(memberships, preferences);
    ProductDistinct(memberships, preferences);
    PairsAre(before);
    EnrolIff(PairsOf(before), claims);
    InspectedRows(before, receipts, failures, reasons);
    var e := Enrol(PairsOf(before), claims).value;
    var after := Inspected(before, receipts, failures, reasons).value;
    assert DistinctClaims(claims);
    forall i | 0 <= i < |after|
      ensures SameUnit(after[i], before[i])
      ensures Shows(after[i], claims)
    {
      ProductBlank(memberships, preferences, before[i]);
      RowOverlaid(before, claims, e, failures, reasons, i);
    }
    forall k | 0 <= k < |claims| ensures Sits(claims[k], after) {
      var i := ClaimPlaced(before, claims, e, failures, reasons, k);
    }
    assert Conserved(before, after, claims);
  }

  /** A row shows one claim, on its pair, whole. */
  predicate Carries(row: Row, c: Claim) {
    && row.Pair() == c.pair && row.enrollment == Some(c.record.enrollment) && row.publication == Some(c.publication)
    && row.batch == Some(c.batch) && row.state == c.record.disposition && row.reasons == c.record.reasons
  }

  lemma RowOverlaid(
    before: seq<Row>, claims: seq<Claim>, e: Pairs, failures: map<string, seq<string>>, reasons: set<string>, i: nat)
    requires DistinctPairs(before) && Holds(PairsOf(before), claims, e) && i < |before|
    requires before[i].publication.None?
    ensures var after := Overlay(before[i], failures, reasons, e);
      && SameUnit(after, before[i])
      && Shows(after, claims)
  {
    hide Failed;
    FailedKeeps(before[i], failures, reasons);
    PairsAre(before);
    if before[i].Pair() in e {
      var k :| 0 <= k < |claims| && claims[k].pair == before[i].Pair();
      assert Carries(Overlay(before[i], failures, reasons, e), claims[k]);
    }
  }

  lemma ClaimPlaced(
    before: seq<Row>, claims: seq<Claim>, e: Pairs, failures: map<string, seq<string>>, reasons: set<string>, k: nat)
    returns (i: nat)
    requires DistinctPairs(before) && Holds(PairsOf(before), claims, e) && k < |claims|
    ensures i < |before| && Carries(Overlay(before[i], failures, reasons, e), claims[k])
  {
    hide Failed;
    PairsAre(before);
    var r :| r in before && r.Pair() == claims[k].pair;
    i :| 0 <= i < |before| && before[i] == r;
  }

  lemma FailedKeeps(row: Row, failures: map<string, seq<string>>, reasons: set<string>)
    ensures SameUnit(Failed(row, failures, reasons), row)
    ensures Failed(row, failures, reasons).publication == row.publication
  {
  }

  lemma {:induction false} ProductBlank(memberships: seq<Membership>, preferences: seq<string>, r: Row)
    requires r in Product(memberships, preferences)
    ensures r.publication.None? && r.enrollment.None?
  {
    var n := |memberships| - 1;
    if r in Product(memberships[..n], preferences) {
      ProductBlank(memberships[..n], preferences, r);
    } else {
      assert r in RowsFor(memberships[n], preferences);
    }
  }
}
