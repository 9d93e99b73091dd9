/** The subgroup counts of an evaluation: pairs and memberships by frozen scope. */
module ScopeCounts {
  import opened Wrappers
  import opened Denominator

  function ScopeOf(memberships: seq<Membership>): map<string, string> {
    if memberships == [] then map[]
    else
      var last := memberships[|memberships| - 1];
      ScopeOf(memberships[..|memberships| - 1])[last.id := last.scope]
  }

  predicate Counted(row: Row, scopes: map<string, string>, scope: Option<string>, includedOnly: bool) {
    && (scope.None? || (row.membership in scopes && Some(scopes[row.membership]) == scope))
    && (includedOnly ==> row.included)
  }

  /** How many rows lie in a scope, or anywhere. */
  function Count(rows: seq<Row>, scopes: map<string, string>, scope: Option<string>, includedOnly: bool): nat {
    if rows == [] then 0
    else
      var front := Count(rows[..|rows| - 1], scopes, scope, includedOnly);
      if Counted(rows[|rows| - 1], scopes, scope, includedOnly) then front + 1 else front
  }

  predicate Belongs(m: Membership, scope: Option<string>, includedOnly: bool) {
    (scope.None? || Some(m.scope) == scope) && (includedOnly ==> m.included)
  }

  /** How many memberships lie in a scope, or anywhere. */
  function Members(memberships: seq<Membership>, scope: Option<string>, includedOnly: bool): nat {
    if memberships == [] then 0
    else
      var front := Members(memberships[..|memberships| - 1], scope, includedOnly);
      if Belongs(memberships[|memberships| - 1], scope, includedOnly) then front + 1 else front
  }

  /** One subgroup as reported. */
  datatype Subgroup = Subgroup(scope: string, audit: nat, excluded: nat, included: nat, statistical: nat)

  /** The subgroup counts, scope by scope. */
  method InspectScopes(names: seq<string>, memberships: seq<Membership>, rows: seq<Row>) returns (groups: seq<Subgroup>)
    ensures |groups| == |names|
    ensures forall k :: 0 <= k < |names| ==>
      var scope, scopes := Some(names[k]), ScopeOf(memberships);
      && groups[k].scope == names[k]
      && groups[k].audit == Count(rows, scopes, scope, false)
      && groups[k].statistical == Count(rows, scopes, scope, true)
      && groups[k].included == Members(memberships, scope, true)
      && groups[k].included + groups[k].excluded == Members(memberships, scope, false)
  {
    groups := [];
    var scopes := ScopeOf(memberships);
    while |groups| < |names|
      invariant |groups| <= |names|
      invariant forall k :: 0 <= k < |groups| ==>
        var scope := Some(names[k]);
        && groups[k].scope == names[k]
        && groups[k].audit == Count(rows, scopes, scope, false)
        && groups[k].statistical == Count(rows, scopes, scope, true)
        && groups[k].included == Members(memberships, scope, true)
        && groups[k].included + groups[k].excluded == Members(memberships, scope, false)
    {
      var name := names[|groups|];
      var audit, statistical := CountRows(rows, scopes, name);
      var members, included := CountMembers(memberships, name);
      groups := groups + [Subgroup(name, audit, members - included, included, statistical)];
    }
  }

  method CountRows(rows: seq<Row>, scopes: map<string, string>, name: string) returns (audit: nat, statistical: nat)
    ensures audit == Count(rows, scopes, Some(name), false)
    ensures statistical == Count(rows, scopes, Some(name), true)
  {
    audit, statistical := 0, 0;
    var i := 0;
    while i < |rows|
      invariant 0 <= i <= |rows|
      invariant audit == Count(rows[..i], scopes, Some(name), false)
      invariant statistical == Count(rows[..i], scopes, Some(name), true)
    {
      assert rows[..i + 1][..i] == rows[..i];
      if rows[i].membership in scopes && scopes[rows[i].membership] == name {
        audit := audit + 1;
        if rows[i].included { statistical := statistical + 1; }
      }
      i := i + 1;
    }
    assert rows[..i] == rows;
  }

  method CountMembers(memberships: seq<Membership>, name: string) returns (members: nat, included: nat)
    ensures members == Members(memberships, Some(name), false)
    ensures included == Members(memberships, Some(name), true) && included <= members
  {
    members, included := 0, 0;
    var i := 0;
    while i < |memberships|
      invariant 0 <= i <= |memberships|
      invariant members == Members(memberships[..i], Some(name), false)
      invariant included == Members(memberships[..i], Some(name), true) && included <= members
    {
      assert memberships[..i + 1][..i] == memberships[..i];
      if memberships[i].scope == name {
        members := members + 1;
        if memberships[i].included { included := included + 1; }
      }
      i := i + 1;
    }
    assert memberships[..i] == memberships;
  }

  // Counting the product ----------------------------------------------------

  /** With distinct memberships each is looked up at its own scope. */
  lemma {:induction false} ScopesAre(memberships: seq<Membership>)
    requires Distinct(Names(memberships))
    ensures forall m :: m in memberships ==> m.id in ScopeOf(memberships) && ScopeOf(memberships)[m.id] == m.scope
  {
    if memberships != [] {
      var n := |memberships| - 1;
      var front := memberships[..n];
      assert Names(front) == Names(memberships)[..n];
      ScopesAre(front);
      forall m | m in front ensures m.id != memberships[n].id {
        var i :| 0 <= i < n && front[i] == m;
        assert Names(memberships)[i] != Names(memberships)[n];
      }
      assert memberships == front + [memberships[n]];
    }
  }

  lemma {:induction false} CountAppend(
    a: seq<Row>, b: seq<Row>, scopes: map<string, string>, scope: Option<string>, includedOnly: bool)
    ensures Count(a + b, scopes, scope, includedOnly) ==
      Count(a, scopes, scope, includedOnly) + Count(b, scopes, scope, includedOnly)
  {
    if b == [] {
      assert a + b == a;
    } else {
      CountAppend(a, b[..|b| - 1], scopes, scope, includedOnly);
      assert (a + b)[..|a + b| - 1] == a + b[..|b| - 1];
    }
  }

  lemma {:induction false} CountRowsFor(
    m: Membership, preferences: seq<string>, scopes: map<string, string>, scope: Option<string>, includedOnly: bool)
    requires m.id in scopes && scopes[m.id] == m.scope
    ensures Count(RowsFor(m, preferences), scopes, scope, includedOnly) ==
      if Belongs(m, scope, includedOnly) then |preferences| else 0
  {
    if preferences != [] {
      var front := preferences[..|preferences| - 1];
      CountRowsFor(m, front, scopes, scope, includedOnly);
      assert RowsFor(m, preferences)[..|preferences| - 1] == RowsFor(m, front);
    }
  }

  /** A scope counts its memberships once for every preference. */
  lemma {:induction false} CountProduct(
    memberships: seq<Membership>, preferences: seq<string>, scopes: map<string, string>,
    scope: Option<string>, includedOnly: bool)
    requires forall m :: m in memberships ==> m.id in scopes && scopes[m.id] == m.scope
    ensures Count(Product(memberships, preferences), scopes, scope, includedOnly) ==
      Members(memberships, scope, includedOnly) * |preferences|
  {
    hide RowsFor, Counted, Belongs;
    if memberships != [] {
      var n := |memberships| - 1;
      var front, last := memberships[..n], memberships[n];
      CountProduct(front, preferences, scopes, scope, includedOnly);
      CountAppend(Product(front, preferences), RowsFor(last, preferences), scopes, scope, includedOnly);
      CountRowsFor(last, preferences, scopes, scope, includedOnly);
      OneMore(Members(front, scope, includedOnly), |preferences|);
    }
  }

  lemma OneMore(n: nat, k: nat)
    ensures (n + 1) * k == n * k + k
  {
  }

  /** Rows of the same units count alike, whatever was overlaid on them. */
  lemma {:induction false} CountsConserved(
    a: seq<Row>, b: seq<Row>, scopes: map<string, string>, scope: Option<string>, includedOnly: bool)
    requires |a| == |b| && forall i :: 0 <= i < |a| ==> SameUnit(a[i], b[i])
    ensures Count(a, scopes, scope, includedOnly) == Count(b, scopes, scope, includedOnly)
  {
    if a != [] {
      CountsConserved(a[..|a| - 1], b[..|b| - 1], scopes, scope, includedOnly);
    }
  }

  // Adding scopes up --------------------------------------------------------

  function Total(names: seq<string>, memberships: seq<Membership>, includedOnly: bool): nat {
    if names == [] then 0
    else
      Total(names[..|names| - 1], memberships, includedOnly)
      + Members(memberships, Some(names[|names| - 1]), includedOnly)
  }

  /** A membership adds to at most one of the distinct scopes, and to one exactly when it is in one. */
  lemma {:induction false} TotalStep(names: seq<string>, memberships: seq<Membership>, includedOnly: bool)
    requires Distinct(names) && memberships != []
    ensures var n := |memberships| - 1;
      Total(names, memberships, includedOnly) == Total(names, memberships[..n], includedOnly) +
        if memberships[n].scope in names && (includedOnly ==> memberships[n].included) then 1 else 0
  {
    if names != [] {
      var m := |names| - 1;
      TotalStep(names[..m], memberships, includedOnly);
      assert names == names[..m] + [names[m]];
      assert forall k :: 0 <= k < m ==> names[k] != names[m];
    }
  }

  lemma {:induction false} TotalNothing(names: seq<string>, includedOnly: bool)
    ensures Total(names, [], includedOnly) == 0
  {
    if names != [] {
      TotalNothing(names[..|names| - 1], includedOnly);
    }
  }

  lemma {:induction false} ScopesAddUp(names: seq<string>, memberships: seq<Membership>, includedOnly: bool)
    requires Distinct(names)
    ensures Total(names, memberships, includedOnly) <= Members(memberships, None, includedOnly)
    ensures Total(names, memberships, includedOnly) == Members(memberships, None, includedOnly) <==>
      forall m :: m in memberships && (includedOnly ==> m.included) ==> m.scope in names
  {
    if memberships == [] {
      TotalNothing(names, includedOnly);
    } else {
      var n := |memberships| - 1;
      TotalStep(names, memberships, includedOnly);
      ScopesAddUp(names, memberships[..n], includedOnly);
      assert memberships == memberships[..n] + [memberships[n]];
    }
  }

  lemma {:induction false} AllMembers(memberships: seq<Membership>)
    ensures Members(memberships, None, false) == |memberships|
  {
    if memberships != [] {
      AllMembers(memberships[..|memberships| - 1]);
    }
  }

  function PairTotal(names: seq<string>, rows: seq<Row>, scopes: map<string, string>, includedOnly: bool): nat {
    if names == [] then 0
    else
      PairTotal(names[..|names| - 1], rows, scopes, includedOnly) +
      Count(rows, scopes, Some(names[|names| - 1]), includedOnly)
  }

  /** Summed over any scopes, pairs are memberships once for every preference. */
  lemma {:induction false} PairTotalIs(
    names: seq<string>, rows: seq<Row>, memberships: seq<Membership>, scopes: map<string, string>, k: nat,
    includedOnly: bool)
    requires forall scope :: Count(rows, scopes, scope, includedOnly) == Members(memberships, scope, includedOnly) * k
    ensures PairTotal(names, rows, scopes, includedOnly) == Total(names, memberships, includedOnly) * k
  {
    hide Count, Members;
    if names != [] {
      var n := |names| - 1;
      PairTotalIs(names[..n], rows, memberships, scopes, k, includedOnly);
      Distributes(Total(names[..n], memberships, includedOnly), Members(memberships, Some(names[n]), includedOnly), k);
    }
  }

  lemma Distributes(a: nat, b: nat, k: nat)
    ensures (a + b) * k == a * k + b * k
  {
  }

  /** The rows an inspection returns count, in every scope, exactly its memberships once for
      every preference; summed over distinct scopes they never exceed the audit and statistical
      totals, and equal them exactly when every counted membership lies in one of the scopes. */
  lemma InspectedCounts(
    memberships: seq<Membership>, preferences: seq<string>, receipts: seq<Receipt>,
    failures: map<string, seq<string>>, reasons: set<string>, names: seq<string>, includedOnly: bool)
    requires Distinct(Names(memberships)) && Distinct(preferences) && Distinct(names)
    requires Inspected(Product(memberships, preferences), receipts, failures, reasons).Some?
    ensures var rows := Inspected(Product(memberships, preferences), receipts, failures, reasons).value;
      var scopes, k := ScopeOf(memberships), |preferences|;
      && (forall scope :: Count(rows, scopes, scope, includedOnly) == Members(memberships, scope, includedOnly) * k)
      && Count(rows, scopes, None, false) == |memberships| * k
      && PairTotal(names, rows, scopes, includedOnly) <= Count(rows, scopes, None, includedOnly)
      && (PairTotal(names, rows, scopes, includedOnly) == Count(rows, scopes, None, includedOnly) <==>
            k == 0 || forall m :: m in memberships && (includedOnly ==> m.included) ==> m.scope in names)
  {
    hide Inspected, Product, Count, Members, Names, Distinct, ScopeOf, Claims, DistinctClaims, Carries;
    var before := Product(memberships, preferences);
    var rows := Inspected(before, receipts, failures, reasons).value;
    var scopes, k := ScopeOf(memberships), |preferences|;
    ScopesAre(memberships);
    DenominatorConserved(memberships, preferences, receipts, failures, reasons);
    ProductSize(memberships, preferences);
    forall scope, only: bool ensures Count(rows, scopes, scope, only) == Members(memberships, scope, only) * k {
      CountsConserved(rows, before, scopes, scope, only);
      CountProduct(memberships, preferences, scopes, scope, only);
    }
    AllMembers(memberships);
    PairTotalIs(names, rows, memberships, scopes, k, includedOnly);
    ScopesAddUp(names, memberships, includedOnly);
    Scale(Total(names, memberships, includedOnly), Members(memberships, None, includedOnly), k);
  }

  lemma Scale(a: nat, b: nat, k: nat)
    requires a <= b
    ensures a * k <= b * k
    ensures a * k == b * k <==> k == 0 || a == b
  {
    assert b * k == a * k + (b - a) * k;
  }
}
