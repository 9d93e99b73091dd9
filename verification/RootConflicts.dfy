/** The root role of the retained metadata. Only a refresh's last root is compared with what is
    retained, so this is where one version can come to be known by two digests. */
module RootConflicts {
  import opened Bytes
  import opened Retention
  import TufRoles

  // When root keeps one digest a version -------------------------------------

  /** The roots a refresh presents, oldest first: the bootstrap and its rotations. */
  function Roots(p: Policy, r: Refresh): seq<Doc> {
    [p.bootstrap] + r.history
  }

  /** The rotations are numbered onward from the bootstrap, as chain authentication requires. */
  predicate Numbered(p: Policy, r: Refresh) {
    forall i :: 0 <= i < |Roots(p, r)| ==> Roots(p, r)[i].version == p.bootstrap.version + i
  }

  /** A root agrees with whatever is known of its version, the reviewed floor included. */
  predicate Agrees(a: Catalog, p: Policy, root: Doc) {
    && (forall d :: d in a && a[d] == (Root, root.version) ==> d == root.digest)
    && (root.version == Floor(Root) ==> root.digest == p.floorDigest(Root))
  }

  /** Of the first `n` documents every root agrees; the last root is checked and need not be named. */
  predicate IntermediatesAgree(a: Catalog, p: Policy, r: Refresh, n: nat) {
    forall i :: 0 <= i < |r.history| && i < n ==> Agrees(a, p, Roots(p, r)[i])
  }

  /** `doc` is one of the roots among the first `n` documents. */
  ghost predicate Sent(p: Policy, r: Refresh, n: nat, doc: Doc) {
    exists i :: 0 <= i < |Roots(p, r)| && i < n && Roots(p, r)[i] == doc
  }

  lemma RootAt(p: Policy, r: Refresh, i: nat)
    requires i < |Documents(p, r)|
    ensures i < |Roots(p, r)| ==> Documents(p, r)[i] == (Root, Roots(p, r)[i])
    ensures i >= |Roots(p, r)| ==> Documents(p, r)[i].0 != Root
    ensures |Roots(p, r)| <= |Documents(p, r)|
  {
  }

  /** What a beginning adds to the root role are the roots it names, and those are all held. */
  lemma RootsSent(a: Catalog, b: Catalog, p: Policy, r: Refresh, n: nat)
    requires KeptTo(a, b, p, r, n)
    ensures forall d :: d in a ==> d in b && b[d] == a[d]
    ensures forall d :: d in b && d !in a && b[d].0 == Root ==> Sent(p, r, n, Doc(d, b[d].1))
    ensures forall i :: 0 <= i < |Roots(p, r)| && i < n ==>
      Holds(b, Root, Roots(p, r)[i].digest, Roots(p, r)[i].version)
  {
    hide Acceptable, Documents, Roots;
    var documents := Documents(p, r)[..n];
    FiledAdds(a, documents);
    forall d | d in b && d !in a && b[d].0 == Root ensures Sent(p, r, n, Doc(d, b[d].1)) {
      var i :| 0 <= i < |documents| && documents[i] == (b[d].0, Doc(d, b[d].1));
      RootAt(p, r, i);
    }
    forall i | 0 <= i < |Roots(p, r)| && i < n
      ensures Holds(b, Root, Roots(p, r)[i].digest, Roots(p, r)[i].version)
    {
      RootAt(p, r, i);
      assert documents[i] == Documents(p, r)[i];
    }
  }

  /** For root only the last rotation is checked: a refresh that was stopped, refused or completed
      after `n` documents leaves root consistent if and only if each earlier root among them
      agrees with what was known of its version. */
  lemma RootConsistentIff(a: Catalog, b: Catalog, p: Policy, r: Refresh, n: nat)
    requires Acceptable(a, p, r) && Numbered(p, r) && KeptTo(a, b, p, r, n)
    ensures Consistent(b, p, Root) <==> IntermediatesAgree(a, p, r, n)
  {
    hide Acceptable, KeptTo, Documents, Consistent, IntermediatesAgree;
    RootsSent(a, b, p, r, n);
    if Consistent(b, p, Root) {
      ConsistentAgrees(a, b, p, r, n);
    }
    if IntermediatesAgree(a, p, r, n) {
      AgreesConsistent(a, b, p, r, n);
    }
  }

  lemma ConsistentAgrees(a: Catalog, b: Catalog, p: Policy, r: Refresh, n: nat)
    requires Consistent(b, p, Root)
    requires forall d :: d in a ==> d in b && b[d] == a[d]
    requires forall i :: 0 <= i < |Roots(p, r)| && i < n ==>
      Holds(b, Root, Roots(p, r)[i].digest, Roots(p, r)[i].version)
    ensures IntermediatesAgree(a, p, r, n)
  {
    forall i | 0 <= i < |r.history| && i < n ensures Agrees(a, p, Roots(p, r)[i]) {
      var root := Roots(p, r)[i];
      assert Holds(b, Root, root.digest, root.version);
    }
  }

  /** Every root a beginning names agrees with what was known; the last one because it leads. */
  lemma SentAgrees(a: Catalog, p: Policy, r: Refresh, n: nat, doc: Doc)
    requires Acceptable(a, p, r) && IntermediatesAgree(a, p, r, n) && Sent(p, r, n, doc)
    ensures Agrees(a, p, doc)
  {
    hide Acceptable, Agrees;
    var i :| 0 <= i < |Roots(p, r)| && i < n && Roots(p, r)[i] == doc;
    if i == |r.history| {
      AcceptedLeads(a, p, r, Root);
      assert ROLES[0] == Root;
      assert Current(p, r, Root) == doc;
      LeadsAgrees(a, p, doc);
    }
  }

  lemma LeadsAgrees(a: Catalog, p: Policy, doc: Doc)
    requires Leads(a, p, Root, doc)
    ensures Agrees(a, p, doc)
  {
  }

  lemma SentOnce(p: Policy, r: Refresh, n: nat, x: Doc, y: Doc)
    requires Numbered(p, r) && Sent(p, r, n, x) && Sent(p, r, n, y) && x.version == y.version
    ensures x == y
  {
  }

  lemma AgreesConsistent(a: Catalog, b: Catalog, p: Policy, r: Refresh, n: nat)
    requires Acceptable(a, p, r) && Numbered(p, r) && IntermediatesAgree(a, p, r, n)
    requires forall d :: d in a ==> d in b && b[d] == a[d]
    requires forall d :: d in b && d !in a && b[d].0 == Root ==> Sent(p, r, n, Doc(d, b[d].1))
    ensures Consistent(b, p, Root)
  {
    hide Acceptable, IntermediatesAgree, Sent, Numbered;
    AcceptedLeads(a, p, r, Root);
    forall d | d in b && d !in a && b[d].0 == Root ensures Agrees(a, p, Doc(d, b[d].1)) {
      SentAgrees(a, p, r, n, Doc(d, b[d].1));
    }
    forall d, e | d in b && e in b && b[d].0 == Root && b[e] == b[d] ensures d == e {
      if d !in a && e !in a {
        SentOnce(p, r, n, Doc(d, b[d].1), Doc(e, b[e].1));
      }
    }
  }

  // Over whole runs ---------------------------------------------------------

  /** The beginning a refresh published agrees with what was known before it. */
  ghost predicate AgreeingStep(a: Catalog, b: Catalog, p: Policy, r: Refresh) {
    exists n: nat :: KeptTo(a, b, p, r, n) && IntermediatesAgree(a, p, r, n)
  }

  lemma StepConsistentIff(a: Catalog, b: Catalog, p: Policy, r: Refresh)
    requires Kept(a, b, p, r) && Numbered(p, r)
    ensures Consistent(b, p, Root) <==> Consistent(a, p, Root) && AgreeingStep(a, b, p, r)
  {
    hide Acceptable, Consistent, IntermediatesAgree, Documents;
    if Acceptable(a, p, r) {
      AcceptedLeads(a, p, r, Root);
      forall n: nat | KeptTo(a, b, p, r, n)
        ensures Consistent(b, p, Root) <==> IntermediatesAgree(a, p, r, n)
      {
        RootConsistentIff(a, b, p, r, n);
      }
    } else {
      NothingKept(a, b, p, r);
    }
  }

  lemma NothingKept(a: Catalog, b: Catalog, p: Policy, r: Refresh)
    requires Kept(a, b, p, r) && !Acceptable(a, p, r)
    ensures b == a && AgreeingStep(a, b, p, r)
  {
    hide Acceptable, Documents;
    KeptNone(a, p, r);
  }

  /** Over every run of refreshes, each completed, refused or stopped after any document: root has
      one digest a version, the floor's included, exactly as long as no refresh has published a
      beginning whose earlier roots disagree with what was known of their versions. */
  lemma {:induction false} RunConsistentIff(p: Policy, catalogs: seq<Catalog>, refreshes: seq<Refresh>, j: nat)
    requires Run(p, catalogs, refreshes) && j < |catalogs|
    requires forall i :: 0 <= i < j ==> Numbered(p, refreshes[i])
    ensures Consistent(catalogs[j], p, Root) <==>
      forall i :: 0 <= i < j ==> AgreeingStep(catalogs[i], catalogs[i + 1], p, refreshes[i])
  {
    hide Consistent, AgreeingStep, Numbered, Kept;
    if j == 0 {
      NothingConsistent(p);
    } else {
      RunConsistentIff(p, catalogs, refreshes, j - 1);
      assert Kept(catalogs[j - 1], catalogs[j - 1 + 1], p, refreshes[j - 1]);
      StepConsistentIff(catalogs[j - 1], catalogs[j], p, refreshes[j - 1]);
    }
  }

  lemma NothingConsistent(p: Policy)
    ensures Consistent(map[], p, Root)
  {
  }

  /** Once a version of root has two digests nothing is ever retained again. */
  lemma {:induction false} ConflictWedges(
    p: Policy, catalogs: seq<Catalog>, refreshes: seq<Refresh>, i: nat, j: nat)
    requires Run(p, catalogs, refreshes) && i <= j < |catalogs| && !Consistent(catalogs[i], p, Root)
    ensures catalogs[j] == catalogs[i]
    decreases j
  {
    hide Consistent, Kept;
    if i < j {
      ConflictWedges(p, catalogs, refreshes, i, j - 1);
      assert Kept(catalogs[j - 1], catalogs[j - 1 + 1], p, refreshes[j - 1]);
      NeverAcceptable(catalogs[j - 1], p, refreshes[j - 1]);
      NothingKept(catalogs[j - 1], catalogs[j], p, refreshes[j - 1]);
    }
  }

  lemma NeverAcceptable(a: Catalog, p: Policy, r: Refresh)
    requires !Consistent(a, p, Root)
    ensures !Acceptable(a, p, r)
  {
    hide Consistent, Leads;
    assert ROLES[0] == Root;
  }

  // The condition fails for authentic refreshes -------------------------------

  /** The rotations of a chain as a refresh presents them. */
  function History(roots: seq<seq<byte>>, env: TufRoles.Env): seq<Doc> {
    seq(|roots|, i requires 0 <= i < |roots| => Doc(env.digest(roots[i]), 11 + i))
  }

  lemma LeadsAfter(a: Catalog, b: Catalog, p: Policy, r: Refresh, role: Role)
    requires Acceptable(a, p, r) && Adds(a, b, p, r) && role in ROLES && (role == Root ==> Numbered(p, r))
    ensures Leads(b, p, role, Current(p, r, role)) && (role != Root ==> Consistent(b, p, role))
  {
    hide Documents;
    AllRoles();
    var current := Current(p, r, role);
    assert Leads(a, p, role, current) && Consistent(a, p, role);
    forall d | d in b && d !in a && b[d].0 == role
      ensures b[d].1 <= current.version && (b[d].1 == current.version ==> d == current.digest)
      ensures role != Root ==> Doc(d, b[d].1) == current
    {
      if role == Root {
        var i :| 0 <= i < |Documents(p, r)| && Documents(p, r)[i] == (b[d].0, Doc(d, b[d].1));
        RootAt(p, r, i);
        assert current == Roots(p, r)[|Roots(p, r)| - 1];
      } else {
        OnlyCurrent(p, r, role, Doc(d, b[d].1));
      }
    }
  }

  /** Only document `j` is new: it is all that gets added. */
  lemma {:induction false} FiledOne(c: Catalog, documents: seq<(Role, Doc)>, j: nat, n: nat)
    requires j < |documents| && n <= |documents| && documents[j].1.digest !in c
    requires forall i :: 0 <= i < |documents| && i != j ==>
      Holds(c, documents[i].0, documents[i].1.digest, documents[i].1.version)
    ensures Filed(c, documents[..n]) ==
      if j < n then c[documents[j].1.digest := (documents[j].0, documents[j].1.version)] else c
    decreases n
  {
    if n > 0 {
      FiledOne(c, documents, j, n - 1);
      assert documents[..n][..n - 1] == documents[..n - 1];
    }
  }

  lemma DocumentAt(p: Policy, r: Refresh, s: Refresh, k: nat)
    requires k < |r.history| && |s.history| == |r.history|
    requires s == r.(history := r.history[k := s.history[k]])
    ensures |Documents(p, s)| == |Documents(p, r)| && k + 1 < |Documents(p, s)|
    ensures Documents(p, s)[k + 1] == (Root, s.history[k]) && Documents(p, r)[k + 1] == (Root, r.history[k])
    ensures forall i :: 0 <= i < |Documents(p, s)| && i != k + 1 ==> Documents(p, s)[i] == Documents(p, r)[i]
  {
  }

  lemma NumberedHistory(p: Policy, r: Refresh, roots: seq<seq<byte>>, env: TufRoles.Env)
    requires r.history == History(roots, env) && p.bootstrap.version == 10
    ensures Numbered(p, r)
  {
  }

  lemma SameAccepted(a: Catalog, b: Catalog, p: Policy, r: Refresh, s: Refresh)
    requires Acceptable(a, p, r) && s == r.(history := s.history)
    requires |s.history| == |r.history| > 0 && s.history[|s.history| - 1] == r.history[|r.history| - 1]
    requires forall role: Role :: role in ROLES ==> Consistent(b, p, role) && Leads(b, p, role, Current(p, r, role))
    ensures Acceptable(b, p, s)
  {
    hide Consistent, Leads;
  }

  lemma TwoDigests(b: Catalog, p: Policy, root: Doc, digest: Digest)
    requires Holds(b, Root, root.digest, root.version) && digest != root.digest
    ensures !Consistent(b[digest := (Root, root.version)], p, Root)
  {
    var c := b[digest := (Root, root.version)];
    assert c[digest] == c[root.digest];
  }

  /** No dishonest signer is needed. Take any accepted refresh whose rotations form an authentic
      chain, retained completely and consistently. Send one earlier root again as other bytes for
      the same signed tree: the chain is still authentic, the refresh is accepted and retained,
      and root then has two digests for one version. */
  lemma ReorderedRootConflicts(
    p: Policy, a: Catalog, r: Refresh, roots: seq<seq<byte>>, k: nat, raw: seq<byte>, env: TufRoles.Env)
    requires TufRoles.Unbroken(roots, env) && k < |roots| - 1 && TufRoles.Reorders(raw, roots[k], env)
    requires r.history == History(roots, env) && p.bootstrap.version == 10 && Acceptable(a, p, r)
    requires AllHeld(Filed(a, Documents(p, r)), Documents(p, r)) && Consistent(Filed(a, Documents(p, r)), p, Root)
    requires env.digest(raw) !in Filed(a, Documents(p, r))
    ensures var b, s := Filed(a, Documents(p, r)), r.(history := History(roots[k := raw], env));
      && TufRoles.Unbroken(roots[k := raw], env) && Acceptable(b, p, s)
      && var c := Filed(b, Documents(p, s));
      c == b[env.digest(raw) := (Root, 11 + k)] && AllHeld(c, Documents(p, s)) && !Consistent(c, p, Root)
  {
    hide Acceptable, Documents, Consistent, Leads, Numbered, Current, Filed, AllHeld;
    hide TufRoles.Unbroken, TufRoles.Reorders;
    var b, s := Filed(a, Documents(p, r)), r.(history := History(roots[k := raw], env));
    TufRoles.ChainReordered(roots, k, raw, env);
    NumberedHistory(p, r, roots, env);
    assert s.history == r.history[k := Doc(env.digest(raw), 11 + k)];
    AcceptedAgain(p, a, r, s);
    OnlyRootAdded(p, b, r, s, k, env.digest(raw));
  }

  lemma AcceptedAgain(p: Policy, a: Catalog, r: Refresh, s: Refresh)
    requires Acceptable(a, p, r) && Numbered(p, r) && Consistent(Filed(a, Documents(p, r)), p, Root)
    requires s == r.(history := s.history) && |s.history| == |r.history| > 0
    requires s.history[|s.history| - 1] == r.history[|r.history| - 1]
    ensures Acceptable(Filed(a, Documents(p, r)), p, s)
  {
    hide Acceptable, Documents, Consistent, Leads, Numbered, Current, Filed;
    var b := Filed(a, Documents(p, r));
    FiledAdds(a, Documents(p, r));
    forall role: Role | role in ROLES ensures Consistent(b, p, role) && Leads(b, p, role, Current(p, r, role)) {
      LeadsAfter(a, b, p, r, role);
    }
    SameAccepted(a, b, p, r, s);
  }

  lemma OnlyRootAdded(p: Policy, b: Catalog, r: Refresh, s: Refresh, k: nat, digest: Digest)
    requires k < |r.history| && r.history[k].version == 11 + k
    requires s == r.(history := r.history[k := Doc(digest, 11 + k)])
    requires AllHeld(b, Documents(p, r)) && digest !in b
    ensures var c := Filed(b, Documents(p, s));
      c == b[digest := (Root, 11 + k)] && AllHeld(c, Documents(p, s)) && !Consistent(c, p, Root)
  {
    hide Documents, Filed, Consistent;
    DocumentAt(p, r, s, k);
    var documents := Documents(p, s);
    FiledOne(b, documents, k + 1, |documents|);
    assert documents[..|documents|] == documents;
    assert Holds(b, Root, r.history[k].digest, r.history[k].version);
    TwoDigests(b, p, r.history[k], digest);
  }

  /** The first refresh, cut short after the bootstrap and its first rotation. */
  const ONE: Catalog := map[1 := (Root, 10), 2 := (Root, 11)]

  function Rotations(first: Digest): seq<Doc> {
    [Doc(first, 11), Doc(3, 12), Doc(4, 13), Doc(5, 14), Doc(6, 15)]
  }

  function Sample(first: Digest): Refresh {
    Refresh(Rotations(first), Doc(7, 799), Doc(8, 165), Doc(9, 14), 20, true, true)
  }

  predicate SamplePolicy(p: Policy) {
    && p.bootstrap == Doc(1, 10) && p.floorDigest(Root) == 6
    && p.floorDigest(Timestamp) == 7 && p.floorDigest(Snapshot) == 8 && p.floorDigest(Targets) == 9
  }

  lemma SampleDocuments(p: Policy, first: Digest)
    requires SamplePolicy(p)
    ensures Documents(p, Sample(first)) ==
      [(Root, Doc(1, 10)), (Root, Doc(first, 11)), (Root, Doc(3, 12)), (Root, Doc(4, 13)), (Root, Doc(5, 14)),
       (Root, Doc(6, 15)), (Timestamp, Doc(7, 799)), (Snapshot, Doc(8, 165)), (Targets, Doc(9, 14)),
       (TrustedRoot, Doc(20, 0))]
  {
    var r := Sample(first);
    assert seq(|r.history|, i requires 0 <= i < |r.history| => (Root, r.history[i])) ==
      [(Root, Doc(first, 11)), (Root, Doc(3, 12)), (Root, Doc(4, 13)), (Root, Doc(5, 14)), (Root, Doc(6, 15))];
  }

  lemma SampleAcceptable(p: Policy, first: Digest)
    requires SamplePolicy(p)
    ensures Acceptable(map[], p, Sample(first)) && Acceptable(ONE, p, Sample(first))
  {
    hide Consistent, Leads;
    SampleLeads(p, first, map[]);
    SampleLeads(p, first, ONE);
  }

  lemma SampleLeads(p: Policy, first: Digest, c: Catalog)
    requires SamplePolicy(p) && (c == map[] || c == ONE)
    ensures forall role: Role :: role in ROLES ==>
      Consistent(c, p, role) && Leads(c, p, role, Current(p, Sample(first), role))
  {
    assert Rotations(first)[4] == Doc(6, 15);
  }

  /** A run in which the condition fails: the first refresh is stopped after two documents, and the
      second, with another root 11 on the way to the same root 15, is stopped after any two or
      more, or completed. */
  lemma RootCanConflict(p: Policy, n: nat)
    requires SamplePolicy(p) && 2 <= n <= |Documents(p, Sample(10))|
    ensures var two := Filed(ONE, Documents(p, Sample(10))[..n]);
      && Run(p, [map[], ONE, two], [Sample(2), Sample(10)]) && !Consistent(two, p, Root)
    ensures Numbered(p, Sample(2)) && Numbered(p, Sample(10)) && !IntermediatesAgree(ONE, p, Sample(10), n)
  {
    hide Acceptable, Documents, Filed, AllHeld, Consistent, KeptTo;
    SampleAcceptable(p, 10);
    SampleNumbered(p, 2);
    SampleNumbered(p, 10);
    SampleFiled(p);
    SampleHeld(p, n);
    var two := Filed(ONE, Documents(p, Sample(10))[..n]);
    assert Kept(map[], ONE, p, Sample(2)) by { assert KeptTo(map[], ONE, p, Sample(2), 2); }
    assert Kept(ONE, two, p, Sample(10)) by { assert KeptTo(ONE, two, p, Sample(10), n); }
    assert Roots(p, Sample(10))[1] == Doc(10, 11) && ONE[2] == (Root, 11);
    assert !Agrees(ONE, p, Roots(p, Sample(10))[1]);
    RootConsistentIff(ONE, two, p, Sample(10), n);
  }

  lemma SampleFiled(p: Policy)
    requires SamplePolicy(p)
    ensures KeptTo(map[], ONE, p, Sample(2), 2)
  {
    SampleDocuments(p, 2);
    SampleAcceptable(p, 2);
    hide Acceptable, Documents;
    var documents := Documents(p, Sample(2))[..2];
    assert documents == [(Root, Doc(1, 10)), (Root, Doc(2, 11))];
    assert documents[..1] == [(Root, Doc(1, 10))] && documents[..1][..0] == [];
    assert Filed(map[], []) == map[];
    assert Filed(map[], documents[..1]) == map[1 := (Root, 10)];
  }

  lemma SampleHeld(p: Policy, n: nat)
    requires SamplePolicy(p) && n <= |Documents(p, Sample(10))|
    ensures KeptTo(ONE, Filed(ONE, Documents(p, Sample(10))[..n]), p, Sample(10), n)
  {
    SampleDocuments(p, 10);
    SampleAcceptable(p, 10);
    hide Acceptable, Documents;
    FreshHeld(ONE, Documents(p, Sample(10)), n);
  }

  /** Documents with digests of their own are all held, beside what agrees with them. */
  lemma {:induction false} FreshHeld(c: Catalog, documents: seq<(Role, Doc)>, n: nat)
    requires n <= |documents|
    requires forall i :: 0 <= i < |documents| && documents[i].1.digest in c ==>
      c[documents[i].1.digest] == (documents[i].0, documents[i].1.version)
    requires forall i, j :: 0 <= i < j < |documents| ==> documents[i].1.digest != documents[j].1.digest
    ensures AllHeld(Filed(c, documents[..n]), documents[..n])
    ensures forall i :: n <= i < |documents| && documents[i].1.digest !in c ==>
      documents[i].1.digest !in Filed(c, documents[..n])
    decreases n
  {
    hide AllHeld, Filed;
    if n == 0 {
      assert documents[..n] == [];
      NoneHeld(c);
    } else {
      var front, last := documents[..n - 1], documents[n - 1];
      FreshHeld(c, documents, n - 1);
      assert documents[..n] == front + [last];
      FiledLast(c, front, last);
      if last.1.digest in c {
        FiledAdds(c, front);
      }
      FreshOne(Filed(c, front), front, last);
    }
  }

  lemma NoneHeld(c: Catalog)
    ensures AllHeld(c, []) && Filed(c, []) == c
  {
  }

  lemma FiledLast(c: Catalog, front: seq<(Role, Doc)>, last: (Role, Doc))
    ensures var b := Filed(c, front);
      Filed(c, front + [last]) == if last.1.digest in b then b else b[last.1.digest := (last.0, last.1.version)]
  {
    assert (front + [last])[..|front|] == front;
  }

  lemma FreshOne(c: Catalog, held: seq<(Role, Doc)>, item: (Role, Doc))
    requires AllHeld(c, held)
    requires item.1.digest in c ==> c[item.1.digest] == (item.0, item.1.version)
    ensures AllHeld(if item.1.digest in c then c else c[item.1.digest := (item.0, item.1.version)], held + [item])
  {
  }

  lemma SampleNumbered(p: Policy, first: Digest)
    requires SamplePolicy(p)
    ensures Numbered(p, Sample(first))
  {
    assert Roots(p, Sample(first)) ==
      [Doc(1, 10), Doc(first, 11), Doc(3, 12), Doc(4, 13), Doc(5, 14), Doc(6, 15)];
  }
}
