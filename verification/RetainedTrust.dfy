/** Loading the trust of a retained attempt back from what was retained: the refresh is found
    again by the identities its request carries, or the attempt cannot be taken further. */
module RetainedTrust {
  import opened Wrappers
  import opened Retention
  import RootConflicts

  /** The identities of a refresh that a request's metadata carries. */
  datatype Identity = Identity(
    rootVersion: nat, root: Digest, timestamp: Digest, snapshot: Digest, targets: Digest, trusted: Digest)

  function IdentityOf(p: Policy, r: Refresh): Identity {
    var root := Current(p, r, Root);
    Identity(root.version, root.digest, r.timestamp.digest, r.snapshot.digest, r.targets.digest, r.trusted)
  }

  predicate Present(c: Catalog, role: Role, digest: Digest) {
    digest in c && c[digest].0 == role
  }

  /** No two retained roots share a version. */
  predicate OneDigest(c: Catalog) {
    forall d, e :: d in c && e in c && c[d].0 == Root && c[e] == c[d] ==> d == e
  }

  /** What the retained documents must be like for the identity to be found. */
  predicate Loadable(c: Catalog, p: Policy, id: Identity) {
    && Holds(c, Root, p.bootstrap.digest, p.bootstrap.version) && OneDigest(c)
    && (forall v :: 11 <= v <= id.rootVersion ==> (Root, v) in c.Values)
    && Holds(c, Root, id.root, id.rootVersion)
    && Present(c, Timestamp, id.timestamp) && Present(c, Snapshot, id.snapshot)
    && Present(c, Targets, id.targets) && Present(c, TrustedRoot, id.trusted)
  }

  /** A root for each version from 11 up to the identity's. */
  predicate Selects(c: Catalog, id: Identity, history: seq<Digest>) {
    && |history| == (if id.rootVersion < 11 then 0 else id.rootVersion - 10)
    && forall i :: 0 <= i < |history| ==> Holds(c, Root, history[i], 11 + i)
  }

  /** The roots of the scanned digests by version, each version once. */
  predicate ByVersion(c: Catalog, scanned: set<Digest>, roots: map<nat, Digest>) {
    && (forall v :: v in roots ==> roots[v] in scanned && Holds(c, Root, roots[v], v))
    && (forall d :: d in scanned && d in c && c[d].0 == Root ==> c[d].1 in roots && roots[c[d].1] == d)
  }

  lemma ByVersionNext(c: Catalog, scanned: set<Digest>, roots: map<nat, Digest>, d: Digest)
    requires ByVersion(c, scanned, roots) && d in c && c[d].0 == Root
    requires c[d].1 in roots ==> roots[c[d].1] == d
    ensures ByVersion(c, scanned + {d}, roots[c[d].1 := d])
  {
  }

  lemma ByVersionAll(c: Catalog, roots: map<nat, Digest>)
    requires ByVersion(c, c.Keys, roots)
    ensures OneDigest(c)
    ensures forall v :: v in roots <==> (Root, v) in c.Values
  {
    forall v | (Root, v) in c.Values ensures v in roots {
      var d :| d in c && c[d] == (Root, v);
      assert d in c.Keys;
    }
    forall v | v in roots ensures (Root, v) in c.Values {
      assert c[roots[v]] == (Root, v);
    }
  }

  /** The roots of a catalog by version, or nothing when two share one. */
  method RootsByVersion(c: Catalog) returns (r: Option<map<nat, Digest>>)
    ensures r.Some? <==> OneDigest(c)
    ensures r.Some? ==> ByVersion(c, c.Keys, r.value)
  {
    var rest: set<Digest>, roots: map<nat, Digest> := c.Keys, map[];
    assert c.Keys - rest == {};
    while rest != {}
      invariant rest <= c.Keys && ByVersion(c, c.Keys - rest, roots)
      decreases |rest|
    {
      var item :| item in rest;
      ghost var scanned := c.Keys - rest;
      rest := rest - {item};
      assert c.Keys - rest == scanned + {item};
      if c[item].0 == Root {
        var version := c[item].1;
        if version in roots && roots[version] != item {
          assert c[roots[version]] == c[item];
          return None;
        }
        ByVersionNext(c, scanned, roots, item);
        roots := roots[version := item];
      }
    }
    assert c.Keys - rest == c.Keys;
    ByVersionAll(c, roots);
    r := Some(roots);
  }

  /** Finds the roots of an identity and replays them with its documents. `replays` stands for
      the verification of those bytes, which must give back the identity. */
  method LoadTrust(c: Catalog, p: Policy, id: Identity, replays: seq<Digest> -> bool)
    returns (r: Option<seq<Digest>>)
    ensures r.Some? ==> Loadable(c, p, id) && Selects(c, id, r.value) && replays(r.value)
    ensures r.None? && Loadable(c, p, id) ==> forall h :: Selects(c, id, h) ==> !replays(h)
  {
    if !Holds(c, Root, p.bootstrap.digest, p.bootstrap.version) { return None; }
    var byVersion := RootsByVersion(c);
    if byVersion.None? { return None; }
    var roots := byVersion.value;
    ByVersionAll(c, roots);
    var history: seq<Digest>, version := [], 11;
    while version <= id.rootVersion
      invariant 11 <= version && (version <= id.rootVersion + 1 || version == 11)
      invariant |history| == version - 11
      invariant forall i :: 0 <= i < |history| ==> Holds(c, Root, history[i], 11 + i)
      invariant forall v :: 11 <= v < version ==> (Root, v) in c.Values
    {
      if version !in roots { return None; }
      history := history + [roots[version]];
      version := version + 1;
    }
    if id.rootVersion !in roots || roots[id.rootVersion] != id.root {
      return None;
    }
    if !Present(c, Timestamp, id.timestamp) || !Present(c, Snapshot, id.snapshot)
       || !Present(c, Targets, id.targets) || !Present(c, TrustedRoot, id.trusted) {
      return None;
    }
    SelectsOne(c, id, history);
    r := if replays(history) then Some(history) else None;
  }

  lemma SelectsOne(c: Catalog, id: Identity, history: seq<Digest>)
    requires OneDigest(c) && Selects(c, id, history)
    ensures forall h :: Selects(c, id, h) <==> h == history
  {
    forall h | Selects(c, id, h) ensures h == history {
      forall i | 0 <= i < |h| ensures h[i] == history[i] {
        assert c[h[i]] == c[history[i]];
      }
    }
  }

  // What was retained is what is loaded -------------------------------------

  function Digests(history: seq<Doc>): seq<Digest> {
    seq(|history|, i requires 0 <= i < |history| => history[i].digest)
  }

  lemma RefreshHeld(c: Catalog, p: Policy, r: Refresh)
    requires AllHeld(c, Documents(p, r))
    ensures forall i :: 0 <= i < |RootConflicts.Roots(p, r)| ==>
      Holds(c, Root, RootConflicts.Roots(p, r)[i].digest, RootConflicts.Roots(p, r)[i].version)
    ensures Present(c, Timestamp, r.timestamp.digest) && Present(c, Snapshot, r.snapshot.digest)
    ensures Present(c, Targets, r.targets.digest) && Present(c, TrustedRoot, r.trusted)
  {
    var documents, n := Documents(p, r), |r.history|;
    forall i | 0 <= i < |RootConflicts.Roots(p, r)|
      ensures Holds(c, Root, RootConflicts.Roots(p, r)[i].digest, RootConflicts.Roots(p, r)[i].version)
    {
      RootConflicts.RootAt(p, r, i);
      assert documents[i] == (Root, RootConflicts.Roots(p, r)[i]);
    }
    assert documents[n + 1] == (Timestamp, r.timestamp) && documents[n + 2] == (Snapshot, r.snapshot);
    assert documents[n + 3] == (Targets, r.targets) && documents[n + 4] == (TrustedRoot, Doc(r.trusted, 0));
  }

  /** However much else has been retained since, a completely retained refresh is found again by its
      own identities if and only if no two retained roots share a version; and what is found is
      exactly its own rotations. */
  lemma RetainedLoads(c: Catalog, p: Policy, r: Refresh)
    requires AllHeld(c, Documents(p, r)) && RootConflicts.Numbered(p, r) && p.bootstrap.version == 10
    ensures Loadable(c, p, IdentityOf(p, r)) <==> OneDigest(c)
    ensures OneDigest(c) ==> forall h :: Selects(c, IdentityOf(p, r), h) <==> h == Digests(r.history)
  {
    hide Documents, OneDigest;
    RefreshHeld(c, p, r);
    var id, roots := IdentityOf(p, r), RootConflicts.Roots(p, r);
    assert roots[0] == p.bootstrap && roots[|r.history|] == Current(p, r, Root);
    assert id.rootVersion == 10 + |r.history|;
    forall v | 11 <= v <= id.rootVersion ensures (Root, v) in c.Values {
      assert c[roots[v - 10].digest] == (Root, v);
    }
    assert Selects(c, id, Digests(r.history)) by {
      assert forall i :: 0 <= i < |r.history| ==> roots[i + 1] == r.history[i];
    }
    if OneDigest(c) {
      SelectsOne(c, id, Digests(r.history));
    }
  }

  lemma NotOneDigest(c: Catalog, p: Policy)
    requires !OneDigest(c)
    ensures !Consistent(c, p, Root)
  {
  }

  /** Two digests for one root version also end what was begun before: in every later catalog no
      identity at all is loadable, so no attempt already made can be verified or published. */
  lemma ConflictStopsAttempts(
    p: Policy, catalogs: seq<Catalog>, refreshes: seq<Refresh>, i: nat, j: nat, id: Identity)
    requires Run(p, catalogs, refreshes) && i <= j < |catalogs| && !OneDigest(catalogs[i])
    ensures catalogs[j] == catalogs[i] && !Loadable(catalogs[j], p, id)
  {
    hide OneDigest, Consistent, Run;
    NotOneDigest(catalogs[i], p);
    RootConflicts.ConflictWedges(p, catalogs, refreshes, i, j);
  }

  /** As long as every refresh has published agreeing beginnings, each one retained completely stays
      loadable with its own rotations, whatever else is retained after it. */
  lemma AgreeingRunLoads(
    p: Policy, catalogs: seq<Catalog>, refreshes: seq<Refresh>, i: nat, j: nat)
    requires Run(p, catalogs, refreshes) && i < j < |catalogs| && p.bootstrap.version == 10
    requires forall k :: 0 <= k < j ==> RootConflicts.Numbered(p, refreshes[k])
    requires forall k :: 0 <= k < j ==> RootConflicts.AgreeingStep(catalogs[k], catalogs[k + 1], p, refreshes[k])
    requires AllHeld(catalogs[i + 1], Documents(p, refreshes[i]))
    ensures var id := IdentityOf(p, refreshes[i]);
      && Loadable(catalogs[j], p, id)
      && forall h :: Selects(catalogs[j], id, h) <==> h == Digests(refreshes[i].history)
  {
    hide Documents, RootConflicts.AgreeingStep, RootConflicts.Numbered, Kept;
    RootConflicts.RunConsistentIff(p, catalogs, refreshes, j);
    RunGrows(p, catalogs, refreshes, i + 1, j);
    assert AllHeld(catalogs[j], Documents(p, refreshes[i]));
    ConsistentOne(catalogs[j], p);
    RetainedLoads(catalogs[j], p, refreshes[i]);
  }

  lemma ConsistentOne(c: Catalog, p: Policy)
    requires Consistent(c, p, Root)
    ensures OneDigest(c)
  {
  }

  lemma {:induction false} RunGrows(p: Policy, catalogs: seq<Catalog>, refreshes: seq<Refresh>, i: nat, j: nat)
    requires Run(p, catalogs, refreshes) && i <= j < |catalogs|
    ensures forall d :: d in catalogs[i] ==> d in catalogs[j] && catalogs[j][d] == catalogs[i][d]
    decreases j
  {
    hide Kept, Acceptable, Documents;
    if i < j {
      RunGrows(p, catalogs, refreshes, i, j - 1);
      assert Kept(catalogs[j - 1], catalogs[j - 1 + 1], p, refreshes[j - 1]);
      KeptAdds(catalogs[j - 1], catalogs[j], p, refreshes[j - 1]);
    }
  }
}
