/** Keeping the update framework's metadata from rolling back: what a fresh refresh must meet
    before its documents are retained beside those retained before. */
module Retention {
  /** What is retained: documents of the four metadata roles, and the target they vouch for. */
  datatype Role = Root | Timestamp | Snapshot | Targets | TrustedRoot

  /** A SHA-256 value, as a number. */
  type Digest = nat

  datatype Doc = Doc(digest: Digest, version: nat)

  /** Retained documents by digest. */
  type Catalog = map<Digest, (Role, nat)>

  /** The reviewed baseline: the bootstrap root, and for each role the digest at its floor. */
  datatype Policy = Policy(bootstrap: Doc, floorDigest: Role -> Digest)

  /** One fresh refresh: the roots rotated through, oldest first, the three documents and the
      target. `faithful`: each current document is what the stated identities say; `identified`:
      so are the bootstrap and the target, which is only looked at afterwards. */
  datatype Refresh = Refresh(
    history: seq<Doc>, timestamp: Doc, snapshot: Doc, targets: Doc, trusted: Digest, faithful: bool, identified: bool)

  datatype Outcome = Retained | Refused | Crashed

  function Floor(role: Role): nat {
    match role
    case Root => 15
    case Timestamp => 799
    case Snapshot => 165
    case Targets => 14
    case TrustedRoot => 0
  }

  const ROLES: seq<Role> := [Root, Timestamp, Snapshot, Targets]

  /** The document a refresh presents as current for a role. */
  function Current(p: Policy, r: Refresh, role: Role): Doc {
    match role
    case Root => if r.history == [] then p.bootstrap else r.history[|r.history| - 1]
    case Timestamp => r.timestamp
    case Snapshot => r.snapshot
    case Targets => r.targets
    case TrustedRoot => Doc(r.trusted, 0)
  }

  predicate Holds(c: Catalog, role: Role, digest: Digest, version: nat) {
    digest in c && c[digest] == (role, version)
  }

  /** No version of the role is known with two digests, the reviewed floor included. */
  predicate Consistent(c: Catalog, p: Policy, role: Role) {
    && (forall d, e :: d in c && e in c && c[d].0 == role && c[e] == c[d] ==> d == e)
    && (forall d :: d in c && c[d] == (role, Floor(role)) ==> d == p.floorDigest(role))
  }

  /** The current document is at or above everything known, and agrees where it meets it. */
  predicate Leads(c: Catalog, p: Policy, role: Role, current: Doc) {
    && current.version >= Floor(role)
    && (current.version == Floor(role) ==> current.digest == p.floorDigest(role))
    && (forall d :: d in c && c[d].0 == role ==>
          c[d].1 <= current.version && (c[d].1 == current.version ==> d == current.digest))
  }

  predicate Acceptable(c: Catalog, p: Policy, r: Refresh) {
    r.faithful && forall role :: role in ROLES ==> Consistent(c, p, role) && Leads(c, p, role, Current(p, r, role))
  }

  /** The document stands at or above the floor and all of its role that is known, agreeing where
      it meets either; and no version of the role is known with two digests. */
  predicate Newest(c: Catalog, role: Role, current: Doc, floor: nat, floorDigest: Digest) {
    && current.version >= floor && (current.version == floor ==> current.digest == floorDigest)
    && (forall d :: d in c && c[d].0 == role ==>
          && c[d].1 <= current.version && (c[d].1 == current.version ==> d == current.digest)
          && (c[d].1 == floor ==> d == floorDigest))
    && (forall d, e :: d in c && e in c && c[d].0 == c[e].0 == role && c[d].1 == c[e].1 ==> d == e)
  }

  /** A refresh is acceptable exactly when it is faithful and its four current documents are the
      newest of their roles, above the reviewed floors. */
  lemma AcceptableIff(c: Catalog, p: Policy, r: Refresh)
    ensures Acceptable(c, p, r) <==>
      && r.faithful
      && Newest(c, Root, if r.history == [] then p.bootstrap else r.history[|r.history| - 1], 15, p.floorDigest(Root))
      && Newest(c, Timestamp, r.timestamp, 799, p.floorDigest(Timestamp))
      && Newest(c, Snapshot, r.snapshot, 165, p.floorDigest(Snapshot))
      && Newest(c, Targets, r.targets, 14, p.floorDigest(Targets))
  {
    hide Newest, Consistent, Leads, Current;
    forall role: Role | role in ROLES
      ensures Consistent(c, p, role) && Leads(c, p, role, Current(p, r, role)) <==>
        Newest(c, role, Current(p, r, role), Floor(role), p.floorDigest(role))
    {
      NewestIff(c, p, r, role);
    }
    assert ROLES[0] == Root && ROLES[1] == Timestamp && ROLES[2] == Snapshot && ROLES[3] == Targets;
    assert Root in ROLES && Timestamp in ROLES && Snapshot in ROLES && Targets in ROLES;
    CurrentIs(p, r);
  }

  lemma NewestIff(c: Catalog, p: Policy, r: Refresh, role: Role)
    ensures Consistent(c, p, role) && Leads(c, p, role, Current(p, r, role)) <==>
      Newest(c, role, Current(p, r, role), Floor(role), p.floorDigest(role))
  {
    hide Current;
  }

  lemma CurrentIs(p: Policy, r: Refresh)
    ensures Current(p, r, Root) == if r.history == [] then p.bootstrap else r.history[|r.history| - 1]
    ensures Current(p, r, Timestamp) == r.timestamp && Current(p, r, Snapshot) == r.snapshot
    ensures Current(p, r, Targets) == r.targets
  {
  }

  /** Everything a refresh retains, in the order it is published. */
  function Documents(p: Policy, r: Refresh): seq<(Role, Doc)> {
    [(Root, p.bootstrap)] + seq(|r.history|, i requires 0 <= i < |r.history| => (Root, r.history[i])) +
    [(Timestamp, r.timestamp), (Snapshot, r.snapshot), (Targets, r.targets), (TrustedRoot, Doc(r.trusted, 0))]
  }

  /** Publishes documents in order; one already retained is left as it is. */
  function Filed(c: Catalog, documents: seq<(Role, Doc)>): Catalog {
    if documents == [] then c
    else
      var before, (role, doc) := Filed(c, documents[..|documents| - 1]), documents[|documents| - 1];
      if doc.digest in before then before else before[doc.digest := (role, doc.version)]
  }

  predicate AllHeld(c: Catalog, documents: seq<(Role, Doc)>) {
    forall i :: 0 <= i < |documents| ==> Holds(c, documents[i].0, documents[i].1.digest, documents[i].1.version)
  }

  /** A document's digest is taken by something else. */
  predicate Clashes(c: Catalog, documents: seq<(Role, Doc)>) {
    exists i :: 0 <= i < |documents| && documents[i].1.digest in c
      && !Holds(c, documents[i].0, documents[i].1.digest, documents[i].1.version)
  }

  // The scan ----------------------------------------------------------------

  type Seen = map<(Role, nat), Digest>

  /** The digest known for each version: the floors, and the documents scanned so far. */
  predicate Knows(c: Catalog, p: Policy, scanned: set<Digest>, seen: Seen) {
    && (forall role: Role :: role in ROLES ==>
          (role, Floor(role)) in seen && seen[(role, Floor(role))] == p.floorDigest(role))
    && (forall d :: d in scanned ==> d in c && (c[d].0 != TrustedRoot ==> c[d] in seen && seen[c[d]] == d))
    && (forall k :: k in seen ==> k.1 == Floor(k.0) || exists d :: d in scanned && d in c && c[d] == k)
  }

  lemma AllRoles()
    ensures forall role: Role :: role in ROLES <==> role != TrustedRoot
  {
    forall role: Role | role != TrustedRoot ensures role in ROLES {
      match role {
        case Root => assert ROLES[0] == role;
        case Timestamp => assert ROLES[1] == role;
        case Snapshot => assert ROLES[2] == role;
        case Targets => assert ROLES[3] == role;
      }
    }
  }

  lemma KnowsNext(c: Catalog, p: Policy, scanned: set<Digest>, seen: Seen, d: Digest)
    requires Knows(c, p, scanned, seen) && d in c && c[d].0 != TrustedRoot && (c[d] in seen ==> seen[c[d]] == d)
    ensures Knows(c, p, scanned + {d}, seen[c[d] := d])
  {
    var after, all := seen[c[d] := d], scanned + {d};
    forall role: Role | role in ROLES
      ensures (role, Floor(role)) in after && after[(role, Floor(role))] == p.floorDigest(role)
    {
      assert (role, Floor(role)) in seen;
    }
    forall e | e in all ensures e in c && (c[e].0 != TrustedRoot ==> c[e] in after && after[c[e]] == e) {
    }
    forall k | k in after && k.1 != Floor(k.0) ensures exists e :: e in all && e in c && c[e] == k {
      if k in seen {
        var e :| k == c[d] || (e in scanned && e in c && c[e] == k);
      }
    }
  }

  /** The target belongs to no role and is passed over. */
  lemma KnowsSkip(c: Catalog, p: Policy, scanned: set<Digest>, seen: Seen, d: Digest)
    requires Knows(c, p, scanned, seen) && d in c && c[d].0 == TrustedRoot
    ensures Knows(c, p, scanned + {d}, seen)
  {
    var all := scanned + {d};
    forall k | k in seen && k.1 != Floor(k.0) ensures exists e :: e in all && e in c && c[e] == k {
      var e :| e in scanned && e in c && c[e] == k;
      assert e in all;
    }
  }

  /** A version already known under another digest is an inconsistency of its role. */
  lemma KnownTwice(c: Catalog, p: Policy, scanned: set<Digest>, seen: Seen, d: Digest)
    requires Knows(c, p, scanned, seen) && d in c && c[d].0 != TrustedRoot && c[d] in seen && seen[c[d]] != d
    ensures !Consistent(c, p, c[d].0)
  {
    AllRoles();
    if c[d].1 == Floor(c[d].0) {
    } else {
      var e :| e in scanned && e in c && c[e] == c[d];
    }
  }

  lemma KnownAll(c: Catalog, p: Policy, scanned: set<Digest>, seen: Seen)
    requires Knows(c, p, scanned, seen) && forall d :: d in c ==> d in scanned
    ensures forall role: Role :: role in ROLES ==> Consistent(c, p, role)
    ensures forall role: Role, current: Doc :: role in ROLES ==>
      (Leads(c, p, role, current) <==>
        && current.version >= Floor(role) && (current.version == Floor(role) ==> current.digest == p.floorDigest(role))
        && Highest(seen, role, current))
  {
    AllRoles();
    forall role: Role, current: Doc | role in ROLES
      ensures Leads(c, p, role, current) <==>
        && current.version >= Floor(role) && (current.version == Floor(role) ==> current.digest == p.floorDigest(role))
        && Highest(seen, role, current)
    {
      if Highest(seen, role, current) {
        forall d | d in c && c[d].0 == role
          ensures c[d].1 <= current.version && (c[d].1 == current.version ==> d == current.digest)
        {
          assert c[d] in seen;
        }
      }
    }
  }

  /** At or above every version known for the role, and equal in digest where it meets one. */
  predicate Highest(seen: Seen, role: Role, current: Doc) {
    forall k :: k in seen && k.0 == role ==>
      k.1 <= current.version && (k.1 == current.version ==> seen[k] == current.digest)
  }

  class Repository {
    const policy: Policy
    var catalog: Catalog
    var budget: nat

    constructor (policy: Policy, catalog: Catalog, budget: nat)
      ensures this.policy == policy && this.catalog == catalog && this.budget == budget
    {
      this.policy, this.catalog, this.budget := policy, catalog, budget;
    }

    /** Compares a refresh with the reviewed floors. */
    method AboveFloors(r: Refresh) returns (ok: bool, seen: Seen)
      ensures ok <==> r.faithful && forall role :: role in ROLES ==>
        var current := Current(policy, r, role);
        && current.version >= Floor(role)
        && (current.version == Floor(role) ==> current.digest == policy.floorDigest(role))
      ensures ok ==> Knows(catalog, policy, {}, seen)
    {
      seen := map[];
      var i := 0;
      AllRoles();
      while i < |ROLES|
        invariant 0 <= i <= |ROLES|
        invariant forall role :: role in ROLES[..i] ==>
          var current := Current(policy, r, role);
          && current.version >= Floor(role)
          && (current.version == Floor(role) ==> current.digest == policy.floorDigest(role))
        invariant forall role :: role in ROLES[..i] ==> (role, Floor(role)) in seen
        invariant forall k :: k in seen ==> k.1 == Floor(k.0) && seen[k] == policy.floorDigest(k.0)
      {
        var role, current := ROLES[i], Current(policy, r, ROLES[i]);
        seen := seen[(role, Floor(role)) := policy.floorDigest(role)];
        assert ROLES[..i + 1] == ROLES[..i] + [role];
        if current.version < Floor(role)
           || (current.version == Floor(role) && current.digest != policy.floorDigest(role)) {
          return false, seen;
        }
        i := i + 1;
      }
      assert ROLES[..i] == ROLES;
      ok := r.faithful;
    }

    /** Compares a refresh with the floors and with every document retained before. */
    method NotRolledBack(r: Refresh) returns (ok: bool)
      ensures ok <==> Acceptable(catalog, policy, r)
    {
      hide Current, Knows, Consistent, Leads, Highest, Floor;
      var seen;
      AllRoles();
      ok, seen := AboveFloors(r);
      if !ok {
        BelowFloor(catalog, policy, r);
        return;
      }
      var rest: set<Digest> := catalog.Keys;
      assert catalog.Keys - rest == {};
      while rest != {}
        invariant rest <= catalog.Keys && Knows(catalog, policy, catalog.Keys - rest, seen)
        decreases |rest|
      {
        var item :| item in rest;
        assert catalog.Keys - (rest - {item}) == (catalog.Keys - rest) + {item};
        rest := rest - {item};
        ghost var scanned := catalog.Keys - rest - {item};
        if catalog[item].0 == TrustedRoot {
          KnowsSkip(catalog, policy, scanned, seen, item);
          continue;
        }
        if catalog[item] in seen && seen[catalog[item]] != item {
          KnownTwice(catalog, policy, scanned, seen, item);
          return false;
        }
        KnowsNext(catalog, policy, scanned, seen, item);
        seen := seen[catalog[item] := item];
      }
      assert catalog.Keys - rest == catalog.Keys;
      KnownAll(catalog, policy, catalog.Keys, seen);
      ok := forall role :: role in ROLES ==> Highest(seen, role, Current(policy, r, role));
    }

    /** Retains a refresh that rolls nothing back, document by document. */
    method Retain(r: Refresh) returns (o: Outcome)
      modifies this`catalog, this`budget
      ensures Kept(old(catalog), catalog, policy, r)
      ensures o.Retained? ==>
        && Acceptable(old(catalog), policy, r)
        && catalog == Filed(old(catalog), Documents(policy, r)) && AllHeld(catalog, Documents(policy, r))
      ensures o.Retained? ==> r.identified
      ensures !Acceptable(old(catalog), policy, r) ==> o.Refused? && catalog == old(catalog)
      ensures o.Refused? && Acceptable(old(catalog), policy, r) ==>
        || Clashes(catalog, Documents(policy, r))
        || (!r.identified && catalog == Filed(old(catalog), Documents(policy, r)))
      ensures o.Crashed? ==> old(budget) < |Documents(policy, r)|
    {
      hide Acceptable, Documents, KeptTo, Filed;
      var ok := NotRolledBack(r);
      var documents, i := Documents(policy, r), 0;
      KeptNone(catalog, policy, r);
      if !ok { return Refused; }
      while i < |documents|
        invariant 0 <= i <= |documents| && KeptTo(old(catalog), catalog, policy, r, i)
        invariant budget + i >= old(budget)
      {
        var (role, doc) := documents[i];
        KeptNext(old(catalog), catalog, policy, r, i);
        if doc.digest in catalog {
          if catalog[doc.digest] != (role, doc.version) { return Refused; }
        } else {
          if budget == 0 { return Crashed; }
          budget := budget - 1;
          catalog := catalog[doc.digest := (role, doc.version)];
        }
        i := i + 1;
      }
      KeptWhole(old(catalog), catalog, policy, r);
      o := if r.identified then Retained else Refused;
    }
  }

  lemma KeptNone(a: Catalog, p: Policy, r: Refresh)
    ensures KeptTo(a, a, p, r, 0)
  {
    hide Acceptable;
  }

  lemma KeptNext(a: Catalog, b: Catalog, p: Policy, r: Refresh, n: nat)
    requires KeptTo(a, b, p, r, n) && n < |Documents(p, r)| && Acceptable(a, p, r)
    ensures var (role, doc) := Documents(p, r)[n];
      if doc.digest in b then b[doc.digest] == (role, doc.version) ==> KeptTo(a, b, p, r, n + 1)
      else KeptTo(a, b[doc.digest := (role, doc.version)], p, r, n + 1)
  {
    hide Acceptable, Documents;
    var documents := Documents(p, r);
    assert documents[..n + 1] == documents[..n] + [documents[n]];
    assert documents[..n + 1][..n] == documents[..n];
  }

  lemma KeptWhole(a: Catalog, b: Catalog, p: Policy, r: Refresh)
    requires KeptTo(a, b, p, r, |Documents(p, r)|)
    ensures b == Filed(a, Documents(p, r)) && AllHeld(b, Documents(p, r))
  {
    hide Acceptable, Documents;
    assert Documents(p, r)[..|Documents(p, r)|] == Documents(p, r);
  }

  lemma BelowFloor(c: Catalog, p: Policy, r: Refresh)
    ensures Acceptable(c, p, r) ==> r.faithful && forall role :: role in ROLES ==>
      var current := Current(p, r, role);
      && current.version >= Floor(role)
      && (current.version == Floor(role) ==> current.digest == p.floorDigest(role))
  {
  }

  /** The first `n` documents of a refresh that rolls nothing back were published, in order. */
  predicate KeptTo(a: Catalog, b: Catalog, p: Policy, r: Refresh, n: nat) {
    var documents := Documents(p, r);
    && n <= |documents| && (n > 0 ==> Acceptable(a, p, r))
    && b == Filed(a, documents[..n]) && AllHeld(b, documents[..n])
  }

  /** What one refresh has retained by the time it ends, is refused or is stopped. */
  ghost predicate Kept(a: Catalog, b: Catalog, p: Policy, r: Refresh) {
    exists n: nat :: KeptTo(a, b, p, r, n)
  }

  /** Nothing retained changes, and what is added are documents of an accepted refresh. */
  predicate Adds(a: Catalog, b: Catalog, p: Policy, r: Refresh) {
    && (forall d :: d in a ==> d in b && b[d] == a[d])
    && (forall d :: d in b && d !in a ==>
          Acceptable(a, p, r) && (b[d].0, Doc(d, b[d].1)) in Documents(p, r))
  }

  lemma {:induction false} FiledAdds(a: Catalog, documents: seq<(Role, Doc)>)
    ensures var b := Filed(a, documents);
      && (forall d :: d in a ==> d in b && b[d] == a[d])
      && (forall d :: d in b && d !in a ==> (b[d].0, Doc(d, b[d].1)) in documents)
  {
    if documents != [] {
      var front, last := documents[..|documents| - 1], documents[|documents| - 1];
      FiledAdds(a, front);
      assert documents == front + [last];
      var b := Filed(a, documents);
      forall d | d in b && d !in a ensures (b[d].0, Doc(d, b[d].1)) in documents {
        assert d in Filed(a, front) || (b[d].0, Doc(d, b[d].1)) == last;
      }
    }
  }

  lemma KeptAdds(a: Catalog, b: Catalog, p: Policy, r: Refresh)
    requires Kept(a, b, p, r)
    ensures Adds(a, b, p, r)
  {
    hide Acceptable, Documents;
    var n: nat :| KeptTo(a, b, p, r, n);
    FiledAdds(a, Documents(p, r)[..n]);
  }

  // Whole runs --------------------------------------------------------------

  ghost predicate Run(p: Policy, catalogs: seq<Catalog>, refreshes: seq<Refresh>) {
    && |catalogs| == |refreshes| + 1 && catalogs[0] == map[]
    && forall i :: 0 <= i < |refreshes| ==> Kept(catalogs[i], catalogs[i + 1], p, refreshes[i])
  }

  /** A role other than root: one digest a version, nothing below the floor. */
  predicate Sound(c: Catalog, p: Policy, role: Role) {
    Consistent(c, p, role) && forall d :: d in c && c[d].0 == role ==> c[d].1 >= Floor(role)
  }

  /** What is retained later stands strictly above all that was retained before. */
  predicate Rises(a: Catalog, b: Catalog, role: Role) {
    forall d, e :: d in a && a[d].0 == role && e in b && e !in a && b[e].0 == role ==> a[d].1 < b[e].1
  }

  lemma OnlyCurrent(p: Policy, r: Refresh, role: Role, doc: Doc)
    requires role != Root && (role, doc) in Documents(p, r)
    ensures doc == Current(p, r, role)
  {
    var roots := seq(|r.history|, i requires 0 <= i < |r.history| => (Root, r.history[i]));
    assert (role, doc) !in roots;
  }

  lemma KeptSound(a: Catalog, b: Catalog, p: Policy, r: Refresh, role: Role)
    requires role in ROLES && role != Root && Sound(a, p, role) && Adds(a, b, p, r)
    ensures Sound(b, p, role) && Rises(a, b, role)
  {
    hide Documents, Current, Acceptable;
    if Acceptable(a, p, r) {
      var current := Current(p, r, role);
      AcceptedLeads(a, p, r, role);
      forall d | d in b && d !in a && b[d].0 == role ensures Doc(d, b[d].1) == current {
        OnlyCurrent(p, r, role, Doc(d, b[d].1));
      }
    }
  }

  lemma AcceptedLeads(a: Catalog, p: Policy, r: Refresh, role: Role)
    requires Acceptable(a, p, r) && role in ROLES
    ensures Consistent(a, p, role) && Leads(a, p, role, Current(p, r, role))
  {
    hide Consistent, Leads;
  }

  /** Over all refreshes, crashes anywhere: for timestamp, snapshot and targets no version is
      ever retained with two digests, nothing lies below its floor, and every document retained
      later has a strictly higher version than all retained before it. */
  lemma {:induction false} RunRises(
    p: Policy, catalogs: seq<Catalog>, refreshes: seq<Refresh>, i: nat, j: nat, role: Role)
    requires role in ROLES && role != Root && Run(p, catalogs, refreshes) && i <= j < |catalogs|
    ensures Sound(catalogs[j], p, role) && Rises(catalogs[i], catalogs[j], role)
    ensures forall d :: d in catalogs[i] ==> d in catalogs[j] && catalogs[j][d] == catalogs[i][d]
    ensures forall d :: d in catalogs[j] && catalogs[j][d].0 == role ==>
      catalogs[j][d].1 >= match role { case Timestamp => 799 case Snapshot => 165 case _ => 14 }
    ensures forall d, e | d in catalogs[j] && e in catalogs[j] && catalogs[j][d].0 == catalogs[j][e].0 == role
        && catalogs[j][d].1 == catalogs[j][e].1 :: d == e
    ensures forall d, e | d in catalogs[i] && e in catalogs[j] && e !in catalogs[i]
        && catalogs[i][d].0 == catalogs[j][e].0 == role :: catalogs[i][d].1 < catalogs[j][e].1
    decreases j
  {
    hide Acceptable, Documents, Kept;
    if j == 0 {
      NothingSound(p, role);
    } else {
      RunRises(p, catalogs, refreshes, if i < j then i else j - 1, j - 1, role);
      KeptAdds(catalogs[j - 1], catalogs[j], p, refreshes[j - 1]);
      KeptSound(catalogs[j - 1], catalogs[j], p, refreshes[j - 1], role);
    }
  }

  lemma NothingSound(p: Policy, role: Role)
    ensures Sound(map[], p, role)
  {
  }
}
