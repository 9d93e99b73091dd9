/** What an owner history says, record by record: what each one had to show, what no later one
    can take back, and what its approval allows. */
module OwnerMeaning {
  import opened Wrappers
  import opened Bytes
  import opened TufRoles
  import opened TufMeaning
  import opened OwnerHistory

  /** The floors are the versions and digests of the record's own bundle, whose TrustedRoot is
      the pinned one. */
  ghost predicate Vouched(v: Record, owner: Owner) {
    && |v.floors| == 4 && v.bundle.roots != []
    && Holds(v.bundle, v.floors[0].version, v.floors[1].version, v.floors[2].version, v.floors[3].version, owner.env)
    && v.floors == [
         Floor("root", v.floors[0].version, owner.env.digest(v.bundle.roots[|v.bundle.roots| - 1])),
         Floor("timestamp", v.floors[1].version, owner.env.digest(v.bundle.timestamp)),
         Floor("snapshot", v.floors[2].version, owner.env.digest(v.bundle.snapshot)),
         Floor("targets", v.floors[3].version, owner.env.digest(v.bundle.targets))]
    && owner.env.digest(v.bundle.trustedRoot) == 0x6494e21ea73fa7ee769f85f57d5a3e6a08725eae1e38c755fc3517c9e6bc0b66
  }

  lemma VouchedIff(v: Record, owner: Owner)
    ensures Admitted(v, owner) <==> Vouched(v, owner)
  {
    hide Authentic, Holds;
    if Admitted(v, owner) {
      AuthenticHolds(v.bundle, owner.env);
    }
    if |v.floors| == 4 {
      AuthenticIff(v.bundle, v.floors[0].version, v.floors[1].version, v.floors[2].version, v.floors[3].version,
                   owner.env);
    }
  }

  /** Nothing named falls, and a version named again keeps its digest. */
  predicate Rising(before: seq<Floor>, after: seq<Floor>) {
    && |before| == |after|
    && forall k :: 0 <= k < |before| ==>
         && after[k].role == before[k].role && after[k].version >= before[k].version
         && (after[k].version == before[k].version ==> after[k] == before[k])
  }

  /** What the record at a place must show. */
  ghost predicate Allowed(records: seq<seq<byte>>, i: nat, owner: Owner)
    requires i < |records|
  {
    && owner.open(records[i]).Some?
    && var v := owner.open(records[i]).value;
    && v.sequence == i + 1
    && v.predecessor == (if i == 0 then None else Some(owner.env.digest(records[i - 1])))
    && v.terms.owner != "" && v.terms.deployment != "" && v.terms.catalog != "" && v.terms.history != ""
    && v.terms.purpose == "RESEARCH_ONLY" && v.terms.issue == 70
    && v.terms.profileDigest == owner.profileDigest && v.terms.profile == owner.profile
    && v.terms.premises == owner.premises && v.terms.notBefore < v.terms.notAfter
    && if i == 0 then v.action == "activate" && v.adverse.None? && Vouched(v, owner)
       else
         && owner.open(records[i - 1]).Some?
         && var u := owner.open(records[i - 1]).value;
         && v.terms == u.terms
         && (|| (v.action == "admit" && v.adverse.None? && u.adverse.None?)
             || (v.action == "withdraw" && v.adverse.Some? && u.adverse.None?
                 && v.bundle == u.bundle && v.floors == u.floors)
             || (v.action == "reconcile" && v.adverse == u.adverse
                 && v.bundle == u.bundle && v.floors == u.floors))
         && u.bundle.roots <= v.bundle.roots
         && (if v.bundle == u.bundle then v.floors == u.floors else Vouched(v, owner))
         && Rising(u.floors, v.floors)
  }

  lemma AllowedFirst(records: seq<seq<byte>>, owner: Owner)
    requires records != []
    ensures Allowed(records, 0, owner) <==> First(records[0], owner)
  {
    hide Vouched, Admitted;
    if owner.open(records[0]).Some? { VouchedIff(owner.open(records[0]).value, owner); }
  }

  lemma AllowedNext(records: seq<seq<byte>>, i: nat, owner: Owner)
    requires 1 <= i < |records|
    ensures Allowed(records, i, owner) <==> Next(records[i - 1], records[i], i + 1, owner)
  {
    hide Vouched, Admitted;
    if owner.open(records[i]).Some? { VouchedIff(owner.open(records[i]).value, owner); }
  }

  /** A history is accepted exactly when it has from one to 1024 records and each is allowed. */
  lemma AcceptedIff(records: seq<seq<byte>>, owner: Owner)
    ensures Accepted(records, owner) <==>
      1 <= |records| <= 1024 && forall i :: 0 <= i < |records| ==> Allowed(records, i, owner)
  {
    hide Allowed, First, Next;
    if records != [] { AllowedFirst(records, owner); }
    forall i | 1 <= i < |records|
      ensures Allowed(records, i, owner) <==> Next(records[i - 1], records[i], i + 1, owner)
    {
      AllowedNext(records, i, owner);
    }
    if 1 <= |records| <= 1024 && forall i :: 0 <= i < |records| ==> Allowed(records, i, owner) {
      assert Allowed(records, 0, owner);
    }
    if Accepted(records, owner) {
      forall i | 0 <= i < |records| ensures Allowed(records, i, owner) {
        assert i > 0 ==> Next(records[i - 1], records[i], i + 1, owner);
      }
    }
  }

  /** Between any two places of an accepted history: the terms agree, floors rise, roots are only
      extended, and a withdrawal stands with the metadata it found. */
  lemma NothingTakenBack(records: seq<seq<byte>>, i: nat, j: nat, owner: Owner)
    requires Accepted(records, owner) && i <= j < |records|
    ensures owner.open(records[i]).Some? && owner.open(records[j]).Some?
    ensures var u, v := owner.open(records[i]).value, owner.open(records[j]).value;
      && v.terms == u.terms && Rising(u.floors, v.floors) && u.bundle.roots <= v.bundle.roots
      && (u.adverse.Some? ==> v.adverse == u.adverse && v.bundle == u.bundle && v.floors == u.floors)
      && (u.adverse.Some? && i < j ==> v.action == "reconcile")
  {
    hide Authentic, Identified, NextAction;
    OpenAt(records, i, owner);
    OpenAt(records, j, owner);
    HistoryStrengthens(records, i, j, owner);
    if i < j && At(records, i, owner).adverse.Some? { WithdrawnOnce(records, i, j, owner); }
  }

  lemma OpenAt(records: seq<seq<byte>>, i: nat, owner: Owner)
    requires Accepted(records, owner) && i < |records|
    ensures owner.open(records[i]) == Some(At(records, i, owner))
  {
    hide Authentic, Identified, NextAction;
    if i > 0 { assert Next(records[i - 1], records[i], i + 1, owner); }
  }

  /** The approval: the terms of the first record, the floors of the last, and, if some record
      withdrew, the moment from which it did. */
  lemma ApprovalMeans(records: seq<seq<byte>>, k: nat, owner: Owner)
    requires Accepted(records, owner) && k < |records|
    ensures owner.open(records[k]).Some? && owner.open(records[|records| - 1]).Some?
    ensures var v, last := owner.open(records[k]).value, owner.open(records[|records| - 1]).value;
      var a := Conclude(last, owner);
      && a.notBefore == v.terms.notBefore && a.notAfter == v.terms.notAfter && a.notBefore < a.notAfter
      && a.history == v.terms.history && a.history != ""
      && a.floors == last.floors && Vouched(last, owner)
      && a.target == owner.env.digest(last.bundle.trustedRoot)
      && a.profileDigest == owner.profileDigest && a.timescale == "UNSMEARED_UTC" && a.compliance
      && (v.action == "withdraw" ==>
            && v.adverse.Some?
            && a.withdrawnFrom == Some(
                 if v.adverse.value.effectiveFrom.Some? then v.adverse.value.effectiveFrom.value
                 else v.terms.notBefore))
    ensures var last := owner.open(records[|records| - 1]).value;
      Conclude(last, owner).withdrawnFrom.Some? <==>
        exists i :: 0 <= i < |records| && Withdraws(records[i], owner)
  {
    hide Accepted, Vouched, Allowed, Admitted;
    var n := |records| - 1;
    AcceptedSize(records, owner);
    AcceptedIff(records, owner);
    OpenAt(records, n, owner);
    NothingTakenBack(records, k, n, owner);
    FloorsAuthentic(records, n, owner);
    VouchedIff(At(records, n, owner), owner);
    VouchedTarget(At(records, n, owner), owner);
    TermsAt(records, k, owner);
    assert Allowed(records, n, owner);
    Withdrawal(records, n, owner);
    forall i | 0 <= i < |records| && Withdraws(records[i], owner)
      ensures At(records, n, owner).adverse.Some?
    {
      TermsAt(records, i, owner);
      NothingTakenBack(records, i, n, owner);
    }
  }

  lemma VouchedTarget(v: Record, owner: Owner)
    requires Vouched(v, owner)
    ensures owner.env.digest(v.bundle.trustedRoot) == TARGET
  {
    hide Holds;
  }

  lemma AcceptedSize(records: seq<seq<byte>>, owner: Owner)
    requires Accepted(records, owner)
    ensures 1 <= |records| <= 1024
  {
  }

  lemma TermsAt(records: seq<seq<byte>>, k: nat, owner: Owner)
    requires Accepted(records, owner) && k < |records|
    ensures owner.open(records[k]).Some?
    ensures var v := owner.open(records[k]).value;
      && v.terms.history != "" && v.terms.notBefore < v.terms.notAfter
      && (v.action == "withdraw" ==> v.adverse.Some?)
  {
    hide Accepted, Vouched;
    AcceptedIff(records, owner);
    assert Allowed(records, k, owner);
  }

  predicate Withdraws(raw: seq<byte>, owner: Owner) {
    owner.open(raw).Some? && owner.open(raw).value.action == "withdraw"
  }

  /** Adverse evidence was put there by a withdrawal. */
  lemma {:induction false} Withdrawal(records: seq<seq<byte>>, j: nat, owner: Owner)
    requires Accepted(records, owner) && j < |records|
    ensures owner.open(records[j]).Some?
    ensures owner.open(records[j]).value.adverse.Some? ==>
      exists i :: 0 <= i < |records| && Withdraws(records[i], owner)
  {
    hide Accepted, Vouched;
    AcceptedIff(records, owner);
    assert Allowed(records, j, owner);
    if j > 0 { Withdrawal(records, j - 1, owner); }
  }

  /** A checkpoint vouches for exactly this history, when it answers the nonce asked. */
  lemma HeadIff(raw: seq<byte>, last: Record, records: seq<seq<byte>>, nonce: Option<string>, owner: Owner)
    requires records != []
    ensures CheckHead(raw, last, records, nonce, owner) <==>
      && owner.openHead(raw).Some?
      && var h := owner.openHead(raw).value;
      && (h.action, h.continuity) == ("checkpoint", "RECONCILED")
      && (nonce == None || nonce == Some(h.nonce))
      && (exists octets :: owner.exactHex(h.nonce) == Some(octets) && |octets| == 32)
      && (h.owner, h.deployment, h.catalog, h.history)
           == (last.terms.owner, last.terms.deployment, last.terms.catalog, last.terms.history)
      && (h.sequence, h.head, h.floors) == (|records|, owner.env.digest(records[|records| - 1]), last.floors)
  {
    if owner.openHead(raw).Some? {
      var octets := owner.exactHex(owner.openHead(raw).value.nonce);
      assert octets.Some? ==> octets == Some(octets.value);
    }
  }

  // Using an approval -------------------------------------------------------

  /** The reviewed floor of a role. */
  function Reviewed(role: string): Option<(int, nat)> {
    if role == "root" then Some((15, 0x73747011d0857ada15479a16c4cae0f3ed03aac698b523b97e1de314ac9d9ca8))
    else if role == "timestamp" then Some((799, 0xb8cd928494ed0736a71f93bf0bcb0e1d5bcfc4b871bc564b235306dac513b783))
    else if role == "snapshot" then Some((165, 0x8f784ab614ec62bfdd5f568eb2a2e3011668449ba235ed4eb7befa99f8469933))
    else if role == "targets" then Some((14, 0x6a697f7f8908c8ab26c11786ecb490b54acec97fa8c802e399f065f8a0cc1acd))
    else None
  }

  lemma {:induction false} ReviewedIs(role: string)
    ensures Reviewed(role).Some? <==> Lookup(FLOORS, role).Some?
    ensures Reviewed(role).Some? ==>
      (Lookup(FLOORS, role).value.version, Lookup(FLOORS, role).value.digest) == Reviewed(role).value
  {
    var f := FLOORS;
    assert f[..3][..2] == f[..2] && f[..2][..1] == f[..1] && f[..1][..0] == [];
    assert Lookup(f, role) == if f[3].role == role then Some(f[3]) else Lookup(f[..3], role);
    assert Lookup(f[..3], role) == if f[2].role == role then Some(f[2]) else Lookup(f[..2], role);
    assert Lookup(f[..2], role) == if f[1].role == role then Some(f[1]) else Lookup(f[..1], role);
    assert Lookup(f[..1], role) == if f[0].role == role then Some(f[0]) else None;
  }

  /** The last entry for a role. */
  predicate LastFor(floors: seq<Floor>, role: string, k: nat) {
    k < |floors| && floors[k].role == role && forall j :: k < j < |floors| ==> floors[j].role != role
  }

  lemma {:induction false} LookupMeans(floors: seq<Floor>, role: string)
    ensures forall k: nat :: LastFor(floors, role, k) ==> Lookup(floors, role) == Some(floors[k])
    ensures Lookup(floors, role).Some? ==> exists k: nat :: LastFor(floors, role, k)
  {
    hide LastFor;
    if floors == [] {
      NoneLast(floors, role);
    } else {
      var front, n: nat := floors[..|floors| - 1], |floors| - 1;
      LookupMeans(front, role);
      forall k: nat
        ensures LastFor(floors, role, k) <==>
          if floors[n].role == role then k == n else LastFor(front, role, k)
        ensures LastFor(front, role, k) ==> k < n && front[k] == floors[k]
      {
        LastInFront(floors, role, k);
      }
    }
  }

  lemma NoneLast(floors: seq<Floor>, role: string)
    ensures forall k: nat :: LastFor(floors, role, k) ==> k < |floors|
  {
  }

  lemma LastInFront(floors: seq<Floor>, role: string, k: nat)
    requires floors != []
    ensures var front, n := floors[..|floors| - 1], |floors| - 1;
      && (LastFor(floors, role, k) <==> if floors[n].role == role then k == n else LastFor(front, role, k))
      && (LastFor(front, role, k) ==> k < n && front[k] == floors[k])
  {
    var front, n := floors[..|floors| - 1], |floors| - 1;
    assert forall j :: 0 <= j < n ==> front[j] == floors[j];
  }

  /** One floor of an approval: for a reviewed role, not below what was reviewed, and not above
      what the retained trust has. */
  ghost predicate FloorHolds(floor: Floor, versions: seq<Floor>) {
    && Reviewed(floor.role).Some?
    && floor.version >= Reviewed(floor.role).value.0
    && (floor.version == Reviewed(floor.role).value.0 ==> floor.digest == Reviewed(floor.role).value.1)
    && exists k: nat :: LastFor(versions, floor.role, k)
         && versions[k].version >= floor.version
         && (versions[k].version == floor.version ==> versions[k].digest == floor.digest)
  }

  lemma FloorHoldsIff(floor: Floor, versions: seq<Floor>)
    ensures FloorMet(floor, versions) <==> FloorHolds(floor, versions)
  {
    hide FLOORS, Lookup;
    ReviewedIs(floor.role);
    LookupMeans(versions, floor.role);
  }

  lemma ListedRoles(floors: seq<Floor>)
    ensures (forall i :: 0 <= i < 4 ==> Listed(floors, FLOORS[i].role)) <==>
      && Listed(floors, "root") && Listed(floors, "timestamp")
      && Listed(floors, "snapshot") && Listed(floors, "targets")
  {
    assert FLOORS[0].role == "root" && FLOORS[1].role == "timestamp";
    assert FLOORS[2].role == "snapshot" && FLOORS[3].role == "targets";
    if forall i :: 0 <= i < 4 ==> Listed(floors, FLOORS[i].role) {
      assert Listed(floors, FLOORS[0].role) && Listed(floors, FLOORS[1].role);
      assert Listed(floors, FLOORS[2].role) && Listed(floors, FLOORS[3].role);
    }
  }

  /** An approval allows a use exactly when it is of the packaged profile and a named history, for
      the TrustedRoot used, all four of its floors hold of the retained versions, and the event
      lies within its validity and the trust's and, where it is to qualify, before any withdrawal. */
  lemma RequireIff(a: Approval, versions: seq<Floor>, trustedRoot: nat, interval: Option<(int, int)>,
                   intervalValid: bool, qualify: bool, owner: Owner)
    ensures Require(a, versions, trustedRoot, interval, intervalValid, qualify, owner) <==>
      && a.profileDigest == owner.profileDigest && a.history != "" && a.timescale == "UNSMEARED_UTC"
      && a.compliance && a.notBefore < a.notAfter && a.target == trustedRoot
      && |a.floors| == 4
      && (exists j :: 0 <= j < 4 && a.floors[j].role == "root")
      && (exists j :: 0 <= j < 4 && a.floors[j].role == "timestamp")
      && (exists j :: 0 <= j < 4 && a.floors[j].role == "snapshot")
      && (exists j :: 0 <= j < 4 && a.floors[j].role == "targets")
      && (forall i :: 0 <= i < 4 ==> FloorHolds(a.floors[i], versions))
      && (interval.Some? ==>
            && a.notBefore <= interval.value.0 && interval.value.1 <= a.notAfter && intervalValid
            && (qualify && a.withdrawnFrom.Some? ==> interval.value.1 < a.withdrawnFrom.value))
  {
    hide FLOORS, Lookup, FloorHolds, FloorMet;
    if |a.floors| == 4 {
      ListedRoles(a.floors);
      forall i | 0 <= i < 4 ensures FloorMet(a.floors[i], versions) <==> FloorHolds(a.floors[i], versions) {
        FloorHoldsIff(a.floors[i], versions);
      }
    }
  }
}
