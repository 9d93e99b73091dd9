/** The owner's append-only, hash-chained approval history and its use. */
module OwnerHistory {
  import opened Wrappers
  import opened Bytes
  import opened TufRoles

  /** Fields no later record may change. */
  datatype Terms = Terms(
    owner: string, deployment: string, catalog: string, history: string,
    purpose: string, issue: int,
    profileDigest: nat, profile: string, premises: string,
    notBefore: int, notAfter: int)

  datatype Adverse = Adverse(effectiveFrom: Option<int>, publishedAt: int, observedAt: int)

  datatype Record = Record(
    terms: Terms, action: string, sequence: int, predecessor: Option<nat>,
    bundle: Bundle, floors: seq<Floor>, adverse: Option<Adverse>)

  datatype Head = Head(
    action: string, owner: string, deployment: string, catalog: string, history: string,
    nonce: string, sequence: int, head: nat, floors: seq<Floor>, continuity: string)

  /** The owner key's view: signature check and decoding of records and checkpoints, the decoding
      of exact hexadecimal text, the packaged profile and premises, and the environment of the
      trust bundles. */
  datatype Owner = Owner(
    open: seq<byte> -> Option<Record>,
    openHead: seq<byte> -> Option<Head>,
    exactHex: string -> Option<seq<byte>>,
    profileDigest: nat, profile: string, premises: string,
    env: Env)

  const TARGET := 0x6494e21ea73fa7ee769f85f57d5a3e6a08725eae1e38c755fc3517c9e6bc0b66

  datatype Approval = Approval(
    notBefore: int, notAfter: int, floors: seq<Floor>, target: nat, history: string,
    withdrawnFrom: Option<int>, profileDigest: nat, timescale: string, compliance: bool)

  // The record step ---------------------------------------------------------

  predicate Identified(value: Record, sequence: int, predecessor: Option<nat>, owner: Owner) {
    && value.sequence == sequence
    && value.predecessor == predecessor
    && value.terms.owner != "" && value.terms.deployment != ""
    && value.terms.catalog != "" && value.terms.history != ""
    && value.terms.purpose == "RESEARCH_ONLY"
    && value.terms.issue == 70
    && value.terms.profileDigest == owner.profileDigest
    && value.terms.profile == owner.profile
    && value.terms.premises == owner.premises
    && value.terms.notBefore < value.terms.notAfter
  }

  predicate FirstAction(value: Record) {
    value.action == "activate" && value.adverse.None?
  }

  predicate NextAction(prior: Record, value: Record) {
    && value.terms == prior.terms
    && (if value.action == "admit" then prior.adverse.None? && value.adverse.None?
        else if value.action == "withdraw" then
          value.adverse.Some? && prior.adverse.None? && value.bundle == prior.bundle && value.floors == prior.floors
        else
          value.action == "reconcile" && value.bundle == prior.bundle && value.floors == prior.floors
          && value.adverse == prior.adverse)
  }

  predicate NoRollback(before: seq<Floor>, after: seq<Floor>) {
    && |before| == |after|
    && forall i :: 0 <= i < |before| ==>
         && before[i].role == after[i].role
         && after[i].version >= before[i].version
         && (after[i].version == before[i].version ==> after[i].digest == before[i].digest)
  }

  ghost predicate Admitted(value: Record, owner: Owner) {
    && Authentic(value.bundle, owner.env) == Some(value.floors)
    && owner.env.digest(value.bundle.trustedRoot) == TARGET
  }

  ghost predicate First(raw: seq<byte>, owner: Owner) {
    owner.open(raw).Some? &&
    var value := owner.open(raw).value;
    Identified(value, 1, None, owner) && FirstAction(value) && Admitted(value, owner)
  }

  ghost predicate Next(priorRaw: seq<byte>, raw: seq<byte>, sequence: int, owner: Owner) {
    owner.open(priorRaw).Some? && owner.open(raw).Some? &&
    var prior, value := owner.open(priorRaw).value, owner.open(raw).value;
    && Identified(value, sequence, Some(owner.env.digest(priorRaw)), owner)
    && NextAction(prior, value)
    && prior.bundle.roots <= value.bundle.roots
    && (if value.bundle != prior.bundle then Admitted(value, owner) else value.floors == prior.floors)
    && NoRollback(prior.floors, value.floors)
  }

  ghost predicate Accepted(records: seq<seq<byte>>, owner: Owner) {
    && 1 <= |records| <= 1024
    && First(records[0], owner)
    && forall i :: 1 <= i < |records| ==> Next(records[i - 1], records[i], i + 1, owner)
  }

  function Conclude(last: Record, owner: Owner): Approval {
    Approval(last.terms.notBefore, last.terms.notAfter, last.floors, TARGET, last.terms.history,
      if last.adverse.None? then None
      else if last.adverse.value.effectiveFrom.Some? then last.adverse.value.effectiveFrom
      else Some(last.terms.notBefore),
      owner.profileDigest, "UNSMEARED_UTC", true)
  }

  /** Replays the records in order, keeping the last record, its bytes and its bundle. */
  method History(records: seq<seq<byte>>, owner: Owner) returns (r: Option<(Approval, Bundle)>)
    ensures r.Some? <==> Accepted(records, owner)
    ensures r.Some? ==>
      var last := owner.open(records[|records| - 1]);
      last.Some? && r.value == (Conclude(last.value, owner), last.value.bundle)
  {
    hide Authentic;
    if !(1 <= |records| <= 1024) {
      return None;
    }
    var prior: Option<Record>, priorRaw: Option<seq<byte>> := None, None;
    for i := 0 to |records|
      invariant i == 0 ==> prior.None? && priorRaw.None?
      invariant i > 0 ==> First(records[0], owner)
      invariant i > 0 ==> priorRaw == Some(records[i - 1]) && prior.Some? && owner.open(records[i - 1]) == prior
      invariant forall j :: 1 <= j < i ==> Next(records[j - 1], records[j], j + 1, owner)
    {
      var raw := records[i];
      var entry := owner.open(raw);
      if entry.None? {
        return None;
      }
      var value := entry.value;
      var predecessor := if priorRaw.None? then None else Some(owner.env.digest(priorRaw.value));
      if !Identified(value, i + 1, predecessor, owner) {
        return None;
      }
      if prior.None? {
        if !FirstAction(value) {
          return None;
        }
      } else {
        if !NextAction(prior.value, value) {
          return None;
        }
        if !(prior.value.bundle.roots <= value.bundle.roots) {
          return None;
        }
      }
      if prior.None? || value.bundle != prior.value.bundle {
        var versions := Authenticate(value.bundle, owner.env);
        if versions.None? || owner.env.digest(value.bundle.trustedRoot) != TARGET
          || value.floors != versions.value
        {
          return None;
        }
      } else if value.floors != prior.value.floors {
        return None;
      }
      if prior.Some? {
        if !NoRollback(prior.value.floors, value.floors) {
          return None;
        }
      }
      prior, priorRaw := Some(value), Some(raw);
    }
    r := Some((Conclude(prior.value, owner), prior.value.bundle));
  }

  // Properties of every accepted history ------------------------------------

  ghost function At(records: seq<seq<byte>>, i: nat, owner: Owner): Record
    requires Accepted(records, owner) && i < |records|
  {
    if i == 0 then owner.open(records[0]).value
    else
      assert Next(records[i - 1], records[i], i + 1, owner);
      owner.open(records[i]).value
  }

  /** Nothing is ever weakened between two positions. */
  ghost predicate Strengthens(a: Record, b: Record) {
    && a.terms == b.terms
    && NoRollback(a.floors, b.floors)
    && a.bundle.roots <= b.bundle.roots
    && (a.adverse.Some? ==> b.adverse == a.adverse && b.bundle == a.bundle && b.floors == a.floors)
  }

  lemma {:induction false} HistoryStrengthens(records: seq<seq<byte>>, i: nat, j: nat, owner: Owner)
    requires Accepted(records, owner) && i <= j < |records|
    ensures Strengthens(At(records, i, owner), At(records, j, owner))
    decreases j
  {
    hide Authentic, Identified;
    if i < j {
      HistoryStrengthens(records, i, j - 1, owner);
      assert Next(records[j - 1], records[j], j + 1, owner);
      var a, p, b := At(records, i, owner), At(records, j - 1, owner), At(records, j, owner);
      assert a.bundle.roots <= p.bundle.roots <= b.bundle.roots;
    }
  }

  /** At most one record withdraws, and after it only reconciliations follow. */
  lemma WithdrawnOnce(records: seq<seq<byte>>, i: nat, j: nat, owner: Owner)
    requires Accepted(records, owner) && i < j < |records|
    requires At(records, i, owner).adverse.Some?
    ensures At(records, j, owner).action == "reconcile"
  {
    hide Authentic, Identified;
    HistoryStrengthens(records, i, j - 1, owner);
    assert Next(records[j - 1], records[j], j + 1, owner);
  }

  /** Every record's floors are the exact versions of its own authenticated bundle. */
  lemma {:induction false} FloorsAuthentic(records: seq<seq<byte>>, i: nat, owner: Owner)
    requires Accepted(records, owner) && i < |records|
    ensures Admitted(At(records, i, owner), owner)
  {
    hide Authentic, Identified;
    if i > 0 {
      FloorsAuthentic(records, i - 1, owner);
      assert Next(records[i - 1], records[i], i + 1, owner);
    }
  }

  // The independent checkpoint ----------------------------------------------

  predicate CheckHead(raw: seq<byte>, last: Record, records: seq<seq<byte>>, nonce: Option<string>, owner: Owner)
    requires records != []
  {
    owner.openHead(raw).Some? &&
    var head := owner.openHead(raw).value;
    && head.action == "checkpoint"
    && head.continuity == "RECONCILED"
    && (nonce.Some? ==> head.nonce == nonce.value)
    && owner.exactHex(head.nonce).Some? && |owner.exactHex(head.nonce).value| == 32
    && head.owner == last.terms.owner && head.deployment == last.terms.deployment
    && head.catalog == last.terms.catalog && head.history == last.terms.history
    && head.sequence == |records|
    && head.head == owner.env.digest(records[|records| - 1])
    && head.floors == last.floors
  }

  ghost predicate Injective(digest: seq<byte> -> nat) {
    forall x, y :: digest(x) == digest(y) ==> x == y
  }

  /** Equal length and equal last record force equal histories: each record names its
      predecessor by digest. */
  lemma {:induction false} TailDetermines(a: seq<seq<byte>>, b: seq<seq<byte>>, k: nat, owner: Owner)
    requires Accepted(a, owner) && Accepted(b, owner) && Injective(owner.env.digest)
    requires k < |a| && k < |b| && a[k] == b[k]
    ensures a[..k + 1] == b[..k + 1]
  {
    hide Authentic, NextAction, NoRollback;
    if k > 0 {
      assert Next(a[k - 1], a[k], k + 1, owner) && Next(b[k - 1], b[k], k + 1, owner);
      assert a[k - 1] == b[k - 1];
      TailDetermines(a, b, k - 1, owner);
    }
    assert a[..k + 1] == a[..k] + [a[k]] && b[..k + 1] == b[..k] + [b[k]];
  }

  /** One checkpoint vouches for one history only. */
  lemma HeadDetermines(a: seq<seq<byte>>, b: seq<seq<byte>>, checkpoint: seq<byte>,
                       m: Option<string>, n: Option<string>, owner: Owner)
    requires Accepted(a, owner) && Accepted(b, owner) && Injective(owner.env.digest)
    requires CheckHead(checkpoint, At(a, |a| - 1, owner), a, m, owner)
    requires CheckHead(checkpoint, At(b, |b| - 1, owner), b, n, owner)
    ensures a == b
  {
    hide Authentic, Next, First;
    assert |a| == |b| && a[|a| - 1] == b[|b| - 1];
    TailDetermines(a, b, |a| - 1, owner);
    assert a[..|a|] == a && b[..|b|] == b;
  }

  // Lineage of a retained approval ------------------------------------------

  datatype Evidence = Evidence(key: seq<byte>, records: seq<seq<byte>>)

  predicate Lineage(original: Option<Evidence>, current: Option<Evidence>) {
    && original.Some? && current.Some?
    && original.value.key == current.value.key
    && original.value.records <= current.value.records
  }

  /** A current approval in the original's lineage keeps its terms, its withdrawal and its
      floors: authority can only have been narrowed since. */
  lemma LineageNarrows(original: Evidence, current: Evidence, owner: Owner)
    requires Lineage(Some(original), Some(current))
    requires Accepted(original.records, owner) && Accepted(current.records, owner)
    ensures var a := Conclude(At(original.records, |original.records| - 1, owner), owner);
      var b := Conclude(At(current.records, |current.records| - 1, owner), owner);
      && NoRollback(a.floors, b.floors)
      && (a.withdrawnFrom.Some? ==> b.withdrawnFrom == a.withdrawnFrom && b.floors == a.floors)
      && b == a.(floors := b.floors, withdrawnFrom := b.withdrawnFrom)
  {
    hide Authentic, Identified;
    var k := |original.records| - 1;
    assert current.records[k] == original.records[k];
    assert At(current.records, k, owner) == At(original.records, k, owner);
    HistoryStrengthens(current.records, k, |current.records| - 1, owner);
  }

  // Using an approval -------------------------------------------------------

  /** The entry a role-keyed table built from `floors` holds. */
  function Lookup(floors: seq<Floor>, role: string): Option<Floor> {
    if floors == [] then None
    else if floors[|floors| - 1].role == role then Some(floors[|floors| - 1])
    else Lookup(floors[..|floors| - 1], role)
  }

  /** The floor part of an approval's requirement, against authenticated versions. */
  predicate FloorsMet(floors: seq<Floor>, versions: seq<Floor>) {
    && |floors| == 4
    && (forall i :: 0 <= i < 4 ==> Listed(floors, FLOORS[i].role))
    && (forall i :: 0 <= i < 4 ==> FloorMet(floors[i], versions))
  }

  predicate Listed(floors: seq<Floor>, role: string) {
    exists j :: 0 <= j < |floors| && floors[j].role == role
  }

  predicate FloorMet(floor: Floor, versions: seq<Floor>) {
    var initial, retained := Lookup(FLOORS, floor.role), Lookup(versions, floor.role);
    initial.Some? && retained.Some? && Above(floor, initial.value) && Above(retained.value, floor)
  }

  predicate Above(f: Floor, floor: Floor) {
    f.version >= floor.version && (f.version == floor.version ==> f.digest == floor.digest)
  }

  /** `intervalValid` stands for the retained trust's own validity of the interval. */
  predicate Require(a: Approval, versions: seq<Floor>, trustedRoot: nat, interval: Option<(int, int)>,
                    intervalValid: bool, qualify: bool, owner: Owner)
  {
    && a.profileDigest == owner.profileDigest
    && a.history != ""
    && a.timescale == "UNSMEARED_UTC"
    && a.compliance
    && a.notBefore < a.notAfter
    && a.target == trustedRoot
    && FloorsMet(a.floors, versions)
    && Permits(a, interval, intervalValid, qualify)
  }

  /** The event part: inside the approved and the retained validity, before any withdrawal. */
  predicate Permits(a: Approval, interval: Option<(int, int)>, intervalValid: bool, qualify: bool) {
    interval.Some? ==>
      && a.notBefore <= interval.value.0 && interval.value.1 <= a.notAfter
      && intervalValid
      && !(qualify && a.withdrawnFrom.Some? && interval.value.1 >= a.withdrawnFrom.value)
  }

  /** An accepted history's approval always meets its requirement on its own bundle; with an
      event interval the only grounds for refusal left are validity and withdrawal. */
  lemma OwnBundleMeetsRequirement(records: seq<seq<byte>>, interval: Option<(int, int)>,
                                  intervalValid: bool, qualify: bool, owner: Owner)
    requires Accepted(records, owner)
    ensures var last := At(records, |records| - 1, owner);
      var a := Conclude(last, owner);
      && Authentic(last.bundle, owner.env).Some?
      && Require(a, Authentic(last.bundle, owner.env).value, owner.env.digest(last.bundle.trustedRoot),
                 interval, intervalValid, qualify, owner)
         == Permits(a, interval, intervalValid, qualify)
  {
    hide Authentic, FloorsMet, Permits, AtLeast, FLOORS;
    var last := At(records, |records| - 1, owner);
    FloorsAuthentic(records, |records| - 1, owner);
    LastIdentified(records, owner);
    AuthenticFloors(last.bundle, owner.env);
    OwnFloorsMet(last.floors);
  }

  lemma LastIdentified(records: seq<seq<byte>>, owner: Owner)
    requires Accepted(records, owner)
    ensures var t := At(records, |records| - 1, owner).terms;
      t.history != "" && t.notBefore < t.notAfter
  {
    hide Authentic;
    if |records| > 1 {
      assert Next(records[|records| - 2], records[|records| - 1], |records|, owner);
    }
  }

  lemma OwnFloorsMet(floors: seq<Floor>)
    requires |floors| == 4
    requires forall i :: 0 <= i < 4 ==> floors[i].role == FLOORS[i].role
    requires forall i :: 0 <= i < 4 ==> AtLeast(floors[i].version, floors[i].digest, FLOORS[i])
    ensures FloorsMet(floors, floors)
  {
    hide FloorMet, Listed, AtLeast;
    FourRoles();
    forall i | 0 <= i < 4 ensures FloorMet(floors[i], floors) {
      OwnFloorMet(floors, i);
    }
    forall i | 0 <= i < 4 ensures Listed(floors, FLOORS[i].role) {
      RoleListed(floors, i);
    }
  }

  lemma OwnFloorMet(floors: seq<Floor>, i: nat)
    requires |floors| == 4 && i < 4
    requires forall j :: 0 <= j < 4 ==> floors[j].role == FLOORS[j].role
    requires AtLeast(floors[i].version, floors[i].digest, FLOORS[i])
    ensures FloorMet(floors[i], floors)
  {
    hide FLOORS, Lookup, AtLeast, Above;
    FourRoles();
    LookupAt(FLOORS, i);
    LookupAt(floors, i);
    LeastAbove(floors[i], FLOORS[i]);
  }

  lemma RoleListed(floors: seq<Floor>, i: nat)
    requires i < |floors| == 4 && floors[i].role == FLOORS[i].role
    ensures Listed(floors, FLOORS[i].role)
  {
  }

  lemma FourRoles()
    ensures |FLOORS| == 4 && forall i, j :: 0 <= i < j < 4 ==> FLOORS[j].role != FLOORS[i].role
  {
  }

  lemma LeastAbove(f: Floor, floor: Floor)
    requires AtLeast(f.version, f.digest, floor)
    ensures Above(f, floor) && Above(f, f)
  {
  }

  lemma {:induction false} LookupAt(floors: seq<Floor>, i: nat)
    requires i < |floors| && forall j :: i < j < |floors| ==> floors[j].role != floors[i].role
    ensures Lookup(floors, floors[i].role) == Some(floors[i])
  {
    if i < |floors| - 1 {
      LookupAt(floors[..|floors| - 1], i);
    }
  }
}
