/** Whole runs of the artifact store: any operations, each stopped anywhere, with or without
    power losses in between. */
module StoreRuns {
  import opened Wrappers
  import opened Bytes
  import opened Order
  import opened Filesystem
  import opened ArtifactStore

  datatype Event =
    | PublishBytes(content: seq<byte>, row: Meta, name: string)
    | PublishSnapshot(m: Manifest, time: string, authority: bool, name: string)
    | Discard
    | Loss

  /** One operation, completed, refused or stopped by a crash; or a power loss. */
  ghost predicate Step(c: Codec, a: State, b: State, e: Event) {
    match e
    case PublishBytes(content, row, name) =>
      Partial(name) !in a.disk.files && row.length == |content| && Catalogued(c, a, b, content, row, name)
    case PublishSnapshot(m, time, authority, name) =>
      Partial(name) !in a.disk.files && Recorded(c, a, b, m, m.(verifiedAt := Some(time)), authority, name)
    case Discard => b == a.(disk := b.disk) && Discarded(a.disk, b.disk)
    case Loss => b == a.(disk := b.disk) && PowerLost(a.disk, b.disk)
  }

  ghost predicate Run(c: Codec, states: seq<State>, events: seq<Event>) {
    && |states| == |events| + 1
    && forall i :: 0 <= i < |events| ==> Step(c, states[i], states[i + 1], events[i])
  }

  const EMPTY := State(Disk({}, map[], {}, {}, {}), map[], map[], map[])

  ghost predicate Collisionless(c: Codec) {
    forall x, y :: c.sha(x) == c.sha(y) ==> x == y
  }

  /** Every object file, catalogued or not, has the bytes its name says, already flushed. */
  predicate ObjectsSound(c: Codec, d: Disk) {
    forall f :: f in d.files && f.Object? ==> c.sha(d.files[f]) == f.digest && f in d.solid
  }

  /** Every catalogued digest has an object with exactly its bytes. */
  predicate RowsSound(c: Codec, s: State) {
    forall d :: d in s.catalog ==> Holds(c, s.disk, d, s.catalog[d].length)
  }

  /** Every manifest row is borne out by its object, and its members are catalogued as it says. */
  predicate ManifestSound(c: Codec, s: State, d: string) {
    && d in s.catalog && d in s.manifests && s.catalog[d].media == MANIFEST
    && s.manifests[d].verifiedAt.Some? && c.sha(c.encode(s.manifests[d])) == d
    && Fits(c, s, s.manifests[d])
  }

  predicate ManifestsSound(c: Codec, s: State) {
    forall d :: d in s.manifests ==> ManifestSound(c, s, d)
  }

  predicate Sound(c: Codec, s: State) {
    s.disk.Sane() && Indexed(s) && ObjectsSound(c, s.disk) && RowsSound(c, s) && ManifestsSound(c, s)
  }

  /** Nothing published is ever overwritten, changed or withdrawn. */
  predicate Frozen(a: State, b: State) {
    && (forall f :: f in a.disk.files && f.Object? ==> f in b.disk.files && b.disk.files[f] == a.disk.files[f])
    && (forall d :: d in a.catalog ==> d in b.catalog && b.catalog[d] == a.catalog[d])
    && (forall d :: d in a.manifests ==> d in b.manifests && b.manifests[d] == a.manifests[d])
    && (forall k :: k in a.slots ==> k in b.slots && b.slots[k] == a.slots[k])
  }

  lemma TouchedObjects(c: Codec, a: Disk, b: Disk, name: string, content: seq<byte>)
    requires ObjectsSound(c, a) && Touched(a, b, Partial(name), c.sha(content), content)
    ensures ObjectsSound(c, b) && b.Sane()
    ensures forall f :: f in a.files ==> f in b.files && b.files[f] == a.files[f]
  {
    hide Disk.Sane, Folders;
  }

  /** Objects kept, a row stays sound. */
  lemma RowsKept(c: Codec, a: State, b: State)
    requires RowsSound(c, a) && b.catalog == a.catalog
    requires forall f :: f in a.disk.files && f.Object? ==> f in b.disk.files && b.disk.files[f] == a.disk.files[f]
    ensures RowsSound(c, b)
  {
  }

  lemma ManifestsKept(c: Codec, a: State, b: State)
    requires ManifestsSound(c, a) && Frozen(a, b)
    requires forall d :: d in b.manifests ==> d in a.manifests
    ensures ManifestsSound(c, b)
  {
    hide Holds;
    forall d | d in b.manifests ensures ManifestSound(c, b, d) {
      MembersKept(c, a, b, b.manifests[d]);
    }
  }

  lemma MembersKept(c: Codec, a: State, b: State, m: Manifest)
    requires Fits(c, a, m) && Frozen(a, b)
    ensures Fits(c, b, m)
  {
    forall i | 0 <= i < |m.members| ensures Matches(c, b, m.members[i]) {
      assert Matches(c, a, m.members[i]);
    }
  }

  lemma PublishKeeps(c: Codec, a: State, b: State, content: seq<byte>, row: Meta, name: string)
    requires Sound(c, a) && row.length == |content| && Catalogued(c, a, b, content, row, name)
    ensures Sound(c, b) && Frozen(a, b)
  {
    hide Touched, Settled, Indexed, Disk.Sane, ManifestSound, Holds;
    TouchedObjects(c, a.disk, b.disk, name, content);
    var digest := c.sha(content);
    if b.catalog != a.catalog {
      SettledHolds(c, a.disk, b.disk, digest, content);
    }
    forall d | d in b.catalog ensures Holds(c, b.disk, d, b.catalog[d].length) {
      if d in a.catalog {
        HoldsKept(c, a.disk, b.disk, d, a.catalog[d].length);
      }
    }
    ManifestsKept(c, a, b);
    StillIndexedCatalog(a, b);
  }

  lemma StillIndexedCatalog(a: State, b: State)
    requires Indexed(a) && b.manifests == a.manifests && b.slots == a.slots
    ensures Indexed(b)
  {
  }

  lemma HoldsKept(c: Codec, a: Disk, b: Disk, digest: string, length: nat)
    requires Holds(c, a, digest, length)
    requires forall f :: f in a.files && f.Object? ==> f in b.files && b.files[f] == a.files[f]
    ensures Holds(c, b, digest, length)
  {
  }

  lemma SnapshotKeeps(c: Codec, a: State, b: State, m: Manifest, time: string, authority: bool, name: string)
    requires Sound(c, a) && Recorded(c, a, b, m, m.(verifiedAt := Some(time)), authority, name)
    ensures Sound(c, b) && Frozen(a, b)
  {
    hide Touched, Indexed, Disk.Sane, Holds, Fits, GraphSecure;
    var verified := m.(verifiedAt := Some(time));
    var content := c.encode(verified);
    var digest := c.sha(content);
    TouchedObjects(c, a.disk, b.disk, name, content);
    if b == a.(disk := b.disk) {
      RowsKept(c, a, b);
      ManifestsKept(c, a, b);
    } else {
      SlotsKept(a, b, digest, verified);
      forall d | d in b.catalog ensures Holds(c, b.disk, d, b.catalog[d].length) {
        if d in a.catalog {
          HoldsKept(c, a.disk, b.disk, d, a.catalog[d].length);
        }
      }
      forall d | d in b.manifests ensures ManifestSound(c, b, d) {
        if d == digest {
          MembersKept(c, a, b, verified);
        } else {
          assert ManifestSound(c, a, d);
          MembersKept(c, a, b, a.manifests[d]);
        }
      }
    }
  }

  lemma SlotsKept(a: State, b: State, digest: string, verified: Manifest)
    requires Indexed(a) && b.slots == a.slots[verified.snapshot := digest]
    requires digest in a.manifests ==> a.manifests[digest] == verified
    requires verified.snapshot in a.slots ==> digest in a.manifests
    ensures forall k :: k in a.slots ==> k in b.slots && b.slots[k] == a.slots[k]
  {
  }

  lemma DiscardKeeps(c: Codec, a: State, b: State)
    requires Sound(c, a) && b == a.(disk := b.disk) && Discarded(a.disk, b.disk)
    ensures Sound(c, b) && Frozen(a, b)
  {
    hide Indexed, Disk.Sane, Holds, ManifestSound;
    StillIndexed(a, b);
    assert forall f :: f in a.disk.files && f.Object? ==> f in b.disk.files && b.disk.files[f] == a.disk.files[f];
    RowsKept(c, a, b);
    ManifestsKept(c, a, b);
  }

  lemma StepKeeps(c: Codec, a: State, b: State, e: Event)
    requires Sound(c, a) && Step(c, a, b, e) && !e.Loss?
    ensures Sound(c, b) && Frozen(a, b)
  {
    hide Sound, Frozen, Catalogued, Recorded, Discarded;
    match e {
      case PublishBytes(content, row, name) => PublishKeeps(c, a, b, content, row, name);
      case PublishSnapshot(m, time, authority, name) => SnapshotKeeps(c, a, b, m, time, authority, name);
      case Discard => DiscardKeeps(c, a, b);
    }
  }

  lemma FrozenTransitive(a: State, b: State, d: State)
    requires Frozen(a, b) && Frozen(b, d)
    ensures Frozen(a, d)
  {
  }

  /** Over every run without power loss, whatever the process was doing when it died: every
      state is sound, and nothing published before it has changed. */
  lemma {:induction false} RunSound(c: Codec, states: seq<State>, events: seq<Event>, i: nat, j: nat)
    requires Run(c, states, events) && states[0] == EMPTY && forall e :: e in events ==> !e.Loss?
    requires i <= j < |states|
    ensures Sound(c, states[j]) && Frozen(states[i], states[j])
    ensures forall d :: d in states[j].catalog ==>
      && Object(d) in states[j].disk.files && c.sha(states[j].disk.files[Object(d)]) == d
      && |states[j].disk.files[Object(d)]| == states[j].catalog[d].length
    decreases j
  {
    hide Step, Sound, Frozen;
    if j == 0 {
      EmptySound(c);
    } else {
      RunSound(c, states, events, if i < j then i else j - 1, j - 1);
      assert events[j - 1] in events;
      StepKeeps(c, states[j - 1], states[j], events[j - 1]);
      FrozenItself(states[j]);
      if i < j {
        FrozenTransitive(states[i], states[j - 1], states[j]);
      }
    }
    SoundRows(c, states[j]);
  }

  lemma SoundRows(c: Codec, s: State)
    requires Sound(c, s)
    ensures forall d :: d in s.catalog ==>
      && Object(d) in s.disk.files && c.sha(s.disk.files[Object(d)]) == d
      && |s.disk.files[Object(d)]| == s.catalog[d].length
  {
    hide Disk.Sane, Indexed, ManifestSound;
  }

  lemma EmptySound(c: Codec)
    ensures Sound(c, EMPTY) && Frozen(EMPTY, EMPTY)
  {
  }

  lemma FrozenItself(a: State)
    ensures Frozen(a, a)
  {
  }

  lemma SortedEmpty(s: set<string>)
    ensures Sorted(s) == [] <==> s == {}
  {
    if s != {} {
      var k :| k in s;
      assert k in Sorted(s);
    }
  }

  /** Inspection finds a store healthy exactly when every row has its object, at the end of a
      path of folders, and every manifest row is what its object decodes to. */
  lemma HealthyIff(c: Codec, s: State, others: set<string>)
    ensures Inspected(c, s, others).Healthy() <==>
      RowsSound(c, s) && forall d :: d in s.catalog ==> s.disk.Rooted(Object(d)) && !Malformed(c, s, d)
  {
    hide Malformed, Referenced, Stored, PartialNames, Holds, Disk.Rooted;
    var missing := set d | d in s.catalog && Missing(s, d);
    var corrupt := set d | d in s.catalog && Corrupt(c, s, d);
    var malformed := set d | d in s.catalog && Malformed(c, s, d);
    SortedEmpty(missing);
    SortedEmpty(corrupt);
    SortedEmpty(malformed);
    forall d | d in s.catalog
      ensures (d !in missing && d !in corrupt) <==>
        s.disk.Rooted(Object(d)) && Holds(c, s.disk, d, s.catalog[d].length)
    {
      HoldsPresent(c, s.disk, d, s.catalog[d].length);
    }
  }

  lemma HoldsPresent(c: Codec, d: Disk, digest: string, length: nat)
    ensures Holds(c, d, digest, length) ==> Object(digest) in d.files
  {
  }

  /** A sound store is healthy: no missing, corrupt or malformed entry, in any run. */
  lemma SoundHealthy(c: Codec, s: State, others: set<string>)
    requires Collisionless(c) && c.RoundTrips() && Sound(c, s)
    ensures Inspected(c, s, others).Healthy()
  {
    HealthyIff(c, s, others);
    forall d | d in s.catalog ensures s.disk.Rooted(Object(d)) && !Malformed(c, s, d) {
      assert Holds(c, s.disk, d, s.catalog[d].length);
      if d in s.manifests {
        assert ManifestSound(c, s, d);
        assert s.disk.files[Object(d)] == c.encode(s.manifests[d]);
      }
    }
  }

  lemma RunHealthy(c: Codec, states: seq<State>, events: seq<Event>, j: nat, others: set<string>)
    requires Collisionless(c) && c.RoundTrips() && j < |states|
    requires Run(c, states, events) && states[0] == EMPTY && forall e :: e in events ==> !e.Loss?
    ensures Inspected(c, states[j], others).Healthy()
  {
    RunSound(c, states, events, j, j);
    SoundHealthy(c, states[j], others);
  }

  /** Whatever interrupted work left behind is listed: in a sound store every file is the object
      of a healthy row, a reported orphan with the bytes its name says, or a reported partial
      file, and only one of these. */
  lemma Leftovers(c: Codec, s: State, others: set<string>, f: File)
    requires Sound(c, s) && f in s.disk.files
    ensures var r := Inspected(c, s, others);
      match f
      case Object(digest) =>
        && c.sha(s.disk.files[f]) == digest
        && (digest in r.orphans <==> !(digest in s.catalog && Holds(c, s.disk, digest, s.catalog[digest].length)))
      case Partial(name) => name in r.staging
  {
    hide Missing, Corrupt, Malformed, Referenced;
    match f {
      case Object(digest) =>
        assert digest in Stored(s.disk);
      case Partial(name) =>
        assert name in PartialNames(s.disk);
    }
  }

  // Power loss --------------------------------------------------------------

  /** What even power losses leave true. */
  predicate Stable(c: Codec, s: State) {
    s.disk.Sane() && Indexed(s) && ObjectsSound(c, s.disk)
  }

  /** The database only grows. */
  predicate RowsFrozen(a: State, b: State) {
    && (forall d :: d in a.catalog ==> d in b.catalog && b.catalog[d] == a.catalog[d])
    && (forall d :: d in a.manifests ==> d in b.manifests && b.manifests[d] == a.manifests[d])
  }

  lemma LossKeeps(c: Codec, a: Disk, b: Disk)
    requires ObjectsSound(c, a) && PowerLost(a, b)
    ensures ObjectsSound(c, b) && b.Sane()
  {
    hide Disk.Sane, Anchored, AnchoredFolder;
  }

  lemma StepStable(c: Codec, a: State, b: State, e: Event)
    requires Stable(c, a) && Step(c, a, b, e)
    ensures Stable(c, b) && RowsFrozen(a, b)
  {
    hide Touched, Settled, Holds, Disk.Sane, Indexed, PowerLost, Fits, GraphSecure;
    match e {
      case PublishBytes(content, row, name) =>
        TouchedObjects(c, a.disk, b.disk, name, content);
        StillIndexedCatalog(a, b);
      case PublishSnapshot(m, time, authority, name) =>
        TouchedObjects(c, a.disk, b.disk, name, c.encode(m.(verifiedAt := Some(time))));
      case Discard =>
        StillIndexed(a, b);
      case Loss =>
        LossKeeps(c, a.disk, b.disk);
        StillIndexed(a, b);
    }
  }

  lemma TouchedSecure(a: Disk, b: Disk, stage: File, digest: string, content: seq<byte>, f: File)
    requires Touched(a, b, stage, digest, content) && Secure(a, f)
    ensures Secure(b, f) && b.files[f] == a.files[f]
  {
    hide Disk.Sane, Folders, Chain;
  }

  /** A secure object keeps its bytes and its security through every step, losses included. */
  lemma StepSecure(c: Codec, a: State, b: State, e: Event, digest: string)
    requires Stable(c, a) && Step(c, a, b, e) && Secure(a.disk, Object(digest))
    ensures Secure(b.disk, Object(digest)) && b.disk.files[Object(digest)] == a.disk.files[Object(digest)]
  {
    hide Touched, Settled, Holds, Disk.Sane, Indexed, PowerLost, Fits, GraphSecure, ObjectsSound;
    match e {
      case PublishBytes(content, row, name) =>
        TouchedSecure(a.disk, b.disk, Partial(name), c.sha(content), content, Object(digest));
      case PublishSnapshot(m, time, authority, name) =>
        var content := c.encode(m.(verifiedAt := Some(time)));
        TouchedSecure(a.disk, b.disk, Partial(name), c.sha(content), content, Object(digest));
      case Discard =>
      case Loss => SecureSurvives(a.disk, b.disk, Object(digest));
    }
  }

  lemma {:induction false} RunStable(c: Codec, states: seq<State>, events: seq<Event>, i: nat, j: nat)
    requires Run(c, states, events) && Stable(c, states[0]) && i <= j < |states|
    ensures Stable(c, states[j]) && RowsFrozen(states[i], states[j])
    ensures forall d :: Secure(states[i].disk, Object(d)) ==>
      Secure(states[j].disk, Object(d)) && states[j].disk.files[Object(d)] == states[i].disk.files[Object(d)]
    decreases j
  {
    hide Step, Stable, Secure;
    if j > 0 {
      RunStable(c, states, events, if i < j then i else j - 1, j - 1);
      StepStable(c, states[j - 1], states[j], events[j - 1]);
      if i < j {
        forall d | Secure(states[j - 1].disk, Object(d))
          ensures Secure(states[j].disk, Object(d))
          ensures Object(d) in states[j].disk.files && Object(d) in states[j - 1].disk.files
          ensures states[j].disk.files[Object(d)] == states[j - 1].disk.files[Object(d)]
        {
          StepSecure(c, states[j - 1], states[j], events[j - 1], d);
          SecurePresent(states[j].disk, d);
          SecurePresent(states[j - 1].disk, d);
        }
      }
    }
    SecureHere(states[i].disk);
    SecureHere(states[j].disk);
  }

  lemma SecurePresent(d: Disk, digest: string)
    requires Secure(d, Object(digest))
    ensures Object(digest) in d.files
  {
  }

  lemma SecureHere(d: Disk)
    ensures forall x :: Secure(d, Object(x)) ==> Object(x) in d.files
  {
  }

  /** Right after a private commit the manifest reads back, and its whole graph is secure. */
  lemma PrivateCommit(c: Codec, a: State, b: State, e: Event)
    requires Collisionless(c) && c.RoundTrips() && Stable(c, a) && Step(c, a, b, e)
    requires e.PublishSnapshot? && e.authority && b != a.(disk := b.disk)
    ensures var verified := e.m.(verifiedAt := Some(e.time));
      var digest := c.sha(c.encode(verified));
      && Secure(b.disk, Object(digest)) && VerifiedManifest(c, b, digest) == Some(verified)
      && forall k :: 0 <= k < |verified.members| ==>
           Matches(c, b, verified.members[k]) && Secure(b.disk, Object(verified.members[k].digest))
  {
    hide Secure, Touched, Disk.Sane, Indexed;
    var verified := e.m.(verifiedAt := Some(e.time));
    var content := c.encode(verified);
    TouchedObjects(c, a.disk, b.disk, e.name, content);
    assert b.disk.files[Object(c.sha(content))] == content;
    forall k | 0 <= k < |verified.members|
      ensures Matches(c, b, verified.members[k]) && Secure(b.disk, Object(verified.members[k].digest))
    {
      assert Matches(c, a, verified.members[k]);
      assert Secure(b.disk, Object(e.m.members[k].digest));
    }
  }

  /** What is secure and verified stays verified while rows are frozen and bytes kept. */
  lemma VerifiedStays(c: Codec, a: State, b: State, r: Reference)
    requires Matches(c, a, r) && RowsFrozen(a, b)
    requires Object(r.digest) in b.disk.files && b.disk.files[Object(r.digest)] == a.disk.files[Object(r.digest)]
    ensures Matches(c, b, r)
  {
  }

  /** A manifest committed under private authority can be read back, exactly, with every one of
      its members, after any further operations, crashes and power losses. */
  lemma PrivateSurvives(c: Codec, states: seq<State>, events: seq<Event>, i: nat, j: nat)
    requires Collisionless(c) && c.RoundTrips()
    requires Run(c, states, events) && states[0] == EMPTY && i < j < |states|
    requires events[i].PublishSnapshot? && events[i].authority
    requires states[i + 1] != states[i].(disk := states[i + 1].disk)
    ensures var verified := events[i].m.(verifiedAt := Some(events[i].time));
      && VerifiedManifest(c, states[j], c.sha(c.encode(verified))) == Some(verified)
      && Fits(c, states[j], verified)
    ensures var verified := events[i].m.(verifiedAt := Some(events[i].time));
      var content := c.encode(verified);
      var digest, s := c.sha(content), states[j];
      && digest in s.manifests && s.manifests[digest] == verified
      && digest in s.catalog
      && s.catalog[digest].media == "application/vnd.matchvet.snapshot-manifest+json"
      && Object(digest) in s.disk.files && s.disk.files[Object(digest)] == content
      && forall k :: 0 <= k < |verified.members| ==>
           var r := verified.members[k];
           && r.digest in s.catalog && s.catalog[r.digest].media == r.media && s.catalog[r.digest].length == r.length
           && Object(r.digest) in s.disk.files && c.sha(s.disk.files[Object(r.digest)]) == r.digest
           && |s.disk.files[Object(r.digest)]| == r.length
  {
    hide Secure, Step, Matches, Stable;
    var b, s := states[i + 1], states[j];
    var verified := events[i].m.(verifiedAt := Some(events[i].time));
    EmptyStable(c);
    RunStable(c, states, events, i, i);
    PrivateCommit(c, states[i], b, events[i]);
    RunStable(c, states, events, i + 1, j);
    SecureHere(b.disk);
    SecureHere(s.disk);
    forall k | 0 <= k < |verified.members| ensures Matches(c, s, verified.members[k]) {
      var r := verified.members[k];
      assert Secure(b.disk, Object(r.digest)) && Secure(s.disk, Object(r.digest));
      MatchedPresent(c, b, r);
      VerifiedStays(c, b, s, r);
    }
    FitsMeans(c, s, verified);
  }

  lemma MatchedPresent(c: Codec, s: State, r: Reference)
    requires Matches(c, s, r)
    ensures Object(r.digest) in s.disk.files
  {
  }

  lemma EmptyStable(c: Codec)
    ensures Stable(c, EMPTY)
  {
  }

  /** The ordinary path gives less: right after it completes, its object survives every power
      loss if and only if each name on its path that existed beforehand was durable already,
      or is the outer folder flushed when staging was first created. */
  lemma PlainSurvivesIff(c: Codec, a: State, b: State, content: seq<byte>, row: Meta, name: string)
    requires Stable(c, a) && Catalogued(c, a, b, content, row, name) && Published(c, a, b, content, row)
    ensures var target := Object(c.sha(content));
      (forall d :: PowerLost(b.disk, d) ==> target in d.files && d.files[target] == b.disk.files[target]) <==>
      && (target in a.disk.files ==> target in a.disk.firm)
      && (forall g :: g in Chain(target) && g in a.disk.folders ==>
            g in a.disk.firmFolders || FlushedBeside(a.disk, g))
  {
    hide Touched, Disk.Sane, Folders, Chain;
    TouchedObjects(c, a.disk, b.disk, name, content);
    SettledHolds(c, a.disk, b.disk, c.sha(content), content);
    SurvivesIff(b.disk, Object(c.sha(content)));
    FirmExist(a.disk);
  }

  lemma FirmExist(d: Disk)
    requires d.Sane()
    ensures d.firm <= d.files.Keys && d.firmFolders <= d.folders
  {
  }

  /** The steps of a first publication into an empty store, up to the rename that installs the
      object and before the flush of the folder it lands in. */
  function KilledAfterRename(content: seq<byte>, digest: string, name: string): Disk {
    var stage, shard := Partial(name), ShardOf(digest);
    var staging := Flush(MakeFolder(Flush(MakeFolder(EMPTY.disk, Staging), Base), Artifacts), Staging);
    var objects := Flush(MakeFolder(Flush(MakeFolder(staging, Objects), Base), Sha256), Objects);
    var written := FlushFile(WriteFile(WriteFile(objects, stage, []), stage, content), stage);
    Rename(Flush(MakeFolder(written, shard), Up(shard)), stage, Object(digest))
  }

  /** The steps of a complete publication whose folders and object are already there. */
  function PublishedAgain(d: Disk, content: seq<byte>, name: string): Disk {
    var stage := Partial(name);
    Flush(Unlink(FlushFile(WriteFile(WriteFile(d, stage, []), stage, content), stage), stage), Artifacts)
  }

  /** Everything but the object's own name is durable. */
  function Unanchored(content: seq<byte>, digest: string): Disk {
    Disk(Folders(digest), map[Object(digest) := content], {Object(digest)}, {}, Folders(digest))
  }

  lemma FoldersMade(a: Disk, f: Folder, made: set<Folder>)
    requires a == Disk(made, a.files, a.solid, {}, made) && f !in made && f != Base
    requires Base !in made && forall x :: x in a.files ==> Home(x) != Up(f)
    ensures Flush(MakeFolder(a, f), Up(f)) == Disk(made + {f}, a.files, a.solid, {}, made + {f})
  {
    hide Home;
    var b := Flush(MakeFolder(a, f), Up(f));
    assert b.firmFolders == made + {f};
    assert b.firm == {};
  }

  lemma KilledSteps(content: seq<byte>, digest: string, name: string)
    ensures KilledAfterRename(content, digest, name) == Unanchored(content, digest)
  {
    hide Flush;
    var stage, target, shard := Partial(name), Object(digest), ShardOf(digest);
    var one: set<Folder> := {} + {Staging};
    var two := one + {Artifacts};
    var three := two + {Objects};
    var four := three + {Sha256};
    FoldersMade(EMPTY.disk, Staging, {});
    FoldersMade(Disk(one, map[], {}, {}, one), Artifacts, one);
    FoldersMade(Disk(two, map[], {}, {}, two), Objects, two);
    FoldersMade(Disk(three, map[], {}, {}, three), Sha256, three);
    var objects := Disk(four, map[], {}, {}, four);
    var written := Disk(four, map[stage := content], {stage}, {}, four);
    assert map[stage := []][stage := content] == map[stage := content];
    assert FlushFile(WriteFile(WriteFile(objects, stage, []), stage, content), stage) == written;
    FoldersMade(written, shard, four);
    var ready := Disk(Folders(digest), map[stage := content], {stage}, {}, Folders(digest));
    assert four + {shard} == Folders(digest);
    assert map[stage := content][target := content] - {stage} == map[target := content];
    assert Rename(ready, stage, target) == Unanchored(content, digest);
  }

  lemma AgainSteps(content: seq<byte>, digest: string, name: string)
    ensures PublishedAgain(Unanchored(content, digest), content, name) == Unanchored(content, digest)
  {
    var d, stage := Unanchored(content, digest), Partial(name);
    assert d.files[stage := []][stage := content] - {stage} == d.files;
    assert Home(Object(digest)) != Artifacts;
    assert PublishedAgain(d, content, name).firmFolders == d.firmFolders;
  }

  /** The condition can fail in a run, step by step: a publication killed between installing its
      object and flushing the folder, the same bytes published again to completion, then a power
      loss. The row is there and its object is not. */
  lemma PlainCanBeLost(c: Codec, content: seq<byte>, row: Meta, name: string)
    requires row.length == |content|
    ensures var digest := c.sha(content);
      var half := EMPTY.(disk := KilledAfterRename(content, digest, name));
      var whole := half.(disk := PublishedAgain(half.disk, content, name), catalog := map[digest := row]);
      var lost := whole.(disk := WorstLoss(whole.disk));
      var again := PublishBytes(content, row, name);
      && Run(c, [EMPTY, half, whole, lost], [again, again, Loss])
      && Published(c, half, whole, content, row)
      && digest in lost.catalog && Object(digest) !in lost.disk.files
  {
    hide KilledAfterRename, PublishedAgain, Unanchored, WorstLoss, Catalogued, Published, PowerLost;
    var digest := c.sha(content);
    KilledSteps(content, digest, name);
    AgainSteps(content, digest, name);
    UnanchoredSteps(c, content, row, name);
    UnanchoredLost(content, digest);
  }

  lemma UnanchoredSteps(c: Codec, content: seq<byte>, row: Meta, name: string)
    requires row.length == |content|
    ensures var digest := c.sha(content);
      var half := EMPTY.(disk := Unanchored(content, digest));
      var whole := half.(catalog := map[digest := row]);
      && Partial(name) !in half.disk.files && Published(c, half, whole, content, row)
      && Catalogued(c, EMPTY, half, content, row, name) && Catalogued(c, half, whole, content, row, name)
  {
    hide Folders;
    var digest := c.sha(content);
    var half := EMPTY.(disk := Unanchored(content, digest));
    var whole := half.(catalog := map[digest := row]);
    UnanchoredSane(content, digest);
    assert whole.catalog == half.catalog[digest := row];
  }

  lemma UnanchoredSane(content: seq<byte>, digest: string)
    ensures Unanchored(content, digest).Sane()
    ensures forall g :: g in Chain(Object(digest)) ==> g in Folders(digest)
  {
  }

  lemma UnanchoredLost(content: seq<byte>, digest: string)
    ensures var d := Unanchored(content, digest);
      PowerLost(d, WorstLoss(d)) && Object(digest) !in WorstLoss(d).files
  {
    hide WorstLoss, Folders;
    UnanchoredSane(content, digest);
    WorstLossIsLoss(Unanchored(content, digest));
  }
}
