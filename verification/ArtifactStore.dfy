/** The content-addressed store: objects installed on disk, then rows committed to a catalog.
    A process may die before any durable step; `budget` is the number of steps it still has. */
module ArtifactStore {
  import opened Wrappers
  import opened Bytes
  import opened Filesystem
  import opened Order

  datatype Meta = Meta(media: string, length: nat, retention: string)

  datatype Reference = Reference(digest: string, media: string, length: nat)

  /** `rest` stands for the fields no step of this module reads; an unverified manifest has
      no verification time. */
  datatype Manifest = Manifest(snapshot: string, members: seq<Reference>, rest: string, verifiedAt: Option<string>)

  /** SHA-256, and the manifest's canonical JSON form with its strict reader. */
  datatype Codec = Codec(
    sha: seq<byte> -> string, encode: Manifest -> seq<byte>, decode: seq<byte> -> Option<Manifest>,
    reserved: Manifest -> bool, mediaValid: string -> bool)
  {
    ghost predicate RoundTrips() {
      forall m :: decode(encode(m)) == Some(m)
    }
  }

  /** The disk, and the database: catalog rows by digest, manifest rows by digest, and the
      unique index from snapshot identity to manifest digest. */
  datatype State = State(
    disk: Disk, catalog: map<string, Meta>, manifests: map<string, Manifest>, slots: map<string, string>)

  /** Whether each of the three calls of the write guard lets publication continue. */
  datatype Guard = Guard(before: bool, after: bool, inside: bool)

  datatype Outcome = Done | Refused | Crashed

  const STAGING: seq<Folder> := [Staging, Artifacts]
  const OBJECTS: seq<Folder> := [Objects, Sha256]
  const MANIFEST := "application/vnd.matchvet.snapshot-manifest+json"
  const PROTECTED := "PROTECTED"

  /** The object named by a digest has bytes of that digest and length. */
  predicate Holds(c: Codec, d: Disk, digest: string, length: nat) {
    var f := Object(digest);
    f in d.files && c.sha(d.files[f]) == digest && |d.files[f]| == length
  }

  // Steps -------------------------------------------------------------------

  /** A folder whose name gets flushed when a missing one is created beside it. */
  predicate Beside(a: Disk, path: seq<Folder>, g: Folder) {
    g != Base && exists r :: r in path && r !in a.folders && Up(r) == Up(g)
  }

  /** What creating the missing folders of a path may have done by the time it stops. */
  predicate Ensured(a: Disk, b: Disk, path: seq<Folder>) {
    && b == a.(folders := b.folders, firmFolders := b.firmFolders, firm := b.firm)
    && a.folders <= b.folders <= a.folders + (set g | g in path)
    && a.firmFolders <= b.firmFolders <= b.folders
    && (forall g :: g in b.firmFolders && g !in a.firmFolders ==> Beside(a, path, g))
    && b.firm == a.firm
  }

  /** And when it runs to the end. */
  predicate EnsuredAll(a: Disk, b: Disk, path: seq<Folder>) {
    && (forall g :: g in path ==> g in b.folders && (g in a.folders || g in b.firmFolders))
    && (forall g :: g in a.folders && Beside(a, path, g) ==> g in b.firmFolders)
  }

  /** What writing a stage file may have done by the time it stops. */
  predicate Staged(a: Disk, b: Disk, stage: File, content: seq<byte>) {
    b == a || (
      && stage in b.files && b.files[stage] <= content
      && b == a.(files := a.files[stage := b.files[stage]], solid := b.solid)
      && (b.solid == a.solid - {stage} || b.solid == a.solid + {stage}))
  }

  /** Folders made and a stage file added: all that happens before the object is installed. */
  predicate Prepared(a: Disk, b: Disk, stage: File, digest: string, content: seq<byte>) {
    && b.Sane() && b.firm == a.firm
    && a.folders <= b.folders <= a.folders + Folders(digest)
    && a.firmFolders <= b.firmFolders
    && (forall g :: g in b.firmFolders && g !in a.firmFolders ==>
          g !in a.folders || Beside(a, STAGING, g) || Beside(a, Chain(Object(digest)), g))
    && (b.files == a.files
        || (stage in b.files && b.files[stage] <= content && b.files == a.files[stage := b.files[stage]]))
    && a.solid <= b.solid <= a.solid + {stage}
  }

  function Folders(digest: string): set<Folder> {
    {Staging, Artifacts, Objects, Sha256, ShardOf(digest)}
  }

  /** What publishing an object may have done by the time it stops: missing folders, a partial
      or whole stage file, and the object installed whole if it was absent. Nothing that
      existed is changed. */
  predicate Touched(a: Disk, b: Disk, stage: File, digest: string, content: seq<byte>) {
    var target := Object(digest);
    && b.Sane() && a.folders <= b.folders <= a.folders + Folders(digest)
    && a.files.Keys <= b.files.Keys <= a.files.Keys + {stage, target}
    && (forall f :: f in a.files ==> b.files[f] == a.files[f])
    && (stage in b.files ==> b.files[stage] <= content)
    && (target in b.files && target !in a.files ==> b.files[target] == content && target in b.solid)
    && a.solid <= b.solid && a.firm <= b.firm && a.firmFolders <= b.firmFolders
  }

  /** The one folder an object shares a parent with staging: creating the first flushes both. */
  predicate FlushedBeside(a: Disk, g: Folder) {
    g == Objects && Staging !in a.folders
  }

  /** After a completed publication every folder exists, the object holds the content's digest
      and no stage file is left. A folder on its path is durable exactly when it already was,
      or was only now created, or was flushed in passing; the object's own name exactly when it
      already was or is new. */
  predicate Settled(c: Codec, a: Disk, b: Disk, digest: string, content: seq<byte>) {
    var target := Object(digest);
    && b.folders == a.folders + Folders(digest)
    && b.files == (if target in a.files then a.files else a.files[target := content])
    && Holds(c, b, digest, |content|)
    && (target in b.firm <==> target in a.firm || target !in a.files)
    && (forall g :: g in Chain(target) ==>
          (g in b.firmFolders <==> g in a.firmFolders || g !in a.folders || FlushedBeside(a, g)))
  }

  /** Why a publication is refused: content of another digest, or a different object in place. */
  predicate Misplaced(c: Codec, a: Disk, digest: string, content: seq<byte>) {
    || c.sha(content) != digest
    || (Object(digest) in a.files && !Holds(c, a, digest, |content|))
  }

  lemma EnsuredPrepares(a: Disk, b: Disk, c: Disk, stage: File, digest: string, content: seq<byte>, path: seq<Folder>)
    requires Prepared(a, b, stage, digest, content) && Ensured(b, c, path)
    requires path in {STAGING, OBJECTS, Chain(Object(digest))}
    ensures Prepared(a, c, stage, digest, content)
  {
    forall g | g in c.firmFolders && g !in a.firmFolders
      ensures g !in a.folders || Beside(a, STAGING, g) || Beside(a, Chain(Object(digest)), g)
    {
      if g !in b.firmFolders {
        var r :| r in path && r !in b.folders && Up(r) == Up(g);
        assert r in STAGING || r in Chain(Object(digest));
      }
    }
  }

  lemma StagedPrepares(a: Disk, b: Disk, c: Disk, stage: File, digest: string, content: seq<byte>)
    requires Prepared(a, b, stage, digest, content) && b.files == a.files && Staged(b, c, stage, content)
    requires stage !in a.files && stage !in a.solid && b.Rooted(stage)
    ensures Prepared(a, c, stage, digest, content)
  {
    hide Beside, Folders;
  }

  lemma PreparedTouches(a: Disk, b: Disk, stage: File, digest: string, content: seq<byte>)
    requires Prepared(a, b, stage, digest, content) && stage !in a.files && stage.Partial?
    ensures Touched(a, b, stage, digest, content)
    ensures Unlink(b, stage).files == a.files
    ensures a.Sane() ==> Touched(a, Unlink(b, stage), stage, digest, content) && Unlink(b, stage).Sane()
    ensures b.Sane()
  {
    hide Beside, Folders;
  }

  /** The stage file became the object, or was dropped beside one already there; nothing else
      changed but names in the two folders being flushed. */
  predicate Installed(a: Disk, b: Disk, stage: File, digest: string) {
    var target := Object(digest);
    && stage in a.files && b.Sane() && b.folders == a.folders && b.firmFolders == a.firmFolders
    && b.files == (if target in a.files then a.files else a.files[target := a.files[stage]]) - {stage}
    && b.solid == a.solid - {stage} + (if target in a.files then {} else {target})
    && a.firm <= b.firm + {stage} && (target !in a.files ==> target in b.firm)
    && (target in a.files ==> (target in b.firm <==> target in a.firm))
  }

  predicate HalfInstalled(a: Disk, b: Disk, stage: File, digest: string) {
    var target := Object(digest);
    && b.Sane() && a.firm <= b.firm + {stage}
    && b == b.(folders := a.folders, firmFolders := a.firmFolders)
    && (|| (b.files == a.files && b.solid == a.solid)
        || (b.files == a.files - {stage} && b.solid == a.solid - {stage})
        || (stage in a.files && target !in a.files && b.files == a.files[target := a.files[stage]] - {stage}
            && b.solid == a.solid - {stage} + {target}))
  }

  lemma InstalledTouches(a: Disk, b: Disk, c: Disk, stage: File, digest: string, content: seq<byte>)
    requires a.Sane() && Prepared(a, b, stage, digest, content) && stage !in a.files && stage.Partial?
    requires stage in b.files && b.files[stage] == content
    requires HalfInstalled(b, c, stage, digest) || Installed(b, c, stage, digest)
    ensures Touched(a, c, stage, digest, content) && c.Sane()
  {
    hide Beside, Folders;
  }

  /** Preparation over: every folder is there, and what was missing is durable. */
  predicate Ready(a: Disk, b: Disk, digest: string) {
    && Folders(digest) <= b.folders
    && (forall g :: g in Chain(Object(digest)) ==> g in a.folders || g in b.firmFolders)
    && (Objects in a.folders && Staging !in a.folders ==> Objects in b.firmFolders)
  }

  lemma AllReady(a: Disk, b: Disk, c: Disk, d: Disk, e: Disk, stage: File, digest: string, content: seq<byte>)
    requires Ensured(a, b, STAGING) && EnsuredAll(a, b, STAGING)
    requires Ensured(b, c, OBJECTS) && EnsuredAll(b, c, OBJECTS)
    requires Staged(c, d, stage, content)
    requires Ensured(d, e, Chain(Object(digest))) && EnsuredAll(d, e, Chain(Object(digest)))
    ensures Ready(a, e, digest)
  {
    assert STAGING[0] == Staging && STAGING[1] == Artifacts;
    assert Staging in STAGING && Artifacts in STAGING;
    assert Objects in OBJECTS && Sha256 in OBJECTS;
    var path := Chain(Object(digest));
    assert path[0] == Objects && path[1] == Sha256 && path[2] == ShardOf(digest);
    assert Objects in path && Sha256 in path && ShardOf(digest) in path;
    if Objects in a.folders && Staging !in a.folders {
      assert Beside(a, STAGING, Objects);
    }
  }

  /** On an object's path only the outermost folder can be flushed by making another. */
  lemma BesideMeans(a: Disk, digest: string, g: Folder)
    requires g in Chain(Object(digest)) && g in a.folders
    ensures Beside(a, STAGING, g) || Beside(a, Chain(Object(digest)), g) ==> FlushedBeside(a, g)
  {
  }

  lemma InstalledSettles(a: Disk, b: Disk, c: Disk, codec: Codec, stage: File, digest: string, content: seq<byte>)
    requires a.Sane() && Prepared(a, b, stage, digest, content) && Ready(a, b, digest)
    requires stage !in a.files && stage.Partial?
    requires stage in b.files && b.files[stage] == content && Installed(b, c, stage, digest)
    requires if Object(digest) in a.files then Holds(codec, a, digest, |content|) else codec.sha(content) == digest
    ensures Settled(codec, a, c, digest, content)
  {
    hide Beside;
    forall g | g in Chain(Object(digest))
      ensures g in c.firmFolders <==> g in a.firmFolders || g !in a.folders || FlushedBeside(a, g)
    {
      if g in a.folders {
        BesideMeans(a, digest, g);
      }
    }
  }

  lemma EnsuredWidens(a: Disk, b: Disk, path: seq<Folder>, k: nat)
    requires k <= |path| && Ensured(a, b, path[..k])
    ensures Ensured(a, b, path)
  {
  }

  lemma EnsuredMakes(a: Disk, b: Disk, path: seq<Folder>, k: nat)
    requires k < |path| && Ensured(a, b, path[..k])
    ensures Ensured(a, MakeFolder(b, path[k]), path)
  {
    EnsuredWidens(a, b, path, k);
  }

  lemma PrefixHas(path: seq<Folder>, k: nat, g: Folder)
    requires k < |path|
    ensures g in path[..k + 1] <==> g in path[..k] || g == path[k]
  {
    assert path[..k + 1] == path[..k] + [path[k]];
  }

  lemma EnsuredSkips(a: Disk, b: Disk, path: seq<Folder>, k: nat)
    requires k < |path| && Ensured(a, b, path[..k]) && EnsuredAll(a, b, path[..k]) && path[k] in b.folders
    ensures Ensured(a, b, path[..k + 1]) && EnsuredAll(a, b, path[..k + 1])
  {
    forall g ensures g in path[..k + 1] <==> g in path[..k] || g == path[k] {
      PrefixHas(path, k, g);
    }
  }

  lemma EnsuredFlushes(a: Disk, b: Disk, path: seq<Folder>, k: nat)
    requires k < |path| && Ensured(a, b, path[..k]) && EnsuredAll(a, b, path[..k])
    requires path[k] !in b.folders && b.Sane() && !path[k].Base?
    ensures var c := Flush(MakeFolder(b, path[k]), Up(path[k]));
      Ensured(a, c, path[..k + 1]) && EnsuredAll(a, c, path[..k + 1])
  {
    forall g ensures g in path[..k + 1] <==> g in path[..k] || g == path[k] {
      PrefixHas(path, k, g);
    }
    var c := Flush(MakeFolder(b, path[k]), Up(path[k]));
    assert path[k] !in a.folders;
    assert path[k] in path[..k + 1];
    assert forall x :: x in b.files ==> Home(x) != Up(path[k]);
    assert c.firm == b.firm;
  }

  const RETENTIONS := {"PROTECTED", "REUSABLE", "DISPOSABLE"}

  /** What publishing bytes may have done by the time it stops: the object work, and at most the
      one missing row, which is never there without its object. */
  predicate Catalogued(c: Codec, a: State, b: State, content: seq<byte>, row: Meta, name: string) {
    var digest := c.sha(content);
    && Touched(a.disk, b.disk, Partial(name), digest, content)
    && b == a.(disk := b.disk, catalog := b.catalog)
    && (b.catalog != a.catalog ==> Published(c, a, b, content, row))
  }

  predicate Published(c: Codec, a: State, b: State, content: seq<byte>, row: Meta) {
    var digest := c.sha(content);
    && Settled(c, a.disk, b.disk, digest, content)
    && b.catalog == a.catalog[digest := row]
    && (digest in a.catalog ==> a.catalog[digest] == row)
  }

  lemma NothingTouched(a: Disk, stage: File, digest: string, content: seq<byte>)
    requires a.Sane() && stage !in a.files
    ensures Touched(a, a, stage, digest, content)
  {
  }

  lemma TouchedFiles(a: Disk, b: Disk, stage: File, digest: string, content: seq<byte>)
    requires Touched(a, b, stage, digest, content)
    ensures b.Sane() && b.files.Keys <= a.files.Keys + {stage, Object(digest)}
    ensures forall f :: f in a.files ==> f in b.files && b.files[f] == a.files[f]
  {
  }

  lemma SettledPlain(c: Codec, a: Disk, b: Disk, digest: string, content: seq<byte>)
    requires Settled(c, a, b, digest, content)
    ensures Object(digest) in b.files && c.sha(b.files[Object(digest)]) == digest
    ensures |b.files[Object(digest)]| == |content|
    ensures Object(digest) !in a.files ==> b.files[Object(digest)] == content
    ensures b.files.Keys == a.files.Keys + {Object(digest)}
  {
  }

  lemma SettledHolds(c: Codec, a: Disk, b: Disk, digest: string, content: seq<byte>)
    requires Settled(c, a, b, digest, content)
    ensures Holds(c, b, digest, |content|) && b.files.Keys <= a.files.Keys + {Object(digest)}
  {
  }

  /** Every disk the installation passes through is sane. */
  lemma InstallSane(d: Disk, stage: File, target: File)
    requires d.Sane() && stage in d.solid && stage !in d.firm && d.Rooted(target) && stage != target
    ensures stage in d.files && Unlink(d, stage).Sane() && Flush(Unlink(d, stage), Artifacts).Sane()
    ensures target !in d.files ==>
      var r := Rename(d, stage, target);
      var f := Flush(r, Home(target));
      var u := Unlink(f, stage);
      target !in d.firm && r.Sane() && f.Sane() && u.Sane() && Flush(u, Artifacts).Sane()
  {
    hide Disk.Rooted, Chain;
    StepsSane(d, stage, target, Artifacts);
    StepsSane(Unlink(d, stage), stage, target, Artifacts);
    if target !in d.files {
      var r := Rename(d, stage, target);
      StepsSane(r, stage, target, Home(target));
      StepsSane(Flush(r, Home(target)), stage, target, Artifacts);
      StepsSane(Unlink(Flush(r, Home(target)), stage), stage, target, Artifacts);
    }
  }

  /** What each disk the installation passes through, and the last one, amount to. */
  lemma InstallSteps(d: Disk, stage: File, digest: string)
    requires d.Sane() && stage in d.solid && stage !in d.firm && d.Rooted(Object(digest)) && stage.Partial?
    ensures HalfInstalled(d, d, stage, digest)
    ensures var target, u := Object(digest), Unlink(d, stage);
      target in d.files ==>
        HalfInstalled(d, u, stage, digest) && Installed(d, Flush(u, Artifacts), stage, digest)
    ensures var target := Object(digest);
      target !in d.files ==>
        var r := Rename(d, stage, target);
        var f := Flush(r, Home(target));
        var u := Unlink(f, stage);
        && HalfInstalled(d, r, stage, digest) && HalfInstalled(d, f, stage, digest)
        && HalfInstalled(d, u, stage, digest) && Installed(d, Flush(u, Artifacts), stage, digest)
  {
    hide Disk.Sane, Disk.Rooted, Chain;
    InstallSane(d, stage, Object(digest));
    if Object(digest) in d.files {
      FlushFirms(Unlink(d, stage), Artifacts);
    } else {
      RenameSteps(d, stage, digest);
    }
  }

  lemma FlushFirms(d: Disk, f: Folder)
    requires f.Artifacts? || f.Shard?
    ensures var e := Flush(d, f);
      && e.folders == d.folders && e.files == d.files && e.solid == d.solid && e.firmFolders == d.firmFolders
      && d.firm <= e.firm
      && (forall x :: x in e.firm <==> x in d.firm || (x in d.files && Home(x) == f))
  {
  }

  lemma RenameSteps(d: Disk, stage: File, digest: string)
    requires d.Sane() && stage in d.solid && stage !in d.firm && d.Rooted(Object(digest)) && stage.Partial?
    requires Object(digest) !in d.files
    ensures var target := Object(digest);
      var r := Rename(d, stage, target);
      var f := Flush(r, Home(target));
      var u := Unlink(f, stage);
      && HalfInstalled(d, r, stage, digest) && HalfInstalled(d, f, stage, digest)
      && HalfInstalled(d, u, stage, digest) && Installed(d, Flush(u, Artifacts), stage, digest)
  {
    hide Disk.Sane, Disk.Rooted, Chain, Flush;
    var target := Object(digest);
    InstallSane(d, stage, target);
    var r := Rename(d, stage, target);
    var f := Flush(r, Home(target));
    FlushFirms(r, Home(target));
    FlushFirms(Unlink(f, stage), Artifacts);
  }

  lemma StagingReady(a: Disk, b: Disk, c: Disk, name: string)
    requires EnsuredAll(a, b, STAGING) && Ensured(b, c, OBJECTS)
    ensures c.Rooted(Partial(name))
  {
  }

  lemma ObjectReady(a: Disk, b: Disk, digest: string)
    requires Ready(a, b, digest)
    ensures b.Rooted(Object(digest))
  {
  }

  /** Only flushing happened. */
  predicate Flushed(a: Disk, b: Disk) {
    && b == a.(solid := b.solid, firm := b.firm, firmFolders := b.firmFolders)
    && a.solid <= b.solid && a.firm <= b.firm && a.firmFolders <= b.firmFolders
  }

  lemma FlushKeeps(a: Disk, b: Disk, f: Folder)
    requires b.Sane() && Flushed(a, b)
    ensures Flush(b, f).Sane() && Flushed(a, Flush(b, f))
  {
    hide Chain, ShardOf;
  }

  lemma FlushAllFolders(a: Disk, b: Disk)
    requires b.Sane() && Flushed(a, b)
    ensures var c := Flush(b, Sha256);
      var d := Flush(c, Objects);
      var e := Flush(d, Base);
      c.Sane() && Flushed(a, c) && d.Sane() && Flushed(a, d) && e.Sane() && Flushed(a, e)
  {
    hide Flush, Flushed, Disk.Sane;
    FlushKeeps(a, b, Sha256);
    FlushKeeps(a, Flush(b, Sha256), Objects);
    FlushKeeps(a, Flush(Flush(b, Sha256), Objects), Base);
  }

  lemma FlushSecures(b: Disk, digest: string)
    requires b.Sane() && Object(digest) in b.solid && Object(digest) in b.firm
    ensures Secure(Flush(Flush(Flush(b, Sha256), Objects), Base), Object(digest))
  {
    hide ShardOf;
    assert b.Rooted(Object(digest));
    var path := Chain(Object(digest));
    assert path[0] in b.folders && path[1] in b.folders && path[2] in b.folders;
    assert ShardOf(digest).Shard? by { ShardKind(digest); }
  }

  lemma ShardKind(digest: string)
    ensures ShardOf(digest).Shard?
  {
  }

  // Manifests ---------------------------------------------------------------

  predicate Verified(c: Codec, s: State, digest: string) {
    digest in s.catalog && Holds(c, s.disk, digest, s.catalog[digest].length)
  }

  /** A manifest's reference agrees with the catalog and the object on disk. */
  predicate Matches(c: Codec, s: State, r: Reference) {
    && Verified(c, s, r.digest)
    && s.catalog[r.digest].media == r.media && s.catalog[r.digest].length == r.length
  }

  predicate Fits(c: Codec, s: State, m: Manifest) {
    forall i :: 0 <= i < |m.members| ==> Matches(c, s, m.members[i])
  }

  /** A stored manifest, when the object, its canonical form and its row all agree. */
  function VerifiedManifest(c: Codec, s: State, digest: string): Option<Manifest> {
    if Verified(c, s, digest) && s.catalog[digest].media == MANIFEST && digest in s.manifests
       && c.decode(s.disk.files[Object(digest)]) == Some(s.manifests[digest])
    then Some(s.manifests[digest]) else None
  }

  /** Equal but for when they were verified. */
  predicate SameKey(m: Manifest, n: Manifest) {
    m == n.(verifiedAt := m.verifiedAt)
  }

  /** The unique index agrees with the manifest rows. */
  predicate Indexed(s: State) {
    && (forall d :: d in s.manifests ==>
          s.manifests[d].snapshot in s.slots && s.slots[s.manifests[d].snapshot] == d)
    && (forall k :: k in s.slots ==> s.slots[k] in s.manifests && s.manifests[s.slots[k]].snapshot == k)
  }

  predicate AlreadyRecorded(c: Codec, s: State, m: Manifest) {
    && m.snapshot in s.slots
    && var existing := VerifiedManifest(c, s, s.slots[m.snapshot]);
    existing.Some? && SameKey(existing.value, m)
  }

  lemma HoldsMeans(c: Codec, d: Disk, digest: string, length: nat)
    requires Holds(c, d, digest, length)
    ensures Object(digest) in d.files && c.sha(d.files[Object(digest)]) == digest
    ensures |d.files[Object(digest)]| == length
  {
  }

  lemma FitsMeans(c: Codec, s: State, m: Manifest)
    requires Fits(c, s, m)
    ensures forall i :: 0 <= i < |m.members| ==>
      var r := m.members[i];
      && r.digest in s.catalog && s.catalog[r.digest].media == r.media && s.catalog[r.digest].length == r.length
      && Object(r.digest) in s.disk.files && c.sha(s.disk.files[Object(r.digest)]) == r.digest
      && |s.disk.files[Object(r.digest)]| == r.length
  {
    forall i | 0 <= i < |m.members| ensures Matches(c, s, m.members[i]) {
    }
  }

  /** A slot whose manifest verifies under another time holds the same manifest, or another
      digest than this one would have. */
  lemma RecordedMeans(c: Codec, s: State, m: Manifest, time: string)
    requires Indexed(s) && m.snapshot in s.slots && VerifiedManifest(c, s, s.slots[m.snapshot]).Some?
    ensures var d := s.slots[m.snapshot];
      && d in s.catalog && d in s.manifests && s.catalog[d].media == MANIFEST
      && Object(d) in s.disk.files && c.sha(s.disk.files[Object(d)]) == d
      && c.decode(s.disk.files[Object(d)]) == Some(s.manifests[d])
      && VerifiedManifest(c, s, d) == Some(s.manifests[d])
      && (SameKey(s.manifests[d], m) && m.verifiedAt.None? ==> s.manifests[d].(verifiedAt := None) == m)
      && (!SameKey(s.manifests[d], m) ==>
            forall e :: e in s.manifests ==> s.manifests[e] != m.(verifiedAt := Some(time)))
  {
  }

  /** The rows of a manifest were committed over whatever agreed with them. */
  predicate Bound(c: Codec, a: State, b: State, verified: Manifest) {
    var content := c.encode(verified);
    var digest, row := c.sha(content), Meta(MANIFEST, |content|, PROTECTED);
    && b.catalog == a.catalog[digest := row] && b.manifests == a.manifests[digest := verified]
    && b.slots == a.slots[verified.snapshot := digest]
    && (digest in a.catalog ==> a.catalog[digest] == row)
    && (digest in a.manifests ==> a.manifests[digest] == verified)
    && (verified.snapshot in a.slots ==> digest in a.manifests)
    && Holds(c, b.disk, digest, |content|) && Fits(c, a, verified)
  }

  predicate GraphSecure(d: Disk, digest: string, members: seq<Reference>) {
    && Secure(d, Object(digest))
    && forall i :: 0 <= i < |members| ==> Secure(d, Object(members[i].digest))
  }

  /** What publishing a manifest may have done by the time it stops: the object work, and all
      its rows or none; under private authority the slot was free and the rows are only there
      once the whole graph survives a power loss. */
  predicate Recorded(c: Codec, a: State, b: State, m: Manifest, verified: Manifest, authority: bool, name: string) {
    var digest := c.sha(c.encode(verified));
    && Touched(a.disk, b.disk, Partial(name), digest, c.encode(verified)) && Indexed(b)
    && (b != a.(disk := b.disk) ==>
          && m.verifiedAt.None? && Bound(c, a, b, verified)
          && (authority || !c.reserved(m))
          && (authority ==> m.snapshot !in a.slots && GraphSecure(b.disk, digest, m.members)))
  }

  /** Why a manifest is refused. */
  predicate Unfit(
    c: Codec, a: State, m: Manifest, verified: Manifest, admissible: bool, authority: bool, guard: Guard)
  {
    var content := c.encode(verified);
    var digest, row := c.sha(content), Meta(MANIFEST, |content|, PROTECTED);
    || !guard.before || !guard.after || !guard.inside || !admissible || m.verifiedAt.Some?
    || (!authority && c.reserved(m)) || !Fits(c, a, m)
    || (m.snapshot in a.slots && (authority || !AlreadyRecorded(c, a, m)))
    || Misplaced(c, a.disk, digest, content)
    || (digest in a.catalog && a.catalog[digest] != row)
    || (digest in a.manifests && a.manifests[digest] != verified)
  }

  lemma SameMembers(c: Codec, s: State, m: Manifest, n: Manifest)
    requires m.members == n.members
    ensures Fits(c, s, m) <==> Fits(c, s, n)
  {
    hide Matches;
  }

  /** Every object of a fitting manifest is still there when its own has been published. */
  lemma GraphPresent(c: Codec, a: State, b: Disk, stage: File, digest: string, content: seq<byte>, m: Manifest)
    requires Touched(a.disk, b, stage, digest, content) && Holds(c, b, digest, |content|) && Fits(c, a, m)
    ensures forall d :: d in [digest] + Digests(m.members) ==> Object(d) in b.files
  {
    var members := m.members;
    forall d | d in [digest] + Digests(members) ensures Object(d) in b.files {
      if d in Digests(members) {
        var i :| 0 <= i < |members| && members[i].digest == d;
        assert Matches(c, a, members[i]);
      }
    }
  }

  function Digests(members: seq<Reference>): seq<string> {
    seq(|members|, i requires 0 <= i < |members| => members[i].digest)
  }

  lemma GraphListed(members: seq<Reference>, digest: string)
    ensures forall i :: 0 <= i < |members| ==> members[i].digest in [digest] + Digests(members)
    ensures digest in [digest] + Digests(members) && |[digest] + Digests(members)| == |members| + 1
  {
    var all := [digest] + Digests(members);
    assert all[0] == digest;
    assert forall i :: 0 <= i < |members| ==> all[i + 1] == members[i].digest;
  }

  lemma TouchedFlushed(c: Codec, a: Disk, b: Disk, d: Disk, stage: File, digest: string, content: seq<byte>)
    requires Touched(a, b, stage, digest, content) && Flushed(b, d) && d.Sane()
    ensures Touched(a, d, stage, digest, content)
    ensures Holds(c, d, digest, |content|) <==> Holds(c, b, digest, |content|)
  {
    hide Disk.Sane, Folders;
  }

  lemma RowsIndexed(a: State, b: State, digest: string, row: Meta, verified: Manifest)
    requires Indexed(a) && b == a.(disk := b.disk)
    requires digest in a.manifests ==> a.manifests[digest] == verified
    requires verified.snapshot in a.slots ==> digest in a.manifests
    ensures Indexed(b.(catalog := b.catalog[digest := row], manifests := b.manifests[digest := verified],
                       slots := b.slots[verified.snapshot := digest]))
    ensures Indexed(b)
  {
  }

  lemma StillIndexed(a: State, b: State)
    requires Indexed(a) && b == a.(disk := b.disk)
    ensures Indexed(b)
  {
  }

  /** Only staging files went, and possibly the names of those left were flushed. */
  ghost predicate Discarded(a: Disk, b: Disk) {
    && b.Sane() && b.folders == a.folders && b.firmFolders == a.firmFolders
    && b.files.Keys <= a.files.Keys
    && (forall f :: f in b.files ==> b.files[f] == a.files[f])
    && (forall f: File :: f.Object? ==>
          && (f in b.files <==> f in a.files) && (f in b.solid <==> f in a.solid) && (f in b.firm <==> f in a.firm))
  }

  function PartialNames(d: Disk): set<string> {
    set f | f in d.files && f.Partial? :: f.name
  }

  lemma DiscardNothing(a: Disk)
    requires a.Sane()
    ensures Discarded(a, a)
  {
  }

  lemma DiscardOne(a: Disk, b: Disk, f: File)
    requires Discarded(a, b) && f.Partial?
    ensures Discarded(a, Unlink(b, f)) && Unlink(b, f).files == b.files - {f}
  {
    hide Chain;
  }

  lemma DiscardFlush(a: Disk, b: Disk)
    requires Discarded(a, b)
    ensures Discarded(a, Flush(b, Artifacts)) && Flush(b, Artifacts).files == b.files
  {
    hide Chain;
  }

  // Inspection --------------------------------------------------------------

  datatype Inspection = Inspection(
    missing: seq<string>, corrupt: seq<string>, orphans: seq<string>, unreferenced: seq<string>,
    malformed: seq<string>, staging: seq<string>)
  {
    predicate Healthy() {
      missing == [] && corrupt == [] && malformed == []
    }
  }

  predicate Missing(s: State, digest: string) {
    digest in s.catalog && s.disk.Rooted(Object(digest)) && Object(digest) !in s.disk.files
  }

  /** A row whose path is not all folders, or whose object is not what it says. */
  predicate Corrupt(c: Codec, s: State, digest: string) {
    && digest in s.catalog
    && (!s.disk.Rooted(Object(digest))
        || (Object(digest) in s.disk.files && !Holds(c, s.disk, digest, s.catalog[digest].length)))
  }

  /** A manifest row its object does not bear out; not judged where its path is not all folders. */
  predicate Malformed(c: Codec, s: State, digest: string) {
    && digest in s.catalog && digest in s.manifests && s.disk.Rooted(Object(digest))
    && !(Object(digest) in s.disk.files && s.catalog[digest].media == MANIFEST
         && c.decode(s.disk.files[Object(digest)]) == Some(s.manifests[digest])
         && c.sha(c.encode(s.manifests[digest])) == digest && s.manifests[digest].verifiedAt.Some?)
  }

  function Referenced(s: State, others: set<string>): set<string> {
    s.manifests.Keys + others +
    set d, i | d in s.manifests && 0 <= i < |s.manifests[d].members| :: s.manifests[d].members[i].digest
  }

  function Stored(d: Disk): set<string> {
    set f | f in d.files && f.Object? :: f.digest
  }

  function Inspected(c: Codec, s: State, others: set<string>): Inspection {
    Inspection(
      Sorted(set d | d in s.catalog && Missing(s, d)),
      Sorted(set d | d in s.catalog && Corrupt(c, s, d)),
      Sorted(Stored(s.disk) - s.catalog.Keys),
      Sorted(s.catalog.Keys - Referenced(s, others)),
      Sorted(set d | d in s.catalog && Malformed(c, s, d)),
      Sorted(PartialNames(s.disk)))
  }

  /** What inspection lists: rows whose object is gone, rows whose path is broken or whose object
      is not what they say, objects without a row, rows no manifest and nothing else names,
      manifest rows their object does not bear out, and partial files; each in order. */
  lemma InspectionMeans(c: Codec, s: State, others: set<string>)
    ensures var r := Inspected(c, s, others);
      && Ascending(r.missing) && Ascending(r.corrupt) && Ascending(r.orphans) && Ascending(r.unreferenced)
      && Ascending(r.malformed) && Ascending(r.staging)
    ensures forall d :: d in Inspected(c, s, others).missing <==>
      d in s.catalog && PathStands(s.disk, d) && Object(d) !in s.disk.files
    ensures forall d :: d in Inspected(c, s, others).corrupt <==>
      && d in s.catalog
      && (!PathStands(s.disk, d)
          || (&& Object(d) in s.disk.files
              && !(c.sha(s.disk.files[Object(d)]) == d && |s.disk.files[Object(d)]| == s.catalog[d].length)))
    ensures forall d :: d in Inspected(c, s, others).orphans <==> Object(d) in s.disk.files && d !in s.catalog
    ensures forall d :: d in Inspected(c, s, others).unreferenced <==>
      && d in s.catalog && d !in s.manifests && d !in others
      && forall k, i :: k in s.manifests && 0 <= i < |s.manifests[k].members| ==> s.manifests[k].members[i].digest != d
    ensures forall d :: d in Inspected(c, s, others).malformed <==>
      && d in s.catalog && d in s.manifests && PathStands(s.disk, d)
      && !(&& Object(d) in s.disk.files
           && s.catalog[d].media == "application/vnd.matchvet.snapshot-manifest+json"
           && c.decode(s.disk.files[Object(d)]) == Some(s.manifests[d])
           && c.sha(c.encode(s.manifests[d])) == d && s.manifests[d].verifiedAt.Some?)
    ensures forall name :: name in Inspected(c, s, others).staging <==> Partial(name) in s.disk.files
  {
    hide ShardOf;
    forall d ensures PathStands(s.disk, d) <==> s.disk.Rooted(Object(d)) {
      PathIs(s.disk, d);
    }
    assert forall d :: d in Stored(s.disk) <==> Object(d) in s.disk.files;
    assert forall name :: name in PartialNames(s.disk) <==> Partial(name) in s.disk.files;
  }

  /** All three folders above an object stand: the last is named by the digest's first two characters. */
  predicate PathStands(d: Disk, digest: string) {
    Objects in d.folders && Sha256 in d.folders && ShardOf(digest) in d.folders
  }

  lemma PathIs(d: Disk, digest: string)
    ensures PathStands(d, digest) <==> d.Rooted(Object(digest))
  {
    hide ShardOf;
    var path := Chain(Object(digest));
    assert path[0] == Objects && path[1] == Sha256 && path[2] == ShardOf(digest);
  }

  class ArtifactStore {
    const codec: Codec
    var state: State
    var budget: nat

    constructor (codec: Codec, state: State, budget: nat)
      ensures this.codec == codec && this.state == state && this.budget == budget
    {
      this.codec, this.state, this.budget := codec, state, budget;
    }

    /** Makes the missing folders of a path, outermost first, flushing each one's parent. */
    method EnsureDirectory(path: seq<Folder>) returns (o: Outcome)
      requires state.disk.Sane() && forall g :: g in path ==> !g.Base?
      modifies this`state, this`budget
      ensures state == old(state).(disk := state.disk) && state.disk.Sane()
      ensures Ensured(old(state).disk, state.disk, path)
      ensures o.Done? ==> EnsuredAll(old(state).disk, state.disk, path)
      ensures !o.Refused?
      ensures if o.Crashed? then old(budget) < 2 * |path| else budget + 2 * |path| >= old(budget)
    {
      var k := 0;
      ghost var a := state.disk;
      while k < |path|
        invariant 0 <= k <= |path|
        invariant state == old(state).(disk := state.disk) && state.disk.Sane()
        invariant Ensured(a, state.disk, path[..k])
        invariant EnsuredAll(a, state.disk, path[..k])
        invariant budget + 2 * k >= old(budget)
      {
        ghost var before := state.disk;
        var next := path[k];
        if next !in state.disk.folders {
          if budget == 0 {
            EnsuredWidens(a, before, path, k);
            return Crashed;
          }
          budget := budget - 1;
          state := state.(disk := MakeFolder(state.disk, next));
          if budget == 0 {
            EnsuredMakes(a, before, path, k);
            return Crashed;
          }
          budget := budget - 1;
          state := state.(disk := Flush(state.disk, Up(next)));
          EnsuredFlushes(a, before, path, k);
        } else {
          EnsuredSkips(a, before, path, k);
        }
        k := k + 1;
      }
      assert path[..k] == path;
      o := Done;
    }

    /** Writes a stage file piece by piece, as much as the system accepts at each write. */
    method StageContent(content: seq<byte>, stage: File, accepted: nat -> nat) returns (o: Outcome)
      requires state.disk.Sane() && stage !in state.disk.files && state.disk.Rooted(stage)
      requires forall offset :: accepted(offset) > 0
      modifies this`state, this`budget
      ensures state == old(state).(disk := state.disk) && state.disk.Sane()
      ensures Staged(old(state).disk, state.disk, stage, content)
      ensures o.Done? ==> stage in state.disk.files && state.disk.files[stage] == content && stage in state.disk.solid
      ensures !o.Refused?
      ensures if o.Crashed? then old(budget) < |content| + 2 else budget + |content| + 2 >= old(budget)
    {
      hide Chain;
      if budget == 0 { return Crashed; }
      budget := budget - 1;
      state := state.(disk := WriteFile(state.disk, stage, []));
      var offset := 0;
      while offset < |content|
        invariant 0 <= offset <= |content|
        invariant state == old(state).(disk := state.disk) && state.disk.Sane()
        invariant Staged(old(state).disk, state.disk, stage, content)
        invariant stage in state.disk.files && state.disk.files[stage] == content[..offset]
        invariant state.disk.solid == old(state).disk.solid - {stage}
        invariant budget + offset + 1 >= old(budget)
      {
        if budget == 0 { return Crashed; }
        budget := budget - 1;
        var wanted := offset + accepted(offset);
        offset := if wanted < |content| then wanted else |content|;
        state := state.(disk := WriteFile(state.disk, stage, content[..offset]));
      }
      assert content[..offset] == content;
      if budget == 0 { return Crashed; }
      budget := budget - 1;
      state := state.(disk := FlushFile(state.disk, stage));
      o := Done;
    }

    /** Installs a staged object unless one is already there, in which case that one must match. */
    method Install(stage: File, digest: string, length: nat) returns (o: Outcome)
      requires state.disk.Sane() && stage in state.disk.solid && stage !in state.disk.firm && stage.Partial?
      requires state.disk.Rooted(Object(digest))
      modifies this`state, this`budget
      ensures state == old(state).(disk := state.disk)
      ensures o.Done? ==> Installed(old(state).disk, state.disk, stage, digest)
      ensures o.Crashed? ==> HalfInstalled(old(state).disk, state.disk, stage, digest)
      ensures o.Refused? ==> state.disk == Unlink(old(state).disk, stage)
      ensures Object(digest) in old(state).disk.files ==>
        (o.Done? ==> Holds(codec, old(state).disk, digest, length)) &&
        (o.Refused? ==> !Holds(codec, old(state).disk, digest, length))
      ensures Object(digest) !in old(state).disk.files ==> !o.Refused?
      ensures if o.Crashed? then old(budget) < 4 else budget + 4 >= old(budget)
    {
      hide Disk.Sane, Disk.Rooted, Holds, Chain, HalfInstalled, Installed, Rename, Flush, Unlink;
      var target := Object(digest);
      InstallSane(state.disk, stage, target);
      InstallSteps(state.disk, stage, digest);
      if target in state.disk.files {
        if !Holds(codec, state.disk, digest, length) {
          state := state.(disk := Unlink(state.disk, stage));
          return Refused;
        }
      } else {
        if budget == 0 { return Crashed; }
        budget := budget - 1;
        state := state.(disk := Rename(state.disk, stage, target));
        if budget == 0 { return Crashed; }
        budget := budget - 1;
        state := state.(disk := Flush(state.disk, Home(target)));
      }
      if budget == 0 { return Crashed; }
      budget := budget - 1;
      state := state.(disk := Unlink(state.disk, stage));
      if budget == 0 { return Crashed; }
      budget := budget - 1;
      state := state.(disk := Flush(state.disk, Artifacts));
      o := Done;
    }

    method PublishObject(content: seq<byte>, digest: string, name: string, accepted: nat -> nat) returns (o: Outcome)
      requires state.disk.Sane() && Partial(name) !in state.disk.files
      requires forall offset :: accepted(offset) > 0
      modifies this`state, this`budget
      ensures state == old(state).(disk := state.disk) && state.disk.Sane()
      ensures Touched(old(state).disk, state.disk, Partial(name), digest, content)
      ensures o.Done? ==> Settled(codec, old(state).disk, state.disk, digest, content)
      ensures o.Refused? ==> Misplaced(codec, old(state).disk, digest, content)
      ensures o.Refused? ==> state.disk.files == old(state).disk.files
      ensures if o.Crashed? then old(budget) < |content| + 20 else budget + |content| + 20 >= old(budget)
    {
      hide Beside, Holds, Folders, Settled, Prepared, Ready, Touched;
      hide Ensured, EnsuredAll, Staged, Installed, HalfInstalled, Chain, Disk.Rooted;
      ghost var a := state.disk;
      var stage := Partial(name);
      var path := Chain(Object(digest));
      PathOf(digest);
      assert |STAGING| == 2 && |OBJECTS| == 2 && |path| == 3;
      NothingPrepared(a, stage, digest, content);
      o := EnsureDirectory(STAGING);
      ghost var b := state.disk;
      EnsuredPrepares(a, a, b, stage, digest, content, STAGING);
      PreparedTouches(a, b, stage, digest, content);
      EnsuredSame(a, b, STAGING);
      if !o.Done? { return; }
      o := EnsureDirectory(OBJECTS);
      ghost var c := state.disk;
      EnsuredPrepares(a, b, c, stage, digest, content, OBJECTS);
      PreparedTouches(a, c, stage, digest, content);
      EnsuredSame(b, c, OBJECTS);
      if !o.Done? { return; }
      StagingReady(a, b, c, name);
      o := StageContent(content, stage, accepted);
      ghost var d := state.disk;
      StagedPrepares(a, c, d, stage, digest, content);
      PreparedTouches(a, d, stage, digest, content);
      if !o.Done? { return; }
      if codec.sha(state.disk.files[stage]) != digest {
        state := state.(disk := Unlink(state.disk, stage));
        return Refused;
      }
      o := EnsureDirectory(path);
      ghost var e := state.disk;
      EnsuredPrepares(a, d, e, stage, digest, content, path);
      PreparedTouches(a, e, stage, digest, content);
      EnsuredSame(d, e, path);
      if !o.Done? { return; }
      AllReady(a, b, c, d, e, stage, digest, content);
      ObjectReady(a, e, digest);
      StageElsewhere(codec, a, e, stage, digest, content);
      o := Install(stage, digest, |content|);
      if !o.Refused? {
        InstalledTouches(a, e, state.disk, stage, digest, content);
      }
      if o.Done? {
        InstalledSettles(a, e, state.disk, codec, stage, digest, content);
      }
    }

    /** Publishes bytes: the object first, its catalog row after. */
    method PublishArtifact(content: seq<byte>, media: string, expected: Option<string>, retention: string,
                           name: string, accepted: nat -> nat, guard: Guard) returns (o: Outcome)
      requires state.disk.Sane() && Partial(name) !in state.disk.files
      requires forall offset :: accepted(offset) > 0
      modifies this`state, this`budget
      ensures Catalogued(codec, old(state), state, content, Meta(media, |content|, retention), name)
      ensures o.Done? ==> Published(codec, old(state), state, content, Meta(media, |content|, retention))
      ensures o.Refused? ==>
        && state.catalog == old(state).catalog
        && state.disk.files.Keys <= old(state).disk.files.Keys + {Object(codec.sha(content))}
      ensures o.Refused? ==>
        || !guard.before || !guard.after || !guard.inside
        || (expected.Some? && expected.value != codec.sha(content))
        || !codec.mediaValid(media) || retention !in RETENTIONS
        || (Object(codec.sha(content)) in old(state).disk.files
            && !Holds(codec, old(state).disk, codec.sha(content), |content|))
        || (codec.sha(content) in old(state).catalog
            && old(state).catalog[codec.sha(content)] != Meta(media, |content|, retention))
      ensures o.Done? ==>
        var digest := codec.sha(content);
        && guard.before && guard.after && guard.inside
        && (expected.Some? ==> expected.value == digest)
        && codec.mediaValid(media) && retention in {"PROTECTED", "REUSABLE", "DISPOSABLE"}
        && state.catalog == old(state).catalog[digest := Meta(media, |content|, retention)]
        && state.manifests == old(state).manifests && state.slots == old(state).slots
        && (digest in old(state).catalog ==> state.catalog == old(state).catalog)
        && Object(digest) in state.disk.files
        && codec.sha(state.disk.files[Object(digest)]) == digest
        && |state.disk.files[Object(digest)]| == |content|
        && (Object(digest) !in old(state).disk.files ==> state.disk.files[Object(digest)] == content)
        && state.disk.files.Keys == old(state).disk.files.Keys + {Object(digest)}
      ensures forall f :: f in old(state).disk.files ==>
        f in state.disk.files && state.disk.files[f] == old(state).disk.files[f]
      ensures o.Crashed? ==> old(budget) < |content| + 21
    {
      hide Touched, Settled, Holds;
      ghost var a := state;
      var digest := codec.sha(content);
      var row := Meta(media, |content|, retention);
      NothingTouched(state.disk, Partial(name), digest, content);
      if !guard.before || (expected.Some? && expected.value != digest)
         || !codec.mediaValid(media) || retention !in RETENTIONS {
        return Refused;
      }
      o := PublishObject(content, digest, name, accepted);
      TouchedFiles(a.disk, state.disk, Partial(name), digest, content);
      if !o.Done? { return; }
      SettledHolds(codec, a.disk, state.disk, digest, content);
      SettledPlain(codec, a.disk, state.disk, digest, content);
      if !guard.after { return Refused; }
      if budget == 0 { return Crashed; }
      budget := budget - 1;
      if (digest in state.catalog && state.catalog[digest] != row) || !guard.inside {
        return Refused;
      }
      state := state.(catalog := state.catalog[digest := row]);
    }

    /** Flushes the files of a whole graph and every folder above them. */
    method SyncGraph(digests: seq<string>) returns (o: Outcome)
      requires state.disk.Sane()
      modifies this`state, this`budget
      ensures state == old(state).(disk := state.disk) && state.disk.Sane()
      ensures Flushed(old(state).disk, state.disk)
      ensures o.Done? ==> forall d :: d in digests ==> Secure(state.disk, Object(d))
      ensures o.Refused? ==> exists d :: d in digests && Object(d) !in old(state).disk.files
      ensures if o.Crashed? then old(budget) < 2 * |digests| + 3 else budget + 2 * |digests| + 3 >= old(budget)
    {
      hide Disk.Rooted, Chain, ShardOf;
      ghost var a := state.disk;
      var k := 0;
      while k < |digests|
        invariant 0 <= k <= |digests|
        invariant state == old(state).(disk := state.disk) && state.disk.Sane() && Flushed(a, state.disk)
        invariant forall d :: d in digests[..k] ==> Object(d) in state.disk.solid
        invariant budget + k >= old(budget)
      {
        if Object(digests[k]) !in state.disk.files { return Refused; }
        if budget == 0 { return Crashed; }
        budget := budget - 1;
        StepsSane(state.disk, Object(digests[k]), Object(digests[k]), Base);
        state := state.(disk := FlushFile(state.disk, Object(digests[k])));
        k := k + 1;
      }
      assert digests[..k] == digests;
      k := 0;
      while k < |digests|
        invariant 0 <= k <= |digests|
        invariant state == old(state).(disk := state.disk) && state.disk.Sane() && Flushed(a, state.disk)
        invariant forall d :: d in digests ==> Object(d) in state.disk.solid
        invariant forall d :: d in digests[..k] ==> Object(d) in state.disk.firm
        invariant budget + |digests| + k >= old(budget)
      {
        if budget == 0 { return Crashed; }
        budget := budget - 1;
        StepsSane(state.disk, Object(digests[k]), Object(digests[k]), ShardOf(digests[k]));
        FlushKeeps(a, state.disk, ShardOf(digests[k]));
        state := state.(disk := Flush(state.disk, ShardOf(digests[k])));
        k := k + 1;
      }
      assert digests[..k] == digests;
      ghost var b := state.disk;
      FlushAllFolders(a, b);
      if budget == 0 { return Crashed; }
      budget := budget - 1;
      state := state.(disk := Flush(state.disk, Sha256));
      if budget == 0 { return Crashed; }
      budget := budget - 1;
      state := state.(disk := Flush(state.disk, Objects));
      if budget == 0 { return Crashed; }
      budget := budget - 1;
      state := state.(disk := Flush(state.disk, Base));
      forall d | d in digests ensures Secure(state.disk, Object(d)) {
        FlushSecures(b, d);
      }
      o := Done;
    }

    method MatchMembers(m: Manifest) returns (ok: bool)
      ensures ok <==> Fits(codec, state, m)
    {
      hide Matches;
      var k := 0;
      while k < |m.members|
        invariant 0 <= k <= |m.members|
        invariant forall i :: 0 <= i < k ==> Matches(codec, state, m.members[i])
      {
        if !Matches(codec, state, m.members[k]) { return false; }
        k := k + 1;
      }
      ok := true;
    }

    /** Puts the manifest's object in place, and under private authority makes its whole graph durable. */
    method StageManifest(m: Manifest, content: seq<byte>, authority: bool, name: string, accepted: nat -> nat)
      returns (o: Outcome)
      requires state.disk.Sane() && Partial(name) !in state.disk.files && Fits(codec, state, m)
      requires forall offset :: accepted(offset) > 0
      modifies this`state, this`budget
      ensures state == old(state).(disk := state.disk)
      ensures Touched(old(state).disk, state.disk, Partial(name), codec.sha(content), content)
      ensures o.Done? ==> Holds(codec, state.disk, codec.sha(content), |content|)
      ensures o.Done? && authority ==> GraphSecure(state.disk, codec.sha(content), m.members)
      ensures o.Refused? ==> Misplaced(codec, old(state).disk, codec.sha(content), content)
      ensures var steps := |content| + 2 * |m.members| + 25;
        if o.Crashed? then old(budget) < steps else budget + steps >= old(budget)
    {
      hide Touched, Settled, Holds, Secure, Flushed, Fits, Digests, Misplaced;
      ghost var a := state;
      var digest := codec.sha(content);
      o := PublishObject(content, digest, name, accepted);
      if !o.Done? { return; }
      SettledHolds(codec, a.disk, state.disk, digest, content);
      ghost var b := state.disk;
      if authority {
        GraphListed(m.members, digest);
        o := SyncGraph([digest] + Digests(m.members));
        TouchedFlushed(codec, a.disk, b, state.disk, Partial(name), digest, content);
        GraphPresent(codec, a, b, Partial(name), digest, content, m);
      }
    }

    /** Whether a manifest may be published at all; one already recorded needs nothing more. */
    method AdmitManifest(m: Manifest, time: string, admissible: bool, authority: bool, guard: Guard)
      returns (o: Option<Outcome>)
      requires Indexed(state)
      ensures match o
        case Some(Refused) => Unfit(codec, state, m, m.(verifiedAt := Some(time)), admissible, authority, guard)
        case Some(Done) => m.snapshot in state.slots && !authority && AlreadyRecorded(codec, state, m)
        case Some(Crashed) => false
        case None => m.snapshot in state.slots ==>
          && !authority && !AlreadyRecorded(codec, state, m)
          && forall e :: e in state.manifests ==> state.manifests[e] != m.(verifiedAt := Some(time))
      ensures o != Some(Refused) ==>
        && guard.before && admissible && m.verifiedAt.None? && (authority || !codec.reserved(m))
        && Fits(codec, state, m)
    {
      hide Fits, Misplaced, Verified, VerifiedManifest, Indexed;
      if !guard.before || (!authority && codec.reserved(m)) || m.verifiedAt.Some? { return Some(Refused); }
      var fits := MatchMembers(m);
      if !fits || !admissible { return Some(Refused); }
      if m.snapshot in state.slots {
        if authority { return Some(Refused); }
        var existing := VerifiedManifest(codec, state, state.slots[m.snapshot]);
        if existing.None? { return Some(Refused); }
        RecordedMeans(codec, state, m, time);
        if SameKey(existing.value, m) { return Some(Done); }
      }
      o := None;
    }

    /** Publishes a manifest over artifacts already catalogued. The private path refuses an
        occupied slot and makes the whole graph durable before the commit. */
    method PublishManifest(m: Manifest, time: string, admissible: bool, authority: bool,
                           name: string, accepted: nat -> nat, guard: Guard) returns (o: Outcome)
      requires state.disk.Sane() && Indexed(state) && Partial(name) !in state.disk.files
      requires forall offset :: accepted(offset) > 0
      modifies this`state, this`budget
      ensures Recorded(codec, old(state), state, m, m.(verifiedAt := Some(time)), authority, name)
      ensures o.Done? ==>
        || Bound(codec, old(state), state, m.(verifiedAt := Some(time)))
        || (!authority && state == old(state) && AlreadyRecorded(codec, state, m))
      ensures o.Done? ==>
        && guard.before && admissible && m.verifiedAt.None? && (authority || !codec.reserved(m))
        && forall i :: 0 <= i < |m.members| ==>
             var r := m.members[i];
             && r.digest in old(state).catalog
             && old(state).catalog[r.digest].media == r.media && old(state).catalog[r.digest].length == r.length
             && Object(r.digest) in old(state).disk.files
             && codec.sha(old(state).disk.files[Object(r.digest)]) == r.digest
             && |old(state).disk.files[Object(r.digest)]| == r.length
      ensures o.Done? && m.snapshot !in old(state).slots ==>
        var verified := m.(verifiedAt := Some(time));
        var content := codec.encode(verified);
        var digest := codec.sha(content);
        && guard.after && guard.inside
        && state.catalog == old(state).catalog[digest :=
             Meta("application/vnd.matchvet.snapshot-manifest+json", |content|, "PROTECTED")]
        && state.manifests == old(state).manifests[digest := verified]
        && state.slots == old(state).slots[m.snapshot := digest]
        && Object(digest) in state.disk.files
        && codec.sha(state.disk.files[Object(digest)]) == digest && |state.disk.files[Object(digest)]| == |content|
      ensures o.Done? && m.snapshot in old(state).slots ==>
        var d := old(state).slots[m.snapshot];
        && !authority && state == old(state) && d in state.manifests && state.manifests[d].(verifiedAt := None) == m
        && d in state.catalog && state.catalog[d].media == "application/vnd.matchvet.snapshot-manifest+json"
        && Object(d) in state.disk.files && codec.sha(state.disk.files[Object(d)]) == d
        && codec.decode(state.disk.files[Object(d)]) == Some(state.manifests[d])
      ensures forall f :: f in old(state).disk.files ==>
        f in state.disk.files && state.disk.files[f] == old(state).disk.files[f]
      ensures o.Refused? ==>
        && state == old(state).(disk := state.disk)
        && Unfit(codec, old(state), m, m.(verifiedAt := Some(time)), admissible, authority, guard)
      ensures o.Crashed? ==> old(budget) < |codec.encode(m.(verifiedAt := Some(time)))| + 2 * |m.members| + 26
    {
      hide Touched, Holds, Verified, Indexed, VerifiedManifest, GraphSecure, Fits, Misplaced, Disk.Sane, SameKey;
      ghost var a := state;
      var verified := m.(verifiedAt := Some(time));
      var content := codec.encode(verified);
      var digest := codec.sha(content);
      var row := Meta(MANIFEST, |content|, PROTECTED);
      NothingTouched(state.disk, Partial(name), digest, content);
      SameMembers(codec, state, m, verified);
      var admitted := AdmitManifest(m, time, admissible, authority, guard);
      if admitted == Some(Refused) { return Refused; }
      FitsMeans(codec, state, m);
      if admitted == Some(Done) {
        RecordedMeans(codec, state, m, time);
        return Done;
      }
      o := StageManifest(m, content, authority, name, accepted);
      StillIndexed(a, state);
      TouchedFiles(a.disk, state.disk, Partial(name), digest, content);
      if !o.Done? { return; }
      HoldsMeans(codec, state.disk, digest, |content|);
      if !guard.after { return Refused; }
      if budget == 0 { return Crashed; }
      budget := budget - 1;
      if !guard.inside
         || (digest in state.catalog && state.catalog[digest] != row)
         || (digest in state.manifests && state.manifests[digest] != verified)
         || (m.snapshot in state.slots && (authority || digest !in state.manifests)) {
        return Refused;
      }
      RowsIndexed(a, state, digest, row, verified);
      state := state.(catalog := state.catalog[digest := row], manifests := state.manifests[digest := verified],
                      slots := state.slots[m.snapshot := digest]);
      o := Done;
    }

    /** Removes the partial files interrupted publications left. */
    method DiscardStaging() returns (o: Outcome)
      requires state.disk.Sane()
      modifies this`state, this`budget
      ensures state == old(state).(disk := state.disk)
      ensures Discarded(old(state).disk, state.disk)
      ensures o.Done? ==> forall f :: f in state.disk.files ==> f.Object?
      ensures !o.Refused?
      ensures o.Crashed? ==> old(budget) <= |Sorted(PartialNames(old(state).disk))|
    {
      hide Chain, Home, Discarded, Disk.Sane, Disk.Rooted, Flush, Unlink;
      DiscardNothing(state.disk);
      var names := Sorted(PartialNames(state.disk));
      var k := 0;
      while k < |names|
        invariant 0 <= k <= |names|
        invariant state == old(state).(disk := state.disk) && Discarded(old(state).disk, state.disk)
        invariant forall f :: f in state.disk.files && f.Partial? ==> f.name in names[k..]
        invariant budget + k >= old(budget)
      {
        if budget == 0 { return Crashed; }
        budget := budget - 1;
        DiscardOne(old(state).disk, state.disk, Partial(names[k]));
        state := state.(disk := Unlink(state.disk, Partial(names[k])));
        k := k + 1;
      }
      if names != [] {
        if budget == 0 { return Crashed; }
        budget := budget - 1;
        DiscardFlush(old(state).disk, state.disk);
        state := state.(disk := Flush(state.disk, Artifacts));
      }
      o := Done;
    }

    /** Sorts every catalog row into missing, corrupt or malformed, and lists what is left over. */
    method Inspect(others: set<string>) returns (r: Inspection)
      ensures r == Inspected(codec, state, others)
    {
      hide Missing, Corrupt, Malformed, Referenced, Stored, PartialNames, Holds, Disk.Rooted, Sorted;
      var missing: set<string>, corrupt: set<string>, malformed: set<string> := {}, {}, {};
      var rows, k := Sorted(state.catalog.Keys), 0;
      while k < |rows|
        invariant 0 <= k <= |rows|
        invariant missing == set d | d in rows[..k] && Missing(state, d)
        invariant corrupt == set d | d in rows[..k] && Corrupt(codec, state, d)
        invariant malformed == set d | d in rows[..k] && Malformed(codec, state, d)
      {
        var digest := rows[k];
        assert rows[..k + 1] == rows[..k] + [digest];
        RowStates(codec, state, digest);
        k := k + 1;
        if !state.disk.Rooted(Object(digest)) {
          corrupt := corrupt + {digest};
          continue;
        }
        if Object(digest) !in state.disk.files {
          missing := missing + {digest};
        } else if !Holds(codec, state.disk, digest, state.catalog[digest].length) {
          corrupt := corrupt + {digest};
        }
        if digest !in state.manifests {
          continue;
        }
        var sound := false;
        if Object(digest) in state.disk.files {
          var m := codec.decode(state.disk.files[Object(digest)]);
          sound := m.Some? && state.catalog[digest].media == MANIFEST && codec.sha(codec.encode(m.value)) == digest
            && m.value.verifiedAt.Some? && state.manifests[digest] == m.value;
        }
        if !sound {
          malformed := malformed + {digest};
        }
      }
      assert rows[..k] == rows;
      assert missing == set d | d in state.catalog && Missing(state, d);
      assert corrupt == set d | d in state.catalog && Corrupt(codec, state, d);
      assert malformed == set d | d in state.catalog && Malformed(codec, state, d);
      r := Inspection(
        Sorted(missing), Sorted(corrupt), Sorted(Stored(state.disk) - state.catalog.Keys),
        Sorted(state.catalog.Keys - Referenced(state, others)), Sorted(malformed), Sorted(PartialNames(state.disk)));
    }
  }

  lemma RowStates(c: Codec, s: State, digest: string)
    requires digest in s.catalog
    ensures Missing(s, digest) <==> s.disk.Rooted(Object(digest)) && Object(digest) !in s.disk.files
    ensures Corrupt(c, s, digest) <==>
      || !s.disk.Rooted(Object(digest))
      || (Object(digest) in s.disk.files && !Holds(c, s.disk, digest, s.catalog[digest].length))
    ensures Malformed(c, s, digest) <==>
      (digest in s.manifests && s.disk.Rooted(Object(digest))
       && !(Object(digest) in s.disk.files && s.catalog[digest].media == MANIFEST
         && c.decode(s.disk.files[Object(digest)]) == Some(s.manifests[digest])
         && c.sha(c.encode(s.manifests[digest])) == digest && s.manifests[digest].verifiedAt.Some?))
  {
  }

  lemma PathOf(digest: string)
    ensures forall g :: g in Chain(Object(digest)) ==> !g.Base?
    ensures |Chain(Object(digest))| == 3
  {
  }

  lemma EnsuredSame(a: Disk, b: Disk, path: seq<Folder>)
    requires Ensured(a, b, path)
    ensures b.files == a.files && b.solid == a.solid && b.firm == a.firm
  {
  }

  lemma NothingPrepared(a: Disk, stage: File, digest: string, content: seq<byte>)
    requires a.Sane()
    ensures Prepared(a, a, stage, digest, content)
  {
  }

  lemma StageElsewhere(c: Codec, a: Disk, b: Disk, stage: File, digest: string, content: seq<byte>)
    requires Prepared(a, b, stage, digest, content) && stage !in a.files && stage.Partial? && a.Sane()
    ensures Object(digest) in b.files <==> Object(digest) in a.files
    ensures Holds(c, b, digest, |content|) <==> Holds(c, a, digest, |content|)
    ensures stage !in b.firm
  {
    hide Beside, Folders;
  }
}
