/** The store's directory tree as a crash leaves it: what exists, what was flushed, and what a
    power loss may take away. */
module Filesystem {
  import opened Bytes

  /** The folders of the store. The base always exists. */
  datatype Folder = Base | Objects | Sha256 | Shard(prefix: string) | Staging | Artifacts

  datatype File = Object(digest: string) | Partial(name: string)

  /** `solid` holds the files whose contents were flushed; `firm` and `firmFolders` the names
      whose folder was flushed after they appeared. */
  datatype Disk = Disk(
    folders: set<Folder>, files: map<File, seq<byte>>,
    solid: set<File>, firm: set<File>, firmFolders: set<Folder>)
  {
    /** Only what exists was ever flushed, and every file has the folders above it. */
    predicate Sane() {
      && solid <= files.Keys && firm <= files.Keys && firmFolders <= folders && Base !in folders
      && forall f :: f in files ==> Rooted(f)
    }

    predicate Rooted(f: File) {
      forall g :: g in Chain(f) ==> g in folders
    }
  }

  function Up(f: Folder): Folder {
    match f
    case Base | Objects | Staging => Base
    case Sha256 => Objects
    case Shard(_) => Sha256
    case Artifacts => Staging
  }

  /** The first two characters of a digest name its folder. */
  function ShardOf(digest: string): Folder {
    Shard(if |digest| <= 2 then digest else digest[..2])
  }

  function Home(f: File): Folder {
    match f
    case Object(digest) => ShardOf(digest)
    case Partial(_) => Artifacts
  }

  /** The folders that lead to a file, outermost first. */
  function Chain(f: File): seq<Folder> {
    match f
    case Object(digest) => [Objects, Sha256, ShardOf(digest)]
    case Partial(_) => [Staging, Artifacts]
  }

  function MakeFolder(d: Disk, f: Folder): Disk {
    d.(folders := d.folders + {f})
  }

  /** Flushing a folder makes every name in it durable. */
  function Flush(d: Disk, f: Folder): Disk {
    d.(firmFolders := d.firmFolders + (set g | g in d.folders && g != Base && Up(g) == f),
       firm := d.firm + set x | x in d.files && Home(x) == f)
  }

  function WriteFile(d: Disk, f: File, content: seq<byte>): Disk {
    d.(files := d.files[f := content], solid := d.solid - {f})
  }

  function FlushFile(d: Disk, f: File): Disk {
    d.(solid := d.solid + {f})
  }

  function Unlink(d: Disk, f: File): Disk {
    d.(files := d.files - {f}, solid := d.solid - {f}, firm := d.firm - {f})
  }

  /** Rename without replacement: the content moves with its flushed state, the old name goes. */
  function Rename(d: Disk, a: File, b: File): Disk
    requires a in d.files
  {
    d.(files := d.files[b := d.files[a]] - {a},
       solid := (if a in d.solid then d.solid + {b} else d.solid) - {a},
       firm := d.firm - {a, b})
  }

  lemma StepsSane(d: Disk, a: File, b: File, f: Folder)
    requires d.Sane()
    ensures Flush(d, f).Sane() && Unlink(d, a).Sane()
    ensures a in d.files && d.Rooted(b) && b !in d.firm && a != b ==> Rename(d, a, b).Sane()
    ensures a in d.files ==> FlushFile(d, a).Sane()
  {
    hide Chain;
  }

  /** A name every power loss leaves reachable: it and every folder above it were flushed. */
  predicate Anchored(d: Disk, f: File) {
    f in d.firm && forall g :: g in Chain(f) ==> g in d.firmFolders
  }

  predicate AnchoredFolder(d: Disk, g: Folder) {
    g in d.firmFolders && (g != Base && Up(g) != Base ==> Up(g) in d.firmFolders)
    && (g.Shard? ==> Objects in d.firmFolders)
  }

  predicate Secure(d: Disk, f: File) {
    f in d.files && f in d.solid && Anchored(d, f)
  }

  /** Power loss: names not anchored may vanish, content not flushed may be anything, and
      nothing else changes. */
  predicate PowerLost(a: Disk, b: Disk) {
    && b.Sane() && b.folders <= a.folders && b.files.Keys <= a.files.Keys
    && (forall g :: g in a.folders && AnchoredFolder(a, g) ==> g in b.folders && g in b.firmFolders)
    && (forall f :: f in a.files && Anchored(a, f) ==> f in b.files && f in b.firm)
    && (forall f :: f in b.files && f in a.solid ==> b.files[f] == a.files[f] && f in b.solid)
  }

  /** A secure file keeps its bytes, and its security, through any power loss. */
  lemma SecureSurvives(a: Disk, b: Disk, f: File)
    requires a.Sane() && PowerLost(a, b) && Secure(a, f)
    ensures Secure(b, f) && b.files[f] == a.files[f]
  {
    forall g | g in Chain(f) ensures g in b.firmFolders {
      ChainAnchored(a, f, g);
    }
  }

  lemma ChainAnchored(a: Disk, f: File, g: Folder)
    requires a.Sane() && Anchored(a, f) && g in Chain(f)
    ensures AnchoredFolder(a, g) && g in a.folders
  {
    assert Chain(f)[0] in a.firmFolders && Chain(f)[1] in a.firmFolders;
  }

  /** The loss that takes every name not anchored. */
  function WorstLoss(a: Disk): Disk {
    Disk(set g | g in a.folders && AnchoredFolder(a, g),
         map f | f in a.files && Anchored(a, f) :: a.files[f],
         set f | f in a.solid && f in a.files && Anchored(a, f),
         set f | f in a.firm && f in a.files && Anchored(a, f),
         set g | g in a.folders && AnchoredFolder(a, g))
  }

  lemma WorstLossIsLoss(a: Disk)
    requires a.Sane()
    ensures PowerLost(a, WorstLoss(a))
    ensures forall f :: f in WorstLoss(a).files <==> f in a.files && Anchored(a, f)
  {
    var b := WorstLoss(a);
    forall f, g | f in b.files && g in Chain(f) ensures g in b.folders {
      ChainAnchored(a, f, g);
    }
  }

  /** A flushed file survives every power loss exactly when it is secure. */
  lemma SurvivesIff(a: Disk, f: File)
    requires a.Sane() && f in a.solid
    ensures Secure(a, f) <==> forall b :: PowerLost(a, b) ==> f in b.files && b.files[f] == a.files[f]
  {
    if Secure(a, f) {
      forall b | PowerLost(a, b) ensures f in b.files && b.files[f] == a.files[f] {
        SecureSurvives(a, b, f);
      }
    } else {
      WorstLossIsLoss(a);
    }
  }
}
