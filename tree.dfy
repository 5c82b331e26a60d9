/** Directory trees as either side sees them, the enumeration of a tree that
    the scanners perform, and the snapshot (relative path to file record) a
    scan produces. `Collect` is the reference definition of a snapshot: both
    scanners are proved to compute it. */
module Tree {
  import opened Common

  /** A directory entry's target: a file with its bytes, a directory with its
      listing (in listing order), a directory whose listing raises (permission
      denied) together with the entries it holds all the same, or a file whose
      opening or reading raises. */
  datatype Node =
    | File(content: Bytes)
    | Dir(entries: seq<Entry>)
    | LockedDir(hidden: seq<Entry>)
    | UnreadableFile

  datatype Entry = Entry(name: string, node: Node)

  /** One path met by the enumeration: its components below the root and
      what is there. */
  datatype Visit = Visit(names: seq<string>, node: Node)

  /** Every entry below a directory, depth first, each entry before its own
      children; `rel` holds the components that lead to the directory. */
  function Walk(rel: seq<string>, entries: seq<Entry>): seq<Visit>
    decreases entries
  {
    if entries == [] then []
    else Walk(rel, entries[..|entries| - 1]) + WalkEntry(rel, entries[|entries| - 1])
  }

  /** One entry, then (for a directory) everything below it. */
  function WalkEntry(rel: seq<string>, e: Entry): seq<Visit>
    decreases e
  {
    [Visit(rel + [e.name], e.node)] + if e.node.Dir? then Walk(rel + [e.name], e.node.entries) else []
  }

  /** The paths enumerated below a base directory: none at all when the base
      is not a directory that can be listed. */
  function WalkRoot(root: Node): seq<Visit>
  {
    if root.Dir? then Walk([], root.entries) else []
  }

  /** Walking a listing piece by piece is walking it whole. */
  lemma {:induction false} WalkAppend(rel: seq<string>, a: seq<Entry>, b: seq<Entry>)
    ensures Walk(rel, a + b) == Walk(rel, a) + Walk(rel, b)
    decreases |b|
  {
    if b == [] {
      assert a + b == a;
    } else {
      var ab := a + b;
      assert ab[..|ab| - 1] == a + b[..|b| - 1];
      assert ab[|ab| - 1] == b[|b| - 1];
      WalkAppend(rel, a, b[..|b| - 1]);
    }
  }

  /** A file's entry in a snapshot. Local records carry only the checksum;
      remote records also carry the absolute remote path. */
  datatype FileRecord =
    | LocalRecord(checksum: Digest)
    | RemoteRecord(checksum: Digest, fullPath: string)

  /** Relative path to record. */
  type Snapshot = map<string, FileRecord>

  /** Which scanner builds the snapshot; a remote scan knows its base path. */
  datatype Side = LocalSide | RemoteSide(base: string)

  function RecordOf(side: Side, names: seq<string>, content: Bytes, algorithm: Bytes -> Digest): FileRecord
  {
    match side
    case LocalSide => LocalRecord(algorithm(content))
    case RemoteSide(base) => RemoteRecord(algorithm(content), base + "/" + Join(names))
  }

  /** Both parts succeed, and the later part wins on a shared key (a dict
      assignment overwrites). */
  function Merge(a: Option<Snapshot>, b: Option<Snapshot>): Option<Snapshot>
  {
    if a.Some? && b.Some? then Some(a.value + b.value) else None
  }

  /** Whether the scanner on `side` raises at a node: reading an unreadable
      file raises on both sides; a directory that cannot be listed is skipped
      silently by the local enumeration but raises in the remote listing. */
  predicate Fails(node: Node, side: Side)
  {
    node.UnreadableFile? || (node.LockedDir? && side.RemoteSide?)
  }

  /** What one visited path contributes: a file is recorded under its joined
      relative path, a directory contributes nothing, and a node where the
      scanner raises aborts the scan. */
  function Recorded(v: Visit, side: Side, algorithm: Bytes -> Digest): Option<Snapshot>
  {
    match v.node
    case File(content) => Some(map[Join(v.names) := RecordOf(side, v.names, content, algorithm)])
    case Dir(_) => Some(map[])
    case LockedDir(_) => if side.LocalSide? then Some(map[]) else None
    case UnreadableFile => None
  }

  /** The snapshot built from an enumeration, in order. */
  function Collect(w: seq<Visit>, side: Side, algorithm: Bytes -> Digest): Option<Snapshot>
  {
    if w == [] then Some(map[])
    else Merge(Collect(w[..|w| - 1], side, algorithm), Recorded(w[|w| - 1], side, algorithm))
  }

  lemma UnionAssociative(a: Snapshot, b: Snapshot, c: Snapshot)
    ensures (a + b) + c == a + (b + c)
  {
  }

  lemma MergeAssociative(a: Option<Snapshot>, b: Option<Snapshot>, c: Option<Snapshot>)
    ensures Merge(Merge(a, b), c) == Merge(a, Merge(b, c))
  {
    if a.Some? && b.Some? && c.Some? {
      UnionAssociative(a.value, b.value, c.value);
    }
  }

  /** Scanning two enumerations one after the other is merging their scans. */
  lemma {:induction false} CollectAppend(w1: seq<Visit>, w2: seq<Visit>, side: Side, algorithm: Bytes -> Digest)
    ensures Collect(w1 + w2, side, algorithm)
         == Merge(Collect(w1, side, algorithm), Collect(w2, side, algorithm))
    decreases |w2|
  {
    if w2 == [] {
      assert w1 + w2 == w1;
      var c := Collect(w1, side, algorithm);
      if c.Some? {
        assert c.value + map[] == c.value;
      }
    } else {
      var w := w1 + w2;
      var last := w2[|w2| - 1];
      assert w[..|w| - 1] == w1 + w2[..|w2| - 1];
      assert w[|w| - 1] == last;
      CollectAppend(w1, w2[..|w2| - 1], side, algorithm);
      MergeAssociative(Collect(w1, side, algorithm), Collect(w2[..|w2| - 1], side, algorithm),
                       Recorded(last, side, algorithm));
    }
  }

  /** A scan succeeds exactly when the scanner raises at no visited entry. */
  lemma {:induction false} CollectSucceeds(w: seq<Visit>, side: Side, algorithm: Bytes -> Digest)
    ensures Collect(w, side, algorithm).Some? <==> forall v :: v in w ==> !Fails(v.node, side)
  {
    if w != [] {
      var init := w[..|w| - 1];
      CollectSucceeds(init, side, algorithm);
      assert w == init + [w[|w| - 1]];
      assert forall v :: v in w ==> v in init || v == w[|w| - 1];
    }
  }

  /** A successful scan has one key per visited file, the file's relative
      path joined by "/"; directories are traversed but never recorded. */
  lemma {:induction false} CollectKeys(w: seq<Visit>, side: Side, algorithm: Bytes -> Digest)
    requires Collect(w, side, algorithm).Some?
    ensures Collect(w, side, algorithm).value.Keys == set v | v in w && v.node.File? :: Join(v.names)
  {
    if w != [] {
      var init, last := w[..|w| - 1], w[|w| - 1];
      CollectKeys(init, side, algorithm);
      assert w == init + [last];
      assert forall v :: v in w <==> v in init || v == last;
    }
  }

  /** Every record of a successful scan holds the digest of the content of a
      visited file with that relative path. */
  lemma {:induction false} CollectChecksums(w: seq<Visit>, side: Side, algorithm: Bytes -> Digest)
    requires Collect(w, side, algorithm).Some?
    ensures forall k :: k in Collect(w, side, algorithm).value ==>
              exists v :: v in w && v.node.File? && Join(v.names) == k
                && Collect(w, side, algorithm).value[k].checksum == algorithm(v.node.content)
  {
    if w != [] {
      var init, last := w[..|w| - 1], w[|w| - 1];
      CollectChecksums(init, side, algorithm);
      assert forall v :: v in init ==> v in w;
      var m := Collect(w, side, algorithm).value;
      if last.node.File? {
        assert m[Join(last.names)].checksum == algorithm(last.node.content);
      }
    }
  }

  /** Every record of a successful remote scan is a remote record whose full
      path is the base path, "/", and its key. */
  lemma {:induction false} CollectRemoteFullPaths(w: seq<Visit>, base: string, algorithm: Bytes -> Digest)
    requires Collect(w, RemoteSide(base), algorithm).Some?
    ensures forall k :: k in Collect(w, RemoteSide(base), algorithm).value ==>
              Collect(w, RemoteSide(base), algorithm).value[k].RemoteRecord?
              && Collect(w, RemoteSide(base), algorithm).value[k].fullPath == base + "/" + k
  {
    if w != [] {
      CollectRemoteFullPaths(w[..|w| - 1], base, algorithm);
    }
  }

  /** The remote scan of an enumeration succeeds exactly when the local scan
      of it does and no directory in it is locked, and then the two agree on
      every key and every checksum: identical content gives identical digests
      whichever side read it. */
  lemma {:induction false} CollectSidesAgree(w: seq<Visit>, base: string, algorithm: Bytes -> Digest)
    ensures Collect(w, RemoteSide(base), algorithm).Some?
        <==> Collect(w, LocalSide, algorithm).Some? && forall v :: v in w ==> !v.node.LockedDir?
    ensures Collect(w, RemoteSide(base), algorithm).Some? ==>
              var l, r := Collect(w, LocalSide, algorithm).value, Collect(w, RemoteSide(base), algorithm).value;
              l.Keys == r.Keys && forall k :: k in l ==> l[k].checksum == r[k].checksum
  {
    if w != [] {
      var init, last := w[..|w| - 1], w[|w| - 1];
      CollectSidesAgree(init, base, algorithm);
      assert forall v :: v in w <==> v in init || v == last;
    }
  }
}
