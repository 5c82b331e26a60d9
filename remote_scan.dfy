/** The remote tree scanner: `get_remote_files` and its recursive helper
    `recursive_list`, which walks the listing depth first, threads the full
    remote path and the relative path, and records every non-directory entry
    in a dictionary it fills in place. */
module RemoteScan {
  import opened Common
  import opened Tree
  import Checksum

  /** What `recursive_list(path, relative_root)` adds to the dictionary for a
      directory whose listing is `listing`, entry after entry; `None` when a
      listing or a read below raises. */
  function ScanListing(path: string, rel: seq<string>, listing: seq<Entry>, algorithm: Bytes -> Digest): Option<Snapshot>
    decreases listing
  {
    if listing == [] then Some(map[])
    else Merge(ScanListing(path, rel, listing[..|listing| - 1], algorithm),
               ScanEntry(path, rel, listing[|listing| - 1], algorithm))
  }

  /** One pass of the loop body: a directory entry is scanned recursively
      with `full_path` and `rel_path`; any other entry is read and recorded
      under `str(rel_path)` with its checksum and `full_path`. */
  function ScanEntry(path: string, rel: seq<string>, entry: Entry, algorithm: Bytes -> Digest): Option<Snapshot>
    decreases entry
  {
    var fullPath := path + "/" + entry.name;
    var relPath := rel + [entry.name];
    match entry.node
    case Dir(children) => ScanListing(fullPath, relPath, children, algorithm)
    case File(content) => Some(map[Join(relPath) := RemoteRecord(algorithm(content), fullPath)])
    case LockedDir(_) => None    // `listdir_attr(full_path)` raises in the recursive call
    case UnreadableFile => None  // `sftp.open` or a read raises
  }

  /** `get_remote_files(sftp, base_path)`: the scan of the base directory's
      listing, starting from an empty relative root; the very first
      `listdir_attr(base_path)` raises when the base is not a directory that
      can be listed. */
  function RemoteSnapshot(basePath: string, root: Node, algorithm: Bytes -> Digest): Option<Snapshot>
  {
    if root.Dir? then ScanListing(basePath, [], root.entries, algorithm) else None
  }

  /** A failure in the first entries is a failure of the whole listing. */
  lemma {:induction false} ScanListingPrefix(path: string, rel: seq<string>, listing: seq<Entry>, j: nat, algorithm: Bytes -> Digest)
    requires j <= |listing|
    requires ScanListing(path, rel, listing, algorithm).Some?
    ensures ScanListing(path, rel, listing[..j], algorithm).Some?
    decreases |listing|
  {
    if j < |listing| {
      var init := listing[..|listing| - 1];
      assert init[..j] == listing[..j];
      ScanListingPrefix(path, rel, init, j, algorithm);
    } else {
      assert listing[..j] == listing;
    }
  }

  /** Scanning one more entry of the listing merges in that entry's scan. */
  lemma ScanListingStep(path: string, rel: seq<string>, listing: seq<Entry>, i: nat, algorithm: Bytes -> Digest)
    requires i < |listing|
    ensures ScanListing(path, rel, listing[..i + 1], algorithm)
         == Merge(ScanListing(path, rel, listing[..i], algorithm), ScanEntry(path, rel, listing[i], algorithm))
  {
    assert listing[..i + 1][..i] == listing[..i];
  }

  /** A listing whose first `j` entries fail to scan fails as a whole. */
  lemma ScanListingFailure(path: string, rel: seq<string>, listing: seq<Entry>, j: nat, algorithm: Bytes -> Digest)
    requires j <= |listing|
    requires ScanListing(path, rel, listing[..j], algorithm).None?
    ensures ScanListing(path, rel, listing, algorithm).None?
  {
    if ScanListing(path, rel, listing, algorithm).Some? {
      ScanListingPrefix(path, rel, listing, j, algorithm);
    }
  }

  /** The recursive scan computes the reference snapshot of the walk, as long
      as the path it carries is the base path extended by the relative
      components: the full path of every record is base + "/" + its key. */
  lemma {:induction false} ScanListingIsCollect(base: string, path: string, rel: seq<string>, listing: seq<Entry>, algorithm: Bytes -> Digest)
    requires path == Under(base, rel)
    ensures ScanListing(path, rel, listing, algorithm) == Collect(Walk(rel, listing), RemoteSide(base), algorithm)
    decreases listing
  {
    if listing != [] {
      var init, last := listing[..|listing| - 1], listing[|listing| - 1];
      ScanListingIsCollect(base, path, rel, init, algorithm);
      ScanEntryIsCollect(base, path, rel, last, algorithm);
      CollectAppend(Walk(rel, init), WalkEntry(rel, last), RemoteSide(base), algorithm);
    }
  }

  lemma {:induction false} ScanEntryIsCollect(base: string, path: string, rel: seq<string>, entry: Entry, algorithm: Bytes -> Digest)
    requires path == Under(base, rel)
    ensures ScanEntry(path, rel, entry, algorithm) == Collect(WalkEntry(rel, entry), RemoteSide(base), algorithm)
    decreases entry
  {
    var fullPath, relPath := path + "/" + entry.name, rel + [entry.name];
    var side := RemoteSide(base);
    var visit := Visit(relPath, entry.node);
    var below := if entry.node.Dir? then Walk(relPath, entry.node.entries) else [];
    UnderStep(base, rel, entry.name);
    CollectAppend([visit], below, side, algorithm);
    assert [visit][..0] == [];
    var here := Recorded(visit, side, algorithm);
    assert Collect([visit], side, algorithm) == here by {
      if here.Some? {
        assert map[] + here.value == here.value;
      }
    }
    match entry.node {
      case Dir(children) =>
        ScanListingIsCollect(base, fullPath, relPath, children, algorithm);
        var c := Collect(below, side, algorithm);
        if c.Some? {
          assert map[] + c.value == c.value;
        }
      case File(content) =>
        assert here.Some? && here.value + map[] == here.value;
      case LockedDir(_) =>
      case UnreadableFile =>
    }
  }

  /** The scan of a remote tree, described by the walk of that tree: the
      reference snapshot when the base can be listed, a failure otherwise. */
  lemma RemoteSnapshotIsCollect(basePath: string, root: Node, algorithm: Bytes -> Digest)
    ensures RemoteSnapshot(basePath, root, algorithm)
         == if root.Dir? then Collect(WalkRoot(root), RemoteSide(basePath), algorithm) else None
  {
    if root.Dir? {
      ScanListingIsCollect(basePath, basePath, [], root.entries, algorithm);
    }
  }

  /** What the remote scan promises about its result: it succeeds exactly when
      the base is a directory and no entry below is an unreadable file or a
      directory that cannot be listed; it records one key per file (the
      names joined by "/"), never a directory; every record's full path is
      base + "/" + key, and its checksum is the digest of a file found under
      that key. */
  lemma RemoteSnapshotRecordsFiles(basePath: string, root: Node, algorithm: Bytes -> Digest)
    ensures RemoteSnapshot(basePath, root, algorithm).Some?
        <==> root.Dir? && forall v :: v in WalkRoot(root) ==> !v.node.UnreadableFile? && !v.node.LockedDir?
    ensures RemoteSnapshot(basePath, root, algorithm).Some? ==>
              var m := RemoteSnapshot(basePath, root, algorithm).value;
              && m.Keys == (set v | v in WalkRoot(root) && v.node.File? :: Join(v.names))
              && (forall k :: k in m ==> m[k].RemoteRecord? && m[k].fullPath == basePath + "/" + k)
              && (forall k :: k in m ==>
                    (exists v :: v in WalkRoot(root) && v.node.File?
                       && Join(v.names) == k && m[k].checksum == algorithm(v.node.content)))
  {
    var w, side := WalkRoot(root), RemoteSide(basePath);
    RemoteSnapshotIsCollect(basePath, root, algorithm);
    CollectSucceeds(w, side, algorithm);
    if root.Dir? && Collect(w, side, algorithm).Some? {
      CollectKeys(w, side, algorithm);
      CollectRemoteFullPaths(w, basePath, algorithm);
      CollectChecksums(w, side, algorithm);
    }
  }

  /** The closure's state: the dictionary it fills, plus the session's
      digest algorithm and read behaviour. */
  class RemoteScanner {
    const algorithm: Bytes -> Digest
    const delivery: nat -> nat
    var files: Snapshot

    constructor (algorithm: Bytes -> Digest, delivery: nat -> nat)
      ensures this.algorithm == algorithm && this.delivery == delivery
      ensures files == map[]
    {
      this.algorithm := algorithm;
      this.delivery := delivery;
      files := map[];
    }

    /** `recursive_list(path, relative_root)`: on success the dictionary has
        gained exactly the directory's scan; `ok` is false when a listing or
        a read below raised (the dictionary is then abandoned). */
    method RecursiveList(path: string, rel: seq<string>, listing: seq<Entry>) returns (ok: bool)
      modifies this
      decreases listing
      ensures ok <==> ScanListing(path, rel, listing, algorithm).Some?
      ensures ok ==> files == old(files) + ScanListing(path, rel, listing, algorithm).value
    {
      for i := 0 to |listing|
        invariant ScanListing(path, rel, listing[..i], algorithm).Some?
        invariant files == old(files) + ScanListing(path, rel, listing[..i], algorithm).value
      {
        var entry := listing[i];
        assert entry in listing;
        var fullPath := path + "/" + entry.name;
        var relPath := rel + [entry.name];
        ScanListingStep(path, rel, listing, i, algorithm);
        ghost var before := ScanListing(path, rel, listing[..i], algorithm).value;
        match entry.node {
          case Dir(children) =>
            ok := RecursiveList(fullPath, relPath, children);
            if !ok {
              ScanListingFailure(path, rel, listing, i + 1, algorithm);
              return;
            }
            UnionAssociative(old(files), before, ScanListing(fullPath, relPath, children, algorithm).value);
          case File(content) =>
            var checksum, _ := Checksum.CalculateRemoteChecksum(content, delivery, algorithm);
            files := files[Join(relPath) := RemoteRecord(checksum, fullPath)];
            UnionAssociative(old(files), before, map[Join(relPath) := RemoteRecord(checksum, fullPath)]);
          case LockedDir(_) =>
            // the recursive call's `listdir_attr(full_path)` raises
            ScanListingFailure(path, rel, listing, i + 1, algorithm);
            return false;
          case UnreadableFile =>
            ScanListingFailure(path, rel, listing, i + 1, algorithm);
            return false;
        }
      }
      assert listing[..|listing|] == listing;
      ok := true;
    }
  }

  /** `get_remote_files(sftp, base_path)`: a fresh dictionary filled by the
      recursive listing of the base path; `None` when the scan raised,
      including when the base itself cannot be listed. */
  method GetRemoteFiles(basePath: string, root: Node, algorithm: Bytes -> Digest, delivery: nat -> nat)
    returns (result: Option<Snapshot>)
    ensures result == RemoteSnapshot(basePath, root, algorithm)
  {
    if !root.Dir? {
      return None;
    }
    var scanner := new RemoteScanner(algorithm, delivery);
    var ok := scanner.RecursiveList(basePath, [], root.entries);
    if ok {
      assert map[] + RemoteSnapshot(basePath, root, algorithm).value == RemoteSnapshot(basePath, root, algorithm).value;
      result := Some(scanner.files);
    } else {
      result := None;
    }
  }
}
