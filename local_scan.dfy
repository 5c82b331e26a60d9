/** The local tree scanner `get_local_files`: every path under the base
    directory is enumerated (`Path(base_path).rglob('*')`), and each one that
    is a file is recorded under its path relative to the base, with its
    checksum. The enumeration passes over a directory it cannot list, and
    yields nothing at all when the base itself is not a listable directory. */
module LocalScan {
  import opened Common
  import opened Tree
  import Checksum

  /** The snapshot the local scan of the base `root` produces; `None` when
      reading a file raises. */
  function LocalSnapshot(root: Node, algorithm: Bytes -> Digest): Option<Snapshot>
  {
    Collect(WalkRoot(root), LocalSide, algorithm)
  }

  /** What the local scan promises: it succeeds exactly when no enumerated
      file is unreadable, and then records one key per enumerated file (its
      relative path joined by "/"), never a directory, holding the digest of
      a file found there. Files below a directory that cannot be listed are
      not enumerated, so they have no key. */
  lemma LocalSnapshotRecordsFiles(root: Node, algorithm: Bytes -> Digest)
    ensures LocalSnapshot(root, algorithm).Some? <==> forall v :: v in WalkRoot(root) ==> !v.node.UnreadableFile?
    ensures LocalSnapshot(root, algorithm).Some? ==>
              var m := LocalSnapshot(root, algorithm).value;
              && m.Keys == (set v | v in WalkRoot(root) && v.node.File? :: Join(v.names))
              && (forall k :: k in m ==>
                    (exists v :: v in WalkRoot(root) && v.node.File?
                       && Join(v.names) == k && m[k].checksum == algorithm(v.node.content)))
  {
    var w := WalkRoot(root);
    CollectSucceeds(w, LocalSide, algorithm);
    if Collect(w, LocalSide, algorithm).Some? {
      CollectKeys(w, LocalSide, algorithm);
      CollectChecksums(w, LocalSide, algorithm);
    }
  }

  /** A directory that cannot be listed, wherever it sits in the base
      listing, changes nothing in the local snapshot: whatever it holds is
      neither recorded nor a cause of failure. */
  lemma LockedDirectoryIgnored(before: seq<Entry>, name: string, hidden: seq<Entry>, after: seq<Entry>,
                               algorithm: Bytes -> Digest)
    ensures LocalSnapshot(Dir(before + [Entry(name, LockedDir(hidden))] + after), algorithm)
         == LocalSnapshot(Dir(before + after), algorithm)
  {
    var locked := Entry(name, LockedDir(hidden));
    var visit := Visit([name], locked.node);
    var wb, wa := Walk([], before), Walk([], after);
    assert WalkRoot(Dir(before + [locked] + after)) == wb + [visit] + wa by {
      WalkAppend([], before + [locked], after);
      WalkAppend([], before, [locked]);
      assert [locked][..0] == [] && [] + [name] == [name];
    }
    assert WalkRoot(Dir(before + after)) == wb + wa by {
      WalkAppend([], before, after);
    }
    assert Collect(wb + [visit], LocalSide, algorithm) == Collect(wb, LocalSide, algorithm) by {
      CollectAppend(wb, [visit], LocalSide, algorithm);
      assert [visit][..0] == [];
      var c := Collect(wb, LocalSide, algorithm);
      if c.Some? {
        assert c.value + (map[] + map[]) == c.value;
      }
    }
    CollectAppend(wb + [visit], wa, LocalSide, algorithm);
    CollectAppend(wb, wa, LocalSide, algorithm);
  }

  /** `get_local_files(base_path)`: fills a fresh dictionary path by path,
      skipping every path that is not a file; `None` when reading some file
      raised. */
  method GetLocalFiles(root: Node, algorithm: Bytes -> Digest, delivery: nat -> nat)
    returns (result: Option<Snapshot>)
    ensures result == LocalSnapshot(root, algorithm)
  {
    var paths := WalkRoot(root);
    var files: Snapshot := map[];
    for i := 0 to |paths|
      invariant Collect(paths[..i], LocalSide, algorithm) == Some(files)
    {
      var path := paths[i];
      assert paths[..i + 1][..i] == paths[..i] && paths[..i + 1][i] == path;
      match path.node {
        case File(content) =>
          var checksum, _ := Checksum.CalculateLocalChecksum(content, delivery, algorithm);
          assert files + map[Join(path.names) := LocalRecord(checksum)]
              == files[Join(path.names) := LocalRecord(checksum)];
          files := files[Join(path.names) := LocalRecord(checksum)];
        case Dir(_) =>
          assert files + map[] == files;
        case LockedDir(_) =>
          assert files + map[] == files;
        case UnreadableFile =>
          CollectSucceeds(paths, LocalSide, algorithm);
          return None;
      }
    }
    assert paths[..|paths|] == paths;
    result := Some(files);
  }
}
