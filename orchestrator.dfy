/** What `compare_directories` does with the engine for one server: the
    local snapshot and the remote snapshot are compared, the unchanged paths
    are derived, and remote deletion runs only behind the confirmation gate.
    The lemmas here tie the scanners, the differ and the remediator
    together. */
module Orchestrator {
  import opened Common
  import opened Tree
  import opened LocalScan
  import opened RemoteScan
  import opened Differ
  import opened Remediator

  /** `str.lower()` on one character, for the characters whose lower case is
      an ASCII letter: 'A'..'Z' and the Kelvin sign, whose lower case is 'k'.
      Every other character is left as it is; none of them lowers to 't',
      'a' or 'k', so comparisons with "tak" are decided as in the source. */
  function LowerChar(c: char): char
  {
    if 'A' <= c <= 'Z' then (c as int + 32) as char
    else if c == '\U{212A}' then 'k'
    else c
  }

  function Lower(s: string): string
  {
    seq(|s|, i requires 0 <= i < |s| => LowerChar(s[i]))
  }

  /** `auto_delete and deleted`: the operator is asked at all. */
  predicate Prompted(autoDelete: bool, deleted: set<string>)
  {
    autoDelete && deleted != {}
  }

  /** The gate in front of `delete_remote_files`: asked, and the answer
      lower-cases to "tak". */
  predicate DeletionConfirmed(autoDelete: bool, deleted: set<string>, answer: string)
  {
    Prompted(autoDelete, deleted) && Lower(answer) == "tak"
  }

  /** The answers that open the gate are exactly the three-letter ones
      spelling "tak" in any mix of cases (the Kelvin sign counting as 'K'),
      and only when auto-delete is on and something is to be deleted. */
  lemma DeletionGateIff(autoDelete: bool, deleted: set<string>, answer: string)
    ensures DeletionConfirmed(autoDelete, deleted, answer)
        <==> autoDelete && deleted != {} && |answer| == 3
             && answer[0] in "tT" && answer[1] in "aA" && answer[2] in "kK\U{212A}"
  {
    var lowered := Lower(answer);
    if |answer| == 3 {
      assert lowered[0] == LowerChar(answer[0]) && lowered[1] == LowerChar(answer[1])
          && lowered[2] == LowerChar(answer[2]);
      assert lowered == "tak" <==> lowered[0] == 't' && lowered[1] == 'a' && lowered[2] == 'k';
    } else {
      assert |lowered| != |"tak"|;
    }
  }

  /** A local tree compared with a remote copy of itself, whenever the
      remote scan of the copy succeeds: the local scan succeeds too, and the
      comparison reports nothing added, deleted or modified, every path
      unchanged. Local and remote digests of the same bytes agree although
      they are read through different loops. */
  lemma IdenticalTreesReportNoChanges(root: Node, basePath: string, algorithm: Bytes -> Digest)
    requires RemoteSnapshot(basePath, root, algorithm).Some?
    ensures LocalSnapshot(root, algorithm).Some?
    ensures var source, dest := LocalSnapshot(root, algorithm).value, RemoteSnapshot(basePath, root, algorithm).value;
      && CompareFiles(source, dest) == Diff({}, {}, {})
      && UnchangedPaths(source, dest, {}) == source.Keys
  {
    RemoteSnapshotIsCollect(basePath, root, algorithm);
    CollectSidesAgree(WalkRoot(root), basePath, algorithm);
    SameContentNoChanges(LocalSnapshot(root, algorithm).value, RemoteSnapshot(basePath, root, algorithm).value);
  }

  /** Every path the remediator is handed (the deleted set) names a file the
      remote scan found and no file the local scan enumerated, and the
      absolute path the remediator removes, `remote_path + "/" + file`, is the
      `full_path` recorded for it by the scan. A file below a local directory
      that cannot be listed is not enumerated, so this does not protect it
      (see `LockedLocalBaseDeletesEverything`). */
  lemma DeletionTargetsAreStaleRemoteFiles(localRoot: Node, basePath: string, remoteRoot: Node,
                                           algorithm: Bytes -> Digest, file: string)
    requires LocalSnapshot(localRoot, algorithm).Some? && RemoteSnapshot(basePath, remoteRoot, algorithm).Some?
    requires file in CompareFiles(LocalSnapshot(localRoot, algorithm).value, RemoteSnapshot(basePath, remoteRoot, algorithm).value).deleted
    ensures var dest := RemoteSnapshot(basePath, remoteRoot, algorithm).value;
      file in dest && dest[file].RemoteRecord? && Target(basePath, file) == dest[file].fullPath
    ensures exists v :: v in WalkRoot(remoteRoot) && v.node.File? && Join(v.names) == file
    ensures forall v :: v in WalkRoot(localRoot) && v.node.File? ==> Join(v.names) != file
  {
    LocalSnapshotRecordsFiles(localRoot, algorithm);
    RemoteSnapshotRecordsFiles(basePath, remoteRoot, algorithm);
    var source := LocalSnapshot(localRoot, algorithm).value;
    forall v | v in WalkRoot(localRoot) && v.node.File? ensures Join(v.names) != file {
      assert Join(v.names) in source.Keys;
    }
  }

  /** When the local base is not a directory that can be listed (locked, a
      file, absent), the local scan still succeeds, with no files, so every
      file of a successful remote scan is reported deleted and, once the
      operator answers "tak", handed to the remediator. */
  lemma LockedLocalBaseDeletesEverything(localRoot: Node, basePath: string, remoteRoot: Node,
                                         algorithm: Bytes -> Digest)
    requires !localRoot.Dir?
    requires RemoteSnapshot(basePath, remoteRoot, algorithm).Some?
    ensures LocalSnapshot(localRoot, algorithm) == Some(map[])
    ensures var dest := RemoteSnapshot(basePath, remoteRoot, algorithm).value;
      && CompareFiles(map[], dest) == Diff({}, dest.Keys, {})
      && (dest.Keys != {} ==> DeletionConfirmed(true, CompareFiles(map[], dest).deleted, "tak"))
  {
    var dest := RemoteSnapshot(basePath, remoteRoot, algorithm).value;
    assert CompareFiles(map[], dest).deleted == dest.Keys;
    assert Lower("tak") == "tak";
  }
}
