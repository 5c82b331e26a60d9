/** The differ `compare_files`: from a source (local) snapshot and a
    destination (remote) snapshot it derives the added, deleted and modified
    relative paths; the report step derives the unchanged ones. */
module Differ {
  import opened Tree

  datatype Diff = Diff(added: set<string>, deleted: set<string>, modified: set<string>)

  /** `compare_files(source_files, dest_files)`. */
  function CompareFiles(source: Snapshot, dest: Snapshot): (d: Diff)
    ensures d.added !! d.deleted && d.added !! d.modified && d.deleted !! d.modified
    ensures d.modified <= source.Keys * dest.Keys
    ensures d.added + d.deleted + d.modified <= source.Keys + dest.Keys
  {
    var sourceSet, destSet := source.Keys, dest.Keys;
    Diff(sourceSet - destSet,
         destSet - sourceSet,
         set file | file in sourceSet * destSet && source[file].checksum != dest[file].checksum)
  }

  /** `set(source_files.keys()) & set(dest_files.keys()) - modified` as Python
      groups it: `-` binds tighter than `&`, so this is S & (D - modified). */
  function UnchangedPaths(source: Snapshot, dest: Snapshot, modified: set<string>): set<string>
  {
    source.Keys * (dest.Keys - modified)
  }

  /** The class of one relative path, decided directly from the two
      snapshots. */
  datatype Change = Added | Deleted | Modified | Unchanged | Untracked

  function ChangeOf(source: Snapshot, dest: Snapshot, path: string): Change
  {
    if path in source && path in dest then
      if source[path].checksum == dest[path].checksum then Unchanged else Modified
    else if path in source then Added
    else if path in dest then Deleted
    else Untracked
  }

  /** The three reported sets and the unchanged set are exactly the paths of
      each class. */
  lemma CompareFilesClassifies(source: Snapshot, dest: Snapshot, path: string)
    ensures var d := CompareFiles(source, dest);
      && (path in d.added <==> ChangeOf(source, dest, path) == Added)
      && (path in d.deleted <==> ChangeOf(source, dest, path) == Deleted)
      && (path in d.modified <==> ChangeOf(source, dest, path) == Modified)
      && (path in UnchangedPaths(source, dest, d.modified) <==> ChangeOf(source, dest, path) == Unchanged)
  {
  }

  /** Grouping does not matter: S & (D - M) == (S & D) - M for every M. */
  lemma UnchangedGrouping(source: Snapshot, dest: Snapshot, modified: set<string>)
    ensures UnchangedPaths(source, dest, modified) == (source.Keys * dest.Keys) - modified
  {
  }

  /** Added, deleted, modified and unchanged are pairwise disjoint and together
      cover every path of either snapshot. */
  lemma ClassificationPartitions(source: Snapshot, dest: Snapshot)
    ensures var d := CompareFiles(source, dest);
      var rest := UnchangedPaths(source, dest, d.modified);
      && d.added + d.deleted + d.modified + rest == source.Keys + dest.Keys
      && d.added !! rest && d.deleted !! rest && d.modified !! rest
  {
    var d := CompareFiles(source, dest);
    var rest := UnchangedPaths(source, dest, d.modified);
    forall path | path in source.Keys + dest.Keys
      ensures path in d.added + d.deleted + d.modified + rest
    {
      CompareFilesClassifies(source, dest, path);
    }
  }

  /** Two snapshots with the same paths and the same checksum at every path
      differ nowhere: nothing added, deleted or modified, all unchanged. */
  lemma SameContentNoChanges(source: Snapshot, dest: Snapshot)
    requires source.Keys == dest.Keys
    requires forall k :: k in source ==> source[k].checksum == dest[k].checksum
    ensures CompareFiles(source, dest) == Diff({}, {}, {})
    ensures UnchangedPaths(source, dest, {}) == source.Keys
  {
    var d := CompareFiles(source, dest);
    assert d.modified == {} by {
      forall k | k in d.modified ensures false {
        CompareFilesClassifies(source, dest, k);
      }
    }
  }

  /** Comparing a snapshot with itself reports nothing. */
  lemma SelfCompareEmpty(snapshot: Snapshot)
    ensures CompareFiles(snapshot, snapshot) == Diff({}, {}, {})
    ensures UnchangedPaths(snapshot, snapshot, CompareFiles(snapshot, snapshot).modified) == snapshot.Keys
  {
    SameContentNoChanges(snapshot, snapshot);
  }
}
