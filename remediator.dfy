/** The remediator `delete_remote_files`: every relative path of the set is
    turned into `remote_base_path + "/" + path` and removed from the remote
    store. A removal ends in one of three ways (removed, not found, another
    error) and none of them stops the loop. */
module Remediator {

  datatype Outcome =
    | Removed    // `sftp.remove` returned
    | NotFound   // `FileNotFoundError`: the file was already gone
    | Failed     // any other exception (permission, connection)

  /** `remote_base_path + "/" + file` */
  function Target(base: string, file: string): string
  {
    base + "/" + file
  }

  /** The outcome of removing `path` from a store holding `present`, where
      removing any path of `refused` raises an error other than not-found. */
  function RemovalOutcome(present: set<string>, refused: set<string>, path: string): Outcome
  {
    if path in refused then Failed
    else if path in present then Removed
    else NotFound
  }

  /** The remote store as the remove capability sees it: the absolute paths of
      the files present, and the paths whose removal fails for a reason other
      than absence. */
  class RemoteStore {
    var present: set<string>
    const refused: set<string>

    constructor (present: set<string>, refused: set<string>)
      ensures this.present == present && this.refused == refused
    {
      this.present := present;
      this.refused := refused;
    }

    /** `sftp.remove(path)`: the path disappears exactly when the removal
        succeeds; nothing else changes. */
    method Remove(path: string) returns (outcome: Outcome)
      modifies this
      ensures outcome == RemovalOutcome(old(present), refused, path)
      ensures present == if outcome == Removed then old(present) - {path} else old(present)
    {
      outcome := RemovalOutcome(present, refused, path);
      if outcome == Removed {
        present := present - {path};
      }
    }
  }

  /** The absolute paths a remediation of `files` removes: every target whose
      removal does not fail (a target already absent stays absent). */
  function RemovedTargets(base: string, files: set<string>, refused: set<string>): set<string>
  {
    set file | file in files && Target(base, file) !in refused :: Target(base, file)
  }

  lemma TargetInjective(base: string, f: string, g: string)
    requires Target(base, f) == Target(base, g)
    ensures f == g
  {
    var n := |base| + 1;
    assert Target(base, f)[n..] == f;
    assert Target(base, g)[n..] == g;
  }

  /** `delete_remote_files(sftp, files_to_delete, remote_base_path)`. The
      report says, for every relative path of the set, how its removal ended
      (the messages the source logs); every path of the set is attempted
      whatever happened to the others, each outcome is that of the store as
      it was before remediation began, and the store loses exactly the
      targets whose removal did not fail. */
  method DeleteRemoteFiles(store: RemoteStore, filesToDelete: set<string>, remoteBasePath: string)
    returns (report: map<string, Outcome>)
    modifies store
    ensures report.Keys == filesToDelete
    ensures forall file :: file in filesToDelete ==>
              report[file] == RemovalOutcome(old(store.present), store.refused, Target(remoteBasePath, file))
    ensures store.present == old(store.present) - RemovedTargets(remoteBasePath, filesToDelete, store.refused)
  {
    report := map[];
    var remaining := filesToDelete;
    while remaining != {}
      invariant remaining <= filesToDelete
      invariant report.Keys == filesToDelete - remaining
      invariant forall file :: file in report ==>
                  report[file] == RemovalOutcome(old(store.present), store.refused, Target(remoteBasePath, file))
      invariant store.present == old(store.present) - RemovedTargets(remoteBasePath, report.Keys, store.refused)
      decreases remaining
    {
      var file :| file in remaining;
      var remoteFilePath := Target(remoteBasePath, file);
      assert remoteFilePath !in RemovedTargets(remoteBasePath, report.Keys, store.refused) by {
        forall g | g in report.Keys && Target(remoteBasePath, g) == remoteFilePath ensures false {
          TargetInjective(remoteBasePath, g, file);
        }
      }
      var outcome := store.Remove(remoteFilePath);
      assert RemovedTargets(remoteBasePath, report.Keys + {file}, store.refused)
          == RemovedTargets(remoteBasePath, report.Keys, store.refused)
             + (if remoteFilePath in store.refused then {} else {remoteFilePath});
      report := report[file := outcome];
      remaining := remaining - {file};
    }
  }
}
