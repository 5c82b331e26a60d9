# Directory comparer: a verified model of its comparison engine

The two scripts `v1.py` and `v2.py` compare a local directory with the same
directory on one or more servers reached over SFTP. Each run does four
things:

- it scans the local tree and the remote tree into snapshots, which map a
  relative path to a checksum;
- it classifies every path as added, deleted, modified or unchanged;
- it reports the result;
- once the operator confirms, it deletes the remote files that no longer
  exist locally.

The two scripts share this engine apart from its messages: `v1.py` prints
them, while `v2.py` logs them in colour (v1.py:76-80 against v2.py:87-91).
`v2.py` also derives the unchanged paths. This project models the
engine once. Each part cites the file that holds it:

- `calculate_local_checksum` is at v2.py:22-28 and v1.py:6-12.
- `calculate_remote_checksum` is at v2.py:30-39 and v1.py:14-23.
- `get_local_files` is at v2.py:41-48 and v1.py:25-34.
- `get_remote_files` / `recursive_list` is at v2.py:50-65 and v1.py:36-54.
- `compare_files` is at v2.py:67-79 and v1.py:56-68.
- `delete_remote_files` is at v2.py:81-91 and v1.py:70-80.
- The delete gate is at v2.py:137-140 and v1.py:107-110.
- The unchanged set exists only in v2.py, at line 132.

The modules, one file each:

- `Common` (common.dfy) holds the `Option` result, bytes, and path joining.
  `Join` is `str(Path(n1) / ... / nk)`. `Under` is the full path that the
  remote walk builds as `path + "/" + name`.
- `Checksum` (checksum.dfy) is the chunked read loops. `Reader` is an open
  file whose reads may be short. A `delivery` oracle says how many bytes a
  read hands over. `HashAccumulator` is the `hashlib` object: its state is
  the input fed so far. Its digest is the algorithm applied to that input.
  The algorithm is a parameter `Bytes -> Digest`, so no hash internals are
  assumed.
- `Tree` (tree.dfy) models a tree of four kinds of node:
  - `File(bytes)`;
  - `Dir(listing)`;
  - `LockedDir(hidden)`, a directory whose listing raises, together with the
    entries it holds all the same;
  - `UnreadableFile`, a file whose opening or reading raises.

  Each scanner is given the base as a root node. `WalkRoot` enumerates the
  tree below a listable base in depth-first order and does not enter a
  locked directory. `Collect` is the reference definition of a snapshot
  built from that enumeration. Later entries overwrite earlier ones, as a
  dict assignment does. The scan aborts with `None` at a node where that
  side's scanner raises (`Fails`).
- `LocalScan` (local_scan.dfy) is `get_local_files`. It is a loop over the
  enumeration that fills a map and skips everything that is not a file.
  `rglob` passes over a directory it cannot list, and yields nothing when
  the base itself is not a listable directory. So locally only an
  unreadable file makes the scan fail.
- `RemoteScan` (remote_scan.dfy) is `get_remote_files`. The function
  `ScanListing`/`ScanEntry` specifies the recursion. The class
  `RemoteScanner` models the closure. It has the dictionary as a field and a
  recursive method `RecursiveList` with a loop over the listing.
  `listdir_attr` raises on a locked directory, and also on a base that is
  not a listable directory. So remotely both of these make the scan fail, as
  does an unreadable file.
- `Differ` (differ.dfy) is `compare_files`. It also has the unchanged
  expression exactly as Python groups it, and a per-path classifier
  `ChangeOf` as an independent reference.
- `Remediator` (remediator.dfy) is `delete_remote_files`. It works over a
  `RemoteStore` class: the set of present remote paths, plus an oracle set
  of paths whose removal fails with an error other than not-found.
- `Orchestrator` (orchestrator.dfy) holds the confirmation gate and the
  lemmas that join the scanners, the differ and the remediator.
- `Scenarios` (scenarios.dfy) works four small situations through the
  model:
  - a mix of added, deleted and unchanged files;
  - a modified file;
  - a local directory that cannot be listed;
  - a removal of a file that another process already removed.

What the code does, stated plainly:

- Deletion is gated on `auto_delete`, on a non-empty deleted set, and on
  `answer.lower() == 'tak'`. The count of files is shown in the prompt but
  checked nowhere.
- The remote scanner records every entry that is not a directory. The local
  scanner records only what `is_file()` accepts.
- The remediator prints rather than returning a report. The model returns
  the per-path outcomes as a map, which stands for those messages.
- The two scanners treat a directory that cannot be listed differently.
  Locally its files are silently absent from the snapshot. The comparison
  then reports their remote copies as deleted, and "tak" removes them,
  although they exist locally. The same happens to every remote file when
  the local base cannot be listed or does not exist.
  - `Scenarios.ScenarioLockedLocalDirectory` shows the first case.
  - `Orchestrator.LockedLocalBaseDeletesEverything` proves the second.

Python binds `-` tighter than `&`, so line 132 of v2.py computes
`S & (D - modified)`. `Differ.UnchangedGrouping` proves that this equals
`(S & D) - modified` for every set `modified`, not only for the one
`compare_files` returns. The grouping therefore never matters.

## Model

| member | source | states |
|---|---|---|
| `Checksum.Reader.Open` | v2.py:33 | The file is opened at offset 0, over its whole content. |
| `Checksum.Reader.Read` | v2.py:35 | `f.read(size)` returns the next bytes of the file and at most `size` of them. It returns empty only at end of file, and the position advances by the length returned. |
| `Checksum.HashAccumulator.New` | v2.py:32 | A fresh digest object for the chosen algorithm has been fed nothing. |
| `Checksum.HashAccumulator.Update` | v2.py:38 | `update` appends the chunk to the input the digest is taken over. |
| `Checksum.HashAccumulator.HexDigest` | v2.py:39 | `hexdigest()` is the algorithm applied to everything fed. |
| `Checksum.CalculateLocalChecksum` | v2.py:22-28 | The sentinel loop terminates whatever short reads happen. Every fed chunk is non-empty and at most 4096 bytes, the chunks concatenate to the whole file, and the digest is the algorithm applied to the file content. |
| `Checksum.CalculateRemoteChecksum` | v1.py:14-23 | The `while True ... break` loop has the same guarantees: it stops exactly at the empty read, the chunks concatenate to the whole content, and the digest is that of the content. |
| `Common.UnderStep` | v2.py:56-57 | Each level of the recursion extends the full path by "/" and the entry name. The full path is always base + "/" + the relative path. |
| `Tree.CollectSidesAgree` | v2.py:41-65 | The remote scan of an enumeration succeeds exactly when the local scan of it succeeds and no directory in it is locked. When it succeeds, the two have the same keys and equal checksums at every key. |
| `LocalScan.LocalSnapshotRecordsFiles` | v2.py:44-47 | The local scan succeeds exactly when no enumerated file is unreadable. Locked directories are passed over. Its keys are exactly the relative paths of the enumerated files, and directories are never recorded. Each checksum is the digest of a file under that key. |
| `LocalScan.LockedDirectoryIgnored` | v2.py:44-45 | A directory that cannot be listed, wherever it sits in the base listing, leaves the local snapshot exactly as if it were absent, whatever it holds. |
| `LocalScan.GetLocalFiles` | v1.py:25-34 | Filling the dictionary path by path yields exactly the reference snapshot of the enumeration, or `None` when reading a file raises. It skips locked directories, and gives an empty snapshot for a base that cannot be listed. |
| `RemoteScan.ScanListingIsCollect` | v2.py:54-62 | The recursion that threads `full_path` and `rel_path` computes the reference snapshot of the depth-first walk. Each record's full path is base + "/" + its key. |
| `RemoteScan.RemoteSnapshotRecordsFiles` | v1.py:40-51 | The remote scan succeeds exactly when the base is a directory and nothing below it is an unreadable file or a locked directory. It recurses into directories without recording them, and records each file under its joined relative path. Each record has `full_path == base + "/" + key` and the digest of a file under that key. |
| `RemoteScan.RemoteScanner.constructor` | v2.py:52 | The closure starts from an empty dictionary. |
| `RemoteScan.RemoteScanner.RecursiveList` | v2.py:54-62 | After `recursive_list(path, relative_root)` succeeds, the dictionary has gained exactly the scan of that listing. It fails exactly when a listing or a read below raises. |
| `RemoteScan.GetRemoteFiles` | v2.py:50-65 | `get_remote_files` returns exactly the remote snapshot of the base. It returns `None` when the scan raised, including when the base itself cannot be listed. |
| `Differ.CompareFiles` | v2.py:67-79 | Added, deleted and modified are pairwise disjoint. Modified lies within the paths common to both snapshots. All three lie within the union of the paths. |
| `Differ.CompareFilesClassifies` | v2.py:67-79 | A path is added iff only the source has it, deleted iff only the destination has it, modified iff both have it with different checksums, and unchanged iff both have it with equal checksums. |
| `Differ.UnchangedGrouping` | v2.py:132 | `S & (D - M)`, as Python groups it, equals `(S & D) - M` for every M. |
| `Differ.ClassificationPartitions` | v2.py:112-135 | Added, deleted, modified and unchanged together cover exactly the paths of both snapshots, and unchanged is disjoint from the other three. |
| `Differ.SameContentNoChanges` | v2.py:112-132 | Two snapshots with the same paths and equal checksums everywhere report nothing added, deleted or modified, and every path unchanged. |
| `Differ.SelfCompareEmpty` | v2.py:67-79 | Comparing a snapshot with itself yields three empty sets, and every path is unchanged. |
| `Remediator.RemoteStore.Remove` | v2.py:86-91 | `sftp.remove` either removes the path, reports not-found when it is absent, or fails with another error. The path disappears only on success, and nothing else changes. |
| `Remediator.DeleteRemoteFiles` | v2.py:81-91 | Every path of the set is attempted once at `base + "/" + f`, whatever happened to the others. Each outcome is that of the store before remediation began. The store loses exactly the targets whose removal did not fail, so no path outside the set is touched. |
| `Orchestrator.DeletionGateIff` | v2.py:137-140 | Deletion runs iff `auto_delete` is on, the deleted set is non-empty, and the answer is "tak" in any mix of cases (the Kelvin sign counts as 'K'). |
| `Orchestrator.IdenticalTreesReportNoChanges` | v2.py:95-112 | Whenever the remote scan of a copy of the local tree succeeds, the local scan succeeds too. The comparison then reports nothing added, deleted or modified, and every path unchanged. Local and remote digests of the same bytes agree. |
| `Orchestrator.DeletionTargetsAreStaleRemoteFiles` | v1.py:107-110 | Every path handed to deletion was found as a file remotely and is no file the local scan enumerated. The absolute path removed is the `full_path` the scan recorded for it. |
| `Orchestrator.LockedLocalBaseDeletesEverything` | v1.py:84-110 | When the local base cannot be listed, the local scan succeeds empty. Every remote file is reported deleted and passes the gate on "tak". |
| `Scenarios.ScenarioAddedDeletedUnchanged` | v2.py:112-135 | Local {a.txt, sub/b.txt} against remote {a.txt, c.txt} with a.txt identical gives added {sub/b.txt}, deleted {c.txt}, modified {} and unchanged {a.txt}. |
| `Scenarios.ScenarioModified` | v1.py:56-68 | The same path with different content on each side is reported only as modified. |
| `Scenarios.ScenarioLockedLocalDirectory` | v2.py:41-79 | A local directory d that cannot be listed yields an empty local snapshot. Its remote copy d/f is then reported deleted, with the removal target `/srv/d/f`. |
| `Scenarios.ScenarioVanishedFile` | v1.py:70-80 | Removing a file that is already gone is reported as not found. The loop returns normally and the store is unchanged. |

## Left out

- SSH/SFTP session setup, RSA key loading, authentication, and closing the session and client (v2.py:99-109, 144-148). This is network I/O through a foreign library.
- The per-server `try/except/finally` loop and the example invocation at module level (v2.py:93-159 outside the lines above; v1.py:82-129 likewise). This is glue. A scan that raises is modelled as a `None` result, not as the handler that logs it.
- SHA-256 and hex encoding. The digest is an arbitrary function of the whole byte sequence, passed as `algorithm`.
- Coloured logging, `log_colored` and every `print`. The remediator's messages are represented only by the outcome it reports per path.
- `input()`. The answer is a string parameter of the gate.
- `Orchestrator.Lower` handles 'A'..'Z' and the Kelvin sign U+212A. No other character lowers to 't', 'a' or 'k', so the comparison with "tak" is decided as Python decides it. Other characters are not lower-cased by the model.
- Filesystem details of `rglob` and `is_file`: symlinks, special files, and the order in which `rglob` yields paths. Both scanners enumerate the same abstract tree depth first. Order matters only when one directory lists the same name twice, which a real directory does not.
- `LocalScan.LocalSnapshot` treats every listing error below the base as skipped, as `rglob` does for a permission error. Depending on the Python version, another kind of listing error may instead propagate out of `rglob`.
- The remote scanner walks the tree value. It does not re-list each path through the session, so the tree stands for what the session lists at every path.
- Entry names are taken to be plain names: non-empty, without "/", and not "." or "..", as directory listings deliver them. `Join` matches `pathlib` only for such names.
- A POSIX host is assumed. On Windows, `str(rel_path)` (v2.py:46, v2.py:57) joins with "\\". Every nested key would then differ from what `Join` gives. The target `f"{remote_base_path}/{file}"` (v2.py:84) would then no longer equal the recorded `full_path` (v2.py:56), so the `Target(basePath, file) == dest[file].fullPath` conjunct of `Orchestrator.DeletionTargetsAreStaleRemoteFiles` holds only on POSIX.
- I/O errors part-way through a file's stream. Reading either succeeds in full or the entry is an `UnreadableFile`, and the whole scan then fails.
- The remediator's store and the scanned tree are separate values. The model does not tie the store's set of present paths to the tree the scan saw. `Orchestrator.DeletionTargetsAreStaleRemoteFiles` relates the paths removed to the scanned records instead.
