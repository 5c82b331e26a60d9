/** Worked examples of the comparison engine on small trees: the expected
    reports for an added/deleted/unchanged mix, for a modified file, and for
    a remediation racing with another process. File contents are ASCII bytes
    ("hi" is [104, 105]). */
module Scenarios {
  import opened Common
  import opened Tree
  import opened LocalScan
  import opened RemoteScan
  import opened Differ
  import opened Remediator

  const Hi: Bytes := [104, 105]
  const X: Bytes := [120]
  const Y: Bytes := [121]
  const Bye: Bytes := [98, 121, 101]

  /** Local tree {a.txt: "hi", sub/b.txt: "x"}. */
  function LocalTree(): Node
  {
    Dir([Entry("a.txt", File(Hi)), Entry("sub", Dir([Entry("b.txt", File(X))]))])
  }

  /** Remote tree {a.txt: "hi", c.txt: "y"}. */
  function RemoteTree(): Node
  {
    Dir([Entry("a.txt", File(Hi)), Entry("c.txt", File(Y))])
  }

  lemma LocalTreeSnapshot(algorithm: Bytes -> Digest)
    ensures LocalSnapshot(LocalTree(), algorithm)
         == Some(map["a.txt" := LocalRecord(algorithm(Hi)), "sub/b.txt" := LocalRecord(algorithm(X))])
  {
    var a, b := Entry("a.txt", File(Hi)), Entry("b.txt", File(X));
    var sub := Entry("sub", Dir([b]));
    var va, vs, vb := Visit(["a.txt"], a.node), Visit(["sub"], sub.node), Visit(["sub", "b.txt"], b.node);
    assert [a, sub][..1] == [a] && [a][..0] == [] && [b][..0] == [];
    assert [] + ["a.txt"] == ["a.txt"] && [] + ["sub"] == ["sub"] && ["sub"] + ["b.txt"] == ["sub", "b.txt"];
    assert Walk([], [a]) == [va];
    assert Walk(["sub"], [b]) == [vb];
    assert WalkEntry([], sub) == [vs, vb];
    var w := [va, vs, vb];
    assert WalkRoot(LocalTree()) == w;
    assert w[..2] == [va, vs] && [va, vs][..1] == [va] && [va][..0] == [];
    var ra, rb := LocalRecord(algorithm(Hi)), LocalRecord(algorithm(X));
    assert Join(["a.txt"]) == "a.txt";
    assert Join(["sub", "b.txt"]) == "sub/b.txt" by {
      assert ["sub", "b.txt"][..1] == ["sub"];
    }
    assert Collect([], LocalSide, algorithm) == Some(map[]);
    assert Recorded(va, LocalSide, algorithm) == Some(map["a.txt" := ra]);
    assert map[] + map["a.txt" := ra] == map["a.txt" := ra];
    assert Collect([va], LocalSide, algorithm) == Some(map["a.txt" := ra]);
    assert map["a.txt" := ra] + map[] == map["a.txt" := ra];
    assert Collect([va, vs], LocalSide, algorithm) == Some(map["a.txt" := ra]);
    assert Recorded(vb, LocalSide, algorithm) == Some(map["sub/b.txt" := rb]);
    assert map["a.txt" := ra] + map["sub/b.txt" := rb] == map["a.txt" := ra, "sub/b.txt" := rb];
  }

  lemma RemoteTreeSnapshot(algorithm: Bytes -> Digest)
    ensures RemoteSnapshot("/srv", RemoteTree(), algorithm)
         == Some(map["a.txt" := RemoteRecord(algorithm(Hi), "/srv/a.txt"),
                     "c.txt" := RemoteRecord(algorithm(Y), "/srv/c.txt")])
  {
    var a, c := Entry("a.txt", File(Hi)), Entry("c.txt", File(Y));
    assert RemoteTree().entries == [a, c];
    assert [a, c][..1] == [a] && [a][..0] == [];
    assert [] + ["a.txt"] == ["a.txt"] && [] + ["c.txt"] == ["c.txt"];
    assert Join(["a.txt"]) == "a.txt" && Join(["c.txt"]) == "c.txt";
    var ra := RemoteRecord(algorithm(Hi), "/srv/a.txt");
    var rc := RemoteRecord(algorithm(Y), "/srv/c.txt");
    assert ScanListing("/srv", [], [], algorithm) == Some(map[]);
    assert "/srv" + "/" + "a.txt" == "/srv/a.txt" && "/srv" + "/" + "c.txt" == "/srv/c.txt";
    assert ScanEntry("/srv", [], a, algorithm) == Some(map["a.txt" := ra]);
    assert ScanEntry("/srv", [], c, algorithm) == Some(map["c.txt" := rc]);
    assert map[] + map["a.txt" := ra] == map["a.txt" := ra];
    assert ScanListing("/srv", [], [a], algorithm) == Some(map["a.txt" := ra]);
    assert map["a.txt" := ra] + map["c.txt" := rc] == map["a.txt" := ra, "c.txt" := rc];
  }

  /** Local {a.txt: "hi", sub/b.txt: "x"} against remote {a.txt: "hi",
      c.txt: "y"}: sub/b.txt added, c.txt deleted, nothing modified, a.txt
      unchanged. */
  lemma ScenarioAddedDeletedUnchanged(algorithm: Bytes -> Digest)
    ensures LocalSnapshot(LocalTree(), algorithm).Some? && RemoteSnapshot("/srv", RemoteTree(), algorithm).Some?
    ensures var source, dest := LocalSnapshot(LocalTree(), algorithm).value, RemoteSnapshot("/srv", RemoteTree(), algorithm).value;
      && CompareFiles(source, dest) == Diff({"sub/b.txt"}, {"c.txt"}, {})
      && UnchangedPaths(source, dest, {}) == {"a.txt"}
  {
    LocalTreeSnapshot(algorithm);
    RemoteTreeSnapshot(algorithm);
    var source, dest := LocalSnapshot(LocalTree(), algorithm).value, RemoteSnapshot("/srv", RemoteTree(), algorithm).value;
    assert source.Keys == {"a.txt", "sub/b.txt"} && dest.Keys == {"a.txt", "c.txt"};
    assert source["a.txt"].checksum == dest["a.txt"].checksum;
    assert CompareFiles(source, dest).modified == {};
  }

  /** Local {a.txt: "hi"} against remote {a.txt: "bye"}, for a digest that
      tells the two contents apart: a.txt modified, nothing added or
      deleted. */
  lemma ScenarioModified(algorithm: Bytes -> Digest)
    requires algorithm(Hi) != algorithm(Bye)
    ensures LocalSnapshot(Dir([Entry("a.txt", File(Hi))]), algorithm).Some?
    ensures RemoteSnapshot("/srv", Dir([Entry("a.txt", File(Bye))]), algorithm).Some?
    ensures CompareFiles(LocalSnapshot(Dir([Entry("a.txt", File(Hi))]), algorithm).value,
                         RemoteSnapshot("/srv", Dir([Entry("a.txt", File(Bye))]), algorithm).value)
         == Diff({}, {}, {"a.txt"})
  {
    var a, a' := Entry("a.txt", File(Hi)), Entry("a.txt", File(Bye));
    var va := Visit(["a.txt"], a.node);
    assert [a][..0] == [] && [a'][..0] == [] && [va][..0] == [];
    assert [] + ["a.txt"] == ["a.txt"];
    assert Join(["a.txt"]) == "a.txt";
    assert Walk([], [a]) == [va];
    var source := map["a.txt" := LocalRecord(algorithm(Hi))];
    assert Recorded(va, LocalSide, algorithm) == Some(source);
    assert map[] + source == source;
    assert Collect([], LocalSide, algorithm) == Some(map[]);
    assert Collect([va], LocalSide, algorithm) == Some(source);
    assert LocalSnapshot(Dir([a]), algorithm) == Some(source);
    var dest := map["a.txt" := RemoteRecord(algorithm(Bye), "/srv/a.txt")];
    assert "/srv" + "/" + "a.txt" == "/srv/a.txt";
    assert ScanEntry("/srv", [], a', algorithm) == Some(dest);
    assert map[] + dest == dest;
    assert ScanListing("/srv", [], [], algorithm) == Some(map[]);
    assert ScanListing("/srv", [], [a'], algorithm) == Some(dest);
    assert RemoteSnapshot("/srv", Dir([a']), algorithm) == Some(dest);
    assert "a.txt" in CompareFiles(source, dest).modified;
  }

  /** Local directory d cannot be listed but holds f: "x"; the remote copy
      holds d/f: "x" as well. The local scan passes over d and succeeds with
      no files, so d/f is reported deleted and its remote copy is what the
      remediator would remove, although the file exists locally. */
  lemma ScenarioLockedLocalDirectory(algorithm: Bytes -> Digest)
    ensures LocalSnapshot(Dir([Entry("d", LockedDir([Entry("f", File(X))]))]), algorithm) == Some(map[])
    ensures RemoteSnapshot("/srv", Dir([Entry("d", Dir([Entry("f", File(X))]))]), algorithm)
         == Some(map["d/f" := RemoteRecord(algorithm(X), "/srv/d/f")])
    ensures CompareFiles(map[], map["d/f" := RemoteRecord(algorithm(X), "/srv/d/f")]) == Diff({}, {"d/f"}, {})
    ensures Target("/srv", "d/f") == "/srv/d/f"
  {
    var d := Entry("d", LockedDir([Entry("f", File(X))]));
    var vd := Visit(["d"], d.node);
    assert [d][..0] == [] && [] + ["d"] == ["d"];
    assert Walk([], [d]) == [vd];
    assert [vd][..0] == [];
    var empty: Snapshot := map[];
    assert empty + empty == empty;
    assert Collect([vd], LocalSide, algorithm) == Some(map[]);
    var f := Entry("f", File(X));
    var d' := Entry("d", Dir([f]));
    var rf := RemoteRecord(algorithm(X), "/srv/d/f");
    assert [d'][..0] == [] && [f][..0] == [];
    assert ["d"] + ["f"] == ["d", "f"];
    assert Join(["d", "f"]) == "d/f" by {
      assert ["d", "f"][..1] == ["d"];
    }
    assert "/srv" + "/" + "d" == "/srv/d" && "/srv/d" + "/" + "f" == "/srv/d/f";
    assert ScanListing("/srv/d", ["d"], [], algorithm) == Some(map[]);
    assert ScanEntry("/srv/d", ["d"], f, algorithm) == Some(map["d/f" := rf]);
    assert map[] + map["d/f" := rf] == map["d/f" := rf];
    assert ScanListing("/srv/d", ["d"], [f], algorithm) == Some(map["d/f" := rf]);
    assert ScanEntry("/srv", [], d', algorithm) == Some(map["d/f" := rf]);
    assert ScanListing("/srv", [], [], algorithm) == Some(map[]);
  }

  /** Remediation of {c.txt} after another process already removed it: the
      removal is reported as not found, the call returns normally, and the
      store is left as it was. */
  method ScenarioVanishedFile() returns (report: map<string, Outcome>, left: set<string>)
    ensures report == map["c.txt" := NotFound]
    ensures left == {"/srv/a.txt"}
  {
    var store := new RemoteStore({"/srv/a.txt"}, {});
    report := DeleteRemoteFiles(store, {"c.txt"}, "/srv");
    assert Target("/srv", "c.txt") == "/srv/c.txt";
    assert RemovedTargets("/srv", {"c.txt"}, {}) == {"/srv/c.txt"};
    left := store.present;
  }
}
