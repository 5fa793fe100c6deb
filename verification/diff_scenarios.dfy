/**
 The three diff scenarios of the repository's tests, on concrete snapshots.
 Times are abstract: a rewritten file gets a later time, an untouched one
 keeps its time, and a directory's own time is irrelevant to the diff.
 */
module DiffScenarios {
  import opened Wrappers
  import opened FileTree
  import opened TreeDiff
  import opened StructureMatch

  /** Three files, before the run. */
  const SimpleBefore: Node :=
    Dir(0, map["file_A.txt" := File(1), "file_B.txt" := File(1), "file_C.txt" := File(1)])

  /** After the run: `file_New.txt` added, `file_A.txt` rewritten, `file_B.txt` removed. */
  const SimpleAfter: Node :=
    Dir(2, map["file_A.txt" := File(2), "file_C.txt" := File(1), "file_New.txt" := File(2)])

  /** The change tree of the simple scenario lists exactly the new and the rewritten file. */
  lemma SimpleScenario()
    ensures Matches(SimpleBefore, Shape(map["file_A.txt" := Any, "file_B.txt" := Any, "file_C.txt" := Any]))
    ensures Diff(SimpleBefore, SimpleAfter).Some?
    ensures Matches(Diff(SimpleBefore, SimpleAfter).value,
                    Shape(map["file_New.txt" := Any, "file_A.txt" := Any]))
  {
    var beforeEntries := SimpleBefore.children;
    var afterEntries := SimpleAfter.children;
    assert EntryChanged(beforeEntries, "file_A.txt", afterEntries["file_A.txt"]);
    assert !EntryChanged(beforeEntries, "file_C.txt", afterEntries["file_C.txt"]);
    assert EntryChanged(beforeEntries, "file_New.txt", afterEntries["file_New.txt"]);
    assert afterEntries.Keys == {"file_A.txt", "file_C.txt", "file_New.txt"};
    assert ChangedEntries(SimpleBefore, SimpleAfter).Keys == {"file_New.txt", "file_A.txt"};
  }

  /** The deep tree of the idempotence test: `A/B/C`, optionally holding one file. */
  function DeepTree(withFile: bool): Node {
    Dir(0, map["A" := Dir(0, map["B" := Dir(0, map["C" := Dir(0,
      if withFile then map["filey.txt" := File(0)] else map[])])])])
  }

  /** An empty directory, three levels of empty directories, and the same holding one file: no changes. */
  lemma IdScenarios()
    ensures Diff(Dir(0, map[]), Dir(0, map[])) == None
    ensures Diff(DeepTree(false), DeepTree(false)) == None
    ensures Diff(DeepTree(true), DeepTree(true)) == None
  {
    DiffAgainstItself(Dir(0, map[]));
    DiffAgainstItself(DeepTree(false));
    DiffAgainstItself(DeepTree(true));
  }

  const DirCBefore: Node := Dir(1, map["file_A" := File(1), "file_B" := File(1)])
  const DirCAfter: Node := Dir(2, map["file_A" := File(1), "file_B" := File(2), "file_C" := File(2)])

  const DirABefore: Node :=
    Dir(1, map["file" := File(1), "Dir_B" := Dir(1, map[]), "Dir_C" := DirCBefore])
  const DirAAfter: Node :=
    Dir(2, map["file" := File(1), "Dir_B" := Dir(1, map[]), "Dir_C" := DirCAfter, "Dir_D" := Dir(2, map[])])

  const AdvancedBefore: Node :=
    Dir(0, map["file_A.txt" := File(1), "file_B.txt" := File(1), "file_C.txt" := File(1), "Dir_A" := DirABefore])
  const AdvancedAfter: Node :=
    Dir(0, map["file_A.txt" := File(1), "file_B.txt" := File(1), "file_C.txt" := File(1), "Dir_A" := DirAAfter])

  /** In `Dir_C`, the untouched `file_A` is pruned; the rewritten `file_B` and the new `file_C` are kept. */
  lemma DirCScenario()
    ensures Diff(DirCBefore, DirCAfter).Some?
    ensures Matches(Diff(DirCBefore, DirCAfter).value, Shape(map["file_B" := Any, "file_C" := Any]))
  {
    var beforeEntries := DirCBefore.children;
    var afterEntries := DirCAfter.children;
    assert afterEntries.Keys == {"file_A", "file_B", "file_C"};
    forall k | k in afterEntries
      ensures EntryChanged(beforeEntries, k, afterEntries[k]) <==> k in {"file_B", "file_C"}
    {
      if k == "file_A" {
        IdenticalEntryIsUnchanged(beforeEntries, k, afterEntries[k]);
      }
    }
    ChangedNamesAre(DirCBefore, DirCAfter, {"file_B", "file_C"});
  }

  /** At the `Dir_A` level, only the new `Dir_D` and the changed `Dir_C` are kept. */
  lemma DirAChangedNames()
    ensures ChangedEntries(DirABefore, DirAAfter).Keys == {"Dir_D", "Dir_C"}
  {
    var beforeEntries := DirABefore.children;
    var afterEntries := DirAAfter.children;
    assert afterEntries.Keys == {"file", "Dir_B", "Dir_C", "Dir_D"};
    forall k | k in afterEntries
      ensures EntryChanged(beforeEntries, k, afterEntries[k]) <==> k in {"Dir_D", "Dir_C"}
    {
      if k == "file" || k == "Dir_B" {
        IdenticalEntryIsUnchanged(beforeEntries, k, afterEntries[k]);
      } else if k == "Dir_C" {
        DirCScenario();
      }
    }
    ChangedNamesAre(DirABefore, DirAAfter, {"Dir_D", "Dir_C"});
  }

  lemma DirAScenario()
    ensures Diff(DirABefore, DirAAfter).Some?
    ensures Matches(Diff(DirABefore, DirAAfter).value,
                    Shape(map["Dir_D" := Any, "Dir_C" := Nested(Shape(map["file_B" := Any, "file_C" := Any]))]))
  {
    DirCScenario();
    DirAChangedNames();
    SharedDirectoryAppearsAsItsDiff(DirABefore, DirAAfter, "Dir_C");
  }

  /** At the root, only `Dir_A` is kept. */
  lemma AdvancedChangedNames()
    ensures ChangedEntries(AdvancedBefore, AdvancedAfter).Keys == {"Dir_A"}
  {
    var beforeEntries := AdvancedBefore.children;
    var afterEntries := AdvancedAfter.children;
    assert afterEntries.Keys == {"file_A.txt", "file_B.txt", "file_C.txt", "Dir_A"};
    forall k | k in afterEntries
      ensures EntryChanged(beforeEntries, k, afterEntries[k]) <==> k in {"Dir_A"}
    {
      if k == "Dir_A" {
        DirAScenario();
      } else {
        IdenticalEntryIsUnchanged(beforeEntries, k, afterEntries[k]);
      }
    }
    ChangedNamesAre(AdvancedBefore, AdvancedAfter, {"Dir_A"});
  }

  /**
   The advanced scenario: only `Dir_A` appears at the root; below it the new
   empty `Dir_D` and `Dir_C` with its rewritten and new files; the untouched
   `Dir_B`, `Dir_A/file` and `Dir_C/file_A` are pruned.
   */
  lemma AdvancedScenario()
    ensures Diff(AdvancedBefore, AdvancedAfter).Some?
    ensures Matches(Diff(AdvancedBefore, AdvancedAfter).value,
                    Shape(map["Dir_A" := Nested(Shape(map[
                      "Dir_D" := Any,
                      "Dir_C" := Nested(Shape(map["file_B" := Any, "file_C" := Any]))]))]))
  {
    DirAScenario();
    AdvancedChangedNames();
    SharedDirectoryAppearsAsItsDiff(AdvancedBefore, AdvancedAfter, "Dir_A");
  }
}
