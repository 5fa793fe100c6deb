/**
 The before/after change-tree diff. Given two snapshots of the same root, the
 diff keeps only entries that are new, whose kind changed, files whose
 modification time changed, and directories with such an entry beneath them.
 Deletions are not represented, and "no changes anywhere" is the distinct
 value `None` rather than an empty tree.
 */
module TreeDiff {
  import opened Wrappers
  import opened FileTree

  /**
   Independent reference: the entry named `k` of the "after" directory, `an`,
   is a change relative to the "before" entries `bs`.
   */
  predicate EntryChanged(bs: map<string, Node>, k: string, an: Node)
    decreases an, 1
  {
    || k !in bs
    || bs[k].isDir != an.isDir
    || (!an.isDir && bs[k].mtime != an.mtime)
    || (an.isDir && HasChanges(bs[k], an))
  }

  /** Some entry anywhere under `after` is new or modified relative to `before`. */
  predicate HasChanges(before: Node, after: Node)
    decreases after, 0
  {
    exists k :: k in after.children && EntryChanged(before.children, k, after.children[k])
  }

  /**
   The change tree for one entry: the whole "after" entry when it is new, when
   its kind changed or when it is a file whose time changed; the recursive
   diff when it is a directory on both sides; nothing otherwise.
   */
  function DiffEntry(bs: map<string, Node>, k: string, an: Node): (r: Option<Node>)
    ensures r.Some? <==> EntryChanged(bs, k, an)
    ensures r.Some? ==> Within(r.value, an)
    ensures r.Some? && (k !in bs || bs[k].isDir != an.isDir || !an.isDir) ==> r.value == an
    decreases an, 4
  {
    if k in bs && bs[k].isDir && an.isDir then
      Diff(bs[k], an)
    else if k !in bs || bs[k].isDir != an.isDir || bs[k].mtime != an.mtime then
      WithinReflexive(an);
      Some(an)
    else
      None
  }

  /** The changed entries of `after`, each reduced to its own change tree. */
  function ChangedEntries(before: Node, after: Node): (r: map<string, Node>)
    ensures r.Keys == set k | k in after.children && EntryChanged(before.children, k, after.children[k])
    ensures forall k :: k in r ==> Within(r[k], after.children[k])
    decreases after, 2
  {
    map k | k in after.children && DiffEntry(before.children, k, after.children[k]).Some?
      :: DiffEntry(before.children, k, after.children[k]).value
  }

  /**
   The diff of two snapshots of the same root (the root's own name and time
   are not compared). `None` means no entry anywhere changed; otherwise the
   result is a non-empty tree rooted like `after` that lies within `after`.
   */
  function Diff(before: Node, after: Node): (r: Option<Node>)
    ensures r.None? <==> !HasChanges(before, after)
    ensures r.Some? ==> Within(r.value, after) && r.value.children != map[]
    decreases after, 3
  {
    var changes := ChangedEntries(before, after);
    if changes == map[] then
      None
    else
      assert exists k :: k in changes && EntryChanged(before.children, k, after.children[k]);
      Some(Node(after.isDir, after.mtime, changes))
  }

  /** A snapshot compared with itself has no changes, however deep it is. */
  lemma {:induction false} NoChangesAgainstItself(t: Node)
    ensures !HasChanges(t, t)
    decreases t
  {
    forall k | k in t.children
      ensures !EntryChanged(t.children, k, t.children[k])
    {
      if t.children[k].isDir {
        NoChangesAgainstItself(t.children[k]);
      }
    }
  }

  /** Idempotence: diffing a snapshot against itself yields "no changes". */
  lemma DiffAgainstItself(t: Node)
    ensures Diff(t, t) == None
  {
    NoChangesAgainstItself(t);
  }

  /**
   Additivity: when `after` only adds the entries `added` to `before`, the
   diff is exactly those added subtrees, or "no changes" if none were added.
   */
  lemma DiffOfPureAdditions(before: Node, after: Node, added: map<string, Node>)
    requires before.children.Keys !! added.Keys
    requires after.children == before.children + added
    ensures added == map[] ==> Diff(before, after) == None
    ensures added != map[] ==> Diff(before, after) == Some(Node(after.isDir, after.mtime, added))
  {
    var changes := ChangedEntries(before, after);
    forall k | k in before.children
      ensures !EntryChanged(before.children, k, after.children[k])
    {
      assert after.children[k] == before.children[k];
      if before.children[k].isDir {
        NoChangesAgainstItself(before.children[k]);
      }
    }
    forall k | k in added
      ensures k in changes && changes[k] == added[k]
    {
      assert after.children[k] == added[k];
    }
    assert changes == added;
  }

  /**
   Deletion invisibility: when `after` only removes entries of `before`, the
   diff is "no changes".
   */
  lemma DeletionsAreInvisible(before: Node, after: Node)
    requires after.children.Keys <= before.children.Keys
    requires forall k :: k in after.children ==> after.children[k] == before.children[k]
    ensures Diff(before, after) == None
  {
    forall k | k in after.children
      ensures !EntryChanged(before.children, k, after.children[k])
    {
      if after.children[k].isDir {
        NoChangesAgainstItself(after.children[k]);
      }
    }
  }

  /**
   `after` differs from `before` only by removed entries, at any depth: every
   remaining entry keeps its kind, a file keeps its time, and a directory only
   loses entries below it (its own time is free, since a removal changes it).
   */
  predicate OnlyRemoves(before: Node, after: Node)
    decreases after
  {
    && after.children.Keys <= before.children.Keys
    && forall k :: k in after.children ==>
         && before.children[k].isDir == after.children[k].isDir
         && (!after.children[k].isDir ==> before.children[k].mtime == after.children[k].mtime)
         && (after.children[k].isDir ==> OnlyRemoves(before.children[k], after.children[k]))
  }

  /** Deletion invisibility at any depth: removals alone give "no changes". */
  lemma {:induction false} DeletionsAtAnyDepthAreInvisible(before: Node, after: Node)
    requires OnlyRemoves(before, after)
    ensures Diff(before, after) == None
    decreases after
  {
    forall k | k in after.children
      ensures !EntryChanged(before.children, k, after.children[k])
    {
      if after.children[k].isDir {
        DeletionsAtAnyDepthAreInvisible(before.children[k], after.children[k]);
      }
    }
  }

  /**
   `after` differs from `before` only by added entries, at any depth: every
   entry of `before` is still there with its kind, a file keeps its time, and
   a directory only gains entries below it (its own time is free).
   */
  predicate OnlyAdds(before: Node, after: Node)
    decreases after
  {
    && before.children.Keys <= after.children.Keys
    && forall k :: k in before.children ==>
         && before.children[k].isDir == after.children[k].isDir
         && (!after.children[k].isDir ==> before.children[k].mtime == after.children[k].mtime)
         && (after.children[k].isDir ==> OnlyAdds(before.children[k], after.children[k]))
  }

  /** Some name of `after`, at some depth, is not in `before`. */
  predicate AddedBelow(before: Node, after: Node)
    decreases after
  {
    exists k :: k in after.children &&
      (|| k !in before.children
       || (before.children[k].isDir && after.children[k].isDir
           && AddedBelow(before.children[k], after.children[k])))
  }

  /**
   Additivity at any depth: when `after` only adds entries, it has changes
   exactly when some name was added somewhere, and every name the diff keeps
   is either new or a directory leading to something new.
   */
  lemma {:induction false} AdditionsAtAnyDepthAreVisible(before: Node, after: Node)
    requires OnlyAdds(before, after)
    ensures HasChanges(before, after) <==> AddedBelow(before, after)
    ensures Diff(before, after).Some? ==>
              forall k :: k in Diff(before, after).value.children ==>
                k !in before.children || after.children[k].isDir
    decreases after
  {
    forall k | k in after.children
      ensures EntryChanged(before.children, k, after.children[k])
              <==> (|| k !in before.children
                    || (before.children[k].isDir && after.children[k].isDir
                        && AddedBelow(before.children[k], after.children[k])))
    {
      if k in before.children && after.children[k].isDir {
        AdditionsAtAnyDepthAreVisible(before.children[k], after.children[k]);
      }
    }
  }

  /** The diff of a well-formed snapshot is well formed: no kept file carries entries. */
  lemma DiffIsWellFormed(before: Node, after: Node)
    requires WellFormed(after)
    ensures Diff(before, after).Some? ==> WellFormed(Diff(before, after).value)
  {
    if Diff(before, after).Some? {
      WithinKeepsWellFormed(Diff(before, after).value, after);
    }
  }

  /**
   Pruning: an entry identical on both sides never appears in the diff, even
   when it is a directory holding a deep subtree.
   */
  lemma UnchangedEntryIsPruned(before: Node, after: Node, k: string)
    requires k in before.children && k in after.children
    requires before.children[k] == after.children[k]
    ensures Diff(before, after).Some? ==> k !in Diff(before, after).value.children
  {
    if after.children[k].isDir {
      NoChangesAgainstItself(after.children[k]);
    }
  }

  /**
   A new entry is kept whole, with every descendant, even an empty directory;
   so the diff is not "no changes".
   */
  lemma NewEntryIsKeptWhole(before: Node, after: Node, k: string)
    requires k in after.children && k !in before.children
    ensures Diff(before, after).Some?
    ensures k in Diff(before, after).value.children
    ensures Diff(before, after).value.children[k] == after.children[k]
  {
  }

  /**
   A directory present on both sides appears in the diff exactly when
   something beneath it changed, and then as its own diff, listing only the
   changed entries below it.
   */
  lemma SharedDirectoryAppearsAsItsDiff(before: Node, after: Node, k: string)
    requires k in before.children && k in after.children
    requires before.children[k].isDir && after.children[k].isDir
    ensures Diff(before, after).Some? && k in Diff(before, after).value.children
            <==> HasChanges(before.children[k], after.children[k])
    ensures Diff(before, after).Some? && k in Diff(before, after).value.children
            ==> Diff(before, after).value.children[k] == Diff(before.children[k], after.children[k]).value
  {
    if HasChanges(before.children[k], after.children[k]) {
      assert EntryChanged(before.children, k, after.children[k]);
      assert ChangedEntries(before, after)[k] == DiffEntry(before.children, k, after.children[k]).value;
    }
  }

  /** An entry identical to the one of the same name before the run is not a change. */
  lemma IdenticalEntryIsUnchanged(bs: map<string, Node>, k: string, an: Node)
    requires k in bs && bs[k] == an
    ensures !EntryChanged(bs, k, an)
  {
    if an.isDir {
      NoChangesAgainstItself(an);
    }
  }

  /** The changed names are the given set when each entry of `after` is a change exactly when it is named there. */
  lemma ChangedNamesAre(before: Node, after: Node, kept: set<string>)
    requires kept <= after.children.Keys
    requires forall k :: k in after.children ==> (EntryChanged(before.children, k, after.children[k]) <==> k in kept)
    ensures ChangedEntries(before, after).Keys == kept
  {
  }
}
