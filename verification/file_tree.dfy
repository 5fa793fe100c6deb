/**
 A snapshot of a directory tree: every entry records whether it is a
 directory, its modification time (abstracted to an integer compared only by
 equality) and, for directories, its entries keyed by base name.
 */
module FileTree {

  datatype Node = Node(isDir: bool, mtime: int, children: map<string, Node>)

  /** A file entry: no children, not a directory. */
  function File(mtime: int): Node {
    Node(false, mtime, map[])
  }

  /** A directory entry with the given children. */
  function Dir(mtime: int, children: map<string, Node>): Node {
    Node(true, mtime, children)
  }

  /**
   `d` sits inside `a`: same kind and time at the root, every name of `d` is a
   name of `a`, and recursively so below. A change tree is always `Within`
   the "after" snapshot it was computed from.
   */
  predicate Within(d: Node, a: Node)
    decreases d
  {
    && d.isDir == a.isDir
    && d.mtime == a.mtime
    && d.children.Keys <= a.children.Keys
    && forall k :: k in d.children ==> Within(d.children[k], a.children[k])
  }

  /**
   Snapshots as they are read from disk: a file has no entries, and every
   entry below a directory is well formed too. `File` builds exactly such
   files.
   */
  predicate WellFormed(n: Node)
    decreases n
  {
    && (!n.isDir ==> n.children == map[])
    && forall k :: k in n.children ==> WellFormed(n.children[k])
  }

  /** Whatever lies within a well-formed snapshot is well formed. */
  lemma {:induction false} WithinKeepsWellFormed(d: Node, a: Node)
    requires Within(d, a) && WellFormed(a)
    ensures WellFormed(d)
    decreases d
  {
    forall k | k in d.children
      ensures WellFormed(d.children[k])
    {
      WithinKeepsWellFormed(d.children[k], a.children[k]);
    }
  }

  lemma {:induction false} WithinReflexive(n: Node)
    ensures Within(n, n)
    decreases n
  {
    forall k | k in n.children
      ensures Within(n.children[k], n.children[k])
    {
      WithinReflexive(n.children[k]);
    }
  }
}
