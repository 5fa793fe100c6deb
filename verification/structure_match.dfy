/**
 The tests' structure matcher. A shape lists the names a node must have; each
 name maps either to `Any` (the test's nil: any subtree is accepted) or to a
 nested shape its child must match in turn.
 */
module StructureMatch {
  import opened FileTree

  datatype Nest = Any | Nested(shape: Shape)
  datatype Shape = Shape(entries: map<string, Nest>)

  /**
   Declarative reading of the matcher: the node's child names are exactly the
   shape's names, and every nested shape matches the child of the same name.
   */
  predicate Matches(n: Node, s: Shape)
    decreases s
  {
    && n.children.Keys == s.entries.Keys
    && forall k :: k in s.entries && s.entries[k].Nested? ==> Matches(n.children[k], s.entries[k].shape)
  }

  /**
   The matcher as the test writes it: visit the shape's names in any order,
   fail on a missing name or a failing nested shape, count the names, and
   finally compare the count with the node's number of children.
   */
  method HasStructureLike(fts: Node, ftss: Shape) returns (ok: bool)
    ensures ok <==> Matches(fts, ftss)
    decreases ftss
  {
    var estLen := 0;
    var seen: set<string> := {};
    var rest := ftss.entries.Keys;
    while rest != {}
      invariant seen + rest == ftss.entries.Keys && seen !! rest
      invariant estLen == |seen|
      invariant seen <= fts.children.Keys
      invariant forall k :: k in seen && ftss.entries[k].Nested? ==> Matches(fts.children[k], ftss.entries[k].shape)
      decreases rest
    {
      var name :| name in rest;
      if name !in fts.children {
        return false;
      }
      if ftss.entries[name].Nested? {
        var childOk := HasStructureLike(fts.children[name], ftss.entries[name].shape);
        if !childOk {
          return false;
        }
      }
      estLen := estLen + 1;
      seen := seen + {name};
      rest := rest - {name};
    }
    ok := |fts.children| == estLen;
    CountDecidesNames(fts.children.Keys, seen);
  }

  /** Once every name of the shape is known to be a child, the count check decides key-set equality. */
  lemma CountDecidesNames<T>(children: set<T>, names: set<T>)
    requires names <= children
    ensures |children| == |names| <==> children == names
  {
    if |children| == |names| {
      SubsetOfSameSizeIsEqual(names, children);
    }
  }

  lemma SubsetOfSameSizeIsEqual<T>(a: set<T>, b: set<T>)
    requires a <= b && |a| == |b|
    ensures a == b
  {
    assert |b - a| == |b| - |a|;
  }

  /** A name mapped to `Any` only checks presence: its subtree may be replaced freely. */
  lemma AnyAcceptsEverySubtree(n: Node, s: Shape, k: string, sub: Node)
    requires k in s.entries && s.entries[k] == Any
    requires k in n.children
    ensures Matches(n, s) <==> Matches(Node(n.isDir, n.mtime, n.children[k := sub]), s)
  {
  }

  /** The empty shape matches exactly the nodes with no children. */
  lemma EmptyShapeMatchesOnlyChildless(n: Node)
    ensures Matches(n, Shape(map[])) <==> n.children == map[]
  {
  }

  /** A shape whose names all map to `Any` checks the set of child names only. */
  lemma FlatShapeChecksNamesOnly(n: Node, names: set<string>)
    ensures Matches(n, Shape(map k | k in names :: Any)) <==> n.children.Keys == names
  {
  }
}
