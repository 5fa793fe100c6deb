/**
 Descending into unpacked data: archives often wrap their payload in one or
 more directories, so the executor walks down while the current directory
 holds exactly one entry and that entry is a directory. Paths are sequences
 of names; appending a name stands for joining it onto the path.
 */
module DataDive {
  import opened Wrappers
  import opened FileTree

  type Path = seq<string>

  datatype DiveError = NotADirectory(path: Path)

  /** A directory whose only entry is itself a directory. */
  predicate IsWrapper(n: Node) {
    && n.isDir
    && |n.children| == 1
    && forall k :: k in n.children ==> n.children[k].isDir
  }

  /** The name of the only entry of a one-entry map. */
  function OnlyKey(m: map<string, Node>): (k: string)
    requires |m| == 1
    ensures m.Keys == {k}
  {
    var k :| k in m;
    assert |m.Keys - {k}| == 0;
    k
  }

  /** `names` walks from `n` through wrapper directories only, one name per level. */
  predicate IsWrapperChain(n: Node, names: Path)
    decreases |names|
  {
    names == [] || (IsWrapper(n) && names[0] in n.children && IsWrapperChain(n.children[names[0]], names[1..]))
  }

  /** The node reached by following a wrapper chain. */
  function ChainEnd(n: Node, names: Path): Node
    requires IsWrapperChain(n, names)
    decreases |names|
  {
    if names == [] then n else ChainEnd(n.children[names[0]], names[1..])
  }

  /**
   The directory the control script is placed in: `workdir` followed by the
   longest chain of single-directory wrappers below it. Listing a
   non-directory fails (`diveIntoData` aborts the process there).
   */
  function Dive(workdir: Path, n: Node): (r: Result<Path, DiveError>)
    ensures r.Failure? <==> !n.isDir
    ensures r.Failure? ==> r.error == NotADirectory(workdir)
    ensures r.Success? ==> |workdir| <= |r.value| && r.value[..|workdir|] == workdir
    ensures r.Success? ==> IsWrapperChain(n, r.value[|workdir|..])
                           && !IsWrapper(ChainEnd(n, r.value[|workdir|..]))
    decreases n
  {
    if !n.isDir then
      Failure(NotADirectory(workdir))
    else if IsWrapper(n) then
      var name := OnlyKey(n.children);
      var r := Dive(workdir + [name], n.children[name]);
      assert r.value[|workdir|..] == [name] + r.value[|workdir| + 1..];
      r
    else
      Success(workdir)
  }

  /**
   The dive's result is the only maximal wrapper chain: any chain of wrapper
   directories that ends at a non-wrapper is exactly what `Dive` appends.
   */
  lemma {:induction false} DiveIsTheMaximalChain(workdir: Path, n: Node, names: Path)
    requires n.isDir
    requires IsWrapperChain(n, names) && !IsWrapper(ChainEnd(n, names))
    ensures Dive(workdir, n) == Success(workdir + names)
    decreases |names|
  {
    if names == [] {
      assert workdir + names == workdir;
    } else {
      var name := OnlyKey(n.children);
      assert names[0] == name;
      DiveIsTheMaximalChain(workdir + [name], n.children[name], names[1..]);
      assert workdir + [name] + names[1..] == workdir + names;
      assert Dive(workdir, n) == Dive(workdir + [name], n.children[name]);
    }
  }

  /** The dive stays put exactly when the directory is not a single-directory wrapper. */
  lemma DiveStopsAtNonWrapper(workdir: Path, n: Node)
    requires n.isDir
    ensures Dive(workdir, n) == Success(workdir) <==> !IsWrapper(n)
  {
  }
}
