/**
 The executor's flat before/after record of its working directory: a map from
 the path string each entry was opened under to its modification time and
 kind. The filesystem is abstracted to what opening a name yields, so a bare
 entry name resolves however the process's current directory resolves it.
 */
module DirSpec {
  import opened Wrappers

  datatype DirSpecUnit = DirSpecUnit(modTime: int, isDir: bool)

  type DirSpecMap = map<string, DirSpecUnit>

  /** What stat reports for an opened name. */
  datatype Stat = Stat(modTime: int, isDir: bool)

  /**
   What opening a name yields: its stat (`None` when stat fails) and its
   directory listing (`None` when listing fails).
   */
  datatype Opened = Opened(stat: Option<Stat>, listing: Option<seq<string>>)

  /** A name that does not open is absent from the map. */
  type FileSystem = map<string, Opened>

  datatype FsError = OpenFailed(name: string) | StatFailed(name: string) | ReadDirFailed(name: string)

  function UnitOf(s: Stat): DirSpecUnit {
    DirSpecUnit(s.modTime, s.isDir)
  }

  /** `name` opens and stats; its record is then `UnitOf` its stat. */
  predicate Stats(fs: FileSystem, name: string) {
    name in fs && fs[name].stat.Some?
  }

  /**
   Every entry of `out` is either carried over unchanged from `spec` or is the
   record of a name that opens and stats in `fs`.
   */
  predicate OnlyRecords(fs: FileSystem, spec: DirSpecMap, out: DirSpecMap) {
    && spec.Keys <= out.Keys
    && forall k :: k in out ==> (k in spec && out[k] == spec[k]) || (Stats(fs, k) && out[k] == UnitOf(fs[k].stat.value))
  }

  /** `k` is recorded in `out` with its own stat. */
  predicate RecordedAs(fs: FileSystem, out: DirSpecMap, k: string) {
    Stats(fs, k) && k in out && out[k] == UnitOf(fs[k].stat.value)
  }

  /** The name `fillDirSpec` opens for entry `entry` listed in directory `dir`: the bare entry name. */
  function BareEntry(dir: string, entry: string): string {
    entry
  }

  /** The entry's path under its directory. */
  function JoinPath(dir: string, entry: string): string {
    dir + "/" + entry
  }

  /**
   Reference for the walk: the names opened starting from `name`, where the
   entries of a directory that stats and lists are opened under
   `resolve(name, entry)`, at most `depth` levels down.
   */
  function Visited(fs: FileSystem, resolve: (string, string) -> string, name: string, depth: nat): set<string>
    decreases depth, 0
  {
    {name} +
    if Stats(fs, name) && fs[name].stat.value.isDir && fs[name].listing.Some? && depth > 0 then
      VisitedAll(fs, resolve, name, fs[name].listing.value, depth - 1)
    else
      {}
  }

  /** The names opened for the listed `names` of directory `dir`. */
  function VisitedAll(fs: FileSystem, resolve: (string, string) -> string, dir: string, names: seq<string>, depth: nat): set<string>
    decreases depth, 1, |names|
  {
    if names == [] then
      {}
    else
      VisitedAll(fs, resolve, dir, names[..|names| - 1], depth)
      + Visited(fs, resolve, resolve(dir, names[|names| - 1]), depth)
  }

  /** The records of those `names` that open and stat. */
  function RecordsOf(fs: FileSystem, names: set<string>): DirSpecMap {
    map k | k in names && Stats(fs, k) :: UnitOf(fs[k].stat.value)
  }

  lemma RecordsOfUnion(fs: FileSystem, spec: DirSpecMap, a: set<string>, b: set<string>)
    ensures spec + RecordsOf(fs, a) + RecordsOf(fs, b) == spec + RecordsOf(fs, a + b)
  {
  }

  lemma RecordOfOne(fs: FileSystem, spec: DirSpecMap, name: string)
    requires Stats(fs, name)
    ensures spec[name := UnitOf(fs[name].stat.value)] == spec + RecordsOf(fs, {name})
  {
  }

  lemma WalkedOneMore(fs: FileSystem, resolve: (string, string) -> string, spec: DirSpecMap, name: string, names: seq<string>, i: int, depth: nat, out: DirSpecMap)
    requires 0 <= i < |names|
    requires out == spec + RecordsOf(fs, VisitedAll(fs, resolve, name, names[..i], depth))
    ensures out + RecordsOf(fs, Visited(fs, resolve, resolve(name, names[i]), depth))
            == spec + RecordsOf(fs, VisitedAll(fs, resolve, name, names[..i + 1], depth))
  {
    var done := VisitedAll(fs, resolve, name, names[..i], depth);
    var step := Visited(fs, resolve, resolve(name, names[i]), depth);
    assert names[..i + 1][..i] == names[..i];
    assert VisitedAll(fs, resolve, name, names[..i + 1], depth) == done + step;
    RecordsOfUnion(fs, spec, done, step);
  }

  lemma {:induction false} ListedEntryIsVisited(fs: FileSystem, resolve: (string, string) -> string, dir: string, names: seq<string>, depth: nat, j: int)
    requires 0 <= j < |names|
    ensures Visited(fs, resolve, resolve(dir, names[j]), depth) <= VisitedAll(fs, resolve, dir, names, depth)
    decreases |names|
  {
    if j < |names| - 1 {
      var init := names[..|names| - 1];
      assert init[j] == names[j];
      ListedEntryIsVisited(fs, resolve, dir, init, depth, j);
    }
  }

  /**
   The walk of `fillDirSpec`, with the naming of listed entries as a
   parameter: records `name` (kind and time) and, when it is a directory,
   walks every entry of its listing; errors from the recursive calls are
   dropped, so only a failure on `name` itself is reported. The result is
   `spec` overwritten by the records of exactly the visited names that stat.
   */
  method FillDirSpecWith(fs: FileSystem, resolve: (string, string) -> string, name: string, spec: DirSpecMap, depth: nat)
    returns (out: DirSpecMap, err: Option<FsError>)
    ensures out == spec + RecordsOf(fs, Visited(fs, resolve, name, depth))
    ensures err == None <==> Stats(fs, name) && (fs[name].stat.value.isDir ==> fs[name].listing.Some?)
    ensures name !in fs ==> err == Some(OpenFailed(name))
    ensures name in fs && fs[name].stat.None? ==> err == Some(StatFailed(name))
    ensures Stats(fs, name) && err.Some? ==> err == Some(ReadDirFailed(name))
    decreases depth, 0
  {
    if name !in fs {
      return spec, Some(OpenFailed(name));
    }
    var f := fs[name];
    if f.stat.None? {
      return spec, Some(StatFailed(name));
    }
    var fi := f.stat.value;
    out := spec[name := UnitOf(fi)];
    RecordOfOne(fs, spec, name);
    if fi.isDir {
      if f.listing.None? {
        return out, Some(ReadDirFailed(name));
      }
      if depth > 0 {
        out := FillEntries(fs, resolve, name, f.listing.value, out, depth - 1);
        RecordsOfUnion(fs, spec, {name}, VisitedAll(fs, resolve, name, f.listing.value, depth - 1));
      }
    }
    return out, None;
  }

  /** The loop of `fillDirSpec` over a directory's listing, each entry walked in turn. */
  method FillEntries(fs: FileSystem, resolve: (string, string) -> string, dir: string, names: seq<string>, spec: DirSpecMap, depth: nat)
    returns (out: DirSpecMap)
    ensures out == spec + RecordsOf(fs, VisitedAll(fs, resolve, dir, names, depth))
    decreases depth, 1
  {
    out := spec;
    var i := 0;
    while i < |names|
      invariant 0 <= i <= |names|
      invariant out == spec + RecordsOf(fs, VisitedAll(fs, resolve, dir, names[..i], depth))
    {
      var next, _ := FillDirSpecWith(fs, resolve, resolve(dir, names[i]), out, depth);
      WalkedOneMore(fs, resolve, spec, dir, names, i, depth, out);
      out := next;
      i := i + 1;
    }
    assert names[..|names|] == names;
  }

  /**
   `fillDirSpec` as written: entries are opened under their bare names. Only a
   failure on `name` is reported; `name` is recorded with its kind and time, a
   file adds only its own record, a directory's listed entries are recorded
   under their bare names, and every record made is that of a visited name.
   */
  method FillDirSpec(fs: FileSystem, name: string, spec: DirSpecMap, depth: nat)
    returns (out: DirSpecMap, err: Option<FsError>)
    ensures out == spec + RecordsOf(fs, Visited(fs, BareEntry, name, depth))
    ensures err == None <==> Stats(fs, name) && (fs[name].stat.value.isDir ==> fs[name].listing.Some?)
    ensures err.Some? ==> err.value.name == name
    ensures OnlyRecords(fs, spec, out)
    ensures Stats(fs, name) ==> RecordedAs(fs, out, name)
    ensures Stats(fs, name) && !fs[name].stat.value.isDir ==> out == spec[name := UnitOf(fs[name].stat.value)]
    ensures Stats(fs, name) && fs[name].stat.value.isDir && fs[name].listing.Some? && depth > 0 ==>
              forall c :: c in fs[name].listing.value && Stats(fs, c) ==> RecordedAs(fs, out, c)
  {
    out, err := FillDirSpecWith(fs, BareEntry, name, spec, depth);
    if Stats(fs, name) && !fs[name].stat.value.isDir {
      assert out == spec[name := UnitOf(fs[name].stat.value)];
    }
    if Stats(fs, name) && fs[name].stat.value.isDir && fs[name].listing.Some? && depth > 0 {
      var names := fs[name].listing.value;
      forall c | c in names && Stats(fs, c)
        ensures RecordedAs(fs, out, c)
      {
        var j :| 0 <= j < |names| && names[j] == c;
        ListedEntryIsVisited(fs, BareEntry, name, names, depth - 1, j);
      }
    }
  }

  /**
   `fillDirSpec` with each entry opened under its path in the directory being
   listed: the same walk, recording every reachable path under its full name.
   */
  method FillDirSpecJoined(fs: FileSystem, name: string, spec: DirSpecMap, depth: nat)
    returns (out: DirSpecMap, err: Option<FsError>)
    ensures out == spec + RecordsOf(fs, Visited(fs, JoinPath, name, depth))
    ensures err == None <==> Stats(fs, name) && (fs[name].stat.value.isDir ==> fs[name].listing.Some?)
    ensures err.Some? ==> err.value.name == name
    ensures forall k :: k in out && k !in spec ==> AtOrBelow(k, name)
    ensures Stats(fs, name) && fs[name].stat.value.isDir && fs[name].listing.Some? && depth > 0 ==>
              forall c :: c in fs[name].listing.value && Stats(fs, JoinPath(name, c)) ==> RecordedAs(fs, out, JoinPath(name, c))
  {
    out, err := FillDirSpecWith(fs, JoinPath, name, spec, depth);
    JoinedWalkStaysBelow(fs, name, depth);
    if Stats(fs, name) && fs[name].stat.value.isDir && fs[name].listing.Some? && depth > 0 {
      var names := fs[name].listing.value;
      forall c | c in names && Stats(fs, JoinPath(name, c))
        ensures RecordedAs(fs, out, JoinPath(name, c))
      {
        var j :| 0 <= j < |names| && names[j] == c;
        ListedEntryIsVisited(fs, JoinPath, name, names, depth - 1, j);
      }
    }
  }

  /** `k` is a path strictly inside directory `dir`. */
  predicate Below(k: string, dir: string) {
    |dir| + 1 <= |k| && k[..|dir| + 1] == dir + "/"
  }

  predicate AtOrBelow(k: string, dir: string) {
    k == dir || Below(k, dir)
  }

  lemma BelowEntryIsBelowDirectory(k: string, dir: string, entry: string)
    requires AtOrBelow(k, JoinPath(dir, entry))
    ensures Below(k, dir)
  {
    if k != JoinPath(dir, entry) {
      assert k[..|dir| + 1] == k[..|JoinPath(dir, entry)| + 1][..|dir| + 1];
    }
  }

  /** With joined paths, the walk never leaves the directory it starts from. */
  lemma {:induction false} JoinedWalkStaysBelow(fs: FileSystem, name: string, depth: nat)
    ensures forall k :: k in Visited(fs, JoinPath, name, depth) ==> AtOrBelow(k, name)
    decreases depth, 0
  {
    if Stats(fs, name) && fs[name].stat.value.isDir && fs[name].listing.Some? && depth > 0 {
      JoinedListingStaysBelow(fs, name, fs[name].listing.value, depth - 1);
    }
  }

  lemma {:induction false} JoinedListingStaysBelow(fs: FileSystem, dir: string, names: seq<string>, depth: nat)
    ensures forall k :: k in VisitedAll(fs, JoinPath, dir, names, depth) ==> Below(k, dir)
    decreases depth, 1, |names|
  {
    if names != [] {
      var last := names[|names| - 1];
      JoinedListingStaysBelow(fs, dir, names[..|names| - 1], depth);
      JoinedWalkStaysBelow(fs, JoinPath(dir, last), depth);
      forall k | k in Visited(fs, JoinPath, JoinPath(dir, last), depth)
        ensures Below(k, dir)
      {
        BelowEntryIsBelowDirectory(k, dir, last);
      }
    }
  }

  /**
   A run directory `/run` listing one file `x`, while the process's current
   directory happens to hold another file named `x`.
   */
  const RunDir: FileSystem := map[
    "/run" := Opened(Some(Stat(1, true)), Some(["x"])),
    "/run/x" := Opened(Some(Stat(2, false)), None),
    "x" := Opened(Some(Stat(3, false)), None)]

  /**
   As written, the walk of `/run` records the unrelated `x` of the current
   directory and misses `/run/x`; with joined paths it records `/run/x`.
   */
  lemma BareNamesEscapeTheDirectory()
    ensures RecordsOf(RunDir, Visited(RunDir, BareEntry, "/run", 1)).Keys == {"/run", "x"}
    ensures !AtOrBelow("x", "/run")
    ensures RecordsOf(RunDir, Visited(RunDir, JoinPath, "/run", 1)).Keys == {"/run", "/run/x"}
  {
    assert ["x"][..0] == [];
    assert Visited(RunDir, BareEntry, "x", 0) == {"x"};
    assert Visited(RunDir, BareEntry, "/run", 1) == {"/run", "x"};
    assert JoinPath("/run", "x") == "/run/x";
    assert Visited(RunDir, JoinPath, "/run/x", 0) == {"/run/x"};
    assert Visited(RunDir, JoinPath, "/run", 1) == {"/run", "/run/x"};
  }

  /**
   The executor's diff of two flat records: not implemented, it reports
   nothing; so in particular it never reports a path that did not change.
   */
  function FindChanges(dsa: DirSpecMap, dsb: DirSpecMap): (r: DirSpecMap)
    ensures r.Keys <= FlatChanges(dsa, dsb).Keys
  {
    map[]
  }

  /**
   Reference for the flat diff the executor needs: the entries of the later
   record that are new or whose record differs from the earlier one.
   */
  function FlatChanges(dsa: DirSpecMap, dsb: DirSpecMap): (r: DirSpecMap)
    ensures r.Keys <= dsb.Keys
    ensures forall k :: k in dsb ==> (k in r <==> k !in dsa || dsa[k] != dsb[k])
    ensures forall k :: k in r ==> r[k] == dsb[k]
  {
    map k | k in dsb && (k !in dsa || dsa[k] != dsb[k]) :: dsb[k]
  }

  /**
   The stub agrees with the reference exactly when nothing was added or
   modified between the two records; any new or modified path is missed.
   */
  lemma FindChangesIsRightOnlyWithoutChanges(dsa: DirSpecMap, dsb: DirSpecMap)
    ensures FindChanges(dsa, dsb) == FlatChanges(dsa, dsb)
            <==> forall k :: k in dsb ==> k in dsa && dsa[k] == dsb[k]
  {
  }
}
