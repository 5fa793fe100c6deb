# Directory-snapshot diff of the tram executor

The tram executor runs an untrusted control script in a working directory.
It snapshots the directory tree before and after the run, and it should report
only the entries the run created or modified. This project is a Dafny model of
that core:

- **Snapshots** (`FileTree`): immutable trees of `Node(isDir, mtime, children)`.
  Children are keyed by base name, and modification times are abstract integers
  compared by equality.
- **The change-tree diff** (`TreeDiff`): `Diff(before, after)` is `None` for
  "no changes". Otherwise it is a non-empty tree that holds only new entries,
  kind changes, files with a changed time, and directories with such an entry
  beneath them. Deletions are not represented.
- **The tests' structure matcher** (`StructureMatch`): the repository's tests
  state every diff expectation through this matcher. A shape maps names either
  to `Any` (the test's `nil`) or to a nested shape. `HasStructureLike` follows
  the test's counting loop, and `Matches` is its declarative reading.
- **The tests' scenarios** (`DiffScenarios`): the simple, idempotence and
  advanced diff tests, stated as lemmas on concrete snapshots.
- **Descending into unpacked data** (`DataDive`): `diveIntoData` over a
  snapshot. Paths are sequences of names.
- **Choosing the unpack command** (`UnpackCommand`): Go's `filepath.Ext` on
  `/`-separated paths, and `guessUnpackCommand`.
- **The flat record** (`DirSpec`): `fillDirSpec` over an abstract filesystem
  (what opening a name yields), plus the `findChanges` stub. `Visited` is the
  reference set of names the walk opens, given how a listed entry is named.

The code of the snapshot builder `getFileTreeState` and of the diff
`findFileTreeStateChanges` is not part of this model.
Its behaviour is therefore fixed by the tests that call it
(`TestFindChangesSimple`, `TestFindChangesId`, `TestFindChangesAdvanced`).
Where the tests say nothing, the model makes these choices:

- a new entry is kept whole, even when it is an empty directory;
- a kind change (file to directory or back) replaces the entry whole;
- a directory present on both sides is compared only through its entries, and
  its own time is ignored. This is what makes deletions invisible at any
  depth, because a deletion changes its directory's time.

Snapshots are well formed (`WellFormed`): a file has no entries. `File`
builds such files, and the diff of a well-formed snapshot is well formed.

The model's `FillDirSpec` follows the code of `fillDirSpec` in two respects
where a reader might expect otherwise:

- it drops the errors of its recursive calls, so only a failure on the given
  name is reported;
- it opens and records listed entries under their bare names, not under paths
  joined to their directory. This is listed under "## Findings", and
  `FillDirSpecJoined` is the corrected walk.

## Model

| member | source | states |
|---|---|---|
| TreeDiff.Diff | dirspec_test.go:143-172 | The result is `None` exactly when no entry anywhere under `after` is new or modified (`HasChanges`). Otherwise it is a tree with at least one entry that lies within `after`: same kinds and times, and every name exists at the same position in `after`. |
| TreeDiff.ChangedEntries | dirspec_test.go:125-153 | The kept names are exactly the entries of `after` that are new, changed kind, are files with a different time, or are directories with a change beneath them. Each kept value lies within the corresponding `after` entry. |
| TreeDiff.DiffEntry | dirspec_test.go:188-220 | An entry yields a change exactly when `EntryChanged` holds. A new, kind-changed or file entry is kept as the whole `after` entry. |
| TreeDiff.NoChangesAgainstItself | dirspec_test.go:159-172 | A snapshot compared with itself has no changed entry at any depth. |
| TreeDiff.DiffAgainstItself | dirspec_test.go:174-186 | Diffing a snapshot against itself yields "no changes" (idempotence). |
| TreeDiff.DiffOfPureAdditions | dirspec_test.go:125-129 | When `after` only adds entries at the root of `before`, the diff is exactly the added subtrees, or "no changes" when nothing was added. |
| TreeDiff.AdditionsAtAnyDepthAreVisible | dirspec_test.go:202-204 | When `after` only adds entries at any depth (`OnlyAdds`), there are changes exactly when some name is new somewhere below (`AddedBelow`). Every name the diff keeps is either new or a directory. |
| TreeDiff.DeletionsAreInvisible | dirspec_test.go:135-151 | When `after` only removes entries at the root of `before`, the diff is "no changes". |
| TreeDiff.DeletionsAtAnyDepthAreInvisible | dirspec_test.go:135-151 | When `after` only removes entries, at any depth (`OnlyRemoves`), the diff is "no changes". This holds although each removal changes its directory's time. |
| TreeDiff.UnchangedEntryIsPruned | dirspec_test.go:192-193 | An entry identical on both sides never appears in the diff, even a directory with a deep subtree. |
| TreeDiff.NewEntryIsKeptWhole | dirspec_test.go:204-211 | A new entry, even an empty directory, makes the diff non-empty and appears in it whole. |
| TreeDiff.SharedDirectoryAppearsAsItsDiff | dirspec_test.go:209-219 | A directory on both sides appears iff something beneath it changed. When it appears, it is its own diff and lists only the changed entries. |
| StructureMatch.HasStructureLike | dirspec_test.go:90-108 | The counting loop accepts iff the node's child names equal the shape's names and every nested shape matches the child of that name. |
| StructureMatch.AnyAcceptsEverySubtree | dirspec_test.go:93-98 | A name mapped to `nil` only checks presence: replacing its subtree never changes the verdict. |
| StructureMatch.EmptyShapeMatchesOnlyChildless | dirspec_test.go:104-106 | The empty shape matches exactly the nodes with no children. |
| StructureMatch.FlatShapeChecksNamesOnly | dirspec_test.go:117-121 | A shape of only `nil`s matches iff the node's child names are exactly its names. |
| DiffScenarios.SimpleScenario | dirspec_test.go:110-157 | The three files match their shape. After adding one file, rewriting one and removing one, the diff is exactly `{file_New.txt, file_A.txt}`. |
| DiffScenarios.IdScenarios | dirspec_test.go:174-186 | The empty directory, three levels of empty directories, and the same holding one file each diff to "no changes" against themselves. |
| DiffScenarios.DirCScenario | dirspec_test.go:195-203 | In `Dir_C`, the untouched `file_A` is pruned, and the rewritten `file_B` and new `file_C` are kept. |
| DiffScenarios.DirAScenario | dirspec_test.go:191-204 | In `Dir_A`, the unchanged `file` and empty `Dir_B` are pruned. The new empty `Dir_D` and the changed `Dir_C` are kept. |
| DiffScenarios.AdvancedScenario | dirspec_test.go:188-223 | The advanced diff is `{Dir_A: {Dir_D, Dir_C: {file_B, file_C}}}`. |
| DataDive.Dive | src/tram/exec/tram_exec.go:98-113 | Listing a non-directory fails. Otherwise the result starts with `workdir`, continues through a chain of single-directory wrappers, and ends at a directory that is not one. |
| DataDive.DiveIsTheMaximalChain | src/tram/exec/tram_exec.go:107-111 | Any wrapper chain that ends at a non-wrapper is exactly what the dive appends, so the dive is the unique maximal descent. |
| DataDive.DiveStopsAtNonWrapper | src/tram/exec/tram_exec.go:108 | The dive stays at `workdir` iff the directory does not have exactly one entry that is a directory. |
| UnpackCommand.Ext | src/tram/exec/tram_exec.go:73 | The extension is empty iff the final path element has no dot. Otherwise it is the suffix from the last dot, with no further dot or separator. |
| UnpackCommand.ExtIsUnique | src/tram/exec/tram_exec.go:73 | A path has at most one extension in that declarative sense. |
| UnpackCommand.DotInDirectoryIsNoExtension | src/tram/exec/tram_exec.go:73 | A dot before the last separator does not count: `data.d/archive` has no extension. |
| UnpackCommand.CommandFor | src/tram/exec/tram_exec.go:74-82 | The switch yields a command iff the extension is one of `.tar`, `.gz`, `.gzip`, `.7z`, `.7zip`, and the command's last argument is the archive. |
| UnpackCommand.ExtensionSelectsCommand | src/tram/exec/tram_exec.go:74-83 | For every archive, the switch's table: `.tar` runs `tar -xf`, `.gz` and `.gzip` run `tar -xzf`, `.7z` and `.7zip` run `7za x`, each on the archive in `workdir`. This holds for both the corrected and the as-written selection. |
| UnpackCommand.GuessUnpackCommandAsWritten | src/tram/exec/tram_exec.go:72-85 | As written, the code dereferences nil iff the extension is unsupported. Otherwise the command runs in `workdir` on the archive; `ExtensionSelectsCommand` says which command. |
| UnpackCommand.ZipExtension | src/tram/exec/tram_exec.go:73 | The extension of `/src/data.zip` is `.zip`. |
| UnpackCommand.NoExtension | src/tram/exec/tram_exec.go:73 | `/src/data` has no extension. |
| UnpackCommand.AsWrittenDereferencesNilOnUnknownExtension | src/tram/exec/tram_exec.go:75-83 | A `.zip` archive, or one without an extension, reaches the nil dereference. |
| UnpackCommand.GuessUnpackCommand | src/tram/exec/tram_exec.go:72-85 | The corrected selection succeeds iff the extension is supported. It then runs in `workdir` on the archive, with the command `ExtensionSelectsCommand` gives; otherwise the error names the extension. |
| UnpackCommand.CorrectedAgreesWithAsWritten | src/tram/exec/tram_exec.go:72-85 | Wherever the code returns a command, the corrected selection returns the same command. It fails exactly where the code dereferences nil. |
| UnpackCommand.TarGzUnpacksAsGzip | src/tram/exec/tram_exec.go:73-79 | `output.tar.gz` dispatches on `.gz` to `tar -xzf` in `workdir`. |
| UnpackCommand.SameExtensionSameTool | src/tram/exec/tram_exec.go:73-82 | Archives with the same extension get the same tool and flags. |
| DirSpec.FillDirSpecWith | src/tram/exec/tram_exec.go:194-221 | The walk, with the naming of listed entries as a parameter. The result is the given map overwritten by the records of exactly the `Visited` names that stat. The error is `None` iff the given name stats and, as a directory, lists. Otherwise it is the open, stat or listing failure of that name. |
| DirSpec.FillEntries | src/tram/exec/tram_exec.go:212-214 | Walking a listing entry by entry adds the records of exactly the names visited from those entries. |
| DirSpec.FillDirSpec | src/tram/exec/tram_exec.go:194-221 | As written, with bare entry names, the result is the given map plus the records of exactly the names `Visited` reaches. Only a failure to open, stat or list the given name is reported. That name is recorded with its kind and time. A file adds only its own record. A directory's listed entries are recorded under their bare names. Every other record is either carried over unchanged or is the stat of a name that opens. |
| DirSpec.FillDirSpecJoined | src/tram/exec/tram_exec.go:212-214 | The corrected walk, with entries opened under `dir + "/" + entry`. The result is the given map plus the records of the names it visits. Each new key is the given name or a path below it, and each listed entry that stats is recorded under its joined path. |
| DirSpec.JoinedWalkStaysBelow | src/tram/exec/tram_exec.go:212-214 | With joined paths, every visited name is the starting directory or a path inside it. |
| DirSpec.BareNamesEscapeTheDirectory | src/tram/exec/tram_exec.go:212-214 | A directory `/run` lists `x`, and the current directory also holds an `x`. As written, the walk records the outside `x` and misses `/run/x`. The corrected walk records `/run` and `/run/x`. |
| DirSpec.FindChanges | src/tram/exec/tram_exec.go:223-225 | The stub reports nothing, so it never reports a path that is not new or modified in the flat diff `FlatChanges`. |
| DirSpec.FindChangesIsRightOnlyWithoutChanges | src/tram/exec/tram_exec.go:223-225 | The stub equals the flat diff of new or modified paths iff nothing was added or modified. |

## Left out

- `getFileTreeState`, `findFileTreeStateChanges` and `packTree`: their source is not part of this model. Snapshots are given as `Node` values. The diff is defined from the tests, plus the model's own choices for the cases they leave open.
- The pack/unpack round trip of the disabled `_TestPackTree` (dirspec_test.go:225-296): it depends on tar archive bytes and on code that is not part of this model.
- `hasKey` (dirspec_test.go:70-73): it is map membership, which is Dafny's `k in m`, used directly.
- `retrieveFile`, `createApp`, `Stop`, `MainLoop`, `processDelivery`, `main`: document-store and queue I/O, plus the daemon loop.
- `unpackData`, `runControlScript`, `convertToUnixLE`: they start external processes. Only the choice of command is modelled.
- `simpleCopy`, `prepareExecDir`, `placeControlScript`: raw file I/O.
- `execute`: it only wires snapshots around the script run, and its call to `findChanges` is commented out (tram_exec.go:241).
- The test helpers `generateUniqueName`, `MakeTestDir`, `filePutString`, `simpleSetup`: randomness, environment and file writes.
- `time.Time`: abstracted to an integer compared by equality.
- Symbolic links: no test exercises them.
- Kind changes: no test exercises them. The model chooses to replace such an entry whole.
- DataDive.Dive: `path.Join`'s lexical cleaning is abstracted to appending a name. An `os.Open` failure on a missing `workdir` is not modelled, because the directory is given as a snapshot. Only the failure to list a non-directory is modelled.
- UnpackCommand.Ext: only `/` is a separator. Windows separators and volume names are not modelled.
- DirSpec.FillDirSpec: directories nested more than `depth` levels below the given name are not visited. `fillDirSpec` has no such bound. When an entry name resolves back to a directory that lists that same name, its bare-name recursion goes on without bound until an open fails or the stack overflows.
- DirSpec.FillDirSpecWith: the map is threaded through as a value, while `fillDirSpec` shares one map by reference.
- DirSpec.FillDirSpecWith: `fillDirSpec` never closes the files it opens (tram_exec.go:194), and neither does `diveIntoData` (tram_exec.go:99). Running out of file descriptors is not modelled: in the model every name in the filesystem opens, whereas in the code later opens can then fail and their records be dropped without an error.
- DirSpec.FillDirSpecJoined: joining is plain concatenation with `/`; `path.Join`'s lexical cleaning is not modelled.

## Findings

| source | as written | input that shows it | evidently intended | confidence | as-written member | corrected member |
|---|---|---|---|---|---|---|
| src/tram/exec/tram_exec.go:75-83 | the switch leaves `cmd` nil for any extension other than the five, and line 83 then assigns `cmd.Dir` | `guessUnpackCommand("/run", "/src/data.zip")` | report the unsupported extension as an error | high; not executed | UnpackCommand.GuessUnpackCommandAsWritten, UnpackCommand.AsWrittenDereferencesNilOnUnknownExtension | UnpackCommand.GuessUnpackCommand, UnpackCommand.CorrectedAgreesWithAsWritten |
| src/tram/exec/tram_exec.go:212-213 | the loop recurses on each listed entry's bare name, so it is opened relative to the process's current directory, not the directory being listed | `fillDirSpec("/run", ds)`, where `/run` lists only `x` and the current directory also holds a file `x` | open each entry under its path joined to the directory, so that the walk stays inside it | high; not executed | DirSpec.FillDirSpec, DirSpec.BareNamesEscapeTheDirectory | DirSpec.FillDirSpecJoined, DirSpec.JoinedWalkStaysBelow |
