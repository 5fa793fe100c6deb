/**
 Choosing the command that unpacks an input archive. The archive's extension
 (from the last dot of the final path element, as Go's `filepath.Ext` on a
 `/`-separated path) selects `tar -xf`, `tar -xzf` or `7za x`, run in the
 working directory.
 */
module UnpackCommand {
  import opened Wrappers

  /** No `/` at or after position `i`: `i` lies in the final path element. */
  predicate InLastElement(path: string, i: int)
    requires 0 <= i <= |path|
  {
    forall j :: i <= j < |path| ==> path[j] != '/'
  }

  /**
   Declarative extension: empty when the final path element has no dot;
   otherwise the suffix of `path` that starts with a dot and holds no other
   dot and no separator.
   */
  predicate IsExtOf(path: string, ext: string) {
    if ext == "" then
      forall i :: 0 <= i < |path| && path[i] == '.' ==> !InLastElement(path, i)
    else
      && |ext| <= |path|
      && path[|path| - |ext|..] == ext
      && ext[0] == '.'
      && forall j :: 0 < j < |ext| ==> ext[j] != '.' && ext[j] != '/'
  }

  /** A path has only one extension. */
  lemma ExtIsUnique(path: string, e1: string, e2: string)
    requires IsExtOf(path, e1) && IsExtOf(path, e2)
    ensures e1 == e2
  {
  }

  /** Appending a character other than a dot keeps a dot-free final element dot-free. */
  lemma NoExtensionExtends(init: string, c: char)
    requires IsExtOf(init, "") && c != '.'
    ensures IsExtOf(init + [c], "")
  {
    var path := init + [c];
    forall i | 0 <= i < |path| && path[i] == '.'
      ensures !InLastElement(path, i)
    {
      assert path[i] == init[i];
      assert !InLastElement(init, i);
      var j :| i <= j < |init| && init[j] == '/';
      assert path[j] == '/';
    }
  }

  /** Appending a character that is neither a dot nor a separator extends the extension. */
  lemma ExtensionExtends(init: string, e: string, c: char)
    requires e != "" && IsExtOf(init, e) && c != '.' && c != '/'
    ensures IsExtOf(init + [c], e + [c])
  {
  }

  /** The extension of `path`: scans back from the end, stopping at a separator. */
  function Ext(path: string): (ext: string)
    ensures IsExtOf(path, ext)
    decreases |path|
  {
    if |path| == 0 || path[|path| - 1] == '/' then
      ""
    else if path[|path| - 1] == '.' then
      path[|path| - 1..]
    else
      var init, last := path[..|path| - 1], path[|path| - 1];
      assert path == init + [last];
      var e := Ext(init);
      if e == "" then
        NoExtensionExtends(init, last);
        ""
      else
        ExtensionExtends(init, e, last);
        e + [last]
  }

  const SupportedExtensions: set<string> := {".tar", ".gz", ".gzip", ".7z", ".7zip"}

  datatype Command = Command(program: string, args: seq<string>, dir: string)

  datatype UnpackError = UnsupportedExtension(ext: string)

  /** The switch on the extension: the command for `fullFilename`, if one is known. */
  function CommandFor(ext: string, fullFilename: string): (r: Option<Command>)
    ensures r.Some? <==> ext in SupportedExtensions
    ensures r.Some? ==> |r.value.args| == 2 && r.value.args[1] == fullFilename
  {
    if ext == ".tar" then Some(Command("tar", ["-xf", fullFilename], ""))
    else if ext == ".gz" || ext == ".gzip" then Some(Command("tar", ["-xzf", fullFilename], ""))
    else if ext == ".7z" || ext == ".7zip" then Some(Command("7za", ["x", fullFilename], ""))
    else None
  }

  /** What `guessUnpackCommand` does: on an unknown extension it sets a field through a nil command. */
  datatype Invocation = Returned(cmd: Command) | NilDereference

  /** The command selection as written: no case for other extensions. */
  function GuessUnpackCommandAsWritten(workdir: string, fullFilename: string): (r: Invocation)
    ensures r.NilDereference? <==> Ext(fullFilename) !in SupportedExtensions
    ensures r.Returned? ==> r.cmd.dir == workdir && |r.cmd.args| > 0 && r.cmd.args[|r.cmd.args| - 1] == fullFilename
  {
    match CommandFor(Ext(fullFilename), fullFilename)
    case None => NilDereference
    case Some(cmd) => Returned(cmd.(dir := workdir))
  }

  lemma ZipExtension()
    ensures Ext("/src/data.zip") == ".zip"
  {
    ExtIsUnique("/src/data.zip", Ext("/src/data.zip"), ".zip");
  }

  lemma NoExtension()
    ensures Ext("/src/data") == ""
  {
    var p := "/src/data";
    assert forall i :: 0 <= i < |p| ==> p[i] != '.';
    ExtIsUnique(p, Ext(p), "");
  }

  /** An input without a supported extension makes `guessUnpackCommand` dereference nil. */
  lemma AsWrittenDereferencesNilOnUnknownExtension()
    ensures GuessUnpackCommandAsWritten("/run", "/src/data.zip") == NilDereference
    ensures GuessUnpackCommandAsWritten("/run", "/src/data") == NilDereference
  {
    ZipExtension();
    NoExtension();
  }

  /**
   The command selection with the missing case reported: a command run in
   `workdir` on the archive for the five supported extensions, otherwise an
   error naming the extension.
   */
  function GuessUnpackCommand(workdir: string, fullFilename: string): (r: Result<Command, UnpackError>)
    ensures r.Success? <==> Ext(fullFilename) in SupportedExtensions
    ensures r.Success? ==> r.value.dir == workdir && |r.value.args| > 0 && r.value.args[|r.value.args| - 1] == fullFilename
    ensures r.Failure? ==> r.error == UnsupportedExtension(Ext(fullFilename))
  {
    var ext := Ext(fullFilename);
    match CommandFor(ext, fullFilename)
    case None => Failure(UnsupportedExtension(ext))
    case Some(cmd) => Success(cmd.(dir := workdir))
  }

  /** Wherever `guessUnpackCommand` returns a command, the corrected selection returns the same one. */
  lemma CorrectedAgreesWithAsWritten(workdir: string, fullFilename: string)
    ensures GuessUnpackCommandAsWritten(workdir, fullFilename).Returned?
            ==> GuessUnpackCommand(workdir, fullFilename) == Success(GuessUnpackCommandAsWritten(workdir, fullFilename).cmd)
    ensures GuessUnpackCommandAsWritten(workdir, fullFilename).NilDereference?
            <==> GuessUnpackCommand(workdir, fullFilename).Failure?
  {
  }

  /**
   The extension table: `.tar` is unpacked by `tar -xf`, `.gz` and `.gzip` by
   `tar -xzf`, `.7z` and `.7zip` by `7za x`, each on the archive and in
   `workdir`; the code as written returns the same commands.
   */
  lemma ExtensionSelectsCommand(workdir: string, fullFilename: string)
    ensures Ext(fullFilename) == ".tar" ==>
              GuessUnpackCommand(workdir, fullFilename) == Success(Command("tar", ["-xf", fullFilename], workdir))
              && GuessUnpackCommandAsWritten(workdir, fullFilename) == Returned(Command("tar", ["-xf", fullFilename], workdir))
    ensures Ext(fullFilename) in {".gz", ".gzip"} ==>
              GuessUnpackCommand(workdir, fullFilename) == Success(Command("tar", ["-xzf", fullFilename], workdir))
              && GuessUnpackCommandAsWritten(workdir, fullFilename) == Returned(Command("tar", ["-xzf", fullFilename], workdir))
    ensures Ext(fullFilename) in {".7z", ".7zip"} ==>
              GuessUnpackCommand(workdir, fullFilename) == Success(Command("7za", ["x", fullFilename], workdir))
              && GuessUnpackCommandAsWritten(workdir, fullFilename) == Returned(Command("7za", ["x", fullFilename], workdir))
  {
  }

  /** Only the last extension counts: a `.tar.gz` archive is unpacked as gzip. */
  lemma TarGzUnpacksAsGzip(workdir: string)
    ensures GuessUnpackCommand(workdir, "output.tar.gz")
            == Success(Command("tar", ["-xzf", "output.tar.gz"], workdir))
  {
    ExtIsUnique("output.tar.gz", Ext("output.tar.gz"), ".gz");
  }

  /** A dot in a directory name is not an extension of the file below it. */
  lemma DotInDirectoryIsNoExtension()
    ensures Ext("data.d/archive") == ""
  {
    var p := "data.d/archive";
    assert p[4] == '.' && p[6] == '/';
    assert !InLastElement(p, 4);
    assert forall i :: 0 <= i < |p| && i != 4 ==> p[i] != '.';
    ExtIsUnique(p, Ext(p), "");
  }

  /** Two archives with the same extension are unpacked by the same tool with the same flags. */
  lemma SameExtensionSameTool(workdir: string, f1: string, f2: string)
    requires Ext(f1) == Ext(f2)
    ensures GuessUnpackCommand(workdir, f1).Success? == GuessUnpackCommand(workdir, f2).Success?
    ensures GuessUnpackCommand(workdir, f1).Success? ==>
              GuessUnpackCommand(workdir, f1).value.program == GuessUnpackCommand(workdir, f2).value.program
              && GuessUnpackCommand(workdir, f1).value.args[0] == GuessUnpackCommand(workdir, f2).value.args[0]
  {
  }
}
