/** Requirement-file discovery: the tar-member filter of
    `untar_requirement_files` and `_get_default_requirement_files`. */
module Requirements {
  import opened Outcomes
  import Strings
  import Paths

  const RequirementFileNames: seq<string> := ["dev-requirements.txt", "requirements.txt"]

  /** The members `untar_requirement_files` extracts: those whose base name
      is a requirement file name, in archive order. */
  function RequirementMembers(names: seq<string>): (kept: seq<string>)
    ensures forall x :: x in kept <==> x in names && Paths.Basename(x) in RequirementFileNames
    ensures |kept| <= |names|
  {
    if names == [] then []
    else
      var rest := RequirementMembers(names[1..]);
      assert forall x :: x in names <==> x == names[0] || x in names[1..];
      if Paths.Basename(names[0]) in RequirementFileNames then [names[0]] + rest else rest
  }

  /** The filter works member by member, so it keeps archive order. */
  lemma {:induction false} RequirementMembersAppend(a: seq<string>, b: seq<string>)
    ensures RequirementMembers(a + b) == RequirementMembers(a) + RequirementMembers(b)
  {
    if a != [] {
      assert (a + b)[1..] == a[1..] + b;
      assert (a + b)[0] == a[0];
      RequirementMembersAppend(a[1..], b);
    } else {
      assert a + b == b;
    }
  }

  /** Filtering what was already filtered keeps everything. */
  lemma {:induction false} RequirementMembersIdempotent(names: seq<string>)
    ensures RequirementMembers(RequirementMembers(names)) == RequirementMembers(names)
  {
    if names != [] {
      RequirementMembersIdempotent(names[1..]);
      var rest := RequirementMembers(names[1..]);
      if Paths.Basename(names[0]) in RequirementFileNames {
        assert ([names[0]] + rest)[1..] == rest;
      }
    }
  }

  /** The paths under `dir` of those names that are existing files, in the
      order of `names`. */
  function ExistingFiles(p: Paths.Platform, dir: string, names: seq<string>, isFile: string -> bool): (r: seq<string>)
    ensures |r| <= |names|
    ensures forall x :: x in r ==> isFile(x)
    ensures forall f :: f in names ==> (Paths.Join(p, dir, f) in r <==> isFile(Paths.Join(p, dir, f)))
    ensures forall x :: x in r ==> exists f :: f in names && x == Paths.Join(p, dir, f)
  {
    if names == [] then []
    else
      var path := Paths.Join(p, dir, names[0]);
      var rest := ExistingFiles(p, dir, names[1..], isFile);
      assert forall f :: f in names <==> f == names[0] || f in names[1..];
      if isFile(path) then [path] + rest else rest
  }

  /** Every default requirement file is an existing file named
      `dev-requirements.txt` or `requirements.txt` inside `dir`, and
      `dev-requirements.txt` comes first. */
  lemma DefaultFilesAreRequirementFiles(dir: string, isFile: string -> bool)
    ensures var r := ExistingFiles(Paths.Linux, dir, RequirementFileNames, isFile);
            && |r| <= 2
            && (forall x :: x in r ==> isFile(x) && Strings.StartsWith(x, dir) && Paths.Basename(x) in RequirementFileNames)
            && (|r| == 2 ==> r == [Paths.Join(Paths.Linux, dir, "dev-requirements.txt"),
                                   Paths.Join(Paths.Linux, dir, "requirements.txt")])
  {
    var names := RequirementFileNames;
    var a := Paths.Join(Paths.Linux, dir, names[0]);
    var b := Paths.Join(Paths.Linux, dir, names[1]);
    var r := ExistingFiles(Paths.Linux, dir, names, isFile);
    DefaultFilesUnrolled(Paths.Linux, dir, isFile);
    PresentOfTwo(a, b, isFile);
    NamesHaveNoSlash();
    Paths.JoinBasename(dir, names[0]);
    Paths.JoinBasename(dir, names[1]);
    forall x | x in r
      ensures isFile(x) && Strings.StartsWith(x, dir) && Paths.Basename(x) in names
    {
      if x == a {
        assert Paths.Basename(x) == names[0];
      } else {
        assert Paths.Basename(x) == names[1];
      }
    }
  }

  lemma NamesHaveNoSlash()
    ensures '/' !in RequirementFileNames[0] && '/' !in RequirementFileNames[1]
  {
  }

  /** Which of two candidate paths exist, in order. */
  lemma PresentOfTwo(a: string, b: string, isFile: string -> bool)
    ensures var r := (if isFile(a) then [a] else []) + (if isFile(b) then [b] else []);
            && |r| <= 2
            && (forall x :: x in r ==> isFile(x) && (x == a || x == b))
            && (|r| == 2 ==> r == [a, b])
  {
  }

  lemma DefaultFilesUnrolled(p: Paths.Platform, dir: string, isFile: string -> bool)
    ensures var a := Paths.Join(p, dir, "dev-requirements.txt");
            var b := Paths.Join(p, dir, "requirements.txt");
            ExistingFiles(p, dir, RequirementFileNames, isFile)
              == (if isFile(a) then [a] else []) + (if isFile(b) then [b] else [])
  {
    var names := RequirementFileNames;
    var b := Paths.Join(p, dir, "requirements.txt");
    assert names[0] == "dev-requirements.txt" && names[1..] == ["requirements.txt"];
    assert names[1..][0] == "requirements.txt" && names[1..][1..] == [];
    assert ExistingFiles(p, dir, [], isFile) == [];
    assert ExistingFiles(p, dir, ["requirements.txt"], isFile) == (if isFile(b) then [b] else []);
  }

  /** What downloading and unpacking a source archive gave: the first entry
      of the unpack directory, or the failure. Only members whose base name
      is a requirement file name are unpacked, so `NothingExtracted` is an
      archive with no such member, not only an empty one. */
  datatype Fetched = Extracted(firstEntry: string) | DownloadFailed(error: string)
                   | ExtractFailed(error: string) | NothingExtracted

  /** The filesystem and network seen by the installer. */
  datatype FileSystem = FileSystem(
    isDir: string -> bool,
    isFile: string -> bool,
    fetchSource: string -> Fetched)

  /** `_get_default_requirement_files(source)`: the requirement files in a
      local source directory, or in the top directory of the downloaded
      source archive. A failed download or extraction ends the program with
      status 1; when nothing was unpacked (no member is a requirement file)
      the lookup of the first entry raises `IndexError`. */
  function DefaultRequirementFiles(p: Paths.Platform, source: string, fs: FileSystem): (r: Result<seq<string>, Outcome>)
    ensures fs.isDir(source) ==> r == Success(ExistingFiles(p, source, RequirementFileNames, fs.isFile))
    ensures !fs.isDir(source) && fs.fetchSource(source).Extracted? ==>
              r == Success(ExistingFiles(p, fs.fetchSource(source).firstEntry, RequirementFileNames, fs.isFile))
    ensures !fs.isDir(source) && (fs.fetchSource(source).DownloadFailed? || fs.fetchSource(source).ExtractFailed?) ==>
              r == Failure(Exit(Status(1)))
    ensures !fs.isDir(source) && fs.fetchSource(source).NothingExtracted? ==> r.Failure? && r.error.Raised?
  {
    if fs.isDir(source) then Success(ExistingFiles(p, source, RequirementFileNames, fs.isFile))
    else
      match fs.fetchSource(source)
      case DownloadFailed(_) => Failure(Exit(Status(1)))
      case ExtractFailed(_) => Failure(Exit(Status(1)))
      case NothingExtracted => Failure(Raised("IndexError"))
      case Extracted(dir) => Success(ExistingFiles(p, dir, RequirementFileNames, fs.isFile))
  }
}
