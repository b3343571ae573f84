/** `install_module`: the pip command line it builds from its arguments and
    the way it reads pip's exit status. */
module Pip {
  import opened Outcomes
  import Strings
  import Paths

  /** The arguments of one `install_module` call. Python's falsy defaults
      (`False`, `None`, `''`) are the empty string, `false` or `[]` here:
      the function only ever tests them for truth. */
  datatype InstallRequest = InstallRequest(
    name: string,
    version: string,
    pre: bool,
    virtualenv: string,
    wheelsPath: string,
    requirementFiles: seq<string>,
    upgrade: bool)

  /** What the installer cannot see: the platform, and the `virtualenv`
      library's answer for a virtualenv's bin directory. */
  datatype PipEnv = PipEnv(platform: Paths.Platform, binPath: string -> string)

  /** What the abstract `run` reports for one shell command: the child's
      return code, or an exception raised while starting it. */
  datatype RunResult = Exited(code: int) | Threw(error: string)

  /** The parsed shape of a pip command line. */
  datatype PipInvocation = PipInvocation(
    executable: string,
    requirementFiles: seq<string>,
    target: string,
    findLinks: Option<string>,
    pre: bool,
    upgrade: bool)

  const WheelFlags: seq<string> := ["--use-wheel", "--no-index", "--find-links"]

  /** `pip`, or the pip inside the requested virtualenv's bin directory. */
  function Executable(req: InstallRequest, env: PipEnv): string
  {
    if req.virtualenv != "" then Paths.Join(env.platform, env.binPath(req.virtualenv), "pip")
    else "pip"
  }

  /** The module token: `name==version` when a version is pinned. */
  function ModuleSpec(req: InstallRequest): string
  {
    if req.version != "" then req.name + "==" + req.version else req.name
  }

  /** `-r file` for every requirement file, in order. */
  function RequirementPairs(files: seq<string>): (r: seq<string>)
    ensures |r| == 2 * |files|
  {
    if files == [] then [] else ["-r", files[0]] + RequirementPairs(files[1..])
  }

  /** The `i`-th requirement file sits right after the `i`-th `-r`. */
  lemma {:induction false} RequirementPairAt(files: seq<string>, i: int)
    requires 0 <= i < |files|
    ensures RequirementPairs(files)[2 * i] == "-r" && RequirementPairs(files)[2 * i + 1] == files[i]
  {
    if i > 0 {
      RequirementPairAt(files[1..], i - 1);
      var rest := RequirementPairs(files[1..]);
      assert RequirementPairs(files) == ["-r", files[0]] + rest;
      assert RequirementPairs(files)[2 * i] == rest[2 * (i - 1)];
      assert RequirementPairs(files)[2 * i + 1] == rest[2 * (i - 1) + 1];
    }
  }

  /** The flags after the module token: the wheel flags, `--pre`, `--upgrade`. */
  function Options(findLinks: Option<string>, pre: bool, upgrade: bool): seq<string>
  {
    (if findLinks.Some? then WheelFlags + [findLinks.value] else [])
    + (if pre then ["--pre"] else [])
    + (if upgrade then ["--upgrade"] else [])
  }

  lemma OptionsShape(findLinks: Option<string>, pre: bool, upgrade: bool)
    ensures var opts := Options(findLinks, pre, upgrade);
            var w := if findLinks.Some? then 4 else 0;
            var p := if pre then 1 else 0;
            var u := if upgrade then 1 else 0;
            && |opts| == w + p + u
            && (findLinks.Some? ==> opts[..4] == WheelFlags + [findLinks.value])
            && (pre ==> opts[w] == "--pre")
            && (upgrade ==> opts[w + p] == "--upgrade")
  {
    var links := if findLinks.Some? then WheelFlags + [findLinks.value] else [];
    var pres := if pre then ["--pre"] else [];
    var ups := if upgrade then ["--upgrade"] else [];
    var opts := links + pres + ups;
    assert Options(findLinks, pre, upgrade) == opts;
    if findLinks.Some? {
      assert opts[..4] == links;
    }
    if pre {
      assert opts[|links|] == pres[0];
    }
    if upgrade {
      assert opts[|links| + |pres|] == ups[0];
    }
  }

  function Render(inv: PipInvocation): seq<string>
  {
    ([inv.executable, "install"] + RequirementPairs(inv.requirementFiles))
    + ([inv.target] + Options(inv.findLinks, inv.pre, inv.upgrade))
  }

  function Invocation(req: InstallRequest, env: PipEnv): PipInvocation
  {
    PipInvocation(Executable(req, env), req.requirementFiles, ModuleSpec(req),
                  if req.wheelsPath != "" then Some(req.wheelsPath) else None,
                  req.pre, req.upgrade)
  }

  /** The token list `install_module` builds, before it joins them. */
  function PipCommand(req: InstallRequest, env: PipEnv): seq<string>
  {
    Render(Invocation(req, env))
  }

  /** Position by position: pip (or the virtualenv's pip), `install`, the
      `-r` pairs, the module token, then the wheel flags iff a wheels path is
      set, `--pre` iff `pre`, `--upgrade` iff `upgrade`, and nothing else. */
  lemma PipCommandShape(req: InstallRequest, env: PipEnv)
    ensures var cmd := PipCommand(req, env);
            var n := |req.requirementFiles|;
            var k := 2 * n + 3;
            var w := if req.wheelsPath != "" then 4 else 0;
            var p := if req.pre then 1 else 0;
            var u := if req.upgrade then 1 else 0;
            && |cmd| == k + w + p + u
            && cmd[0] == Executable(req, env) && cmd[1] == "install"
            && (forall i :: 0 <= i < n ==> cmd[2 * i + 2] == "-r" && cmd[2 * i + 3] == req.requirementFiles[i])
            && cmd[k - 1] == ModuleSpec(req)
            && (req.wheelsPath != "" ==> cmd[k..k + 4] == WheelFlags + [req.wheelsPath])
            && (req.pre ==> cmd[k + w] == "--pre")
            && (req.upgrade ==> cmd[k + w + p] == "--upgrade")
  {
    var inv := Invocation(req, env);
    RenderPositions(inv);
    OptionsShape(inv.findLinks, inv.pre, inv.upgrade);
    var cmd := PipCommand(req, env);
    var k := 2 * |req.requirementFiles| + 3;
    var opts := cmd[k..];
    var w := if req.wheelsPath != "" then 4 else 0;
    var p := if req.pre then 1 else 0;
    assert req.wheelsPath != "" ==> cmd[k..k + 4] == opts[..4];
    assert req.pre ==> cmd[k + w] == opts[w];
    assert req.upgrade ==> cmd[k + w + p] == opts[w + p];
  }

  /** Where each part of an invocation lands in its rendering. */
  lemma RenderPositions(inv: PipInvocation)
    ensures var cmd := Render(inv);
            var n := |inv.requirementFiles|;
            var k := 2 * n + 3;
            && |cmd| >= k
            && cmd[0] == inv.executable && cmd[1] == "install"
            && (forall i :: 0 <= i < n ==> cmd[2 * i + 2] == "-r" && cmd[2 * i + 3] == inv.requirementFiles[i])
            && cmd[k - 1] == inv.target
            && cmd[k..] == Options(inv.findLinks, inv.pre, inv.upgrade)
  {
    var pairs := RequirementPairs(inv.requirementFiles);
    var head := [inv.executable, "install"] + pairs;
    var opts := Options(inv.findLinks, inv.pre, inv.upgrade);
    var cmd := Render(inv);
    assert cmd == head + ([inv.target] + opts);
    forall i | 0 <= i < |inv.requirementFiles|
      ensures cmd[2 * i + 2] == "-r" && cmd[2 * i + 3] == inv.requirementFiles[i]
    {
      RequirementPairAt(inv.requirementFiles, i);
      assert cmd[2 * i + 2] == pairs[2 * i] && cmd[2 * i + 3] == pairs[2 * i + 1];
    }
    assert cmd[|head|] == inv.target;
    assert cmd[|head| + 1..] == opts;
  }

  /** The shell command `install_module` hands to `run`. */
  function CommandLine(req: InstallRequest, env: PipEnv): string
  {
    Strings.Join(PipCommand(req, env), ' ')
  }

  /** Reads back the leading `-r file` pairs of a token list. */
  function ParsePairs(ts: seq<string>): (r: (seq<string>, seq<string>))
    ensures RequirementPairs(r.0) + r.1 == ts
  {
    if |ts| >= 2 && ts[0] == "-r" then
      var rest := ParsePairs(ts[2..]);
      assert ["-r", ts[1]] + (RequirementPairs(rest.0) + rest.1) == ts;
      ([ts[1]] + rest.0, rest.1)
    else ([], ts)
  }

  /** Reads the flags after the module token; `None` when anything else is
      left over. */
  function ParseOptions(ts: seq<string>): Option<(Option<string>, bool, bool)>
  {
    var hasLinks := |ts| >= 4 && ts[..3] == WheelFlags;
    var findLinks := if hasLinks then Some(ts[3]) else None;
    var afterLinks := if hasLinks then ts[4..] else ts;
    var pre := afterLinks != [] && afterLinks[0] == "--pre";
    var afterPre := if pre then afterLinks[1..] else afterLinks;
    var upgrade := afterPre != [] && afterPre[0] == "--upgrade";
    var afterUpgrade := if upgrade then afterPre[1..] else afterPre;
    if afterUpgrade == [] then Some((findLinks, pre, upgrade)) else None
  }

  /** Reads a pip command line back into its parts; `None` for a token list
      `install_module` could not have built. */
  function Parse(ts: seq<string>): Option<PipInvocation>
  {
    if |ts| < 3 || ts[1] != "install" then None
    else
      var (files, rest) := ParsePairs(ts[2..]);
      if rest == [] then None
      else
        match ParseOptions(rest[1..])
        case None => None
        case Some((findLinks, pre, upgrade)) =>
          Some(PipInvocation(ts[0], files, rest[0], findLinks, pre, upgrade))
  }

  lemma {:induction false} ParsePairsOfRendered(files: seq<string>, tail: seq<string>)
    requires tail != [] && tail[0] != "-r"
    ensures ParsePairs(RequirementPairs(files) + tail) == (files, tail)
  {
    if files != [] {
      var ts := RequirementPairs(files) + tail;
      assert ts == ["-r", files[0]] + (RequirementPairs(files[1..]) + tail);
      assert ts[2..] == RequirementPairs(files[1..]) + tail;
      ParsePairsOfRendered(files[1..], tail);
      assert [files[0]] + files[1..] == files;
    } else {
      assert RequirementPairs(files) + tail == tail;
    }
  }

  lemma ParseOptionsOfRendered(findLinks: Option<string>, pre: bool, upgrade: bool)
    ensures ParseOptions(Options(findLinks, pre, upgrade)) == Some((findLinks, pre, upgrade))
  {
    var links := if findLinks.Some? then WheelFlags + [findLinks.value] else [];
    var pres := if pre then ["--pre"] else [];
    var ups := if upgrade then ["--upgrade"] else [];
    var ts := links + (pres + ups);
    assert Options(findLinks, pre, upgrade) == ts;
    if findLinks.Some? {
      assert ts[..3] == WheelFlags;
      assert ts[4..] == pres + ups;
    } else {
      assert ts == pres + ups;
    }
    if pre {
      assert (pres + ups)[1..] == ups;
    } else {
      assert pres + ups == ups;
    }
  }

  lemma RenderedOptionsOfParse(ts: seq<string>)
    requires ParseOptions(ts).Some?
    ensures var (findLinks, pre, upgrade) := ParseOptions(ts).value;
            Options(findLinks, pre, upgrade) == ts
  {
    var (findLinks, pre, upgrade) := ParseOptions(ts).value;
    var hasLinks := |ts| >= 4 && ts[..3] == WheelFlags;
    var afterLinks := if hasLinks then ts[4..] else ts;
    var links := if hasLinks then WheelFlags + [ts[3]] else [];
    assert ts == links + afterLinks;
    var pres := if pre then ["--pre"] else [];
    var afterPre := if pre then afterLinks[1..] else afterLinks;
    assert afterLinks == pres + afterPre;
    var ups := if upgrade then ["--upgrade"] else [];
    assert afterPre == ups;
    assert Options(findLinks, pre, upgrade) == links + pres + ups;
  }

  /** Parsing a rendered command gives the invocation back, unless the
      module token is itself `-r`. */
  lemma ParseRender(inv: PipInvocation)
    requires inv.target != "-r"
    ensures Parse(Render(inv)) == Some(inv)
  {
    var ts := Render(inv);
    var pairs := RequirementPairs(inv.requirementFiles);
    var opts := Options(inv.findLinks, inv.pre, inv.upgrade);
    var tail := [inv.target] + opts;
    assert ts == ([inv.executable, "install"] + pairs) + tail;
    assert ts[2..] == pairs + tail;
    assert ts[0] == inv.executable && ts[1] == "install";
    ParsePairsOfRendered(inv.requirementFiles, tail);
    assert ParsePairs(ts[2..]) == (inv.requirementFiles, tail);
    assert tail[0] == inv.target && tail[1..] == opts;
    ParseOptionsOfRendered(inv.findLinks, inv.pre, inv.upgrade);
    assert ParseOptions(tail[1..]) == Some((inv.findLinks, inv.pre, inv.upgrade));
  }

  /** Every token list `Parse` accepts is the rendering of what it returns:
      `Parse` and `Render` are inverse on well-formed command lines. */
  lemma RenderParse(ts: seq<string>)
    requires Parse(ts).Some?
    ensures Render(Parse(ts).value) == ts
  {
    var inv := Parse(ts).value;
    var (files, rest) := ParsePairs(ts[2..]);
    ParsedParts(ts);
    RenderedOptionsOfParse(rest[1..]);
    RenderOfParts(ts, inv, files, rest);
  }

  /** A token list made of the parts of an invocation is its rendering. */
  lemma RenderOfParts(ts: seq<string>, inv: PipInvocation, files: seq<string>, rest: seq<string>)
    requires |ts| >= 3 && ts[1] == "install" && rest != []
    requires inv.executable == ts[0] && inv.requirementFiles == files && inv.target == rest[0]
    requires RequirementPairs(files) + rest == ts[2..]
    requires Options(inv.findLinks, inv.pre, inv.upgrade) == rest[1..]
    ensures Render(inv) == ts
  {
    var pairs := RequirementPairs(files);
    assert [inv.target] + rest[1..] == rest;
    calc {
      Render(inv);
      ([ts[0], "install"] + pairs) + rest;
      [ts[0], ts[1]] + (pairs + rest);
      [ts[0], ts[1]] + ts[2..];
      ts;
    }
  }

  /** What `Parse` reads from each part of a token list it accepts. */
  lemma ParsedParts(ts: seq<string>)
    requires Parse(ts).Some?
    ensures var inv := Parse(ts).value;
            var (files, rest) := ParsePairs(ts[2..]);
            && |ts| >= 3 && ts[1] == "install" && rest != []
            && inv.executable == ts[0] && inv.requirementFiles == files && inv.target == rest[0]
            && ParseOptions(rest[1..]) == Some((inv.findLinks, inv.pre, inv.upgrade))
  {
  }

  /** The command `install_module` builds parses back into exactly its
      arguments: pip, the requirement pairs, the module token, then the wheel
      flags iff a wheels path is set, `--pre` iff `pre`, `--upgrade` iff
      `upgrade`, and nothing else. */
  lemma PipCommandParses(req: InstallRequest, env: PipEnv)
    requires ModuleSpec(req) != "-r"
    ensures Parse(PipCommand(req, env)) == Some(PipInvocation(
              Executable(req, env), req.requirementFiles, ModuleSpec(req),
              if req.wheelsPath != "" then Some(req.wheelsPath) else None,
              req.pre, req.upgrade))
  {
    ParseRender(Invocation(req, env));
  }

  /** Splitting the joined command on `' '` gives back the same tokens when
      none of them contains a space (the tokens are not quoted). This is
      `str.split(' ')`, not the word splitting of the shell that `run`
      hands the line to. */
  lemma CommandLineSplits(req: InstallRequest, env: PipEnv)
    requires forall t :: t in PipCommand(req, env) ==> ' ' !in t
    ensures Strings.Split(CommandLine(req, env), ' ') == PipCommand(req, env)
  {
    var cmd := PipCommand(req, env);
    assert forall i :: 0 <= i < |cmd| ==> cmd[i] in cmd;
    Strings.SplitJoin(cmd, ' ');
  }

  const FailurePrefix: string := "Could not install module: "

  /** The exit check after pip has run. */
  function CheckReturnCode(code: int, spec: string): (r: Outcome)
    ensures r.Ok? <==> code == 0
    ensures r.Raised? == false
    ensures r.Exit? ==> r.arg.Text? && r.arg.message == FailurePrefix + spec + "."
  {
    if code == 0 then Ok else Exit(Text(FailurePrefix + spec + "."))
  }

  /** The exit message names the module token and nothing else: stripping
      the fixed text around it gives the token back. */
  lemma FailureMessageNamesModule(code: int, spec: string)
    requires code != 0
    ensures var m := CheckReturnCode(code, spec).arg.message;
            Strings.StartsWith(m, FailurePrefix) && Strings.EndsWith(m, ".")
            && m[|FailurePrefix|..|m| - 1] == spec
  {
    var m := CheckReturnCode(code, spec).arg.message;
    assert m == FailurePrefix + spec + ".";
    assert m[..|FailurePrefix|] == FailurePrefix;
    assert m[|FailurePrefix|..|m| - 1] == spec;
  }

  /** One `install_module` call, with `run` as an oracle. */
  function InstallModule(req: InstallRequest, env: PipEnv, run: string -> RunResult): (r: Outcome)
    ensures run(CommandLine(req, env)).Threw? ==> r == Raised(run(CommandLine(req, env)).error)
    ensures run(CommandLine(req, env)).Exited? ==>
              (r.Ok? <==> run(CommandLine(req, env)).code == 0)
              && (r.Exit? ==> r.arg == Text(FailurePrefix + ModuleSpec(req) + "."))
              && !r.Raised?
  {
    match run(CommandLine(req, env))
    case Threw(e) => Raised(e)
    case Exited(code) => CheckReturnCode(code, ModuleSpec(req))
  }
}
