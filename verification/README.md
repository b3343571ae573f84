# get-cloudify installer core, modelled in Dafny

`get-cloudify.py` is a bootstrap script. It reads command-line flags and
optionally creates a virtualenv. Then it installs the `cloudify` package (or a
given source) with pip, either online from the package index or offline from
a local directory of wheels. This project models the parts of it that are
pure decisions and string building:

- **Pip command** (`Pip`): the token list `install_module` builds from its
  arguments, the shell line it joins them into, and how it reads pip's return
  code. Rendering and parsing are proved inverse. The exit message is proved
  to name the module token, version pin included.
- **Install decision** (`Installer`): `CloudifyInstaller.execute` from the
  requirement-file defaulting to the last `install_module` call. It is a
  function of an abstract `attempt` oracle. It returns the trace of calls
  made and the final outcome (`Ok`, `Exit` for `sys.exit`, `Raised` for an
  ordinary exception). `InstallRun` plugs the pip model in for `attempt`, with
  `run` as an oracle from shell line to return code.
- **Argument handling** (`CliArgs`): the deprecated-flag merge over the
  argparse dictionary, `--use-branch` turned into a GitHub archive URL, and
  the removal of `quiet`, `verbose` and the deprecated keys before the
  dictionary reaches the installer's constructor. The dictionary keys are an
  enumeration, `CliArgs.Key`, with one constructor per argparse destination
  (`Withrequirements` for `withrequirements`, `WithRequirements` for
  `with_requirements`, and so on).
- **Requirement files** (`Requirements`): the tar-member filter and the
  default requirement files of a source directory or archive.
- **Helpers** (`Strings`, `Paths`, `Outcomes`): Python's `str.split` and
  `str.join` on one character, `os.path.join` and `basename`, and the
  result types.

The code and the installer's docstring disagree on the offline fallback. The
docstring says a failed offline install falls back to an online one. But
`install_module` reports a failed pip run with `sys.exit`. That raises
`SystemExit`, and the `except Exception` around the offline call does not
catch it. So the code falls back only when the offline call raises an
ordinary exception. `Installer.Execute` models the code.
`Installer.ExecuteIntended` models the documented behaviour; see Findings.

Two consequences of the merge rule, both modelled as written:
- A deprecated value only overrides when it is truthy. So `--withrequirements`
  given with no values (an empty list) is ignored.
- On Windows the documented `--installpycrypto` is the key treated as
  deprecated and copied onto `install_pycrypto`.

## Model

| member | source | states |
|---|---|---|
| Strings.Split | get-cloudify.py:779-784 | `str.split('/')` yields at least one part, and no part holds a separator |
| Strings.SplitCount | get-cloudify.py:779-780 | a split has one more part than the string has separators, so `len(parts) > 2` means two or more `/` |
| Strings.JoinSplit | get-cloudify.py:784 | joining the parts of a split with the separator gives the string back |
| Strings.SplitJoin | get-cloudify.py:233 | splitting a join on the separator gives the parts back when no part holds the separator |
| Strings.Count | get-cloudify.py:778 | the separator count is zero exactly when `'/' in branch` is false |
| Paths.Join | get-cloudify.py:216-217 | `os.path.join(dir, name)` starts with `dir` and ends with `name`; it adds nothing between them exactly when `dir` is empty or already ends in a separator, and otherwise adds exactly the platform's separator |
| Paths.Basename | get-cloudify.py:244 | the base name is the text after the last `/`: a suffix of the path that holds no `/` and is either the whole path or preceded by a `/` |
| Paths.JoinBasename | get-cloudify.py:464-465 | the base name of `join(dir, name)` is `name` when `name` holds no `/` |
| Pip.RequirementPairs | get-cloudify.py:218-220 | each requirement file contributes exactly two tokens |
| Pip.RequirementPairAt | get-cloudify.py:218-220 | the `i`-th requirement file is the token right after the `i`-th `-r`, so the files appear in the given order |
| Pip.RenderPositions | get-cloudify.py:214-229 | in a rendered command the executable and `install` come first, then the `-r` pairs, the module token, and the flags, each at its computed position |
| Pip.PipCommandShape | get-cloudify.py:214-229 | the command is pip (or the virtualenv's pip), `install`, the `-r` pairs, the module token (`name==version` iff a version is set), then the four wheel tokens iff a wheels path is set, `--pre` iff `pre`, `--upgrade` iff `upgrade`; the length formula leaves room for nothing else |
| Pip.OptionsShape | get-cloudify.py:223-229 | the flags after the module token come in the order wheels, `--pre`, `--upgrade`, each present iff its argument is truthy |
| Pip.ParsePairs | get-cloudify.py:218-220 | reading leading `-r` pairs splits a token list into the files and the rest, which re-render to the same list |
| Pip.ParseRender | get-cloudify.py:214-229 | parsing a rendered command returns the invocation it was rendered from, unless the module token is `-r` |
| Pip.RenderParse | get-cloudify.py:214-229 | every token list the parser accepts is exactly the rendering of what it returns |
| Pip.PipCommandParses | get-cloudify.py:214-229 | the command built for a request parses back to its executable, requirement files, module token, wheels path, `pre` and `upgrade` |
| Pip.ParsePairsOfRendered | get-cloudify.py:218-222 | the `-r` pairs followed by the module token read back as the same files |
| Pip.ParseOptionsOfRendered | get-cloudify.py:223-229 | the rendered flags read back to the same wheels path, `pre` and `upgrade` |
| Pip.RenderedOptionsOfParse | get-cloudify.py:223-229 | flags the parser accepts are the rendering of what it read |
| Pip.CommandLineSplits | get-cloudify.py:233 | splitting the space-joined line on `' '` gives back the same tokens when no token contains a space |
| Pip.CheckReturnCode | get-cloudify.py:234-236 | return code 0 returns normally; any other code exits with exactly `Could not install module: <token>.` |
| Pip.FailureMessageNamesModule | get-cloudify.py:236 | stripping the fixed prefix and the final `.` from the exit message gives the module token back |
| Pip.InstallModule | get-cloudify.py:233-236 | a call returns normally iff pip's return code is 0, exits with the module-token message otherwise, and raises only when `run` raises |
| CliArgs.MergeDeprecated | get-cloudify.py:762-772 | the merge keeps the dictionary's key set |
| CliArgs.MergeCharacterized | get-cloudify.py:752-772 | the merge succeeds iff every present new key has its deprecated key; then each present new key holds the deprecated value iff that value is truthy, and every other key is unchanged |
| CliArgs.MergeOrderIrrelevant | get-cloudify.py:762 | applying the pairs in any order gives the same verdict and the same dictionary |
| CliArgs.MergeStep | get-cloudify.py:762-772 | applying the first pair and then merging the rest has the same effect on every present new key and every other key as the whole merge promises |
| CliArgs.MergeKeepsOtherKey | get-cloudify.py:762-772 | a key that is no new key keeps its value through the merge |
| CliArgs.DeprecationsWellFormed | get-cloudify.py:752-761 | the table's new keys are distinct and none is also a deprecated key |
| CliArgs.DeprecationPairShape | get-cloudify.py:752-761 | every pair of the table joins a squashed (deprecated) spelling to the new key it replaces, and no new key is a squashed spelling |
| CliArgs.UseBranchIsNotReplaced | get-cloudify.py:752-761 | `use_branch` is not a new key of the table |
| CliArgs.BranchSource | get-cloudify.py:775-787 | a branch value with two or more `/` is the usage error; with none the URL uses user `cloudify-cosmo` and the whole value as branch |
| CliArgs.UserBranchSource | get-cloudify.py:783-787 | `user/branch` gives the archive URL of that user and branch |
| CliArgs.TemplateParses | get-cloudify.py:577 | filling `{user}` and `{branch}` into a URL template whose text after `{user}` opens with `/` can be read back to the same user and branch |
| CliArgs.ArchiveUrlParses | get-cloudify.py:577 | the archive URL determines its user and branch when the user holds no `/` |
| CliArgs.BeforeOfPrefix | get-cloudify.py:577 | the text of the URL before the first `/` after the host is the user |
| CliArgs.BranchSourceNamesUserAndBranch | get-cloudify.py:775-789 | the URL built for a branch value names the default user and the whole value, or the two sides of its one `/`, which join back into the value |
| CliArgs.ApplyBranch | get-cloudify.py:775-792 | a missing `use_branch` key is a `KeyError`; a falsy one always succeeds and leaves `source` alone; a truthy string succeeds exactly when `BranchSource` does, sets `source` to its archive URL, and otherwise fails with its usage error; the `use_branch` key is always removed and every other key is unchanged |
| CliArgs.ProcessParsedArgs | get-cloudify.py:752-801 | a dictionary that gets through `parse_args` went through a successful merge, holds `source` and no longer holds `use_branch` |
| CliArgs.PopAll | get-cloudify.py:817-821 | the pruning removes exactly the listed keys that are present and leaves every other value unchanged |
| CliArgs.ParsedArgsFailOnlyOnBranch | get-cloudify.py:579-801 | on every platform, a dictionary with argparse's destinations fails `parse_args` only with the `--use-branch` usage error |
| CliArgs.ParsedArgsFitInstaller | get-cloudify.py:298-314 | on every platform, the pruned dictionary holds only keyword parameters of the installer's constructor |
| CliArgs.MergedForParser | get-cloudify.py:762-772 | for argparse's destinations the merge succeeds, keeps the keys and leaves `use_branch` unchanged |
| CliArgs.ParserDestsMergeDefined | get-cloudify.py:762-763 | for argparse's destinations every present new key finds its deprecated key |
| CliArgs.ProcessAfterBranch | get-cloudify.py:789-801 | after a successful branch step the `source` and `with_requirements` lookups succeed |
| CliArgs.ProcessAfterBranchFailure | get-cloudify.py:779-782 | a branch usage error is the error of `parse_args` |
| CliArgs.BranchedKeys | get-cloudify.py:789-792 | after the branch step the keys are argparse's destinations without `use_branch` |
| CliArgs.PrunedKeysAreParameters | get-cloudify.py:817-822 | the keys left after pruning are constructor parameters |
| CliArgs.PrunedDestIsParameter | get-cloudify.py:298-314 | a destination that is neither `use_branch`, `quiet`, `verbose` nor a squashed (deprecated) spelling is a constructor parameter |
| CliArgs.DeprecatedKeyListIsSquashed | get-cloudify.py:800 | the list of deprecated keys `parse_args` returns holds exactly the eight squashed spellings |
| Requirements.RequirementMembers | get-cloudify.py:243-245 | a tar member is kept iff its base name is `dev-requirements.txt` or `requirements.txt` |
| Requirements.RequirementMembersAppend | get-cloudify.py:243-245 | the filter works member by member, so it keeps archive order |
| Requirements.RequirementMembersIdempotent | get-cloudify.py:243-245 | filtering the kept members keeps all of them |
| Requirements.ExistingFiles | get-cloudify.py:464-465 | a joined requirement path is listed iff it is an existing file, and nothing else is listed |
| Requirements.DefaultFilesAreRequirementFiles | get-cloudify.py:464-465 | the default files are existing files under the directory named after a requirement file, with `dev-requirements.txt` first |
| Requirements.DefaultFilesUnrolled | get-cloudify.py:464-465 | the default files are the existing ones among `<dir>/dev-requirements.txt` and `<dir>/requirements.txt`, in that order |
| Requirements.DefaultRequirementFiles | get-cloudify.py:461-489 | a local directory gives its requirement files; otherwise a failed download or extraction exits with status 1, an archive none of whose members is a requirement file (so nothing is unpacked) raises `IndexError`, and an extracted archive gives the files of its first entry |
| Installer.TargetModule | get-cloudify.py:353 | the module installed is the source when one is given, else `cloudify` |
| Installer.RequirementFiles | get-cloudify.py:379-381 | no files unless requested; a non-empty requested list as given; the source's default files when the flag came without values |
| Installer.Decide | get-cloudify.py:383-409 | one or two calls, all with the same module, requirement files, virtualenv and upgrade; the last call's outcome is the result; without wheels one online call; with wheels the first call has `pre`, no version and the wheels path; a second, online call is made iff the first raised an ordinary exception |
| Installer.Execute | get-cloudify.py:379-409 | a failure while resolving requirement files ends the run with no install call; otherwise the decision above runs on the resolved files |
| Installer.DecideIntended | get-cloudify.py:344-347 | as documented: a second, online call is made iff wheels are used and the offline call did not succeed; a run that does not succeed ends on the online call |
| Installer.ExecuteIntended | get-cloudify.py:344-347 | the documented decision, after the same requirement-file resolution |
| Installer.DecisionsAgreeUnlessOfflineExits | get-cloudify.py:394-409 | the code and the documented behaviour differ exactly when wheels are used and the offline call ends with `sys.exit` |
| Installer.OnlineOnlyWithoutWheels | get-cloudify.py:383-389 | with no wheels directory or online mode forced, exactly the online pip command runs |
| Installer.OfflineSuccessIsFinal | get-cloudify.py:394-400 | a successful offline pip run is the only command and the run succeeds |
| Installer.OfflinePipFailureEndsProgram | get-cloudify.py:394-401 | a failed offline pip run ends the program with the offline module's exit message and makes no online call |
| Installer.OfflineExceptionFallsBack | get-cloudify.py:401-409 | an exception from the offline call leads to exactly one online call, whose outcome is final |
| Installer.IntendedFallbackAfterPipFailure | get-cloudify.py:344-347 | as documented, a failed offline pip run is followed by exactly one online run, and a successful one ends in success |
| Installer.IntendedFatalNamesModule | get-cloudify.py:344-347 | as documented, when both runs fail the program exits with a message naming the module and its version pin |
| Installer.ActivateCommand | get-cloudify.py:411-414 | on Windows the command is the bin path, the separator when the path does not already end in one, and `activate.bat`; elsewhere it is `source `, the bin path, the same separator rule, and `activate`; nothing else is in between |
| Installer.ActivateSourcesScript | get-cloudify.py:411-414 | outside Windows, the text after `source ` starts with the bin path and has base name `activate` |
| Installer.PythonDev | get-cloudify.py:497-510 | a command runs iff the distribution is Debian-like, Red Hat-like or Arch; apt-get for Debian-like, yum for Red Hat-like, `pacman -S gcc --noconfirm` for Arch; nothing on Darwin otherwise; else the unsupported-distribution exit |
| Installer.PythonDevByFamily | get-cloudify.py:497-500 | two distributions of the same known family get the same command, whatever the platform and `/etc/arch-release` |
| Installer.PythonDevOtherDistributions | get-cloudify.py:501-510 | for any other distribution only `/etc/arch-release` and the platform decide the step, and it is the unsupported exit exactly when there is no `/etc/arch-release` and the platform is not Darwin |

## Left out

- `run` and `PipeReader` (get-cloudify.py:146-171, 278-294) spawn a process and read its output on two threads. This is concurrency and OS I/O. `run` is an oracle from shell line to return code or exception. The capture of output and the logging of pip's output on failure (line 235) are not modelled.
- Logging: `init_logger`, log levels (lines 809-814), and the text of every warning and info message. Only the dictionary lookups that the missing-requirements warning makes (lines 794-799) are modelled, because those can raise.
- argparse itself (lines 560-739): mutually exclusive groups, the `VerifySource` action and defaults. The model starts from the parsed dictionary. `ParserDests` lists the keys argparse fills on each platform.
- The prerequisite steps of `execute` (lines 355-375): installing pip, virtualenv, python-dev and pycrypto, dropping root privileges, and creating the virtualenv. These are process and privilege I/O. As written they also fail: lines 325-328 replace the `install_pip`, `install_virtualenv`, `install_pythondev` and `install_pycrypto` methods with the flag values, so calling them calls a boolean.
- The installer's constructor (lines 298-338): the conversion from dictionary values to fields, and `get_os_props`. `Installer.Config` takes the already-typed fields that reach the install step. Only the key compatibility of the `**args` call is proved. As written, line 333 reads `self.installpythondev`, which does not exist, whenever the platform is neither Linux nor Darwin, so `CloudifyInstaller(**args)` raises `AttributeError` on every Windows run. The `Paths.Windows` cases of `Installer.Execute` and `Installer.ActivateCommand` therefore model what the code would do past that line; on Windows as written they are never reached.
- `download_file`, the tar extraction and the temporary directories. `Requirements.FileSystem.fetchSource` reports their result: the first entry of the unpacked directory, or the failure.
- `_get_env_bin_path` (lines 264-275) calls into the `virtualenv` library. `Pip.PipEnv.binPath` stands in for it.
- `handle_upgrade`, `check_cloudify_installed`, `make_virtualenv`, `install_pip`, `install_pycrypto`, `drop_root_privileges` and the platform check at lines 130-131. These are process, import-probe and OS calls.
- `Paths.Join` does not handle Windows drive prefixes such as `C:`. Every name it joins in the source is a relative literal. `Paths.Basename` is POSIX `basename`.
- Installer.Decide: line 390 re-checks `os.path.isdir` after line 383. The model reads the filesystem once, so the case where the directory vanishes between the checks (no install at all) is not modelled.
- Pip.CommandLineSplits: the round trip is stated for splitting on `' '`, not for the shell's word splitting that `run` (`shell=True`, lines 151-152) applies. The tokens are joined without quoting, so the shell drops empty tokens (`-r ''` gives argparse `['']`, and the line `pip install -r  cloudify` makes pip read `cloudify` as the requirement file) and interprets quotes, `$`, globs, `;` and tabs. None of that is modelled, and tokens with spaces are excluded.
- CliArgs.MergeOrderIrrelevant: on failure only the verdict is order-independent, not which missing key the `KeyError` names, because Python reports the first one its dictionary order meets.
- CliArgs.ApplyBranch: a truthy `use_branch` that is not a string is reported as a `TypeError`. argparse's `type=str` never produces one.

## Findings

| source | as written | input that shows it | evidently intended | confidence | as-written member | corrected member |
|---|---|---|---|---|---|---|
| get-cloudify.py:394-409 | the offline `install_module` call is guarded by `except Exception`, but a failed pip run ends it with `sys.exit`, whose `SystemExit` is not an `Exception`, so the program ends after the offline attempt | a wheels directory exists, online mode is not forced, and the offline pip run returns 1 | fall back to one online install, as the docstring at lines 344-347 says | high; not executed | Installer.OfflinePipFailureEndsProgram | Installer.IntendedFallbackAfterPipFailure |
