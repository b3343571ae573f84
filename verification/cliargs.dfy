/** What `parse_args` and the `__main__` block do to the argument dictionary
    once argparse has filled it: the deprecated-flag merge, `--use-branch`
    turned into a source URL, and the removal of the keys the installer's
    constructor does not take. */
module CliArgs {
  import opened Outcomes
  import Strings
  import Paths

  /** The values argparse stores: `None`, a `store_true` flag, a `type=str`
      option, or an `nargs='*'` list. */
  datatype Value = NoneValue | BoolValue(b: bool) | StrValue(s: string) | ListValue(items: seq<string>)

  /** Python truthiness of a stored value. */
  predicate Truthy(v: Value)
  {
    match v
    case NoneValue => false
    case BoolValue(b) => b
    case StrValue(s) => s != ""
    case ListValue(items) => items != []
  }

  /** The dictionary keys: argparse's destinations, named after them
      in CamelCase with an upper-case letter after each underscore
      (`Withrequirements` is `withrequirements`, `WithRequirements` is
      `with_requirements`), and the two constructor parameters no flag
      sets. */
  datatype Key =
    | Verbose | Quiet | Version | Pre | Source | UseBranch
    | Forceonline | ForceOnline | Wheelspath | WheelsPath | Force | Virtualenv
    | Pythonpath | PythonPath | Installpip | InstallPip
    | Installvirtualenv | InstallVirtualenv | Withrequirements | WithRequirements | Upgrade
    | Installpythondev | InstallPythondev | InstallPycrypto | Installpycrypto
    | OsDistro | OsRelease

  type Args = map<Key, Value>

  /** `parser.error(msg)` (a usage error), a `KeyError` from looking up a
      missing key, or a `TypeError` from a value of the wrong kind. */
  datatype ParseError = UsageError(message: string) | KeyError(key: Key) | TypeError(key: Key)

  /** The deprecated flags and the flags that replace them. Python iterates
      this dictionary in no fixed order; `MergeOrderIrrelevant` shows the
      order does not matter. */
  const Deprecations: seq<(Key, Key)> := [
    (Withrequirements, WithRequirements),
    (Installvirtualenv, InstallVirtualenv),
    (Installpip, InstallPip),
    (Pythonpath, PythonPath),
    (Wheelspath, WheelsPath),
    (Forceonline, ForceOnline),
    (Installpycrypto, InstallPycrypto),
    (Installpythondev, InstallPythondev)
  ]

  /** For one pair: the deprecated value when it is truthy, else the current one. */
  function Pick<K(==)>(args: map<K, Value>, p: (K, K)): Value
    requires p.0 in args && p.1 in args
  {
    if Truthy(args[p.0]) then args[p.0] else args[p.1]
  }

  /** The merge loop: for each pair whose new key is present, read the
      deprecated key (failing with that key when it is missing) and copy its
      value over the new key when that value is truthy. */
  function MergeDeprecated<K(==)>(args: map<K, Value>, pairs: seq<(K, K)>): (r: Result<map<K, Value>, K>)
    ensures r.Success? ==> r.value.Keys == args.Keys
  {
    if pairs == [] then Success(args)
    else
      var (deprecated, replacement) := pairs[0];
      if replacement in args then
        if deprecated !in args then Failure(deprecated)
        else
          var updated := if Truthy(args[deprecated]) then args[replacement := args[deprecated]] else args;
          MergeDeprecated(updated, pairs[1..])
      else MergeDeprecated(args, pairs[1..])
  }

  function Targets<K(==)>(pairs: seq<(K, K)>): set<K>
  {
    set p | p in pairs :: p.1
  }

  /** Each new key has one deprecated key, and no new key is also a
      deprecated key. */
  predicate WellFormedPairs<K(==)>(pairs: seq<(K, K)>)
  {
    && (forall p, q :: p in pairs && q in pairs && p.1 == q.1 ==> p == q)
    && (forall p, q :: p in pairs && q in pairs ==> p.1 != q.0)
  }

  /** Every pair whose new key is present also finds its deprecated key. */
  predicate MergeDefined<K(==)>(args: map<K, Value>, pairs: seq<(K, K)>)
  {
    forall p :: p in pairs && p.1 in args ==> p.0 in args
  }

  /** `r` is `args` with every present new key replaced by its pick, and
      every other key unchanged. */
  predicate MergedFrom<K(==)>(args: map<K, Value>, pairs: seq<(K, K)>, r: map<K, Value>)
  {
    && r.Keys == args.Keys
    && (forall p :: p in pairs && p.1 in args && p.0 in args ==> r[p.1] == Pick(args, p))
    && (forall k :: k in args && k !in Targets(pairs) ==> r[k] == args[k])
  }

  /** The merge succeeds exactly when every present new key finds its
      deprecated key, and then it replaces each present new key by the
      deprecated value iff that value is truthy, changing nothing else. */
  lemma {:induction false} MergeCharacterized<K>(args: map<K, Value>, pairs: seq<(K, K)>)
    requires WellFormedPairs(pairs)
    ensures MergeDeprecated(args, pairs).Success? <==> MergeDefined(args, pairs)
    ensures MergeDeprecated(args, pairs).Success? ==> MergedFrom(args, pairs, MergeDeprecated(args, pairs).value)
  {
    if pairs != [] {
      var p0 := pairs[0];
      var rest := pairs[1..];
      PairsSplit(pairs);
      if p0.1 in args {
        if p0.0 in args {
          var updated := if Truthy(args[p0.0]) then args[p0.1 := args[p0.0]] else args;
          assert MergeDeprecated(args, pairs) == MergeDeprecated(updated, rest);
          MergeCharacterized(updated, rest);
          assert MergeDefined(updated, rest) <==> MergeDefined(args, pairs);
          if MergeDeprecated(updated, rest).Success? {
            MergeStep(args, pairs, updated, MergeDeprecated(updated, rest).value);
          }
        }
      } else {
        MergeCharacterized(args, rest);
      }
    }
  }

  lemma PairsSplit<K>(pairs: seq<(K, K)>)
    requires pairs != []
    ensures forall p :: p in pairs <==> p == pairs[0] || p in pairs[1..]
    ensures Targets(pairs) == {pairs[0].1} + Targets(pairs[1..])
    ensures WellFormedPairs(pairs) ==> WellFormedPairs(pairs[1..])
  {
    assert pairs == [pairs[0]] + pairs[1..];
  }

  /** One step of the merge: what holds of the rest after the first pair
      was applied holds of the whole table. */
  lemma MergeStep<K>(args: map<K, Value>, pairs: seq<(K, K)>, updated: map<K, Value>, r: map<K, Value>)
    requires WellFormedPairs(pairs) && pairs != []
    requires pairs[0].1 in args && pairs[0].0 in args
    requires updated == if Truthy(args[pairs[0].0]) then args[pairs[0].1 := args[pairs[0].0]] else args
    requires MergedFrom(updated, pairs[1..], r)
    ensures MergedFrom(args, pairs, r)
  {
    var p0 := pairs[0];
    var rest := pairs[1..];
    PairsSplit(pairs);
    forall p | p in pairs && p.1 in args && p.0 in args
      ensures r[p.1] == Pick(args, p)
    {
      assert p.0 != p0.1;
      if p == p0 {
        if p0 in rest {
          assert r[p.1] == Pick(updated, p0);
        }
      } else {
        assert p.1 != p0.1;
        assert updated[p.0] == args[p.0] && updated[p.1] == args[p.1];
      }
    }
  }

  /** Applying the pairs in any order gives the same verdict and, on success,
      the same dictionary. */
  lemma MergeOrderIrrelevant<K>(args: map<K, Value>, ps: seq<(K, K)>, qs: seq<(K, K)>)
    requires WellFormedPairs(ps)
    requires forall p :: p in ps <==> p in qs
    ensures MergeDeprecated(args, ps).Success? == MergeDeprecated(args, qs).Success?
    ensures MergeDeprecated(args, ps).Success? ==> MergeDeprecated(args, ps) == MergeDeprecated(args, qs)
  {
    assert WellFormedPairs(qs);
    MergeCharacterized(args, ps);
    MergeCharacterized(args, qs);
    if MergeDeprecated(args, ps).Success? {
      var r1 := MergeDeprecated(args, ps).value;
      var r2 := MergeDeprecated(args, qs).value;
      assert Targets(ps) == Targets(qs);
      forall k | k in args ensures r1[k] == r2[k] {
        if k in Targets(ps) {
          var p :| p in ps && p.1 == k;
          assert r1[k] == Pick(args, p) == r2[k];
        }
      }
      assert r1 == r2;
    }
  }

  /** A key that is no new key keeps its value through the merge. */
  lemma MergeKeepsOtherKey<K>(args: map<K, Value>, pairs: seq<(K, K)>, k: K)
    requires WellFormedPairs(pairs) && MergeDefined(args, pairs)
    requires k in args && k !in Targets(pairs)
    ensures MergeDeprecated(args, pairs).Success?
    ensures MergeDeprecated(args, pairs).value[k] == args[k]
  {
    MergeCharacterized(args, pairs);
  }

  /** The deprecated keys of the table: the squashed spellings. */
  ghost predicate IsSquashed(k: Key)
  {
    k.Withrequirements? || k.Installvirtualenv? || k.Installpip? || k.Pythonpath?
    || k.Wheelspath? || k.Forceonline? || k.Installpycrypto? || k.Installpythondev?
  }

  /** The squashed spelling a new key replaces. */
  ghost function SquashedOf(k: Key): Key
  {
    match k
    case WithRequirements => Withrequirements
    case InstallVirtualenv => Installvirtualenv
    case InstallPip => Installpip
    case PythonPath => Pythonpath
    case WheelsPath => Wheelspath
    case ForceOnline => Forceonline
    case InstallPycrypto => Installpycrypto
    case InstallPythondev => Installpythondev
    case _ => k
  }

  lemma DeprecationPairShape()
    ensures forall p :: p in Deprecations ==> SquashedOf(p.1) == p.0 && IsSquashed(p.0) && !IsSquashed(p.1)
  {
    forall i | 0 <= i < |Deprecations|
      ensures var p := Deprecations[i]; SquashedOf(p.1) == p.0 && IsSquashed(p.0) && !IsSquashed(p.1)
    {
    }
  }

  lemma DeprecationsWellFormed()
    ensures WellFormedPairs(Deprecations)
  {
    DeprecationPairShape();
  }

  const DefaultUser: string := "cloudify-cosmo"

  const BranchFormatMessage: string :=
    "--use-branch should be specified either as <branch> or as <user>/<branch>. Too many \"/\" found in arguments."

  const ArchiveHost: string := "https://github.com/"
  const ArchiveMiddle: string := "/cloudify-cli/archive/"
  const ArchiveSuffix: string := ".tar.gz"

  /** `repo_url.format(user=user, branch=branch)`. */
  function ArchiveUrl(user: string, branch: string): string
  {
    ArchiveHost + user + ArchiveMiddle + branch + ArchiveSuffix
  }

  /** The source URL for a `--use-branch` value: `branch` or `user/branch`;
      more than one `/` is a usage error. */
  function BranchSource(spec: string): (r: Result<string, ParseError>)
    ensures r.Failure? <==> Strings.Count(spec, '/') >= 2
    ensures r.Failure? ==> r.error == UsageError(BranchFormatMessage)
    ensures '/' !in spec ==> r == Success(ArchiveUrl(DefaultUser, spec))
  {
    if '/' in spec then
      var parts := Strings.Split(spec, '/');
      Strings.SplitCount(spec, '/');
      if |parts| > 2 then Failure(UsageError(BranchFormatMessage))
      else Success(ArchiveUrl(parts[0], parts[1]))
    else Success(ArchiveUrl(DefaultUser, spec))
  }

  /** `user/branch` names that user and branch. */
  lemma UserBranchSource(user: string, branch: string)
    requires '/' !in user && '/' !in branch
    ensures BranchSource(user + "/" + branch) == Success(ArchiveUrl(user, branch))
  {
    var spec := user + "/" + branch;
    assert spec == Strings.Join([user, branch], '/');
    Strings.SplitJoin([user, branch], '/');
    assert spec[|user|] == '/';
  }

  /** Recovers the user and branch from a URL built from the template
      `host + user + middle + branch + suffix`. */
  function ParseTemplate(host: string, middle: string, suffix: string, url: string): Option<(string, string)>
  {
    if |url| < |host| + |suffix| || url[..|host|] != host || url[|url| - |suffix|..] != suffix then None
    else
      var body := url[|host|..|url| - |suffix|];
      var user := Strings.Before(body, '/');
      var rest := body[|user|..];
      if |rest| < |middle| || rest[..|middle|] != middle then None
      else Some((user, rest[|middle|..]))
  }

  /** Recovers the user and branch from an archive URL. */
  function ParseArchiveUrl(url: string): Option<(string, string)>
  {
    ParseTemplate(ArchiveHost, ArchiveMiddle, ArchiveSuffix, url)
  }

  lemma {:induction false} BeforeOfPrefix(user: string, rest: string)
    requires '/' !in user
    ensures Strings.Before(user + "/" + rest, '/') == user
  {
    if user != [] {
      assert (user + "/" + rest)[1..] == user[1..] + "/" + rest;
      BeforeOfPrefix(user[1..], rest);
      assert [user[0]] + user[1..] == user;
    }
  }

  /** Any template whose middle part opens with `/` gives back the user
      (which has no `/`) and the branch it was filled with. */
  lemma TemplateParses(host: string, middle: string, suffix: string, user: string, branch: string)
    requires |middle| > 0 && middle[0] == '/' && '/' !in user
    ensures ParseTemplate(host, middle, suffix, host + user + middle + branch + suffix) == Some((user, branch))
  {
    var url := host + user + middle + branch + suffix;
    var body := user + middle + branch;
    assert url == host + body + suffix;
    assert url[..|host|] == host;
    assert url[|url| - |suffix|..] == suffix;
    assert url[|host|..|url| - |suffix|] == body;
    assert body == user + "/" + (middle[1..] + branch);
    BeforeOfPrefix(user, middle[1..] + branch);
    assert body[|user|..] == middle + branch;
  }

  /** An archive URL names its user and branch: the user is the text up to
      the first `/` after the host, the branch the rest. */
  lemma ArchiveUrlParses(user: string, branch: string)
    requires '/' !in user
    ensures ParseArchiveUrl(ArchiveUrl(user, branch)) == Some((user, branch))
  {
    assert ArchiveMiddle[0] == '/';
    TemplateParses(ArchiveHost, ArchiveMiddle, ArchiveSuffix, user, branch);
  }

  /** The URL built for `--use-branch` names exactly what was asked for: the
      default user and the whole value when it has no `/`, otherwise the two
      sides of its one `/`, which join back into the value. */
  lemma BranchSourceNamesUserAndBranch(spec: string)
    requires BranchSource(spec).Success?
    ensures ParseArchiveUrl(BranchSource(spec).value).Some?
    ensures var (user, branch) := ParseArchiveUrl(BranchSource(spec).value).value;
            if '/' in spec then user + "/" + branch == spec && '/' !in user && '/' !in branch
            else user == DefaultUser && branch == spec
  {
    if '/' in spec {
      var parts := Strings.Split(spec, '/');
      Strings.SplitCount(spec, '/');
      assert |parts| == 2;
      ArchiveUrlParses(parts[0], parts[1]);
      Strings.JoinSplit(spec, '/');
      assert Strings.Join(parts, '/') == parts[0] + "/" + parts[1] by {
        assert parts[1..] == [parts[1]];
      }
    } else {
      assert '/' !in DefaultUser;
      ArchiveUrlParses(DefaultUser, spec);
    }
  }

  /** Lines 775-792: with a truthy `use_branch` the source becomes the
      branch's archive URL; the `use_branch` key is removed either way. */
  function ApplyBranch(args: Args): (r: Result<Args, ParseError>)
    ensures UseBranch !in args ==> r == Failure(KeyError(UseBranch))
    ensures r.Success? ==> r.value.Keys == args.Keys - {UseBranch} + (if Truthy(args[UseBranch]) then {Source} else {})
    ensures r.Success? ==> forall k :: k in r.value && k != Source ==> r.value[k] == args[k]
    ensures r.Success? && !Truthy(args[UseBranch]) ==> Source in args ==> r.value[Source] == args[Source]
    ensures UseBranch in args && !Truthy(args[UseBranch]) ==> r.Success?
    ensures UseBranch in args && args[UseBranch].StrValue? && Truthy(args[UseBranch]) ==>
              var source := BranchSource(args[UseBranch].s);
              && (r.Success? <==> source.Success?)
              && (r.Success? ==> r.value[Source] == StrValue(source.value))
              && (r.Failure? ==> r.error == source.error)
    ensures UseBranch in args && !args[UseBranch].StrValue? && Truthy(args[UseBranch]) ==>
              r == Failure(TypeError(UseBranch))
  {
    if UseBranch !in args then Failure(KeyError(UseBranch))
    else
      var branch := args[UseBranch];
      if Truthy(branch) then
        match branch
        case StrValue(spec) =>
          var url :- BranchSource(spec);
          Success(args[Source := StrValue(url)] - {UseBranch})
        case _ => Failure(TypeError(UseBranch))
      else Success(args - {UseBranch})
  }

  /** The body of `parse_args` after argparse: the merge, the branch, and the
      lookups of `source` and (when a source is set) `with_requirements` made
      for the missing-requirements warning. The second value `parse_args`
      returns is `DeprecatedKeyList`. */
  function ProcessParsedArgs(args: Args): (r: Result<Args, ParseError>)
    ensures r.Success? ==> MergeDeprecated(args, Deprecations).Success?
    ensures r.Success? ==> Source in r.value && UseBranch !in r.value
  {
    match MergeDeprecated(args, Deprecations)
    case Failure(missing) => Failure(KeyError(missing))
    case Success(merged) =>
      var branched :- ApplyBranch(merged);
      if Source !in branched then Failure(KeyError(Source))
      else if Truthy(branched[Source]) && WithRequirements !in branched then Failure(KeyError(WithRequirements))
      else Success(branched)
  }

  /** The `__main__` loop removing `quiet`, `verbose` and the deprecated keys,
      each only when present. */
  function PopAll(args: Args, keys: seq<Key>): (r: Args)
    ensures r.Keys == args.Keys - set k | k in keys
    ensures forall k :: k in r ==> r[k] == args[k]
  {
    if keys == [] then args
    else
      var popped := if keys[0] in args then args - {keys[0]} else args;
      var r := PopAll(popped, keys[1..]);
      assert forall k :: k in keys <==> k == keys[0] || k in keys[1..];
      r
  }

  /** `deprecations.keys()` as a list, in table order. Python's order may
      differ, but `PopAll` removes a set of keys, so the order is immaterial. */
  const DeprecatedKeyList: seq<Key> := seq(|Deprecations|, i requires 0 <= i < |Deprecations| => Deprecations[i].0)

  /** The keys removed before the dictionary is passed to the installer. */
  const ExcludedKeys: seq<Key> := [Quiet, Verbose] + DeprecatedKeyList

  /** The list holds exactly the squashed spellings. */
  lemma DeprecatedKeyListIsSquashed()
    ensures forall k :: k in DeprecatedKeyList <==> IsSquashed(k)
  {
    forall i | 0 <= i < |DeprecatedKeyList| ensures IsSquashed(DeprecatedKeyList[i]) {
      assert DeprecatedKeyList[i] == Deprecations[i].0;
    }
    forall k | IsSquashed(k) ensures k in DeprecatedKeyList {
      var i := match k
        case Withrequirements => 0 case Installvirtualenv => 1 case Installpip => 2
        case Pythonpath => 3 case Wheelspath => 4 case Forceonline => 5
        case Installpycrypto => 6 case _ => 7;
      assert DeprecatedKeyList[i] == Deprecations[i].0;
    }
  }

  /** The destinations argparse fills on each platform (lines 579-736). */
  function ParserDests(p: Paths.Platform): set<Key>
  {
    {Verbose, Quiet, Version, Pre, Source, UseBranch,
     Forceonline, ForceOnline, Wheelspath, WheelsPath,
     Force, Virtualenv, Pythonpath, PythonPath,
     Installpip, InstallPip, Installvirtualenv, InstallVirtualenv,
     Withrequirements, WithRequirements, Upgrade}
    + (match p
       case Linux => {Installpythondev, InstallPythondev}
       case Windows => {InstallPycrypto, Installpycrypto}
       case Darwin => {})
  }

  /** The keyword parameters of the installer's constructor (lines 298-314). */
  const InstallerParameters: set<Key> :=
    {Force, Upgrade, Virtualenv, Version, Pre, Source, WithRequirements,
     ForceOnline, WheelsPath, PythonPath, InstallPip, InstallVirtualenv,
     InstallPythondev, InstallPycrypto, OsDistro, OsRelease}

  /** On every platform, a dictionary with exactly argparse's destinations
      (and a string or `None` for `use_branch`) gets through `parse_args`
      without a `KeyError` or `TypeError`: its one failure is the
      `--use-branch` usage error. */
  lemma ParsedArgsFailOnlyOnBranch(p: Paths.Platform, args: Args)
    requires args.Keys == ParserDests(p)
    requires args[UseBranch].NoneValue? || args[UseBranch].StrValue?
    ensures ProcessParsedArgs(args).Failure? ==> ProcessParsedArgs(args).error == UsageError(BranchFormatMessage)
  {
    var merged := MergedForParser(p, args);
    var branched := ApplyBranch(merged);
    if branched.Success? {
      BranchedKeys(p, args, merged, branched.value);
      ProcessAfterBranch(args, merged, branched.value);
    } else {
      ProcessAfterBranchFailure(args, merged);
    }
  }

  /** ... and once pruned of `quiet`, `verbose` and the deprecated keys it
      holds only keys the installer's constructor accepts. */
  lemma ParsedArgsFitInstaller(p: Paths.Platform, args: Args)
    requires args.Keys == ParserDests(p)
    ensures ProcessParsedArgs(args).Success? ==>
              PopAll(ProcessParsedArgs(args).value, ExcludedKeys).Keys <= InstallerParameters
  {
    var merged := MergedForParser(p, args);
    var branched := ApplyBranch(merged);
    if branched.Success? {
      BranchedKeys(p, args, merged, branched.value);
      ProcessAfterBranch(args, merged, branched.value);
      PrunedKeysAreParameters(p, branched.value);
    } else {
      ProcessAfterBranchFailure(args, merged);
    }
  }

  lemma MergedForParser(p: Paths.Platform, args: Args) returns (merged: Args)
    requires args.Keys == ParserDests(p)
    ensures MergeDeprecated(args, Deprecations) == Success(merged)
    ensures merged.Keys == args.Keys && UseBranch in merged
    ensures merged[UseBranch] == args[UseBranch]
  {
    DeprecationsWellFormed();
    ParserDestsMergeDefined(p, args);
    UseBranchIsNotReplaced();
    assert UseBranch in args;
    MergeKeepsOtherKey(args, Deprecations, UseBranch);
    merged := MergeDeprecated(args, Deprecations).value;
  }

  lemma UseBranchIsNotReplaced()
    ensures UseBranch !in Targets(Deprecations)
  {
    DeprecationPairShape();
  }

  lemma ProcessAfterBranch(args: Args, merged: Args, r: Args)
    requires MergeDeprecated(args, Deprecations) == Success(merged)
    requires ApplyBranch(merged) == Success(r)
    requires Source in r && WithRequirements in r
    ensures ProcessParsedArgs(args) == Success(r)
  {
  }

  lemma ProcessAfterBranchFailure(args: Args, merged: Args)
    requires MergeDeprecated(args, Deprecations) == Success(merged)
    requires ApplyBranch(merged).Failure?
    ensures ProcessParsedArgs(args) == Failure(ApplyBranch(merged).error)
  {
  }

  lemma BranchedKeys(p: Paths.Platform, args: Args, merged: Args, r: Args)
    requires args.Keys == ParserDests(p) && merged.Keys == args.Keys
    requires UseBranch in merged
    requires r.Keys == merged.Keys - {UseBranch} + (if Truthy(merged[UseBranch]) then {Source} else {})
    ensures Source in r && WithRequirements in r
    ensures r.Keys <= ParserDests(p) - {UseBranch}
  {
  }

  lemma PrunedKeysAreParameters(p: Paths.Platform, r: Args)
    requires r.Keys <= ParserDests(p) - {UseBranch}
    ensures PopAll(r, ExcludedKeys).Keys <= InstallerParameters
  {
    DeprecatedKeyListIsSquashed();
    var pruned := PopAll(r, ExcludedKeys);
    forall k | k in pruned ensures k in InstallerParameters {
      assert k in ExcludedKeys <==> k == Quiet || k == Verbose || IsSquashed(k);
      PrunedDestIsParameter(p, k);
    }
  }

  lemma ParserDestsMergeDefined(p: Paths.Platform, args: Args)
    requires args.Keys == ParserDests(p)
    ensures MergeDefined(args, Deprecations)
  {
  }

  lemma PrunedDestIsParameter(p: Paths.Platform, k: Key)
    requires k in ParserDests(p) && k != UseBranch && k != Quiet && k != Verbose
    requires !IsSquashed(k)
    ensures k in InstallerParameters
  {
  }
}
