/** The two `os.path` operations the installer relies on, for the relative
    literal names (`pip`, `activate`, requirement file names) it joins. */
module Paths {
  import Strings

  datatype Platform = Linux | Darwin | Windows

  /** The separator `os.path.join` inserts. */
  function Separator(p: Platform): char
  {
    if p == Windows then '\\' else '/'
  }

  /** A character `os.path.join` accepts as already ending a directory. */
  predicate IsSeparator(p: Platform, ch: char)
  {
    ch == '/' || (p == Windows && ch == '\\')
  }

  /** `os.path.join(dir, name)` for a relative `name` with no drive. */
  function Join(p: Platform, dir: string, name: string): (r: string)
    ensures Strings.StartsWith(r, dir) && Strings.EndsWith(r, name)
    ensures |dir| + |name| <= |r| <= |dir| + |name| + 1
    ensures |r| == |dir| + |name| <==> dir == "" || IsSeparator(p, dir[|dir| - 1])
    ensures |r| == |dir| + |name| + 1 ==> r[|dir|] == Separator(p)
  {
    if dir == "" || IsSeparator(p, dir[|dir| - 1]) then dir + name
    else dir + [Separator(p)] + name
  }

  /** Outside Windows every platform joins as POSIX does. */
  lemma JoinOutsideWindows(p: Platform, dir: string, name: string)
    requires p != Windows
    ensures Join(p, dir, name) == Join(Linux, dir, name)
  {
  }

  /** The name part of `os.path.join(dir, name)` is what was joined, when the
      name holds no separator of its own. */
  lemma JoinBasename(dir: string, name: string)
    requires '/' !in name
    ensures Basename(Join(Linux, dir, name)) == name
  {
    var r := Join(Linux, dir, name);
    if dir == "" {
      assert r == name;
      LastOfSplitWithout(name);
    } else if dir[|dir| - 1] == '/' {
      LastOfSplitAfter(dir, name);
    } else {
      assert r == (dir + "/") + name;
      LastOfSplitAfter(dir + "/", name);
    }
  }

  /** POSIX `os.path.basename`: the text after the last `/`. */
  function Basename(path: string): (r: string)
    ensures '/' !in r
    ensures Strings.EndsWith(path, r)
    ensures |r| == |path| || path[|path| - |r| - 1] == '/'
  {
    var parts := Strings.Split(path, '/');
    Strings.JoinSplit(path, '/');
    JoinEndsWithLast(parts, '/');
    JoinBeforeLast(parts, '/');
    parts[|parts| - 1]
  }

  /** The last part of a join is the whole join, or follows a separator. */
  lemma JoinBeforeLast(parts: seq<string>, c: char)
    requires |parts| > 0
    ensures var s := Strings.Join(parts, c);
            var last := parts[|parts| - 1];
            |s| == |last| || (|s| > |last| && s[|s| - |last| - 1] == c)
  {
    if |parts| > 1 {
      JoinSplitsAtLast(parts, c);
      var head := Strings.Join(parts[..|parts| - 1], c);
      assert Strings.Join(parts, c)[|head|] == c;
    }
  }

  /** A join of two or more parts is the join of all but the last, a
      separator, and the last part. */
  lemma {:induction false} JoinSplitsAtLast(parts: seq<string>, c: char)
    requires |parts| > 1
    ensures Strings.Join(parts, c) == Strings.Join(parts[..|parts| - 1], c) + [c] + parts[|parts| - 1]
  {
    var init := parts[..|parts| - 1];
    if |parts| > 2 {
      JoinSplitsAtLast(parts[1..], c);
      assert parts[1..][..|parts[1..]| - 1] == init[1..];
      assert Strings.Join(init, c) == init[0] + [c] + Strings.Join(init[1..], c);
    } else {
      assert init == [parts[0]];
    }
  }

  lemma {:induction false} JoinEndsWithLast(parts: seq<string>, c: char)
    requires |parts| > 0
    ensures Strings.EndsWith(Strings.Join(parts, c), parts[|parts| - 1])
  {
    if |parts| > 1 {
      JoinEndsWithLast(parts[1..], c);
      var tail := Strings.Join(parts[1..], c);
      assert Strings.Join(parts, c) == (parts[0] + [c]) + tail;
      assert parts[1..][|parts[1..]| - 1] == parts[|parts| - 1];
    }
  }

  lemma LastOfSplitWithout(name: string)
    requires '/' !in name
    ensures Strings.Split(name, '/') == [name]
  {
    Strings.SplitJoin([name], '/');
  }

  /** Text after a trailing `/` is the last split part. */
  lemma {:induction false} LastOfSplitAfter(dir: string, name: string)
    requires dir != [] && dir[|dir| - 1] == '/'
    requires '/' !in name
    ensures Strings.Split(dir + name, '/')[|Strings.Split(dir + name, '/')| - 1] == name
  {
    var s := dir + name;
    assert s[1..] == dir[1..] + name;
    if |dir| == 1 {
      LastOfSplitWithout(name);
      assert s[1..] == name;
    } else {
      LastOfSplitAfter(dir[1..], name);
      var rest := Strings.Split(s[1..], '/');
      assert |rest| >= 2 by {
        assert '/' in s[1..] by { assert s[1..][|dir| - 2] == '/'; }
        Strings.SplitCount(s[1..], '/');
      }
    }
  }
}
