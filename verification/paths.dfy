/** The two `os.path` functions the core uses, with POSIX separators. */
module Paths {
  import opened Sequences

  predicate HasSlash(s: string) {
    exists k :: 0 <= k < |s| && s[k] == '/'
  }

  /** `os.path.join(dir, name)`: an absolute `name` replaces `dir`; otherwise a `/` is
      inserted unless `dir` is empty or already ends with one. */
  function PathJoin(dir: string, name: string): string {
    if |name| > 0 && name[0] == '/' then name
    else if dir == [] || Last(dir) == '/' then dir + name
    else dir + "/" + name
  }

  /** `os.path.basename(path)`: everything after the last `/`. */
  function BaseName(path: string): string {
    if path == [] || Last(path) == '/' then []
    else BaseName(path[..|path| - 1]) + [Last(path)]
  }

  /** The base name is a slash-free suffix of the path, preceded by a `/` unless it is the
      whole path. */
  lemma {:induction false} BaseNameShape(path: string)
    ensures var b := BaseName(path);
            && |b| <= |path| && b == path[|path| - |b|..]
            && !HasSlash(b)
            && (|b| < |path| ==> path[|path| - |b| - 1] == '/')
  {
    if path != [] && Last(path) != '/' {
      var init := path[..|path| - 1];
      BaseNameShape(init);
      var b := BaseName(init);
      var r := b + [Last(path)];
      assert r == BaseName(path);
      assert init[|init| - |b|..] + [Last(path)] == path[|path| - |r|..];
      assert !HasSlash(r) by {
        forall k | 0 <= k < |r| ensures r[k] != '/' {
          if k < |b| { assert r[k] == b[k]; }
        }
      }
      if |r| < |path| {
        assert path[|path| - |r| - 1] == init[|init| - |b| - 1];
      }
    }
  }

  /** The part after the last `/` is determined: any slash-free suffix preceded by a `/`
      (or making up the whole path) is the base name. */
  lemma {:induction false} BaseNameUnique(path: string, b: string)
    requires |b| <= |path| && b == path[|path| - |b|..] && !HasSlash(b)
    requires |b| < |path| ==> path[|path| - |b| - 1] == '/'
    ensures BaseName(path) == b
  {
    var r := BaseName(path);
    BaseNameShape(path);
    if |r| != |b| {
      assert false;
    }
  }

  /** The base name of a joined path is the name joined on, when that name holds no `/`. */
  lemma BaseNameOfJoin(dir: string, name: string)
    requires !HasSlash(name)
    ensures BaseName(PathJoin(dir, name)) == name
  {
    var p := PathJoin(dir, name);
    if |name| > 0 && name[0] == '/' {
      assert false;
    } else if dir == [] || Last(dir) == '/' {
      assert p[|p| - |name|..] == name;
      BaseNameUnique(p, name);
    } else {
      assert p[|p| - |name|..] == name;
      assert p[|p| - |name| - 1] == '/';
      BaseNameUnique(p, name);
    }
  }
}
