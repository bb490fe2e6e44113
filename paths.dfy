/**
 * The two `os.path` operations the pipeline relies on, with POSIX semantics,
 * and the raw-data directory that both stages compute the same way.
 */
module Paths {
  import opened Text

  predicate HasSlash(s: string)
  {
    exists i :: 0 <= i < |s| && s[i] == '/'
  }

  /** `os.path.join(a, b)`: an absolute `b` replaces `a`; otherwise one `/` separates them. */
  function Join(a: string, b: string): (p: string)
    ensures StartsWith(b, "/") ==> p == b
    ensures !StartsWith(b, "/") ==> EndsWith(p, b) && StartsWith(p, a)
  {
    if StartsWith(b, "/") then b
    else if a == [] || a[|a| - 1] == '/' then a + b
    else a + "/" + b
  }

  /** `os.path.basename(p)`: what follows the last `/`. */
  function Basename(p: string): (r: string)
    ensures !HasSlash(r)
    ensures EndsWith(p, r)
  {
    if p == [] || p[|p| - 1] == '/' then []
    else
      var r := Basename(p[..|p| - 1]) + [p[|p| - 1]];
      assert p == p[..|p| - 1] + [p[|p| - 1]];
      r
  }

  /** A name without a slash, put in a directory, is that path's base name. */
  lemma {:induction false} BasenameOfJoin(dir: string, name: string)
    requires !HasSlash(name)
    ensures Basename(Join(dir, name)) == name
  {
    var x := if dir == [] || dir[|dir| - 1] == '/' then dir else dir + "/";
    assert name == [] || name[0] != '/';
    assert Join(dir, name) == x + name;
    BasenameAfterSlash(x, name);
  }

  lemma {:induction false} BasenameAfterSlash(x: string, name: string)
    requires x == [] || x[|x| - 1] == '/'
    requires !HasSlash(name)
    ensures Basename(x + name) == name
  {
    if name == [] {
      assert x + name == x;
    } else {
      var n := |name| - 1;
      var init, last := name[..n], name[n];
      assert last != '/';
      assert !HasSlash(init) by {
        forall i | 0 <= i < |init| ensures init[i] != '/' { assert init[i] == name[i]; }
      }
      var p := x + name;
      assert p[|p| - 1] == last;
      assert p[..|p| - 1] == x + init;
      BasenameAfterSlash(x, init);
      assert Basename(p) == Basename(x + init) + [last];
      assert name == init + [last];
    }
  }

  /** `DATA_DIR`, `<project root>/data/raw`, defined identically in both stages. */
  function DataDir(projectRoot: string): string
  {
    Join(Join(projectRoot, "data"), "raw")
  }
}
