/** The pieces of Go's `path/filepath` package that the tag engine relies on. */
module Paths {
  import opened Strings


  /** filepath.Join(dir, name) for a directory written without a trailing
      separator and a bare entry name. */
  function Join(dir: string, name: string): string
  {
    dir + "/" + name
  }

  /** filepath.Ext: the suffix of `path` that starts at the final '.' of its
      last element, or "" when that element has no '.'. */
  function Ext(path: string): (e: string)
    ensures e == [] || (|e| <= |path| && e == path[|path| - |e|..] && e[0] == '.')
    ensures '/' !in e && (e == [] || '.' !in e[1..])
    ensures e == [] ==> forall j :: 0 <= j < |path| && path[j] == '.' ==> exists m :: j < m < |path| && path[m] == '/'
  {
    ExtFrom(path, |path|)
  }

  /** The backward scan of filepath.Ext; positions from `i` on have already
      been passed over. */
  function ExtFrom(path: string, i: nat): (e: string)
    requires i <= |path|
    requires forall j :: i <= j < |path| ==> path[j] != '.' && path[j] != '/'
    ensures e == [] || (|e| <= |path| && |path| - |e| < i && e == path[|path| - |e|..] && e[0] == '.')
    ensures '/' !in e && (e == [] || '.' !in e[1..])
    ensures e == [] ==> forall j :: 0 <= j < i && path[j] == '.' ==> exists m :: j < m < i && path[m] == '/'
    decreases i
  {
    if i == 0 || path[i - 1] == '/' then []
    else if path[i - 1] == '.' then path[i - 1..]
    else ExtFrom(path, i - 1)
  }

  /** The scan stops at the last '.' that no '/' follows. */
  lemma {:induction false} ExtFromDot(path: string, i: nat, k: nat)
    requires k < i <= |path| && path[k] == '.'
    requires forall j :: k < j < |path| ==> path[j] != '.' && path[j] != '/'
    ensures ExtFrom(path, i) == path[k..]
    decreases i
  {
    if i - 1 != k {
      ExtFromDot(path, i - 1, k);
    }
  }

  /** The loader's ".json" test: an entry has extension ".json" exactly when
      its name ends in ".json" (so ".json" itself qualifies and "a.json.bak"
      does not). */
  lemma JsonExtension(name: string)
    ensures Ext(name) == ".json" <==> HasSuffix(name, ".json")
  {
    var n := |name|;
    if HasSuffix(name, ".json") {
      assert name[n - 5..] == ".json";
      assert forall j :: n - 5 < j < n ==> name[j] == ".json"[j - (n - 5)];
      ExtFromDot(name, n, n - 5);
    }
  }
}
