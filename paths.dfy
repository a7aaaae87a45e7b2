/**
 * POSIX path strings as `pathlib` reads them: the components of a path
 * (empty and "." segments dropped), its final component (`name`), the name
 * of its parent directory, the final suffix of a file name, and joining a
 * directory with one component (`/`).
 */
module Paths {

  /** The '/'-separated segments of s, empty ones included: "a//b/" splits into "a", "", "b", "". */
  function Split(s: string): (r: seq<string>)
    ensures |r| >= 1
  {
    if s == "" then [""]
    else if s[0] == '/' then [""] + Split(s[1..])
    else
      var rest := Split(s[1..]);
      [[s[0]] + rest[0]] + rest[1..]
  }

  /** No segment contains a separator. */
  lemma {:induction false} SplitSegments(s: string)
    ensures forall k :: 0 <= k < |Split(s)| ==> '/' !in Split(s)[k]
  {
    if s != "" {
      SplitSegments(s[1..]);
    }
  }

  lemma {:induction false} SplitNoSlash(s: string)
    requires '/' !in s
    ensures Split(s) == [s]
  {
    if s != "" {
      SplitNoSlash(s[1..]);
      assert [s[0]] + s[1..] == s;
    }
  }

  /** Splitting at a '/' splits each side separately. */
  lemma {:induction false} SplitAtSlash(a: string, b: string)
    ensures Split(a + "/" + b) == Split(a) + Split(b)
  {
    if a == "" {
      assert a + "/" + b == "/" + b;
      assert ("/" + b)[1..] == b;
    } else {
      var s := a + "/" + b;
      assert s[0] == a[0];
      assert s[1..] == a[1..] + "/" + b;
      SplitAtSlash(a[1..], b);
    }
  }

  /** A segment that names something: `pathlib` drops empty and "." segments. */
  predicate IsComponent(c: string) {
    c != "" && c != "."
  }

  function Proper(segs: seq<string>): (r: seq<string>)
  {
    if segs == [] then []
    else (if IsComponent(segs[0]) then [segs[0]] else []) + Proper(segs[1..])
  }

  /** Dropping segments keeps only components, each one of the segments. */
  lemma {:induction false} ProperSegments(segs: seq<string>)
    ensures forall k :: 0 <= k < |Proper(segs)| ==> IsComponent(Proper(segs)[k]) && Proper(segs)[k] in segs
  {
    if segs != [] {
      ProperSegments(segs[1..]);
    }
  }

  lemma {:induction false} ProperAppend(a: seq<string>, b: seq<string>)
    ensures Proper(a + b) == Proper(a) + Proper(b)
  {
    if a != [] {
      assert (a + b)[0] == a[0];
      assert (a + b)[1..] == a[1..] + b;
      ProperAppend(a[1..], b);
    } else {
      assert a + b == b;
    }
  }

  /** The components of a path, as `PurePath(p).parts` gives them (the root aside). */
  function Components(p: string): seq<string> {
    Proper(Split(p))
  }

  /** Every component of a path names something and holds no separator. */
  lemma ComponentsAreNames(p: string)
    ensures forall k :: 0 <= k < |Components(p)| ==> IsComponent(Components(p)[k]) && '/' !in Components(p)[k]
  {
    SplitSegments(p);
    ProperSegments(Split(p));
  }

  /** `PurePath(p).name`: the final component, or "" for a path without components. */
  function Name(p: string): string {
    var c := Components(p);
    if c == [] then "" else c[|c| - 1]
  }

  /** `PurePath(p).parent.name`: the component before the final one, or "" when there is none. */
  function ParentName(p: string): string {
    var c := Components(p);
    if |c| < 2 then "" else c[|c| - 2]
  }

  /** A parent name is empty or a single component, with no separator in it. */
  lemma ParentNameIsComponent(p: string)
    ensures ParentName(p) == "" || (IsComponent(ParentName(p)) && '/' !in ParentName(p))
  {
    ComponentsAreNames(p);
  }

  /** `root / name` for a single component: a join with "" leaves the root as it is. */
  function Join(root: string, name: string): string {
    if name == "" then root
    else if root == "" then name
    else if root[|root| - 1] == '/' then root + name
    else root + "/" + name
  }

  /** Joining a directory with a component adds exactly that component to the directory's path. */
  lemma JoinComponents(root: string, name: string)
    requires IsComponent(name) && '/' !in name
    ensures Components(Join(root, name)) == Components(root) + [name]
  {
    SplitNoSlash(name);
    assert Proper([name]) == [name] by {
      assert [name][1..] == [];
    }
    if root == "" {
    } else if root[|root| - 1] == '/' {
      var stem := root[..|root| - 1];
      assert root == stem + "/" + "";
      assert Join(root, name) == stem + "/" + name;
      SplitAtSlash(stem, "");
      SplitAtSlash(stem, name);
      ProperAppend(Split(stem), [""]);
      ProperAppend(Split(stem), [name]);
      assert Proper([""]) == [];
    } else {
      SplitAtSlash(root, name);
      ProperAppend(Split(root), [name]);
    }
  }

  /** The name of a component joined below a directory is that component. */
  lemma NameOfJoin(root: string, name: string)
    requires IsComponent(name) && '/' !in name
    ensures Name(Join(root, name)) == name
  {
    JoinComponents(root, name);
  }

  // ---------------------------------------------------------------------------
  // Suffixes

  /** The index of the last '.' in s, or -1 (`str.rfind('.')`). */
  function LastDot(s: string): int {
    if s == "" then -1
    else if s[|s| - 1] == '.' then |s| - 1
    else LastDot(s[..|s| - 1])
  }

  /** LastDot finds a dot with no dot after it, or reports that there is none. */
  lemma {:induction false} LastDotSpec(s: string)
    ensures -1 <= LastDot(s) < |s|
    ensures LastDot(s) >= 0 ==> s[LastDot(s)] == '.'
    ensures forall k :: LastDot(s) < k < |s| ==> s[k] != '.'
  {
    if s != "" && s[|s| - 1] != '.' {
      LastDotSpec(s[..|s| - 1]);
    }
  }

  /** `PurePath.suffix` of a file name: from the last '.', unless that dot opens or ends the name. */
  function Suffix(name: string): string {
    var i := LastDot(name);
    if 0 < i < |name| - 1 then name[i..] else ""
  }

  /**
   * For an extension made of a dot and at least one other non-dot
   * character, a name has that suffix exactly when it ends with the
   * extension and has at least one character before it.
   */
  lemma SuffixIs(name: string, ext: string)
    requires |ext| >= 2 && ext[0] == '.'
    requires forall k :: 1 <= k < |ext| ==> ext[k] != '.'
    ensures Suffix(name) == ext <==> |name| > |ext| && name[|name| - |ext|..] == ext
  {
    LastDotSpec(name);
    if |name| > |ext| && name[|name| - |ext|..] == ext {
      var i := |name| - |ext|;
      assert name[i] == ext[0];
      forall k | i < k < |name| ensures name[k] != '.' {
        assert name[k] == ext[k - i];
      }
      assert LastDot(name) == i;
    }
  }
}
