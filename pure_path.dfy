/**
 * The two pieces of `pathlib.PurePosixPath` the discovery step relies on:
 * `name`, the final path component, and `suffix`, its file extension.
 * Paths are taken in `as_posix()` form as the directory walk yields them:
 * '/'-separated, without a trailing '/'.
 */
module PurePath {

  /** `PurePath.name`: the longest tail of the path without a '/'. */
  function Name(p: string): (r: string)
    ensures |r| <= |p| && r == p[|p| - |r|..]
    ensures '/' !in r
    ensures |r| < |p| ==> p[|p| - |r| - 1] == '/'
  {
    if p == [] || p[|p| - 1] == '/' then []
    else
      var n := Name(p[..|p| - 1]);
      TailGrows(p, n);
      n + [p[|p| - 1]]
  }

  /** A tail of p without its last character, grown by that character, is a tail of p. */
  lemma TailGrows(p: string, n: string)
    requires |p| >= 1 && |n| <= |p| - 1
    requires n == p[..|p| - 1][|p| - 1 - |n|..]
    requires |n| < |p| - 1 ==> p[..|p| - 1][|p| - 2 - |n|] == '/'
    requires '/' !in n && p[|p| - 1] != '/'
    ensures var r := n + [p[|p| - 1]];
      && |r| <= |p| && r == p[|p| - |r|..]
      && '/' !in r
      && (|r| < |p| ==> p[|p| - |r| - 1] == '/')
  {
    assert p[|p| - |n| - 1..] == p[..|p| - 1][|p| - 1 - |n|..] + [p[|p| - 1]];
  }

  /** `str.rfind(c)`: the index of the last occurrence of c, or -1 when c does not occur. */
  function RFind(s: string, c: char): (i: int)
    ensures -1 <= i < |s|
    ensures i >= 0 ==> s[i] == c
    ensures forall k :: i < k < |s| ==> s[k] != c
  {
    if s == [] then -1
    else if s[|s| - 1] == c then |s| - 1
    else RFind(s[..|s| - 1], c)
  }

  /**
   * `PurePath.suffix`: from the last '.' of the name on, provided that dot is
   * neither the first nor the last character of the name; otherwise empty.
   * So the suffix is empty exactly when the name ends with a dot or has no
   * dot past its first character, and otherwise it is a proper tail of the
   * name that starts with its last dot.
   */
  function Suffix(p: string): (r: string)
    ensures var name := Name(p);
      r == "" <==>
        || (|name| > 0 && name[|name| - 1] == '.')
        || (forall k :: 0 < k < |name| - 1 ==> name[k] != '.')
    ensures var name := Name(p);
      r != "" ==>
        && 2 <= |r| < |name|
        && name == name[..|name| - |r|] + r
        && r[0] == '.'
        && '.' !in r[1..]
  {
    var name := Name(p);
    var i := RFind(name, '.');
    LastDotSplitsName(name, i);
    if 0 < i < |name| - 1 then name[i..] else ""
  }

  /** The cut at the last dot i of a name, and when that dot gives a suffix. */
  lemma LastDotSplitsName(name: string, i: int)
    requires -1 <= i < |name| && (i >= 0 ==> name[i] == '.')
    requires forall k :: i < k < |name| ==> name[k] != '.'
    ensures 0 < i < |name| - 1 <==>
      !(|| (|name| > 0 && name[|name| - 1] == '.')
        || (forall k :: 0 < k < |name| - 1 ==> name[k] != '.'))
    ensures 0 < i < |name| - 1 ==>
      && name == name[..i] + name[i..]
      && name[i..][0] == '.' && '.' !in name[i..][1..]
  {
    if 0 < i < |name| - 1 {
      assert name[i..][1..] == name[i + 1..];
    }
  }

  /**
   * A flat data-file name "scope.id.ver.entity" always has a suffix: the part
   * from its last dot, however the rest of the path looks.
   */
  lemma {:induction false} DottedNameHasSuffix(dir: string, scope: string, id: string, ver: string, entity: string)
    requires '.' !in entity && |entity| >= 1 && '/' !in entity
    requires '/' !in scope + id + ver
    ensures Suffix(dir + "/" + scope + "." + id + "." + ver + "." + entity) == "." + entity
  {
    var p := dir + "/" + scope + "." + id + "." + ver + "." + entity;
    var stem := scope + "." + id + "." + ver;
    var name := stem + "." + entity;
    assert p == (dir + "/") + name;
    NameAfterSlash(dir, name);
    LastDotBeforeEntity(stem, entity);
  }

  /** In "stem.entity" with a dot-free entity, the last dot is the one before the entity. */
  lemma LastDotBeforeEntity(stem: string, entity: string)
    requires '.' !in entity && |entity| >= 1
    ensures var name := stem + "." + entity;
      && RFind(name, '.') == |stem|
      && name[|stem|..] == "." + entity
  {
    var name := stem + "." + entity;
    assert name[|stem|] == '.';
    assert forall k :: |stem| < k < |name| ==> name[k] == entity[k - |stem| - 1];
    assert forall k :: |stem| < k < |name| ==> name[k] != '.';
  }

  /** The name of "dir/name" is name, when name holds no '/'. */
  lemma {:induction false} NameAfterSlash(dir: string, name: string)
    requires '/' !in name
    ensures Name(dir + "/" + name) == name
    decreases |name|
  {
    var p := dir + "/" + name;
    if name == [] {
      assert p[|p| - 1] == '/';
    } else {
      var last := name[|name| - 1];
      var init := name[..|name| - 1];
      assert p[..|p| - 1] == dir + "/" + init;
      assert last in name;
      NameAfterSlash(dir, init);
      assert name == init + [last];
    }
  }
}
