/**
 * The file-name pattern of the data-file discovery step,
 *
 *     (?P<scope_str>[^.]*).(?P<id_str>\d+).(?P<ver_str>\d+).(?P<entity_str>[0-9a-f]{32})$
 *
 * applied with Python's `re.match` to a root-relative POSIX path.
 *
 * The three dots between the groups are NOT escaped, so each one is the regex
 * wildcard: any single character other than a newline. `re.match` anchors the
 * pattern at the start of the path; `$` (without MULTILINE) accepts the end of
 * the path or the position just before a final newline.
 *
 * `Splits` says declaratively when a choice of group lengths is a match.
 * `MatchSplit` reproduces the backtracking order of the regex engine (greedy
 * quantifiers try the longest length first, then shorter ones), and its
 * contract says that it finds the lexicographically greatest
 * (scope, id, version) length triple among all matches, or none if there is
 * no match at all.
 */
module PathPattern {
  import opened Wrappers

  /** `\d`, restricted to the ASCII digits. */
  predicate IsDigit(c: char) { '0' <= c <= '9' }

  /** `[0-9a-f]` */
  predicate IsLowerHex(c: char) { '0' <= c <= '9' || 'a' <= c <= 'f' }

  /** The wildcard `.` without DOTALL: anything except a newline. */
  predicate IsAnyChar(c: char) { c != '\n' }

  /** `{32}`: the length of the entity group. */
  const EntityLen: nat := 32

  predicate AllDigits(s: string, lo: nat, hi: nat)
    requires lo <= hi <= |s|
  {
    forall k :: lo <= k < hi ==> IsDigit(s[k])
  }

  predicate AllLowerHex(s: string, lo: nat, hi: nat)
    requires lo <= hi <= |s|
  {
    forall k :: lo <= k < hi ==> IsLowerHex(s[k])
  }

  predicate NoDot(s: string, lo: nat, hi: nat)
    requires lo <= hi <= |s|
  {
    forall k :: lo <= k < hi ==> s[k] != '.'
  }

  /** `$` without MULTILINE, at position e. */
  predicate AtEnd(s: string, e: nat) {
    e == |s| || (e + 1 == |s| && s[e] == '\n')
  }

  /** The lengths of the scope, id and version groups of one way of matching. */
  datatype Split = Split(scopeLen: nat, idLen: nat, verLen: nat)

  /** The position just past the entity group. */
  function EndOf(sp: Split): nat {
    sp.scopeLen + sp.idLen + sp.verLen + 3 + EntityLen
  }

  /** The pattern matches `s` with these group lengths. */
  predicate Splits(s: string, sp: Split) {
    var a, i, j := sp.scopeLen, sp.idLen, sp.verLen;
    && 1 <= i && 1 <= j
    && EndOf(sp) <= |s|
    && NoDot(s, 0, a)
    && IsAnyChar(s[a])
    && AllDigits(s, a + 1, a + 1 + i)
    && IsAnyChar(s[a + 1 + i])
    && AllDigits(s, a + 2 + i, a + 2 + i + j)
    && IsAnyChar(s[a + 2 + i + j])
    && AllLowerHex(s, a + 3 + i + j, EndOf(sp))
    && AtEnd(s, EndOf(sp))
  }

  /** The regex engine tries x before y: greedy quantifiers, leftmost group first. */
  predicate TriedBefore(x: Split, y: Split) {
    || x.scopeLen > y.scopeLen
    || (x.scopeLen == y.scopeLen && x.idLen > y.idLen)
    || (x.scopeLen == y.scopeLen && x.idLen == y.idLen && x.verLen > y.verLen)
  }

  /** How many characters a greedy `[^.]*` takes at the start of `s`. */
  function LeadingNonDots(s: string): (n: nat)
    ensures n <= |s|
    ensures NoDot(s, 0, n)
    ensures n < |s| ==> s[n] == '.'
  {
    if s == [] || s[0] == '.' then 0
    else
      var n := 1 + LeadingNonDots(s[1..]);
      assert forall k :: 1 <= k < n ==> s[k] == s[1..][k - 1];
      n
  }

  /** How many characters a greedy run of `\d` takes from position p. */
  function DigitRun(s: string, p: nat): (n: nat)
    requires p <= |s|
    ensures p + n <= |s|
    ensures AllDigits(s, p, p + n)
    ensures p + n < |s| ==> !IsDigit(s[p + n])
    decreases |s| - p
  {
    if p == |s| || !IsDigit(s[p]) then 0 else 1 + DigitRun(s, p + 1)
  }

  /** `.(?P<entity_str>[0-9a-f]{32})$` matched from position p. */
  predicate TailMatches(s: string, p: nat) {
    && p + 1 + EntityLen <= |s|
    && IsAnyChar(s[p])
    && AllLowerHex(s, p + 1, p + 1 + EntityLen)
    && AtEnd(s, p + 1 + EntityLen)
  }

  /** A greedy `[^.]*` takes at least every dot-free prefix. */
  lemma LeadingNonDotsIsLongest(s: string, a: nat)
    requires a <= |s| && NoDot(s, 0, a)
    ensures a <= LeadingNonDots(s)
  {
    // Otherwise the greedy run would stop at a dot inside the dot-free prefix.
  }

  /** A greedy run of `\d` takes at least every all-digit stretch from p. */
  lemma DigitRunIsLongest(s: string, p: nat, n: nat)
    requires p + n <= |s| && AllDigits(s, p, p + n)
    ensures n <= DigitRun(s, p)
  {
    // Otherwise the greedy run would stop at a non-digit inside the stretch.
  }

  /** Every match stays within the greedy runs the engine starts from. */
  lemma SplitWithinRuns(s: string, sp: Split)
    requires Splits(s, sp)
    ensures sp.scopeLen <= LeadingNonDots(s)
    ensures sp.idLen <= DigitRun(s, sp.scopeLen + 1)
    ensures sp.verLen <= DigitRun(s, sp.scopeLen + 2 + sp.idLen)
  {
    LeadingNonDotsIsLongest(s, sp.scopeLen);
    DigitRunIsLongest(s, sp.scopeLen + 1, sp.idLen);
    DigitRunIsLongest(s, sp.scopeLen + 2 + sp.idLen, sp.verLen);
  }

  /** No match has a version group longer than the digit run after the id. */
  lemma VerWithinRun(s: string, a: nat, i: nat)
    requires a + 2 + i <= |s|
    ensures forall j: nat :: DigitRun(s, a + 2 + i) < j ==> !Splits(s, Split(a, i, j))
  {
    forall j: nat | Splits(s, Split(a, i, j)) ensures j <= DigitRun(s, a + 2 + i) {
      SplitWithinRuns(s, Split(a, i, j));
    }
  }

  /** No match has an id group longer than the digit run after the scope. */
  lemma IdWithinRun(s: string, a: nat)
    requires a + 1 <= |s|
    ensures forall i: nat, j: nat :: DigitRun(s, a + 1) < i ==> !Splits(s, Split(a, i, j))
  {
    forall i: nat, j: nat | Splits(s, Split(a, i, j)) ensures i <= DigitRun(s, a + 1) {
      SplitWithinRuns(s, Split(a, i, j));
    }
  }

  /**
   * Backtracking over the version group with scope length a and id length i
   * fixed: tries lengths j, j - 1, ..., 1 and stops at the first one whose
   * tail matches.
   */
  function TryVer(s: string, a: nat, i: nat, j: nat): (r: Option<Split>)
    requires 1 <= i && a + 2 + i <= |s|
    requires NoDot(s, 0, a) && IsAnyChar(s[a]) && AllDigits(s, a + 1, a + 1 + i)
    requires IsAnyChar(s[a + 1 + i])
    requires j <= DigitRun(s, a + 2 + i)
    ensures r.Some? ==> r.value.scopeLen == a && r.value.idLen == i && r.value.verLen <= j
    ensures r.Some? ==> Splits(s, r.value)
    ensures r.Some? ==> forall j': nat :: r.value.verLen < j' <= j ==> !Splits(s, Split(a, i, j'))
    ensures r.None? ==> forall j': nat :: j' <= j ==> !Splits(s, Split(a, i, j'))
    decreases j
  {
    if j == 0 then None
    else if TailMatches(s, a + 2 + i + j) then Some(Split(a, i, j))
    else TryVer(s, a, i, j - 1)
  }

  /**
   * One id length i with scope length a fixed: the wildcard after the id,
   * then the version group from its longest digit run down.
   */
  function TryIdAt(s: string, a: nat, i: nat): (r: Option<Split>)
    requires a < |s| && NoDot(s, 0, a) && IsAnyChar(s[a])
    requires 1 <= i <= DigitRun(s, a + 1)
    ensures r.Some? ==> r.value.scopeLen == a && r.value.idLen == i && Splits(s, r.value)
    ensures r.Some? ==> forall j': nat :: r.value.verLen < j' ==> !Splits(s, Split(a, i, j'))
    ensures r.None? ==> forall j': nat :: !Splits(s, Split(a, i, j'))
  {
    if a + 1 + i < |s| && IsAnyChar(s[a + 1 + i]) then
      VerWithinRun(s, a, i);
      TryVer(s, a, i, DigitRun(s, a + 2 + i))
    else
      None
  }

  /**
   * Backtracking over the id group with scope length a fixed: tries lengths
   * i, i - 1, ..., 1.
   */
  function TryId(s: string, a: nat, i: nat): (r: Option<Split>)
    requires a < |s| && NoDot(s, 0, a) && IsAnyChar(s[a])
    requires i <= DigitRun(s, a + 1)
    ensures r.Some? ==> r.value.scopeLen == a && r.value.idLen <= i && Splits(s, r.value)
    ensures r.Some? ==> forall i': nat, j': nat ::
      i' <= i && TriedBefore(Split(a, i', j'), r.value) ==> !Splits(s, Split(a, i', j'))
    ensures r.None? ==> forall i': nat, j': nat :: i' <= i ==> !Splits(s, Split(a, i', j'))
    decreases i
  {
    if i == 0 then None
    else
      var here := TryIdAt(s, a, i);
      if here.Some? then here else TryId(s, a, i - 1)
  }

  /**
   * Backtracking over the scope group: tries lengths a, a - 1, ..., 0; for
   * each, the wildcard after the scope and then the id group from its longest
   * digit run down.
   */
  function TryScope(s: string, a: nat): (r: Option<Split>)
    requires a <= LeadingNonDots(s)
    ensures r.Some? ==> r.value.scopeLen <= a && Splits(s, r.value)
    ensures r.Some? ==> forall a': nat, i': nat, j': nat ::
      a' <= a && TriedBefore(Split(a', i', j'), r.value) ==> !Splits(s, Split(a', i', j'))
    ensures r.None? ==> forall a': nat, i': nat, j': nat :: a' <= a ==> !Splits(s, Split(a', i', j'))
    decreases a
  {
    var here := TryScopeAt(s, a);
    if here.Some? then here
    else if a == 0 then None
    else TryScope(s, a - 1)
  }

  /**
   * One scope length a: the wildcard after the scope, then the id group from
   * its longest digit run down.
   */
  function TryScopeAt(s: string, a: nat): (r: Option<Split>)
    requires a <= LeadingNonDots(s)
    ensures r.Some? ==> r.value.scopeLen == a && Splits(s, r.value)
    ensures r.Some? ==> forall i': nat, j': nat ::
      TriedBefore(Split(a, i', j'), r.value) ==> !Splits(s, Split(a, i', j'))
    ensures r.None? ==> forall i': nat, j': nat :: !Splits(s, Split(a, i', j'))
  {
    if a < |s| && IsAnyChar(s[a]) then
      IdWithinRun(s, a);
      TryId(s, a, DigitRun(s, a + 1))
    else None
  }

  /** The match `re.match` finds: the first one in backtracking order. */
  function MatchSplit(s: string): (r: Option<Split>)
    ensures r.Some? ==> Splits(s, r.value)
    ensures r.Some? ==> forall sp: Split :: Splits(s, sp) ==> !TriedBefore(sp, r.value)
    ensures r.None? ==> forall sp: Split :: !Splits(s, sp)
  {
    var r := TryScope(s, LeadingNonDots(s));
    forall sp | Splits(s, sp) ensures sp.scopeLen <= LeadingNonDots(s) {
      SplitWithinRuns(s, sp);
    }
    r
  }

  /** The four named groups of a match (`m.groupdict()`). */
  datatype PathFields = PathFields(scope: string, id: string, ver: string, entity: string)

  /**
   * `m.groupdict()` for the match with group lengths sp: each group is as
   * long as sp says and has the shape its sub-pattern allows.
   */
  function FieldsAt(s: string, sp: Split): (r: PathFields)
    requires Splits(s, sp)
    ensures |r.scope| == sp.scopeLen && |r.id| == sp.idLen && |r.ver| == sp.verLen
    ensures WellFormedFields(r)
  {
    var a, i, j := sp.scopeLen, sp.idLen, sp.verLen;
    var r := PathFields(s[..a], s[a + 1..a + 1 + i], s[a + 2 + i..a + 2 + i + j], s[a + 3 + i + j..EndOf(sp)]);
    assert forall k :: 0 <= k < |r.scope| ==> r.scope[k] == s[k];
    r
  }

  /** The shape every matched group has: the invariants of a data entity record. */
  predicate WellFormedFields(f: PathFields) {
    && '.' !in f.scope
    && |f.id| >= 1 && AllDigits(f.id, 0, |f.id|)
    && |f.ver| >= 1 && AllDigits(f.ver, 0, |f.ver|)
    && |f.entity| == EntityLen && AllLowerHex(f.entity, 0, EntityLen)
  }

  /** The groups of `re.match(pattern, s)`, or None when it does not match. */
  function Match(s: string): (r: Option<PathFields>)
    ensures r.Some? ==> WellFormedFields(r.value)
  {
    match MatchSplit(s)
    case None => None
    case Some(sp) =>
      Some(FieldsAt(s, sp))
  }

  /** The path a match is read from, put back together. */
  function Assemble(f: PathFields, c1: char, c2: char, c3: char): string {
    f.scope + [c1] + f.id + [c2] + f.ver + [c3] + f.entity
  }

  /** `re.match` finds a match exactly when the pattern can match the path in some way. */
  lemma MatchIffSomeSplit(s: string)
    ensures Match(s).Some? <==> exists sp: Split :: Splits(s, sp)
  {
    if Match(s).Some? {
      assert Splits(s, MatchSplit(s).value);
    }
  }

  /**
   * Greedy backtracking: among all the ways the pattern could match `s`,
   * `re.match` keeps the one with the longest scope group and, for that
   * scope, the longest id group.
   */
  lemma MatchPrefersLongerGroups(s: string, sp: Split)
    requires Splits(s, sp)
    ensures Match(s).Some?
    ensures var f := Match(s).value;
      || |f.scope| > sp.scopeLen
      || (|f.scope| == sp.scopeLen && |f.id| >= sp.idLen)
  {
    var m := MatchSplit(s).value;
    assert !TriedBefore(sp, m);
    assert Match(s).value == FieldsAt(s, m);
  }

  /** Cutting a prefix of a string at five positions and joining the pieces back gives it again. */
  lemma Rejoin(t: string, p1: nat, p2: nat, p3: nat, p4: nat, p5: nat, p6: nat, e: nat)
    requires p1 < p2 <= p3 < p4 <= p5 < p6 <= e <= |t|
    requires p2 == p1 + 1 && p4 == p3 + 1 && p6 == p5 + 1
    ensures t[..e] == t[..p1] + [t[p1]] + t[p2..p3] + [t[p3]] + t[p4..p5] + [t[p5]] + t[p6..e]
  {
    ExtendByOne(t, p1);
    ExtendBy(t, p2, p3);
    ExtendByOne(t, p3);
    ExtendBy(t, p4, p5);
    ExtendByOne(t, p5);
    ExtendBy(t, p6, e);
  }

  /** A prefix grown by one character. */
  lemma ExtendByOne(t: string, p: nat)
    requires p < |t|
    ensures t[..p + 1] == t[..p] + [t[p]]
  {
  }

  /** A prefix grown by a slice. */
  lemma ExtendBy(t: string, p: nat, q: nat)
    requires p <= q <= |t|
    ensures t[..q] == t[..p] + t[p..q]
  {
  }

  /** The path prefix up to the end of the entity group is the groups read at sp, joined by the separators. */
  lemma SplitRoundTrip(s: string, sp: Split, f: PathFields)
    requires EndOf(sp) <= |s|
    requires var a, i, j := sp.scopeLen, sp.idLen, sp.verLen;
      && f.scope == s[..a] && f.id == s[a + 1..a + 1 + i]
      && f.ver == s[a + 2 + i..a + 2 + i + j] && f.entity == s[a + 3 + i + j..EndOf(sp)]
    ensures var a, i, j := sp.scopeLen, sp.idLen, sp.verLen;
      s[..EndOf(sp)] == Assemble(f, s[a], s[a + 1 + i], s[a + 2 + i + j])
  {
    var a, i, j, e := sp.scopeLen, sp.idLen, sp.verLen, EndOf(sp);
    Rejoin(s, a, a + 1, a + 1 + i, a + 2 + i, a + 2 + i + j, a + 3 + i + j, e);
  }

  /**
   * Round trip: the path is its four groups joined by three single
   * non-newline characters (any character, not necessarily a dot), followed
   * by nothing or by one final newline.
   */
  lemma MatchRoundTrip(s: string, f: PathFields)
    requires Match(s) == Some(f)
    ensures var e := |f.scope| + |f.id| + |f.ver| + 3 + EntityLen;
      && e <= |s|
      && IsAnyChar(s[|f.scope|])
      && IsAnyChar(s[|f.scope| + 1 + |f.id|])
      && IsAnyChar(s[|f.scope| + 2 + |f.id| + |f.ver|])
      && s[..e] == Assemble(f, s[|f.scope|], s[|f.scope| + 1 + |f.id|], s[|f.scope| + 2 + |f.id| + |f.ver|])
      && (s[e..] == [] || s[e..] == ['\n'])
  {
    var sp := MatchSplit(s).value;
    assert f == FieldsAt(s, sp);
    FieldsRoundTrip(s, sp, f);
  }

  /** The round trip, stated for the groups read at one match. */
  lemma FieldsRoundTrip(s: string, sp: Split, f: PathFields)
    requires Splits(s, sp) && f == FieldsAt(s, sp)
    ensures var e := |f.scope| + |f.id| + |f.ver| + 3 + EntityLen;
      && e <= |s|
      && IsAnyChar(s[|f.scope|])
      && IsAnyChar(s[|f.scope| + 1 + |f.id|])
      && IsAnyChar(s[|f.scope| + 2 + |f.id| + |f.ver|])
      && s[..e] == Assemble(f, s[|f.scope|], s[|f.scope| + 1 + |f.id|], s[|f.scope| + 2 + |f.id| + |f.ver|])
      && (s[e..] == [] || s[e..] == ['\n'])
  {
    var a, i, j := sp.scopeLen, sp.idLen, sp.verLen;
    assert f.scope == s[..a] && f.id == s[a + 1..a + 1 + i];
    assert f.ver == s[a + 2 + i..a + 2 + i + j] && f.entity == s[a + 3 + i + j..EndOf(sp)];
    SplitRoundTrip(s, sp, f);
    AtEndRest(s, EndOf(sp));
  }

  /** What `$` lets follow the match: nothing, or one newline. */
  lemma AtEndRest(s: string, e: nat)
    requires e <= |s| && AtEnd(s, e)
    ensures s[e..] == [] || s[e..] == ['\n']
  {
    if e + 1 == |s| {
      assert s[e..] == [s[e]];
    }
  }

  /** The entity group is the last 32 characters of a path that does not end in a newline. */
  lemma MatchEntityIsPathEnd(s: string)
    requires Match(s).Some?
    requires s == [] || s[|s| - 1] != '\n'
    ensures |s| >= EntityLen && Match(s).value.entity == s[|s| - EntityLen..]
  {
    var sp := MatchSplit(s).value;
    assert Match(s).value == FieldsAt(s, sp);
    assert EndOf(sp) == |s|;
  }

  /**
   * Every path assembled from well-formed groups and non-newline separators is
   * matched, with a scope group at least as long as the one it was built from.
   */
  lemma AssembledPathMatches(f: PathFields, c1: char, c2: char, c3: char)
    requires WellFormedFields(f)
    requires IsAnyChar(c1) && IsAnyChar(c2) && IsAnyChar(c3)
    ensures Match(Assemble(f, c1, c2, c3)).Some?
    ensures |Match(Assemble(f, c1, c2, c3)).value.scope| >= |f.scope|
  {
    var s := Assemble(f, c1, c2, c3);
    var a, i, j := |f.scope|, |f.id|, |f.ver|;
    var sp := Split(a, i, j);
    assert s[..a] == f.scope;
    assert s[a + 1..a + 1 + i] == f.id;
    assert s[a + 2 + i..a + 2 + i + j] == f.ver;
    assert s[a + 3 + i + j..] == f.entity;
    assert Splits(s, sp);
    MatchPrefersLongerGroups(s, sp);
  }

  /** A 32-character lowercase hexadecimal entity identifier used by the examples. */
  const SampleEntity: string := "0123456789abcdef0123456789abcdef"

  /** The example identifier is a valid entity group, free of dots, slashes and newlines. */
  lemma SampleEntityShape()
    ensures |SampleEntity| == EntityLen && AllLowerHex(SampleEntity, 0, EntityLen)
    ensures '.' !in SampleEntity && '/' !in SampleEntity && '\n' !in SampleEntity
  {
    forall k | 0 <= k < EntityLen ensures IsLowerHex(SampleEntity[k]) {
    }
  }

  /** The path "edi/123/4/<entity>" has a match with groups "edi/1", "3" and "4". */
  lemma DirectoryLayoutSplits(s: string)
    requires s == "edi/123/4/" + SampleEntity
    ensures Splits(s, Split(5, 1, 1))
  {
    SampleEntityShape();
    forall k | 10 <= k < 42 ensures IsLowerHex(s[k]) {
      assert s[k] == SampleEntity[k - 10];
    }
  }

  /** No other match of "edi/123/4/<entity>" comes first in backtracking order. */
  lemma DirectoryLayoutFirstSplit(s: string)
    requires s == "edi/123/4/" + SampleEntity
    ensures MatchSplit(s) == Some(Split(5, 1, 1))
  {
    DirectoryLayoutSplits(s);
    var m := MatchSplit(s).value;
    assert !TriedBefore(Split(5, 1, 1), m);
    assert s[|s| - 1] == 'f';
    assert m.scopeLen + m.idLen + m.verLen == 7;
  }

  /**
   * The layout scope/id/version/entity matches, because each unescaped dot
   * also matches '/'; but the greedy scope group takes every character it
   * can, so for "edi/123/4/<entity>" it keeps "edi/1" and leaves the id group
   * only its last digit. The groups do not give back the fields the path was
   * built from.
   */
  lemma DirectoryLayoutGroups(s: string)
    requires s == "edi/123/4/" + SampleEntity
    ensures Match(s) == Some(PathFields("edi/1", "3", "4", SampleEntity))
    ensures s == Assemble(PathFields("edi", "123", "4", SampleEntity), '/', '/', '/')
    ensures Match(s) != Some(PathFields("edi", "123", "4", SampleEntity))
  {
    DirectoryLayoutFields(s);
    DirectoryLayoutAssembled(s);
    assert |"edi/1"| != |"edi"|;
  }

  /** "edi/123/4/<entity>" is the groups "edi", "123", "4", "<entity>" joined by '/'. */
  lemma DirectoryLayoutAssembled(s: string)
    requires s == "edi/123/4/" + SampleEntity
    ensures s == Assemble(PathFields("edi", "123", "4", SampleEntity), '/', '/', '/')
  {
    assert "edi" + ['/'] + "123" + ['/'] + "4" + ['/'] == "edi/123/4/";
  }

  /** The groups read from the first match of "edi/123/4/<entity>". */
  lemma DirectoryLayoutFields(s: string)
    requires s == "edi/123/4/" + SampleEntity
    ensures Match(s) == Some(PathFields("edi/1", "3", "4", SampleEntity))
  {
    DirectoryLayoutFirstSplit(s);
    assert s[..5] == "edi/1";
    assert s[6..7] == "3";
    assert s[8..9] == "4";
    assert s[10..42] == SampleEntity;
  }
}
