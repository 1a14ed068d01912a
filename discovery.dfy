/**
 * The data-file discovery step: walk every path under the data root, keep the
 * regular files without a suffix that the CSV check accepts, parse their
 * root-relative paths with the file-name pattern, and return the records
 * sorted by size, largest first.
 *
 * The directory walk, the stat calls and the CSV check are not modelled as
 * code: their answers arrive as a sequence of entries, in walk order.
 */
module Discovery {
  import opened Wrappers
  import opened Records
  import opened SizeOrder
  import PathPattern
  import PurePath

  /**
   * One path the recursive walk yields: its POSIX path relative to the data
   * root, its absolute POSIX path, whether it is a regular file, whether the
   * CSV check accepts it, and its size in bytes.
   */
  datatype Entry = Entry(relPath: string, absPath: string, isFile: bool, isCsv: bool, size: nat)

  /**
   * The three filters: a regular file, no suffix, accepted by the CSV check.
   * A file passes the suffix filter exactly when its name ends with a dot or
   * has no dot past its first character.
   */
  predicate Accepted(e: Entry): (ok: bool)
    ensures ok <==>
      && e.isFile && e.isCsv
      && var name := PurePath.Name(e.absPath);
        || (|name| > 0 && name[|name| - 1] == '.')
        || (forall k :: 0 < k < |name| - 1 ==> name[k] != '.')
  {
    e.isFile && PurePath.Suffix(e.absPath) == "" && e.isCsv
  }

  /**
   * The record the walk appends for one entry, if any: there is one exactly
   * when the entry passes the three filters and its relative path matches,
   * and it then holds the match's groups, the entry's absolute path and
   * size, and an empty status.
   */
  function Candidate(e: Entry): (r: Option<DataEntity>)
    ensures r.Some? <==> Accepted(e) && PathPattern.Match(e.relPath).Some?
    ensures r.Some? ==>
      && PathPattern.Match(e.relPath) == Some(Fields(r.value))
      && r.value.absPath == e.absPath && r.value.size == e.size && r.value.status == ""
      && WellFormed(r.value)
  {
    if !Accepted(e) then None
    else
      match PathPattern.Match(e.relPath)
      case None => None
      case Some(f) => Some(DataEntity(e.absPath, f.scope, f.id, f.ver, f.entity, e.size, ""))
  }

  /** The values f gives to the elements of es, where it gives one, in the order of es. */
  function Keep<E, T>(f: E -> Option<T>, es: seq<E>): (r: seq<T>)
    ensures |r| <= |es|
  {
    if es == [] then []
    else Keep(f, es[..|es| - 1]) + OptionToSeq(f(es[|es| - 1]))
  }

  /** Keeping over one more element appends that element's value, if any. */
  lemma KeepStep<E, T>(f: E -> Option<T>, es: seq<E>, i: nat)
    requires i < |es|
    ensures Keep(f, es[..i + 1]) == Keep(f, es[..i]) + OptionToSeq(f(es[i]))
  {
    assert es[..i + 1][..i] == es[..i];
  }

  /** Nothing is kept when f gives no value to any element. */
  lemma {:induction false} KeepNothing<E, T>(f: E -> Option<T>, es: seq<E>)
    requires forall k :: 0 <= k < |es| ==> f(es[k]) == None
    ensures Keep(f, es) == []
  {
    if es != [] {
      var init := es[..|es| - 1];
      assert forall k :: 0 <= k < |init| ==> init[k] == es[k];
      KeepNothing(f, init);
    }
  }

  /** A value is kept exactly when f gives it to some element. */
  lemma {:induction false} KeepMembership<E, T>(f: E -> Option<T>, es: seq<E>, x: T)
    ensures x in Keep(f, es) <==> exists k :: 0 <= k < |es| && f(es[k]) == Some(x)
  {
    if es != [] {
      var init := es[..|es| - 1];
      KeepMembership(f, init, x);
      if x in Keep(f, init) {
        var k :| 0 <= k < |init| && f(init[k]) == Some(x);
        assert es[k] == init[k];
      }
      if exists k :: 0 <= k < |es| && f(es[k]) == Some(x) {
        var k :| 0 <= k < |es| && f(es[k]) == Some(x);
        if k < |init| {
          assert init[k] == es[k];
        }
      }
    }
  }

  /**
   * The records the walk has collected from the entries es, in walk order,
   * before sorting: at most one per entry, each with the shape the pattern
   * guarantees and an empty status.
   */
  function Collect(es: seq<Entry>): (r: seq<DataEntity>)
    ensures |r| <= |es|
    ensures forall x :: x in r ==> WellFormed(x) && x.status == ""
  {
    CandidatesWellFormed(es);
    Keep(Candidate, es)
  }

  /** Every record kept from the candidates of es is well formed, with an empty status. */
  lemma {:induction false} CandidatesWellFormed(es: seq<Entry>)
    ensures forall x :: x in Keep(Candidate, es) ==> WellFormed(x) && x.status == ""
  {
    if es != [] {
      CandidatesWellFormed(es[..|es| - 1]);
    }
  }

  /**
   * `get_data_entity_list`: the loop over the walk with its three filters,
   * the pattern match and the append, then the stable sort by size.
   */
  method DiscoverDataEntities(entries: seq<Entry>) returns (list: seq<DataEntity>)
    ensures list == SortBySizeDesc(Collect(entries))
    ensures SortedBySizeDesc(list)
    ensures multiset(list) == multiset(Collect(entries))
    ensures forall v: nat :: OfSize(list, v) == OfSize(Collect(entries), v)
    ensures forall x :: x in list ==> WellFormed(x)
  {
    var found: seq<DataEntity> := [];
    for i := 0 to |entries|
      invariant found == Collect(entries[..i])
    {
      var e := entries[i];
      KeepStep(Candidate, entries, i);
      if !e.isFile || PurePath.Suffix(e.absPath) != "" || !e.isCsv {
        continue;
      }
      var m := PathPattern.Match(e.relPath);
      if m.None? {
        continue;
      }
      found := found + [DataEntity(e.absPath, m.value.scope, m.value.id, m.value.ver, m.value.entity, e.size, "")];
    }
    assert entries[..|entries|] == entries;
    list := SortBySizeDesc(found);
    forall v: nat ensures OfSize(list, v) == OfSize(found, v) {
      SortIsStable(found, v);
    }
    assert forall x :: x in list ==> x in multiset(found);
  }

  /** A discovered record is the record of some entry of the walk. */
  lemma DiscoveredFromSomeEntry(es: seq<Entry>, x: DataEntity)
    requires x in SortBySizeDesc(Collect(es))
    ensures exists k :: 0 <= k < |es| && Candidate(es[k]) == Some(x)
  {
    SortKeepsMembers(Collect(es), x);
    KeepMembership(Candidate, es, x);
  }

  /** The fields of a record yielded by some entry, stated for that entry. */
  lemma EntryRecordOrigin(es: seq<Entry>, x: DataEntity)
    requires exists k :: 0 <= k < |es| && Candidate(es[k]) == Some(x)
    ensures exists k ::
      && 0 <= k < |es| && Accepted(es[k])
      && PathPattern.Match(es[k].relPath) == Some(Fields(x))
      && x.absPath == es[k].absPath && x.size == es[k].size && x.status == ""
  {
    var k :| 0 <= k < |es| && Candidate(es[k]) == Some(x);
  }

  /**
   * Every discovered record comes from an entry that passed the three filters
   * and whose relative path matched: its groups are that match's groups, its
   * path and size are that entry's, and its status is empty.
   */
  lemma DiscoveredRecordOrigin(es: seq<Entry>, x: DataEntity)
    requires x in SortBySizeDesc(Collect(es))
    ensures exists k ::
      && 0 <= k < |es| && Accepted(es[k])
      && PathPattern.Match(es[k].relPath) == Some(Fields(x))
      && x.absPath == es[k].absPath && x.size == es[k].size && x.status == ""
  {
    DiscoveredFromSomeEntry(es, x);
    EntryRecordOrigin(es, x);
  }

  /**
   * An entry that is not a regular file, has a suffix, fails the CSV check or
   * does not match the pattern gives no record: when the absolute paths of
   * the walk are distinct, no discovered record carries its path.
   */
  lemma SkippedEntryNotDiscovered(es: seq<Entry>, k: nat)
    requires k < |es|
    requires forall p, q :: 0 <= p < q < |es| ==> es[p].absPath != es[q].absPath
    requires !es[k].isFile || PurePath.Suffix(es[k].absPath) != "" || !es[k].isCsv
      || PathPattern.Match(es[k].relPath).None?
    ensures forall x :: x in SortBySizeDesc(Collect(es)) ==> x.absPath != es[k].absPath
  {
    SkippedEntryYieldsNothing(es[k]);
    forall x | x in SortBySizeDesc(Collect(es)) ensures x.absPath != es[k].absPath {
      DiscoveredFromSomeEntry(es, x);
      var j :| 0 <= j < |es| && Candidate(es[j]) == Some(x);
    }
  }

  /** An entry that fails a filter or the pattern yields no record. */
  lemma SkippedEntryYieldsNothing(e: Entry)
    requires !e.isFile || PurePath.Suffix(e.absPath) != "" || !e.isCsv
      || PathPattern.Match(e.relPath).None?
    ensures Candidate(e) == None
  {
  }

  /**
   * A file named "scope.id.ver.entity" directly has the suffix ".entity", so
   * it is skipped whatever its relative path, size or content.
   */
  lemma DottedFileNameSkipped(e: Entry, dir: string, scope: string, id: string, ver: string, entity: string)
    requires '.' !in entity && |entity| >= 1 && '/' !in entity
    requires '/' !in scope + id + ver
    requires e.absPath == dir + "/" + scope + "." + id + "." + ver + "." + entity
    ensures Candidate(e) == None
  {
    PurePath.DottedNameHasSuffix(dir, scope, id, ver, entity);
  }

  /** The walk yields no record while every entry it sees has a suffix. */
  lemma SuffixedEntriesNotDiscovered(es: seq<Entry>)
    requires forall k :: 0 <= k < |es| ==> PurePath.Suffix(es[k].absPath) != ""
    ensures Collect(es) == []
  {
    forall k | 0 <= k < |es| ensures Candidate(es[k]) == None {
      SkippedEntryYieldsNothing(es[k]);
    }
    KeepNothing(Candidate, es);
  }

  /**
   * Two flat data files "foo.1.2.<entity>" (10 bytes) and "bar.3.4.<entity>"
   * (5 bytes), both regular files accepted by the CSV check, are both
   * skipped: discovery returns nothing. h is the sample entity identifier.
   */
  lemma FlatNamesNotDiscovered(root: string, h: string, foo: Entry, bar: Entry)
    requires h == PathPattern.SampleEntity
    requires foo == Entry("foo.1.2." + h, root + "/" + "foo" + "." + "1" + "." + "2" + "." + h, true, true, 10)
    requires bar == Entry("bar.3.4." + h, root + "/" + "bar" + "." + "3" + "." + "4" + "." + h, true, true, 5)
    ensures SortBySizeDesc(Collect([foo, bar])) == []
  {
    PathPattern.SampleEntityShape();
    DottedPairNotDiscovered(foo, root, "foo", "1", "2", h, bar, root, "bar", "3", "4", h);
  }

  /** Two files whose names have the form "scope.id.ver.entity" are both skipped, wherever each sits. */
  lemma DottedPairNotDiscovered(
      a: Entry, aDir: string, aScope: string, aId: string, aVer: string, aEntity: string,
      b: Entry, bDir: string, bScope: string, bId: string, bVer: string, bEntity: string)
    requires '.' !in aEntity && |aEntity| >= 1 && '/' !in aEntity
    requires '.' !in bEntity && |bEntity| >= 1 && '/' !in bEntity
    requires '/' !in aScope + aId + aVer && '/' !in bScope + bId + bVer
    requires a.absPath == aDir + "/" + aScope + "." + aId + "." + aVer + "." + aEntity
    requires b.absPath == bDir + "/" + bScope + "." + bId + "." + bVer + "." + bEntity
    ensures SortBySizeDesc(Collect([a, b])) == []
  {
    DottedFileNameSkipped(a, aDir, aScope, aId, aVer, aEntity);
    DottedFileNameSkipped(b, bDir, bScope, bId, bVer, bEntity);
    KeepNothing(Candidate, [a, b]);
  }

  /**
   * The directory layout "edi/123/4/<entity>" under the root is discovered,
   * with the groups the greedy pattern gives it, and the sort returns that
   * single record as it is; dir is the file's directory,
   * the root followed by "/edi/123/4".
   */
  lemma DirectoryLayoutDiscovered(dir: string, size: nat)
    ensures var h := PathPattern.SampleEntity;
      var e := Entry("edi/123/4/" + h, dir + "/" + h, true, true, size);
      && Collect([e]) == [DataEntity(dir + "/" + h, "edi/1", "3", "4", h, size, "")]
      && SortBySizeDesc(Collect([e])) == Collect([e])
  {
    var h := PathPattern.SampleEntity;
    var e := Entry("edi/123/4/" + h, dir + "/" + h, true, true, size);
    DirectoryLayoutCandidate(e, dir);
    assert [e][..0] == [];
    assert Collect([e]) == Collect([]) + OptionToSeq(Candidate(e));
    var x := DataEntity(dir + "/" + h, "edi/1", "3", "4", h, size, "");
    assert SortBySizeDesc([x]) == InsertBySize(x, SortBySizeDesc([]));
  }

  /** The record the file "edi/123/4/<entity>" yields, whatever directory it sits in. */
  lemma DirectoryLayoutCandidate(e: Entry, dir: string)
    requires e.relPath == "edi/123/4/" + PathPattern.SampleEntity
    requires e.absPath == dir + "/" + PathPattern.SampleEntity
    requires e.isFile && e.isCsv
    ensures Candidate(e) == Some(DataEntity(e.absPath, "edi/1", "3", "4", PathPattern.SampleEntity, e.size, ""))
  {
    PathPattern.DirectoryLayoutGroups(e.relPath);
    EntityNameHasNoSuffix(dir, PathPattern.SampleEntity);
    CandidateOfMatch(e, PathPattern.PathFields("edi/1", "3", "4", PathPattern.SampleEntity));
  }

  /** An accepted entry whose path matches yields the record of that match. */
  lemma CandidateOfMatch(e: Entry, f: PathPattern.PathFields)
    requires Accepted(e) && PathPattern.Match(e.relPath) == Some(f)
    ensures Candidate(e) == Some(DataEntity(e.absPath, f.scope, f.id, f.ver, f.entity, e.size, ""))
  {
  }

  /** A file named by its bare entity identifier has no suffix. */
  lemma EntityNameHasNoSuffix(dir: string, h: string)
    requires h == PathPattern.SampleEntity
    ensures PurePath.Suffix(dir + "/" + h) == ""
  {
    PathPattern.SampleEntityShape();
    PurePath.NameAfterSlash(dir, h);
  }
}
