/**
 * `sorted(records, key=lambda d: -d['size'])`: a stable sort by size, largest
 * first. Python's sort is stable, so records of equal size keep the order
 * they had.
 */
module SizeOrder {
  import opened Records

  predicate SortedBySizeDesc(s: seq<DataEntity>) {
    forall p, q :: 0 <= p < q < |s| ==> s[p].size >= s[q].size
  }

  /** The records of size v, in the order they appear in s. */
  function OfSize(s: seq<DataEntity>, v: nat): seq<DataEntity> {
    if s == [] then []
    else (if s[0].size == v then [s[0]] else []) + OfSize(s[1..], v)
  }

  /** The records of size v are records of s, and all have size v. */
  lemma {:induction false} OfSizeMembers(s: seq<DataEntity>, v: nat)
    ensures |OfSize(s, v)| <= |s|
    ensures forall x :: x in OfSize(s, v) ==> x in s && x.size == v
  {
    if s != [] {
      OfSizeMembers(s[1..], v);
    }
  }

  /** Puts x into the size-ordered s after every record at least as large. */
  function InsertBySize(x: DataEntity, s: seq<DataEntity>): (r: seq<DataEntity>)
    requires SortedBySizeDesc(s)
    ensures |r| == |s| + 1
    ensures r[0] == x || (s != [] && r[0] == s[0])
    ensures SortedBySizeDesc(r)
    ensures multiset(r) == multiset(s) + multiset{x}
  {
    if s == [] then [x]
    else if s[0].size >= x.size then
      var tail := InsertBySize(x, s[1..]);
      assert s == [s[0]] + s[1..];
      assert tail[0].size <= s[0].size;
      [s[0]] + tail
    else
      [x] + s
  }

  /** The stable sort by size, largest first: inserts the records one by one, in order. */
  function SortBySizeDesc(xs: seq<DataEntity>): (r: seq<DataEntity>)
    ensures SortedBySizeDesc(r)
    ensures multiset(r) == multiset(xs)
    ensures |r| == |xs|
  {
    if xs == [] then []
    else
      var init := xs[..|xs| - 1];
      assert xs == init + [xs[|xs| - 1]];
      InsertBySize(xs[|xs| - 1], SortBySizeDesc(init))
  }

  /** The sort neither adds nor drops records. */
  lemma SortKeepsMembers(xs: seq<DataEntity>, x: DataEntity)
    ensures x in SortBySizeDesc(xs) <==> x in xs
  {
    assert x in SortBySizeDesc(xs) <==> x in multiset(SortBySizeDesc(xs));
    assert x in xs <==> x in multiset(xs);
  }

  lemma {:induction false} OfSizeAppend(a: seq<DataEntity>, b: seq<DataEntity>, v: nat)
    ensures OfSize(a + b, v) == OfSize(a, v) + OfSize(b, v)
  {
    if a == [] {
      assert a + b == b;
    } else {
      assert (a + b)[0] == a[0];
      assert (a + b)[1..] == a[1..] + b;
      OfSizeAppend(a[1..], b, v);
    }
  }

  /** In a size-ordered sequence, nothing of size v follows a record smaller than v. */
  lemma {:induction false} OfSizeOfSmaller(s: seq<DataEntity>, v: nat)
    requires forall k :: 0 <= k < |s| ==> s[k].size < v
    ensures OfSize(s, v) == []
  {
    if s != [] {
      OfSizeOfSmaller(s[1..], v);
    }
  }

  /** Inserting x puts it after every record of its own size already present. */
  lemma {:induction false} InsertIsStable(x: DataEntity, s: seq<DataEntity>, v: nat)
    requires SortedBySizeDesc(s)
    ensures OfSize(InsertBySize(x, s), v) == if x.size == v then OfSize(s, v) + [x] else OfSize(s, v)
  {
    if s == [] {
    } else if s[0].size >= x.size {
      InsertIsStable(x, s[1..], v);
      assert InsertBySize(x, s) == [s[0]] + InsertBySize(x, s[1..]);
      OfSizeAfterHead(x, s, InsertBySize(x, s[1..]), v);
    } else {
      assert InsertBySize(x, s) == [x] + s;
      if x.size == v {
        OfSizeOfSmaller(s, v);
      }
    }
  }

  /** A record x placed after the head of s: the head keeps its place among the records of its size. */
  lemma OfSizeAfterHead(x: DataEntity, s: seq<DataEntity>, tail: seq<DataEntity>, v: nat)
    requires s != []
    requires OfSize(tail, v) == if x.size == v then OfSize(s[1..], v) + [x] else OfSize(s[1..], v)
    ensures OfSize([s[0]] + tail, v) == if x.size == v then OfSize(s, v) + [x] else OfSize(s, v)
  {
    var r := [s[0]] + tail;
    var head := if s[0].size == v then [s[0]] else [];
    assert r[0] == s[0] && r[1..] == tail;
    OfSizeCons(r, v);
    OfSizeCons(s, v);
    if x.size == v {
      var rest := OfSize(s[1..], v);
      assert OfSize(r, v) == head + (rest + [x]);
      assert head + (rest + [x]) == (head + rest) + [x];
    }
  }

  /**
   * Stability: for every size, the records of that size come out of the sort
   * in exactly the order they went in.
   */
  lemma {:induction false} SortIsStable(xs: seq<DataEntity>, v: nat)
    ensures OfSize(SortBySizeDesc(xs), v) == OfSize(xs, v)
  {
    if xs != [] {
      var init, last := xs[..|xs| - 1], xs[|xs| - 1];
      assert xs == init + [last];
      SortIsStable(init, v);
      InsertIsStable(last, SortBySizeDesc(init), v);
      OfSizeAppend(init, [last], v);
    }
  }

  lemma OfSizeCons(s: seq<DataEntity>, v: nat)
    requires s != []
    ensures OfSize(s, v) == if s[0].size == v then [s[0]] + OfSize(s[1..], v) else OfSize(s[1..], v)
  {
  }

  /** In a size-ordered sequence, every size present is at most the first record's. */
  lemma SizesBoundedByHead(s: seq<DataEntity>, v: nat)
    requires SortedBySizeDesc(s) && s != [] && OfSize(s, v) != []
    ensures v <= s[0].size
  {
    var x := OfSize(s, v)[0];
    OfSizeMembers(s, v);
    assert x in s;
    var k :| 0 <= k < |s| && s[k] == x;
  }

  /**
   * A stable descending sort is determined by its input: two size-ordered
   * sequences holding the same records of each size in the same order are
   * equal. So SortBySizeDesc is the only result `sorted` can give.
   */
  lemma {:induction false} SizeOrderIsUnique(ys: seq<DataEntity>, zs: seq<DataEntity>)
    requires SortedBySizeDesc(ys) && SortedBySizeDesc(zs)
    requires forall v: nat :: OfSize(ys, v) == OfSize(zs, v)
    ensures ys == zs
    decreases |ys|
  {
    if ys != [] {
      OfSizeCons(ys, ys[0].size);
    }
    if zs != [] {
      OfSizeCons(zs, zs[0].size);
    }
    if ys != [] && zs != [] {
      var vy, vz := ys[0].size, zs[0].size;
      OfSizeCons(ys, vy);
      OfSizeCons(zs, vz);
      SizesBoundedByHead(zs, vy);
      SizesBoundedByHead(ys, vz);
      assert vy == vz;
      assert ys[0] == OfSize(ys, vy)[0] == OfSize(zs, vy)[0] == zs[0];
      forall v: nat ensures OfSize(ys[1..], v) == OfSize(zs[1..], v) {
        OfSizeCons(ys, v);
        OfSizeCons(zs, v);
        assert OfSize(ys, v) == OfSize(zs, v);
        if v == vy {
          assert OfSize(ys, v)[1..] == OfSize(ys[1..], v);
          assert OfSize(zs, v)[1..] == OfSize(zs[1..], v);
        }
      }
      SizeOrderIsUnique(ys[1..], zs[1..]);
      assert ys == [ys[0]] + ys[1..] && zs == [zs[0]] + zs[1..];
    }
  }
}
