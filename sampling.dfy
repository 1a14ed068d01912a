/**
 * The sampling step: when the catalogue holds at least k records, draw k of
 * them at random without replacement and sort the draw by size, largest
 * first; otherwise hand back the whole catalogue.
 *
 * The random generator is not modelled as code: the positions it picks arrive
 * as a parameter, the "draw", which must be what a draw without replacement
 * can give (k distinct positions of the catalogue).
 */
module Sampling {
  import opened Wrappers
  import opened Records
  import opened SizeOrder
  import Discovery

  /** The sample size the listing page asks for. */
  const DefaultSampleSize: nat := 200

  /** The one way sampling fails: a negative sample size. */
  datatype SampleError = NegativeSampleSize

  /** draw is k distinct positions of a sequence of length n. */
  predicate IsDraw(draw: seq<nat>, n: nat, k: nat) {
    && |draw| == k
    && (forall i :: 0 <= i < |draw| ==> draw[i] < n)
    && (forall i, j :: 0 <= i < j < |draw| ==> draw[i] != draw[j])
  }

  /** The elements of list at the positions of draw, in draw order. */
  function Pick<T>(list: seq<T>, draw: seq<nat>): (r: seq<T>)
    requires forall i :: 0 <= i < |draw| ==> draw[i] < |list|
    ensures |r| == |draw|
    ensures forall i :: 0 <= i < |r| ==> r[i] == list[draw[i]]
  {
    if draw == [] then [] else [list[draw[0]]] + Pick(list, draw[1..])
  }

  /** The positions of draw, renumbered for list once position p is taken out of it. */
  function Renumber(draw: seq<nat>, p: nat): (r: seq<nat>)
    ensures |r| == |draw|
    ensures forall i :: 0 <= i < |r| ==> r[i] == if draw[i] <= p then draw[i] else draw[i] - 1
  {
    if draw == [] then []
    else [if draw[0] <= p then draw[0] else draw[0] - 1] + Renumber(draw[1..], p)
  }

  /**
   * Taking position p out of the sequence and renumbering the other positions
   * of a draw picks the same elements, and the renumbered draw is a draw of
   * the shorter sequence.
   */
  lemma RenumberPicksSame<T>(list: seq<T>, draw: seq<nat>, p: nat)
    requires p < |list|
    requires forall i :: 0 <= i < |draw| ==> draw[i] < |list| && draw[i] != p
    requires forall i, j :: 0 <= i < j < |draw| ==> draw[i] != draw[j]
    ensures IsDraw(Renumber(draw, p), |list| - 1, |draw|)
    ensures Pick(list[..p] + list[p + 1..], Renumber(draw, p)) == Pick(list, draw)
  {
    RenumberIsDraw(draw, p, |list|);
    var shorter := list[..p] + list[p + 1..];
    var moved := Renumber(draw, p);
    forall i | 0 <= i < |draw| ensures shorter[moved[i]] == list[draw[i]] {
      if draw[i] > p {
        assert shorter[moved[i]] == list[p + 1..][draw[i] - 1 - p];
      }
    }
  }

  /** Renumbering a draw that avoids position p gives a draw of one position fewer. */
  lemma RenumberIsDraw(draw: seq<nat>, p: nat, n: nat)
    requires p < n
    requires forall i :: 0 <= i < |draw| ==> draw[i] < n && draw[i] != p
    requires forall i, j :: 0 <= i < j < |draw| ==> draw[i] != draw[j]
    ensures IsDraw(Renumber(draw, p), n - 1, |draw|)
  {
  }

  /** What a draw picks is a sub-multiset of what it draws from: nothing is picked twice. */
  lemma {:induction false} PickIsSubMultiset<T>(list: seq<T>, draw: seq<nat>)
    requires IsDraw(draw, |list|, |draw|)
    ensures multiset(Pick(list, draw)) <= multiset(list)
    decreases |draw|
  {
    if draw != [] {
      var p, rest := draw[0], draw[1..];
      var shorter := list[..p] + list[p + 1..];
      assert forall i :: 0 <= i < |rest| ==> rest[i] == draw[i + 1];
      RenumberPicksSame(list, rest, p);
      PickIsSubMultiset(shorter, Renumber(rest, p));
      RemoveAt(list, p);
      assert Pick(list, draw) == [list[p]] + Pick(list, rest);
    }
  }

  /** Taking out the element at position p takes one occurrence of it out of the multiset. */
  lemma RemoveAt<T>(list: seq<T>, p: nat)
    requires p < |list|
    ensures multiset(list) == multiset(list[..p] + list[p + 1..]) + multiset{list[p]}
  {
    assert list == list[..p] + [list[p]] + list[p + 1..];
  }

  /** A sub-multiset as large as the whole is the whole. */
  lemma SubMultisetOfSameSize<T>(a: multiset<T>, b: multiset<T>)
    requires a <= b && |a| == |b|
    ensures a == b
  {
    var rest := b - a;
    assert b == a + rest;
    assert |rest| == 0;
  }

  /**
   * `get_sample_data_entity_list` on the catalogue list: a negative k fails as
   * the sampling call does, a catalogue shorter than k comes back whole, and
   * otherwise the result is k records of the catalogue, none taken more often
   * than it occurs, sorted by size with the largest first.
   */
  function SampleDataEntities(list: seq<DataEntity>, k: int, draw: seq<nat>)
    : (r: Result<seq<DataEntity>, SampleError>)
    requires 0 <= k <= |list| ==> IsDraw(draw, |list|, k)
    ensures k < 0 ==> r == Failure(NegativeSampleSize)
    ensures |list| < k ==> r == Success(list)
    ensures 0 <= k <= |list| ==>
      && r.Success? && |r.value| == k
      && SortedBySizeDesc(r.value)
      && multiset(r.value) <= multiset(list)
  {
    if |list| >= k then
      if k < 0 then Failure(NegativeSampleSize)
      else
        PickIsSubMultiset(list, draw);
        Success(SortBySizeDesc(Pick(list, draw)))
    else Success(list)
  }

  /**
   * The listing page's call, with the default sample size: it succeeds and
   * shows at most 200 records, all of them when the catalogue is smaller.
   */
  lemma DefaultSampleIsBounded(list: seq<DataEntity>, draw: seq<nat>)
    requires DefaultSampleSize <= |list| ==> IsDraw(draw, |list|, DefaultSampleSize)
    ensures SampleDataEntities(list, DefaultSampleSize, draw).Success?
    ensures |SampleDataEntities(list, DefaultSampleSize, draw).value|
      == if |list| < DefaultSampleSize then |list| else DefaultSampleSize
    ensures |list| < DefaultSampleSize ==> SampleDataEntities(list, DefaultSampleSize, draw) == Success(list)
  {
  }

  /** A sample as large as the catalogue holds every record of it, reordered by size. */
  lemma FullSampleIsPermutation(list: seq<DataEntity>, draw: seq<nat>)
    requires IsDraw(draw, |list|, |list|)
    ensures SampleDataEntities(list, |list|, draw).Success?
    ensures multiset(SampleDataEntities(list, |list|, draw).value) == multiset(list)
  {
    var r := SampleDataEntities(list, |list|, draw).value;
    SubMultisetOfSameSize(multiset(r), multiset(list));
  }

  /** Records that occur once in the catalogue occur at most once in a sample of it. */
  lemma SampleHasNoRepeats(list: seq<DataEntity>, k: int, draw: seq<nat>)
    requires 0 <= k <= |list| ==> IsDraw(draw, |list|, k)
    requires forall i, j :: 0 <= i < j < |list| ==> list[i] != list[j]
    ensures SampleDataEntities(list, k, draw).Success? ==>
      var r := SampleDataEntities(list, k, draw).value;
      forall i, j :: 0 <= i < j < |r| ==> r[i] != r[j]
  {
    var res := SampleDataEntities(list, k, draw);
    if res.Success? {
      var r := res.value;
      DistinctOccursOnce(list);
      forall i, j | 0 <= i < j < |r| ensures r[i] != r[j] {
        if r[i] == r[j] {
          TwiceCountsTwice(r, i, j);
        }
      }
    }
  }

  /** In a sequence without repeats, every element occurs once. */
  lemma {:induction false} DistinctOccursOnce<T>(s: seq<T>)
    requires forall i, j :: 0 <= i < j < |s| ==> s[i] != s[j]
    ensures forall x :: multiset(s)[x] <= 1
  {
    if s != [] {
      var init := s[..|s| - 1];
      DistinctOccursOnce(init);
      assert s == init + [s[|s| - 1]];
      assert s[|s| - 1] !in init;
    }
  }

  /** An element at two positions occurs at least twice. */
  lemma TwiceCountsTwice<T>(s: seq<T>, i: nat, j: nat)
    requires i < j < |s| && s[i] == s[j]
    ensures multiset(s)[s[i]] >= 2
  {
    assert s == s[..i] + [s[i]] + s[i + 1..j] + [s[j]] + s[j + 1..];
  }

  /**
   * `get_sample_data_entity_list`: discover the catalogue from the walk, then
   * sample it. The records of a successful result are well formed, each comes
   * from the catalogue, and a catalogue smaller than k is returned whole.
   */
  method SampleDataEntityList(entries: seq<Discovery.Entry>, k: int, draw: seq<nat>)
    returns (r: Result<seq<DataEntity>, SampleError>)
    requires 0 <= k <= |Discovery.Collect(entries)| ==> IsDraw(draw, |Discovery.Collect(entries)|, k)
    ensures r == SampleDataEntities(SortBySizeDesc(Discovery.Collect(entries)), k, draw)
    ensures k < 0 <==> r.Failure?
    ensures r.Success? ==> SortedBySizeDesc(r.value)
    ensures r.Success? ==> forall x :: x in r.value ==> WellFormed(x)
  {
    var list := Discovery.DiscoverDataEntities(entries);
    r := SampleDataEntities(list, k, draw);
    if r.Success? {
      forall x | x in r.value ensures WellFormed(x) {
        if 0 <= k <= |list| {
          assert x in multiset(r.value);
        }
      }
    }
  }
}
