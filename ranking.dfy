/**
 * The ranked `to_a` that `Records#records` installs on the criteria:
 * `entries` sorted by `sort_by`, the key of an entry being the index of the
 * FIRST hit whose `_id` has the same `to_s` form as the entry's id, or nil
 * when no hit matches.
 *
 * `sort_by` compares keys with `<=>`: integers compare as usual, two nils
 * compare equal, and an integer against nil raises ArgumentError. There is
 * no rule that puts unmatched entries last.
 */
module Ranking {
  import opened Wrappers
  import opened Documents
  import opened Sorting

  /** The error `sort_by` raises when it compares a nil key with an Integer one. */
  datatype SortError = ComparisonFailed

  /** The position of the first hit whose string form equals the id's, if any. */
  function RankOf(hits: seq<Id>, id: Id): (r: Option<nat>)
    ensures r.Some? ==> r.value < |hits| && ToS(hits[r.value]) == ToS(id)
    ensures r.Some? ==> forall j :: 0 <= j < r.value ==> ToS(hits[j]) != ToS(id)
    ensures r.None? <==> forall j :: 0 <= j < |hits| ==> ToS(hits[j]) != ToS(id)
  {
    if hits == [] then None
    else if ToS(hits[0]) == ToS(id) then Some(0)
    else match RankOf(hits[1..], id)
      case None => None
      case Some(k) => Some(k + 1)
  }

  /**
   * Ids are matched by their string forms: an integer id and its decimal
   * string get the same key, the index of the first hit with that form.
   */
  lemma RankIgnoresIdKind(hits: seq<Id>, n: int)
    ensures RankOf(hits, IntId(n)) == RankOf(hits, StrId(IntToDecimal(n)))
    ensures RankOf([StrId("2"), IntId(1), IntId(2)], IntId(2)) == Some(0)
  {
  }

  predicate Found(hits: seq<Id>, e: Record)
  {
    RankOf(hits, e.id).Some?
  }

  /**
   * The `sort_by` key of an entry whose id occurs in the hits. The model
   * only sorts when every entry is found, so the value for a missing id is
   * never used.
   */
  function Rank(hits: seq<Id>, e: Record): nat
  {
    match RankOf(hits, e.id)
    case Some(k) => k
    case None => 0
  }

  function KeyOf(hits: seq<Id>): Record -> nat
  {
    e => Rank(hits, e)
  }

  predicate AllFound(hits: seq<Id>, s: seq<Record>)
  {
    forall i :: 0 <= i < |s| ==> Found(hits, s[i])
  }

  predicate NoneFound(hits: seq<Id>, s: seq<Record>)
  {
    forall i :: 0 <= i < |s| ==> !Found(hits, s[i])
  }

  /**
   * What the ranked `to_a` may return when it does not raise: a permutation
   * of the entries in non-decreasing rank. When no id is found every key is
   * nil, all keys compare equal and any permutation qualifies.
   */
  ghost predicate IsRankOrder(hits: seq<Id>, entries: seq<Record>, out: seq<Record>)
  {
    && multiset(out) == multiset(entries)
    && (NoneFound(hits, entries) || SortedBy(out, KeyOf(hits)))
  }

  /**
   * The ranked `to_a`. It raises when one entry's id is found in the hits and
   * another's is not. When no id is found the model keeps the datastore's
   * order, one of the orders `sort_by` may produce.
   */
  function RankedToA(hits: seq<Id>, entries: seq<Record>): (r: Result<seq<Record>, SortError>)
    ensures r.Failure? <==> !AllFound(hits, entries) && !NoneFound(hits, entries)
    ensures r.Success? ==> IsRankOrder(hits, entries, r.value)
  {
    if AllFound(hits, entries) then Success(SortBy(entries, KeyOf(hits)))
    else if NoneFound(hits, entries) then Success(entries)
    else Failure(ComparisonFailed)
  }

  /** Ids that stay apart when compared through `to_s`. */
  predicate DistinctIds(s: seq<Record>)
  {
    forall i, j :: 0 <= i < j < |s| ==> ToS(s[i].id) != ToS(s[j].id)
  }

  /** Found entries with distinct ids have distinct ranks. */
  lemma DistinctIdsDistinctRanks(hits: seq<Id>, s: seq<Record>)
    requires AllFound(hits, s) && DistinctIds(s)
    ensures DistinctKeys(s, KeyOf(hits))
  {
  }

  /**
   * When every entry's id occurs in the hits and ids are distinct, the
   * ranked order does not depend on how `sort_by` breaks ties: whatever it
   * returns is what `RankedToA` returns.
   */
  lemma RankedToADeterminate(hits: seq<Id>, entries: seq<Record>, out: seq<Record>)
    requires AllFound(hits, entries) && DistinctIds(entries)
    requires IsRankOrder(hits, entries, out)
    ensures RankedToA(hits, entries) == Success(out)
  {
    if entries == [] {
      assert |out| == |multiset(out)| == 0;
    } else {
      assert Found(hits, entries[0]);
      DistinctIdsDistinctRanks(hits, entries);
      SortByDeterminate(entries, KeyOf(hits), out);
    }
  }

  /**
   * Ranked materialisation puts the records in hit order: when the hits have
   * distinct ids and the entries are one record per hit, the i-th record
   * returned is the one for the i-th hit, whatever the datastore's order.
   */
  lemma HitsOrder(hits: seq<Id>, entries: seq<Record>)
    requires forall i, j :: 0 <= i < j < |hits| ==> ToS(hits[i]) != ToS(hits[j])
    requires AllFound(hits, entries) && DistinctIds(entries) && |entries| == |hits|
    ensures RankedToA(hits, entries).Success?
    ensures var out := RankedToA(hits, entries).value;
      |out| == |hits| && forall i :: 0 <= i < |out| ==> ToS(out[i].id) == ToS(hits[i])
  {
    var key := KeyOf(hits);
    var out := SortBy(entries, key);
    assert |out| == |multiset(out)| == |multiset(entries)| == |entries|;
    DistinctIdsDistinctRanks(hits, entries);
    DistinctKeysPermutation(entries, out, key);
    forall i | 0 <= i < |out| ensures Found(hits, out[i]) && key(out[i]) < |out| {
      assert out[i] in multiset(entries);
      var p :| 0 <= p < |entries| && entries[p] == out[i];
    }
    SortedDistinctKeysAreIndices(out, key);
    forall i | 0 <= i < |out| ensures ToS(out[i].id) == ToS(hits[i]) {
      assert RankOf(hits, out[i].id).value == i;
    }
  }

  /**
   * The datastore returns ids 1 and 2 in that order; the hits rank 2 before 1;
   * the ranked `to_a` gives 2, 1.
   */
  lemma HitsOrderExample(d1: Document, d2: Document)
    ensures var r1, r2 := Record(IntId(1), d1), Record(IntId(2), d2);
      RankedToA([IntId(2), IntId(1)], [r1, r2]) == Success([r2, r1])
  {
    var r1, r2 := Record(IntId(1), d1), Record(IntId(2), d2);
    var hits := [IntId(2), IntId(1)];
    var key := KeyOf(hits);
    SmallIds();
    assert RankOf(hits, IntId(2)) == Some(0);
    assert RankOf(hits[1..], IntId(1)) == Some(0);
    assert key(r1) == 1 && key(r2) == 0;
    assert AllFound(hits, [r1, r2]);
    assert [r1, r2][1..] == [r2] && [r2][1..] == [];
    assert SortBy([r2], key) == InsertBy(r2, [], key) == [r2];
    assert InsertBy(r1, [r2], key) == [r2] + InsertBy(r1, [], key) == [r2, r1];
  }

  lemma SmallIds()
    ensures ToS(IntId(1)) == "1" && ToS(IntId(2)) == "2"
  {
  }

  /** An entry that no hit matches, beside one that a hit matches, makes the ranked `to_a` raise. */
  lemma MissingIdRaises(hits: seq<Id>, found: Record, missing: Record)
    requires Found(hits, found) && !Found(hits, missing)
    ensures RankedToA(hits, [found, missing]) == Failure(ComparisonFailed)
    ensures RankedToA(hits, [missing, found]) == Failure(ComparisonFailed)
  {
  }
}
