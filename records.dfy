/**
 * `Records#records` and the `asc`, `desc` and `order_by` interceptors.
 *
 * The Ruby code decorates the datastore's criteria object by redefining its
 * `to_a` in place. Here the criteria is a class whose `toA` field says which
 * `to_a` is installed: the ranked one, closed over the search hits, or the
 * plain `entries`. The datastore's query and its native orderings are taken
 * as given: the query's result is an input sequence, a native ordering is a
 * function from the entries it starts from to the entries it yields.
 */
module Records {
  import opened Wrappers
  import opened Documents
  import opened Ranking

  /** Which `to_a` a criteria object currently answers with. */
  datatype Materialization = Ranked(hits: seq<Id>) | Natural

  /** The explicit ordering calls that switch ranking off. */
  datatype OrderCall = Asc | Desc | OrderBy

  class Criteria {
    /** What the datastore enumerates for this query (`entries`). */
    const entries: seq<Record>
    var toA: Materialization

    /** A query result as the datastore hands it out, with its own `to_a`. */
    constructor (entries: seq<Record>)
      ensures this.entries == entries && toA == Natural
    {
      this.entries := entries;
      toA := Natural;
    }

    /**
     * A native ordering applied to `source`: the datastore clones the query,
     * and the clone keeps the `to_a` installed on `source`.
     */
    constructor Clone(source: Criteria, entries: seq<Record>)
      ensures this.entries == entries && toA == source.toA
    {
      this.entries := entries;
      toA := source.toA;
    }

    /** Installs the ranked `to_a` on this object, closed over `hits`. */
    method RankBy(hits: seq<Id>)
      modifies this
      ensures toA == Ranked(hits)
    {
      toA := Ranked(hits);
    }

    /** Installs a `to_a` that answers with this object's own entries. */
    method DropRanking()
      modifies this
      ensures toA == Natural
    {
      toA := Natural;
    }

    /**
     * `to_a`: while ranking is installed, it raises exactly when some
     * entry's id is found in the hits and another's is not, and otherwise
     * answers with one of the orders `sort_by` may produce; without ranking
     * it answers with the datastore's entries.
     */
    method ToA() returns (r: Result<seq<Record>, SortError>)
      ensures toA.Natural? ==> r == Success(entries)
      ensures toA.Ranked? ==>
        && (r.Failure? <==> !AllFound(toA.hits, entries) && !NoneFound(toA.hits, entries))
        && (r.Success? ==> IsRankOrder(toA.hits, entries, r.value))
      ensures r.Success? ==> multiset(r.value) == multiset(entries)
    {
      match toA
      case Natural =>
        r := Success(entries);
      case Ranked(hits) =>
        r := RankedToA(hits, entries);
    }
  }

  /**
   * `records`: the datastore's answer to `where(:id.in => ids)`, with the
   * ranked `to_a` installed over the response's hits.
   */
  method MakeRecords(hits: seq<Id>, found: seq<Record>) returns (c: Criteria)
    ensures fresh(c) && c.entries == found && c.toA == Ranked(hits)
  {
    c := new Criteria(found);
    c.RankBy(hits);
  }

  /**
   * `asc`, `desc` and `order_by`: build `records`, let the datastore order
   * it with the native ordering the call names, then put the plain `to_a`
   * back on the object the datastore returned.
   */
  method Reorder(call: OrderCall, hits: seq<Id>, found: seq<Record>,
                 native: OrderCall -> seq<Record> -> seq<Record>)
    returns (c: Criteria)
    ensures fresh(c) && c.entries == native(call)(found) && c.toA == Natural
  {
    var base := MakeRecords(hits, found);
    c := new Criteria.Clone(base, native(call)(base.entries));
    c.DropRanking();
  }

  /**
   * Once ranking is off it stays off: a further native ordering on the
   * returned object clones the plain `to_a` along with it.
   */
  method ReorderAgain(c: Criteria, native: seq<Record> -> seq<Record>) returns (d: Criteria)
    requires c.toA == Natural
    ensures fresh(d) && d.entries == native(c.entries) && d.toA == Natural
  {
    d := new Criteria.Clone(c, native(c.entries));
  }

  /**
   * Hits rank 2 before 1 and the datastore finds 1 then 2: `records.to_a`
   * gives 2, 1 while `asc.to_a` gives the datastore's ascending order 1, 2.
   */
  method AscIgnoresHits(d1: Document, d2: Document)
    returns (ranked: Result<seq<Record>, SortError>, natural: Result<seq<Record>, SortError>)
    ensures ranked == Success([Record(IntId(2), d2), Record(IntId(1), d1)])
    ensures natural == Success([Record(IntId(1), d1), Record(IntId(2), d2)])
  {
    var r1, r2 := Record(IntId(1), d1), Record(IntId(2), d2);
    var hits := [IntId(2), IntId(1)];
    var records := MakeRecords(hits, [r1, r2]);
    ranked := records.ToA();
    // The ranked answer is only constrained, but with every id found and
    // the ids distinct it is the unique rank order.
    SmallIds();
    assert RankOf(hits, IntId(2)) == Some(0);
    assert RankOf(hits[1..], IntId(1)) == Some(0);
    assert AllFound(hits, [r1, r2]) && DistinctIds([r1, r2]);
    RankedToADeterminate(hits, [r1, r2], ranked.value);
    HitsOrderExample(d1, d2);
    var ascending := Reorder(Asc, hits, [r1, r2], call => s => [r1, r2]);
    natural := ascending.ToA();
  }
}
