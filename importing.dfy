/**
 * `Importing#__find_in_batches`: walk every record of the class, push each
 * one onto a buffer, and whenever the buffer's length is a multiple of the
 * batch size yield the buffer as a bulk batch and start a new one; after the
 * walk, yield what is left if anything is.
 *
 * The batch size defaults to 1000 through `||=`. It is never validated: 0
 * raises ZeroDivisionError when the first record is pushed, and a negative
 * size behaves like its absolute value because only the remainder's being
 * zero is checked.
 */
module Importing {
  import opened Wrappers
  import opened Documents

  /** One bulk "index" action: the record's id in string form and its indexed document. */
  datatype BulkAction = Index(id: string, data: Document)

  datatype ImportOutcome = Completed | ZeroDivisionError

  const DefaultBatchSize: int := 1000

  /** The batch size option, or 1000 when the caller gave none. */
  function BatchSize(option: Option<int>): int
  {
    match option
    case None => DefaultBatchSize
    case Some(n) => n
  }

  function Abs(n: int): nat
  {
    if n < 0 then -n else n
  }

  function ToBulk(a: Record): BulkAction
  {
    Index(ToS(a.id), a.document)
  }

  /** A buffered batch turned into bulk actions, one per record, in order. */
  function BulkBatch(items: seq<Record>): (b: seq<BulkAction>)
  {
    seq(|items|, i requires 0 <= i < |items| => ToBulk(items[i]))
  }

  function BulkBatches(cs: seq<seq<Record>>): seq<seq<BulkAction>>
  {
    seq(|cs|, k requires 0 <= k < |cs| => BulkBatch(cs[k]))
  }

  function Flatten<T>(cs: seq<seq<T>>): seq<T>
  {
    if cs == [] then [] else cs[0] + Flatten(cs[1..])
  }

  /** Consecutive slices of `size` elements, the last possibly shorter. */
  function Chunk<T>(xs: seq<T>, size: nat): seq<seq<T>>
    requires size > 0
    decreases |xs|
  {
    if xs == [] then []
    else if |xs| <= size then [xs]
    else [xs[..size]] + Chunk(xs[size..], size)
  }

  /**
   * An independent description of a chunking: the chunks concatenate back to
   * `xs`, none is empty, none is longer than `size`, and all but the last
   * are exactly `size` long.
   */
  ghost predicate IsChunking<T>(xs: seq<T>, size: nat, cs: seq<seq<T>>)
  {
    && Flatten(cs) == xs
    && (forall k :: 0 <= k < |cs| ==> 1 <= |cs[k]| <= size)
    && (forall k :: 0 <= k < |cs| - 1 ==> |cs[k]| == size)
  }

  lemma {:induction false} ChunkIsChunking<T>(xs: seq<T>, size: nat)
    requires size > 0
    ensures IsChunking(xs, size, Chunk(xs, size))
    decreases |xs|
  {
    if xs != [] && |xs| > size {
      var rest := Chunk(xs[size..], size);
      ChunkIsChunking(xs[size..], size);
      var cs := [xs[..size]] + rest;
      assert cs[1..] == rest;
      assert xs == xs[..size] + xs[size..];
      assert forall k :: 1 <= k < |cs| ==> cs[k] == rest[k - 1];
    } else if xs != [] {
      assert [xs][1..] == [];
    }
  }

  /** `Chunk` is the only chunking: the description above fixes the batches. */
  lemma {:induction false} ChunkingUnique<T>(xs: seq<T>, size: nat, cs: seq<seq<T>>)
    requires size > 0 && IsChunking(xs, size, cs)
    ensures cs == Chunk(xs, size)
    decreases |cs|
  {
    if cs != [] {
      var rest := cs[1..];
      assert Flatten(cs) == cs[0] + Flatten(rest);
      assert forall k :: 0 <= k < |rest| ==> rest[k] == cs[k + 1];
      assert IsChunking(Flatten(rest), size, rest);
      ChunkingUnique(Flatten(rest), size, rest);
      if rest == [] {
        assert xs == cs[0];
      } else {
        assert |cs[0]| == size;
        assert Flatten(rest) != [] by { FlattenNonEmpty(rest); }
        assert xs[..size] == cs[0] && xs[size..] == Flatten(rest);
      }
    }
  }

  lemma FlattenNonEmpty<T>(cs: seq<seq<T>>)
    requires cs != [] && cs[0] != []
    ensures Flatten(cs) != []
  {
  }

  lemma MulGap(a: int, b: int, d: nat)
    ensures a < b ==> a * d + d <= b * d
  {
    if a < b {
      var k := b - a;
      assert b * d == a * d + k * d;
      assert k * d >= d;
    }
  }

  lemma DivModStep(n: nat, d: nat)
    requires d > 0
    ensures (n + d) / d == n / d + 1 && (n + d) % d == n % d
  {
    var q, r := n / d, n % d;
    var Q, R := (n + d) / d, (n + d) % d;
    assert d * Q + R == d * (q + 1) + r;
    MulGap(Q, q + 1, d);
    MulGap(q + 1, Q, d);
  }

  /** There are ceil(N / size) chunks. */
  lemma {:induction false} ChunkCount<T>(xs: seq<T>, size: nat)
    requires size > 0
    ensures |Chunk(xs, size)| == (|xs| + size - 1) / size
    decreases |xs|
  {
    if xs == [] {
    } else if |xs| <= size {
      assert size <= |xs| + size - 1 < 2 * size;
    } else {
      ChunkCount(xs[size..], size);
      DivModStep(|xs| - 1, size);
    }
  }

  /** When size divides N there is no short trailing chunk. */
  lemma {:induction false} ChunkExact<T>(xs: seq<T>, size: nat)
    requires size > 0 && |xs| % size == 0
    ensures forall k :: 0 <= k < |Chunk(xs, size)| ==> |Chunk(xs, size)[k]| == size
    decreases |xs|
  {
    if xs != [] && |xs| > size {
      DivModStep(|xs| - size, size);
      ChunkExact(xs[size..], size);
      var rest := Chunk(xs[size..], size);
      assert forall k :: 1 <= k < |Chunk(xs, size)| ==> Chunk(xs, size)[k] == rest[k - 1];
    } else if xs != [] {
      assert |xs| == size;
    }
  }

  lemma {:induction false} ChunkAppend<T>(xs: seq<T>, ys: seq<T>, size: nat)
    requires size > 0 && |xs| % size == 0
    ensures Chunk(xs + ys, size) == Chunk(xs, size) + Chunk(ys, size)
    decreases |xs|
  {
    if xs != [] {
      assert (xs + ys)[..size] == xs[..size];
      if |xs| == size {
        assert xs[..size] == xs && (xs + ys)[size..] == ys;
        assert Chunk(xs, size) == [xs];
        if ys == [] {
          assert xs + ys == xs;
        }
      } else {
        DivModStep(|xs| - size, size);
        assert (xs + ys)[size..] == xs[size..] + ys;
        ChunkAppend(xs[size..], ys, size);
      }
    } else {
      assert xs + ys == ys;
    }
  }

  lemma {:induction false} FlattenBulk(cs: seq<seq<Record>>)
    ensures Flatten(BulkBatches(cs)) == BulkBatch(Flatten(cs))
    decreases |cs|
  {
    if cs != [] {
      FlattenBulk(cs[1..]);
      assert BulkBatches(cs)[1..] == BulkBatches(cs[1..]);
      assert BulkBatch(cs[0] + Flatten(cs[1..])) == BulkBatch(cs[0]) + BulkBatch(Flatten(cs[1..]));
    }
  }

  /** What a run of `__find_in_batches` yields when it does not raise. */
  ghost function Export(all: seq<Record>, b: int): seq<seq<BulkAction>>
    requires b != 0 || all == []
  {
    if all == [] then [] else BulkBatches(Chunk(all, Abs(b)))
  }

  /**
   * The yielded batches hold every record once, in enumeration order, as
   * bulk actions; there are ceil(N / |b|) of them, none empty, all but the
   * last exactly |b| long, and all of them when |b| divides N.
   */
  lemma ExportProperties(all: seq<Record>, b: int)
    requires b != 0
    ensures var out, size := Export(all, b), Abs(b);
      && Flatten(out) == BulkBatch(all)
      && |out| == (|all| + size - 1) / size
      && (forall k :: 0 <= k < |out| ==> 1 <= |out[k]| <= size)
      && (forall k :: 0 <= k < |out| - 1 ==> |out[k]| == size)
      && (|all| % size == 0 ==> forall k :: 0 <= k < |out| ==> |out[k]| == size)
  {
    var size := Abs(b);
    var cs := Chunk(all, size);
    ChunkIsChunking(all, size);
    ChunkCount(all, size);
    FlattenBulk(cs);
    if |all| % size == 0 {
      ChunkExact(all, size);
    }
    if all == [] {
      assert (size - 1) / size == 0;
    }
  }

  /** 2500 records with the default batch size give batches of 1000, 1000 and 500. */
  lemma DefaultBatchExample(all: seq<Record>)
    requires |all| == 2500
    ensures var out := Export(all, BatchSize(None));
      |out| == 3 && |out[0]| == 1000 && |out[1]| == 1000 && |out[2]| == 500
  {
    ExportProperties(all, 1000);
    var out := Export(all, 1000);
    assert |Flatten(out)| == |all|;
    assert Flatten(out) == out[0] + out[1] + out[2] by {
      assert out[1..][1..] == [out[2]];
      assert Flatten([out[2]]) == out[2] + Flatten([]);
      assert Flatten(out[1..]) == out[1] + Flatten([out[2]]);
    }
  }

  lemma RemainderZeroAtSize(n: nat, b: int)
    requires b != 0 && 1 <= n <= Abs(b)
    ensures n % b == 0 <==> n == Abs(b)
  {
  }

  lemma BulkBatchesAppend(cs: seq<seq<Record>>, ds: seq<seq<Record>>)
    ensures BulkBatches(cs + ds) == BulkBatches(cs) + BulkBatches(ds)
  {
  }

  /** A full buffer at a multiple of the size closes one more chunk. */
  lemma BatchStep(all: seq<Record>, done: nat, size: nat)
    requires size > 0 && done % size == 0 && done + size <= |all|
    ensures (done + size) % size == 0
    ensures BulkBatches(Chunk(all[..done + size], size))
         == BulkBatches(Chunk(all[..done], size)) + [BulkBatch(all[done..done + size])]
  {
    DivModStep(done, size);
    var chunk := all[done..done + size];
    assert all[..done + size] == all[..done] + chunk;
    ChunkAppend(all[..done], chunk, size);
    assert Chunk(chunk, size) == [chunk];
    BulkBatchesAppend(Chunk(all[..done], size), [chunk]);
  }

  /** What is left in the buffer after the walk is the last, short, chunk. */
  lemma TailStep(all: seq<Record>, done: nat, size: nat)
    requires size > 0 && done % size == 0 && done <= |all| && |all| - done < size
    ensures BulkBatches(Chunk(all, size))
         == BulkBatches(Chunk(all[..done], size)) + (if done < |all| then [BulkBatch(all[done..])] else [])
  {
    var rest := all[done..];
    assert all == all[..done] + rest;
    ChunkAppend(all[..done], rest, size);
    if rest == [] {
      assert Chunk(rest, size) == [];
    } else {
      assert Chunk(rest, size) == [rest];
    }
    BulkBatchesAppend(Chunk(all[..done], size), Chunk(rest, size));
  }

  /**
   * `__find_in_batches`. The caller's block is modelled by the sequence of
   * batches it receives, in order.
   */
  method FindInBatches(all: seq<Record>, batchSize: Option<int>)
    returns (outcome: ImportOutcome, yielded: seq<seq<BulkAction>>)
    ensures outcome == ZeroDivisionError <==> BatchSize(batchSize) == 0 && all != []
    ensures outcome == ZeroDivisionError ==> yielded == []
    ensures outcome == Completed ==> yielded == Export(all, BatchSize(batchSize))
  {
    var b := BatchSize(batchSize);
    var items: seq<Record> := [];
    yielded := [];
    outcome := Completed;
    var i := 0;
    while i < |all|
      invariant 0 <= |items| <= i <= |all|
      invariant items == all[i - |items|..i]
      invariant b == 0 ==> i == 0 && yielded == []
      invariant b != 0 ==> |items| < Abs(b) && (i - |items|) % Abs(b) == 0
      invariant b != 0 ==> yielded == BulkBatches(Chunk(all[..i - |items|], Abs(b)))
    {
      items := items + [all[i]];
      if b == 0 {
        // taking the remainder by a zero batch size raises
        outcome := ZeroDivisionError;
        return;
      }
      RemainderZeroAtSize(|items|, b);
      if |items| % b == 0 {
        ghost var done := i + 1 - |items|;
        BatchStep(all, done, Abs(b));
        assert done + Abs(b) == i + 1 && all[done..i + 1] == items;
        yielded := yielded + [BulkBatch(items)];
        items := [];
      }
      i := i + 1;
    }
    if b != 0 {
      TailStep(all, |all| - |items|, Abs(b));
      assert all[|all| - |items|..] == items;
    }
    if items != [] {
      yielded := yielded + [BulkBatch(items)];
    }
  }
}
