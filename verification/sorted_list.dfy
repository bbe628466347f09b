/**
 * The shared accumulator: a `SortedList` of `(timestamp, payload)` tuples
 * that every shard ingestor updates in batches under one lock. Its
 * load-balanced sublists are not modelled; the contents are one sequence kept
 * in ascending order.
 */
module SortedLists {
  import opened Common
  import opened Records

  /**
   * Where `bisect_right` places x in the sorted s: after every record that
   * precedes x (equal records included), before every record that does not.
   */
  method BisectRight(s: seq<LogRecord>, x: LogRecord) returns (i: nat)
    requires Sorted(s)
    ensures i <= |s|
    ensures forall k :: 0 <= k < i ==> Precedes(s[k], x)
    ensures forall k :: i <= k < |s| ==> !Precedes(s[k], x)
  {
    var lo, hi := 0, |s|;
    while lo < hi
      invariant 0 <= lo <= hi <= |s|
      invariant forall k :: 0 <= k < lo ==> Precedes(s[k], x)
      invariant forall k :: hi <= k < |s| ==> !Precedes(s[k], x)
    {
      var mid := (lo + hi) / 2;
      if Precedes(s[mid], x) {
        forall k | 0 <= k < mid ensures Precedes(s[k], x) {
          PrecedesTransitive(s[k], s[mid], x);
        }
        lo := mid + 1;
      } else {
        forall k | mid < k < |s| ensures !Precedes(s[k], x) {
          if Precedes(s[k], x) {
            PrecedesTransitive(s[mid], s[k], x);
          }
        }
        hi := mid;
      }
    }
    i := lo;
  }

  /** Putting x at the position BisectRight finds keeps the sequence sorted. */
  lemma {:induction false} InsertAt(s: seq<LogRecord>, x: LogRecord, i: nat)
    requires Sorted(s) && i <= |s|
    requires forall k :: 0 <= k < i ==> Precedes(s[k], x)
    requires forall k :: i <= k < |s| ==> !Precedes(s[k], x)
    ensures Sorted(s[..i] + [x] + s[i..])
    ensures multiset(s[..i] + [x] + s[i..]) == multiset(s) + multiset{x}
  {
    var t := s[..i] + [x] + s[i..];
    forall a, b | 0 <= a < b < |t| ensures Precedes(t[a], t[b]) {
      if b < i {
        assert t[a] == s[a] && t[b] == s[b];
      } else if b == i {
        assert t[a] == s[a];
      } else if a == i {
        assert t[b] == s[b - 1];
        PrecedesTotal(s[b - 1], x);
      } else if a < i {
        assert t[a] == s[a] && t[b] == s[b - 1];
      } else {
        assert t[a] == s[a - 1] && t[b] == s[b - 1];
      }
    }
    assert s == s[..i] + s[i..];
  }

  class SortedList {
    /** The tuples held, in iteration order. */
    var items: seq<LogRecord>

    ghost predicate Valid()
      reads this
    {
      Sorted(items)
    }

    /** `SortedList()`: an empty list. */
    constructor ()
      ensures Valid() && items == []
    {
      items := [];
    }

    /**
     * `update(batch)`: adds every tuple of batch. The list stays sorted and
     * holds exactly its old tuples plus the batch, duplicates included.
     */
    method Update(batch: seq<LogRecord>)
      requires Valid()
      modifies this
      ensures Valid()
      ensures items == Sort(old(items) + batch)
    {
      var n := 0;
      while n < |batch|
        invariant 0 <= n <= |batch|
        invariant Sorted(items)
        invariant multiset(items) == multiset(old(items)) + multiset(batch[..n])
      {
        var i := BisectRight(items, batch[n]);
        InsertAt(items, batch[n], i);
        assert batch[..n + 1] == batch[..n] + [batch[n]];
        items := items[..i] + [batch[n]] + items[i..];
        n := n + 1;
      }
      assert batch[..n] == batch;
      SortPermutes(old(items) + batch);
      SortedUnique(items, Sort(old(items) + batch));
    }
  }

  /** The contents after successive `update` calls, one per batch, in the order given. */
  function ApplyBatches(s: seq<LogRecord>, batches: seq<seq<LogRecord>>): seq<LogRecord>
    decreases |batches|
  {
    if batches == [] then s else ApplyBatches(Sort(s + batches[0]), batches[1..])
  }

  /** Batched updates leave the sorted arrangement of all records together. */
  lemma {:induction false} ApplyBatchesSorts(s: seq<LogRecord>, batches: seq<seq<LogRecord>>)
    requires Sorted(s)
    ensures ApplyBatches(s, batches) == Sort(s + Flatten(batches))
    decreases |batches|
  {
    if batches == [] {
      assert s + Flatten(batches) == s;
      SortSorted(s);
    } else {
      var t := Sort(s + batches[0]);
      SortPermutes(s + batches[0]);
      ApplyBatchesSorts(t, batches[1..]);
      OneBatchThenRest(s, batches);
    }
  }

  lemma {:induction false} OneBatchThenRest(s: seq<LogRecord>, batches: seq<seq<LogRecord>>)
    requires batches != []
    ensures Sort(Sort(s + batches[0]) + Flatten(batches[1..])) == Sort(s + Flatten(batches))
  {
    var rest := Flatten(batches[1..]);
    assert Flatten(batches) == batches[0] + rest;
    assert s + batches[0] + rest == s + Flatten(batches);
    SortAppend(s + batches[0], rest);
  }

  /**
   * Under the lock each batch goes in whole, so concurrent ingestors can only
   * change the order in which whole batches arrive and how records are cut
   * into batches; neither changes the final contents.
   */
  lemma {:induction false} BatchOrderIrrelevant(s: seq<LogRecord>, b1: seq<seq<LogRecord>>, b2: seq<seq<LogRecord>>)
    requires Sorted(s)
    requires multiset(Flatten(b1)) == multiset(Flatten(b2))
    ensures ApplyBatches(s, b1) == ApplyBatches(s, b2)
  {
    ApplyBatchesSorts(s, b1);
    ApplyBatchesSorts(s, b2);
    SortDependsOnMultiset(s + Flatten(b1), s + Flatten(b2));
  }
}
