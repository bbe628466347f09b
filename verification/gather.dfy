/**
 * The coordinator step shared by both merge variants: one ingestor per shard,
 * all writing into one `SortedList`, awaited together with `asyncio.gather`.
 * The ingestors are modelled as running one after the other in list order;
 * the lemmas at the end show that the order of the shards does not change
 * the records gathered (`SortedLists.BatchOrderIrrelevant` covers the way
 * their batches interleave).
 */
module Gathering {
  import opened Common
  import opened Bytes
  import opened Records
  import opened SortedLists
  import opened Ingest

  /** What one ingestor comes to: the exception it raises, or the records it contributes. */
  type Outcome = Result<seq<LogRecord>, FatalReason>

  /** The outcome of the ingestor of one shard, given the shard's content. */
  function ShardOutcome(shard: seq<byte>, classify: seq<byte> -> Verdict): (r: Outcome)
    ensures r.Failure? <==> exists j :: 0 <= j < |Lines(shard)| && classify(Lines(shard)[j]).Fatal?
  {
    var ls := Lines(shard);
    match ShardFatal(ls, classify)
    case Some(reason) => Failure(reason)
    case None => Success(Accepted(ls, classify))
  }

  /** The outcomes of the ingestors of the shards, in list order. */
  function Outcomes(shards: seq<seq<byte>>, classify: seq<byte> -> Verdict): seq<Outcome>
  {
    Map(shard => ShardOutcome(shard, classify), shards)
  }

  /** Gather of pre followed by the rest. */
  function Prepend(pre: seq<LogRecord>, g: Outcome): Outcome
  {
    match g
    case Failure(e) => Failure(e)
    case Success(rs) => Success(pre + rs)
  }

  /**
   * What awaiting `asyncio.gather` over the ingestors amounts to: the first
   * exception in list order, otherwise the records of every ingestor.
   */
  function Gather(outcomes: seq<Outcome>): Outcome
  {
    if outcomes == [] then Success([])
    else
      match outcomes[0]
      case Failure(e) => Failure(e)
      case Success(rs) => Prepend(rs, Gather(outcomes[1..]))
  }

  /** The records of one outcome; a failure has none. */
  function OutcomeRecords(g: Outcome): seq<LogRecord>
  {
    if g.Success? then g.value else []
  }

  /** A successful gather holds the records of every ingestor, in list order. */
  lemma {:induction false} GatherConcatenates(outcomes: seq<Outcome>)
    ensures Gather(outcomes).Success? ==> Gather(outcomes).value == Flatten(Map(OutcomeRecords, outcomes))
  {
    if outcomes != [] {
      GatherConcatenates(outcomes[1..]);
      assert Map(OutcomeRecords, outcomes)[1..] == Map(OutcomeRecords, outcomes[1..]);
    }
  }

  /** The gather succeeds exactly when every ingestor does. */
  lemma {:induction false} GatherSucceeds(outcomes: seq<Outcome>)
    ensures Gather(outcomes).Success? <==> forall i :: 0 <= i < |outcomes| ==> outcomes[i].Success?
  {
    if outcomes != [] {
      GatherSucceeds(outcomes[1..]);
      assert forall i :: 1 <= i < |outcomes| ==> outcomes[i] == outcomes[1..][i - 1];
    }
  }

  /** A failed gather reports the exception of the first ingestor in list order that raised. */
  lemma {:induction false} GatherFirstFailure(outcomes: seq<Outcome>)
    ensures var k := FirstIndex(outcomes, (o: Outcome) => o.Failure?);
            Gather(outcomes).Failure? ==> k < |outcomes| && Gather(outcomes).error == outcomes[k].error
  {
    if outcomes != [] && outcomes[0].Success? {
      GatherFirstFailure(outcomes[1..]);
    }
  }

  /** Prepending twice is prepending once. */
  lemma {:induction false} PrependPrepend(a: seq<LogRecord>, b: seq<LogRecord>, g: Outcome)
    ensures Prepend(a, Prepend(b, g)) == Prepend(a + b, g)
  {
    if g.Success? {
      assert a + (b + g.value) == a + b + g.value;
    }
  }

  /** Gathering a list of outcomes is gathering its two halves. */
  lemma {:induction false} GatherAppend(a: seq<Outcome>, b: seq<Outcome>)
    ensures Gather(a + b).Success? <==> Gather(a).Success? && Gather(b).Success?
    ensures Gather(a + b).Success? ==> Gather(a + b).value == Gather(a).value + Gather(b).value
  {
    if a == [] {
      assert a + b == b;
    } else {
      assert (a + b)[0] == a[0] && (a + b)[1..] == a[1..] + b;
      if a[0].Success? {
        GatherAppend(a[1..], b);
        var ra := a[0].value;
        if Gather(a + b).Success? {
          assert ra + (Gather(a[1..]).value + Gather(b).value)
              == ra + Gather(a[1..]).value + Gather(b).value;
        }
      }
    }
  }

  /** Taking the outcome at j out of the list. */
  lemma {:induction false} GatherRemove(o: seq<Outcome>, j: nat)
    requires j < |o|
    ensures Gather(o).Success? <==> o[j].Success? && Gather(o[..j] + o[j + 1..]).Success?
    ensures Gather(o).Success? ==>
              multiset(Gather(o).value) == multiset(o[j].value) + multiset(Gather(o[..j] + o[j + 1..]).value)
  {
    var pre, post := o[..j], o[j + 1..];
    assert o == pre + ([o[j]] + post);
    GatherAppend(pre, [o[j]] + post);
    GatherAppend([o[j]], post);
    GatherAppend(pre, post);
    assert [o[j]][1..] == [];
  }

  /**
   * Rearranging the outcomes changes neither whether the gather succeeds nor
   * the records it gathers, only their order (and, on failure, which
   * exception is reported first).
   */
  lemma {:induction false} GatherReorder(o1: seq<Outcome>, o2: seq<Outcome>)
    requires multiset(o1) == multiset(o2)
    ensures Gather(o1).Success? <==> Gather(o2).Success?
    ensures Gather(o1).Success? ==> multiset(Gather(o1).value) == multiset(Gather(o2).value)
    decreases |o1|
  {
    if o1 == [] {
      assert |o2| == |multiset(o2)| == 0;
    } else {
      var x := o1[0];
      assert x in multiset(o2);
      var j :| 0 <= j < |o2| && o2[j] == x;
      var rest := o2[..j] + o2[j + 1..];
      MultisetRemove(o1, 0);
      MultisetRemove(o2, j);
      assert o1[..0] + o1[1..] == o1[1..];
      MultisetCancel(multiset(o1[1..]), multiset(rest), x);
      GatherReorder(o1[1..], rest);
      GatherRemove(o1, 0);
      GatherRemove(o2, j);
    }
  }

  /**
   * `merge_querylogs`' `asyncio.gather(...)` over one ingestor per shard, all
   * writing into acc, run one after the other in list order and stopped at
   * the first that raises. The result is the gather's exception, if any; on
   * success acc holds its old records and every gathered record.
   */
  method GatherInto(acc: SortedList, shards: seq<seq<byte>>, chunkSize: int,
                    classify: seq<byte> -> Verdict)
    returns (fatal: Option<FatalReason>)
    requires acc.Valid()
    modifies acc
    ensures fatal.None? <==> Gather(Outcomes(shards, classify)).Success?
    ensures fatal.Some? ==> fatal.value == Gather(Outcomes(shards, classify)).error
    ensures fatal.None? ==> acc.Valid() && acc.items == Sort(old(acc.items) + Gather(Outcomes(shards, classify)).value)
  {
    ghost var outcomes := Outcomes(shards, classify);
    ghost var start := acc.items;
    ghost var pre: seq<LogRecord> := [];
    var i := 0;
    GatherStart(outcomes);
    assert start + pre == acc.items;
    SortSorted(acc.items);
    while i < |shards|
      invariant 0 <= i <= |shards|
      invariant Gather(outcomes) == Prepend(pre, Gather(outcomes[i..]))
      invariant acc.items == Sort(start + pre)
    {
      ghost var got;
      fatal, got := GatherShard(acc, start, pre, shards, i, chunkSize, classify);
      GatherStep(outcomes, i);
      if fatal.Some? {
        return;
      }
      PrependPrepend(pre, got, Gather(outcomes[i + 1..]));
      pre := pre + got;
      i := i + 1;
    }
    GatherEnd(outcomes, pre);
    assert |outcomes| == i;
    SortedSort(start + pre);
    fatal := None;
  }

  lemma {:induction false} GatherStart(outcomes: seq<Outcome>)
    ensures Gather(outcomes) == Prepend([], Gather(outcomes[0..]))
  {
    assert outcomes[0..] == outcomes;
    if Gather(outcomes).Success? {
      assert [] + Gather(outcomes).value == Gather(outcomes).value;
    }
  }

  lemma {:induction false} GatherStep(outcomes: seq<Outcome>, i: nat)
    requires i < |outcomes|
    ensures Gather(outcomes[i..])
            == match outcomes[i]
               case Failure(e) => Failure(e)
               case Success(rs) => Prepend(rs, Gather(outcomes[i + 1..]))
  {
    assert outcomes[i..][0] == outcomes[i] && outcomes[i..][1..] == outcomes[i + 1..];
  }

  lemma {:induction false} GatherEnd(outcomes: seq<Outcome>, pre: seq<LogRecord>)
    ensures Prepend(pre, Gather(outcomes[|outcomes|..])) == Success(pre)
  {
    assert outcomes[|outcomes|..] == [];
    assert pre + [] == pre;
  }

  /** The ingestor of shard i, run against acc after those of the shards before it. */
  method GatherShard(acc: SortedList, ghost start: seq<LogRecord>, ghost pre: seq<LogRecord>,
                     shards: seq<seq<byte>>, i: nat, chunkSize: int, classify: seq<byte> -> Verdict)
    returns (fatal: Option<FatalReason>, ghost got: seq<LogRecord>)
    requires i < |shards|
    requires acc.items == Sort(start + pre)
    modifies acc
    ensures i < |Outcomes(shards, classify)|
    ensures fatal.Some? ==> Outcomes(shards, classify)[i] == Failure(fatal.value)
    ensures fatal.None? ==> Outcomes(shards, classify)[i] == Success(got)
    ensures fatal.None? ==> acc.items == Sort(start + (pre + got))
  {
    var ls := Lines(shards[i]);
    got := ShardAdded(ls, chunkSize, classify);
    SortMore(start, pre, got);
    fatal := IngestShard(acc, ls, chunkSize, classify);
  }

  /**
   * The order of the shard paths does not matter: any rearrangement of the
   * shards succeeds exactly when the original does, and the sorted contents
   * gathered, and with them the output, are the same.
   */
  lemma {:induction false} ShardOrderIrrelevant(s1: seq<seq<byte>>, s2: seq<seq<byte>>,
                                                classify: seq<byte> -> Verdict)
    requires multiset(s1) == multiset(s2)
    ensures Gather(Outcomes(s1, classify)).Success? <==> Gather(Outcomes(s2, classify)).Success?
    ensures Gather(Outcomes(s1, classify)).Success? ==>
              Sort(Gather(Outcomes(s1, classify)).value) == Sort(Gather(Outcomes(s2, classify)).value)
  {
    MapPermutes(shard => ShardOutcome(shard, classify), s1, s2);
    GatherReorder(Outcomes(s1, classify), Outcomes(s2, classify));
    if Gather(Outcomes(s1, classify)).Success? {
      SortDependsOnMultiset(Gather(Outcomes(s1, classify)).value, Gather(Outcomes(s2, classify)).value);
    }
  }

  /**
   * Written out as a line, with or without its b"\n", r's payload is read
   * back by the filter as r itself.
   */
  ghost predicate Rereads(classify: seq<byte> -> Verdict, r: LogRecord)
  {
    r.payload != [] && NL !in r.payload
    && classify(r.payload) == Accept(r) && classify(Terminate(r.payload)) == Accept(r)
  }

  /** A property every ingestor's records have holds of every gathered record. */
  lemma {:induction false} GatherAll(outcomes: seq<Outcome>, P: LogRecord -> bool)
    requires forall i, r :: 0 <= i < |outcomes| && outcomes[i].Success? && r in outcomes[i].value ==> P(r)
    ensures Gather(outcomes).Success? ==> forall r :: r in Gather(outcomes).value ==> P(r)
  {
    if outcomes != [] && outcomes[0].Success? {
      assert forall i :: 0 <= i < |outcomes| - 1 ==> outcomes[1..][i] == outcomes[i + 1];
      GatherAll(outcomes[1..], P);
    }
  }

  /**
   * A property of every record the filter accepts from a line holds of every
   * record the gather brings together.
   */
  lemma {:induction false} GatherKeeps(shards: seq<seq<byte>>, classify: seq<byte> -> Verdict, P: LogRecord -> bool)
    requires forall l :: IsRawLine(l) && classify(l).Accept? ==> P(classify(l).record)
    ensures Gather(Outcomes(shards, classify)).Success? ==>
              forall r :: r in Gather(Outcomes(shards, classify)).value ==> P(r)
  {
    var outcomes := Outcomes(shards, classify);
    forall i, r | 0 <= i < |outcomes| && outcomes[i].Success? && r in outcomes[i].value
      ensures P(r)
    {
      var ls := Lines(shards[i]);
      assert outcomes[i] == ShardOutcome(shards[i], classify);
      AcceptedKeeps(ls, classify, P);
    }
    GatherAll(outcomes, P);
  }

  /** One shard whose every line is accepted gathers exactly its records. */
  lemma {:induction false} GatherExactly(shard: seq<byte>, items: seq<LogRecord>, classify: seq<byte> -> Verdict)
    requires |Lines(shard)| == |items|
    requires forall i :: 0 <= i < |items| ==> classify(Lines(shard)[i]) == Accept(items[i])
    ensures Gather(Outcomes([shard], classify)) == Success(items)
  {
    AcceptedExactly(Lines(shard), items, classify);
    var outcomes := Outcomes([shard], classify);
    assert outcomes == [Success(items)];
    assert outcomes[1..] == [];
    assert items + [] == items;
  }
}
