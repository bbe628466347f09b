/**
 * `utils/querylog_merge.py`: the merge without retention. Every shard is
 * ingested with chunk size 10000 into one shared `SortedList`; a line is
 * dropped only when it is blank or `orjson.loads` rejects it; the result is
 * the sorted payloads joined with b"\n".
 *
 * `orjson.loads` is a parameter: decode gives the decoded value, or None
 * where `JSONDecodeError` is raised.
 */
module PlainMerge {
  import opened Common
  import opened Bytes
  import opened Records
  import opened SortedLists
  import opened Ingest
  import opened Gathering

  /** The default `chunk_size`, which is also the one `merge_querylogs` passes. */
  const ChunkSize := 10000

  /**
   * The per-line filter of `merge_querylog_streaming`: blank and undecodable
   * lines are skipped, a failing "T" lookup raises, and every other line is
   * kept as its verbatim "T" string paired with the stripped line.
   */
  function Classify(line: seq<byte>, decode: seq<byte> -> Option<Json>): (v: Verdict)
    ensures v == Skip <==> LineKey(line, decode).None?
    ensures v.Fatal? ==> LineKey(line, decode) == Some(Failure(v.reason))
    ensures v.Accept? ==> v.record.payload == Strip(line) && v.record.payload != [] && Trimmed(v.record.payload)
                          && LineKey(line, decode) == Some(Success(v.record.key))
  {
    var s := Strip(line);
    if s == [] then Skip
    else match decode(s)
      case None => Skip
      case Some(j) =>
        match TimestampOf(j)
        case Failure(e) => Fatal(e)
        case Success(t) => Accept(LogRecord(t, s))
  }

  /** The filter every ingestor of one merge runs. */
  function Classifier(decode: seq<byte> -> Option<Json>): seq<byte> -> Verdict
  {
    line => Classify(line, decode)
  }

  /** The filter only looks at the stripped line. */
  lemma {:induction false} ClassifyStripped(line: seq<byte>, decode: seq<byte> -> Option<Json>)
    ensures Classify(Strip(line), decode) == Classify(line, decode)
  {
    StripIdempotent(line);
  }

  /** A kept record, written out as a line, is read back as the same record. */
  lemma {:induction false} Reread(line: seq<byte>, decode: seq<byte> -> Option<Json>)
    requires IsRawLine(line) && Classify(line, decode).Accept?
    ensures Rereads(Classifier(decode), Classify(line, decode).record)
  {
    var p := Strip(line);
    StripRawLine(line);
    ClassifyStripped(line, decode);
    StripTerminated(p);
    ClassifyStripped(Terminate(p), decode);
  }

  /** `b"\n".join(ps)`. */
  function Join(ps: seq<seq<byte>>): seq<byte>
  {
    if ps == [] then []
    else if |ps| == 1 then ps[0]
    else ps[0] + [NL] + Join(ps[1..])
  }

  /**
   * `b"\n".join(ps)` followed by one more b"\n" is every payload followed by
   * b"\n", as the retention variant writes them.
   */
  lemma {:induction false} JoinThenNewline(ps: seq<seq<byte>>)
    requires ps != []
    ensures Join(ps) + [NL] == Flatten(Map(Terminate, ps))
  {
    assert Map(Terminate, ps)[1..] == Map(Terminate, ps[1..]);
    if |ps| == 1 {
      assert ps[1..] == [];
    } else {
      JoinThenNewline(ps[1..]);
    }
  }

  /**
   * Read back line by line, the joined payloads give one line per payload,
   * in order: each followed by b"\n" except the last, which has none.
   */
  lemma {:induction false} LinesOfJoin(ps: seq<seq<byte>>)
    requires forall i :: 0 <= i < |ps| ==> ps[i] != [] && NL !in ps[i]
    ensures |Lines(Join(ps))| == |ps|
    ensures forall i :: 0 <= i < |ps| - 1 ==> Lines(Join(ps))[i] == Terminate(ps[i])
    ensures ps != [] ==> Lines(Join(ps))[|ps| - 1] == ps[|ps| - 1]
  {
    if |ps| == 1 {
      LinesSingle(ps[0]);
    } else if |ps| > 1 {
      var rest := ps[1..];
      assert forall i :: 0 <= i < |rest| ==> rest[i] == ps[i + 1];
      LinesOfJoin(rest);
      LinesCons(ps[0], Join(rest));
      assert Lines(Join(ps)) == [Terminate(ps[0])] + Lines(Join(rest));
    }
  }

  /**
   * What a merge comes to: the exception of the first shard in list order
   * that raises, otherwise the payloads of every kept record in ascending
   * `(T, payload)` order joined with b"\n".
   */
  function MergedLog(shards: seq<seq<byte>>, decode: seq<byte> -> Option<Json>): Result<seq<byte>, FatalReason>
  {
    match Gather(Outcomes(shards, Classifier(decode)))
    case Failure(e) => Failure(e)
    case Success(rs) => Success(Join(Payloads(Sort(rs))))
  }

  /**
   * Any sorted arrangement of the gathered records, its payloads joined, is
   * the merged result.
   */
  lemma {:induction false} MergedLogIs(shards: seq<seq<byte>>, decode: seq<byte> -> Option<Json>, t: seq<LogRecord>)
    requires Gather(Outcomes(shards, Classifier(decode))).Success?
    requires Sorted(t) && multiset(t) == multiset(Gather(Outcomes(shards, Classifier(decode))).value)
    ensures MergedLog(shards, decode) == Success(Join(Payloads(t)))
  {
    SortCharacterised(Gather(Outcomes(shards, Classifier(decode))).value, t);
  }

  /**
   * `merge_querylogs`: one ingestor per shard into a fresh `SortedList`,
   * then the join of its payloads. When an ingestor raises, `asyncio.gather`
   * raises and there is no result.
   */
  method MergeQuerylogs(shards: seq<seq<byte>>, decode: seq<byte> -> Option<Json>)
    returns (r: Result<seq<byte>, FatalReason>)
    ensures r == MergedLog(shards, decode)
  {
    var acc := new SortedList();
    var fatal := GatherInto(acc, shards, ChunkSize, Classifier(decode));
    if fatal.Some? {
      return Failure(fatal.value);
    }
    ghost var rs := Gather(Outcomes(shards, Classifier(decode))).value;
    assert [] + rs == rs;
    MergedLogOf(shards, decode);
    return Success(Join(Payloads(acc.items)));
  }

  /** A successful merge is the gathered records, sorted and joined. */
  lemma {:induction false} MergedLogOf(shards: seq<seq<byte>>, decode: seq<byte> -> Option<Json>)
    ensures MergedLog(shards, decode).Success? <==> Gather(Outcomes(shards, Classifier(decode))).Success?
    ensures MergedLog(shards, decode).Success? ==>
              MergedLog(shards, decode).value == Join(Payloads(Sort(Gather(Outcomes(shards, Classifier(decode))).value)))
  {
  }

  /** The merge fails exactly when some line of some shard raises. */
  lemma {:induction false} MergeFails(shards: seq<seq<byte>>, decode: seq<byte> -> Option<Json>)
    ensures MergedLog(shards, decode).Failure? <==>
              exists i, j :: 0 <= i < |shards| && 0 <= j < |Lines(shards[i])|
                             && Classify(Lines(shards[i])[j], decode).Fatal?
  {
    var classify := Classifier(decode);
    var outcomes := Outcomes(shards, classify);
    GatherSucceeds(outcomes);
    if MergedLog(shards, decode).Failure? {
      var i :| 0 <= i < |outcomes| && !outcomes[i].Success?;
      assert outcomes[i] == ShardOutcome(shards[i], classify);
      var j :| 0 <= j < |Lines(shards[i])| && classify(Lines(shards[i])[j]).Fatal?;
      assert Classify(Lines(shards[i])[j], decode).Fatal?;
    } else {
      forall i, j | 0 <= i < |shards| && 0 <= j < |Lines(shards[i])|
        ensures !Classify(Lines(shards[i])[j], decode).Fatal?
      {
        assert outcomes[i] == ShardOutcome(shards[i], classify);
        assert !classify(Lines(shards[i])[j]).Fatal?;
      }
    }
  }

  /** Every gathered record rereads as itself. */
  lemma {:induction false} KeptRecords(shards: seq<seq<byte>>, decode: seq<byte> -> Option<Json>)
    requires Gather(Outcomes(shards, Classifier(decode))).Success?
    ensures forall r :: r in Gather(Outcomes(shards, Classifier(decode))).value ==> Rereads(Classifier(decode), r)
  {
    var classify := Classifier(decode);
    forall l | IsRawLine(l) && classify(l).Accept? ensures Rereads(classify, classify(l).record) {
      Reread(l, decode);
    }
    GatherKeeps(shards, classify, r => Rereads(classify, r));
  }

  /**
   * A successful merge gives one line per kept record, in ascending
   * `(T, payload)` order with duplicates kept, separated by b"\n" with none
   * after the last; with no records at all the result is empty.
   */
  lemma {:induction false} MergedOutput(shards: seq<seq<byte>>, decode: seq<byte> -> Option<Json>)
    requires MergedLog(shards, decode).Success?
    ensures var rs := Gather(Outcomes(shards, Classifier(decode))).value;
            var items := Sort(rs);
            var out := MergedLog(shards, decode).value;
            Sorted(items) && multiset(items) == multiset(rs)
            && |Lines(out)| == |items| && (out == [] <==> items == [])
            && (forall i :: 0 <= i < |items| - 1 ==> Lines(out)[i] == Terminate(items[i].payload))
            && (items != [] ==> Lines(out)[|items| - 1] == items[|items| - 1].payload)
  {
    var classify := Classifier(decode);
    MergedLogOf(shards, decode);
    var rs := Gather(Outcomes(shards, classify)).value;
    KeptRecords(shards, decode);
    SortKeeps(rs, r => Rereads(classify, r));
    SortPermutes(rs);
    LinesOfJoin(Payloads(Sort(rs)));
  }

  /**
   * Merging a merged result on its own gives it back unchanged: every line
   * rereads as its record, and the records are already in order.
   */
  lemma {:induction false} MergeIdempotent(shards: seq<seq<byte>>, decode: seq<byte> -> Option<Json>)
    requires MergedLog(shards, decode).Success?
    ensures MergedLog([MergedLog(shards, decode).value], decode) == MergedLog(shards, decode)
  {
    var classify := Classifier(decode);
    MergedOutput(shards, decode);
    var items := Sort(Gather(Outcomes(shards, classify)).value);
    var out := MergedLog(shards, decode).value;
    KeptRecords(shards, decode);
    SortKeeps(Gather(Outcomes(shards, classify)).value, r => Rereads(classify, r));
    forall i | 0 <= i < |items| ensures classify(Lines(out)[i]) == Accept(items[i]) {
      if i == |items| - 1 {
        assert Lines(out)[i] == items[i].payload;
      }
    }
    GatherExactly(out, items, classify);
    SortSorted(items);
    MergedLogOf([out], decode);
  }

  /**
   * The order of the shard paths does not change the result: a
   * rearrangement of the shards merges to the same bytes (or fails as well).
   */
  lemma {:induction false} ShardOrder(s1: seq<seq<byte>>, s2: seq<seq<byte>>, decode: seq<byte> -> Option<Json>)
    requires multiset(s1) == multiset(s2)
    ensures MergedLog(s1, decode).Failure? <==> MergedLog(s2, decode).Failure?
    ensures MergedLog(s1, decode).Success? ==> MergedLog(s1, decode) == MergedLog(s2, decode)
  {
    ShardOrderIrrelevant(s1, s2, Classifier(decode));
  }
}
