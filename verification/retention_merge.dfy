/**
 * `adguardhome_logsync/utils/querylog_merge.py`: the merge with a retention
 * cutoff. Every shard is ingested with chunk size 10000 into one shared
 * `SortedList`; a line is dropped when it is blank, when `orjson.loads`
 * rejects it, or when its timestamp lies before `active_time`; the sorted
 * payloads are then written to the output, each followed by b"\n".
 *
 * `orjson.loads` and `datetime.fromisoformat(t).timestamp()` are parameters:
 * decode gives the decoded value or None where `JSONDecodeError` is raised,
 * epoch gives the instant in seconds or None where `fromisoformat` raises.
 */
module RetentionMerge {
  import opened Common
  import opened Bytes
  import opened Records
  import opened SortedLists
  import opened Ingest
  import opened Gathering

  /** The `chunk_size=10000` every ingestor is started with. */
  const ChunkSize := 10000

  /**
   * The per-line filter of `merge_querylog_streaming`. A line that raises
   * anything but `JSONDecodeError` is Fatal: a value without a "T" lookup,
   * or a "T" that `fromisoformat` rejects. A record is kept when its
   * instant is not before activeTime; it is the verbatim "T" string paired
   * with the stripped line.
   */
  function Classify(line: seq<byte>, decode: seq<byte> -> Option<Json>, epoch: string -> Option<real>,
                    activeTime: real): (v: Verdict)
    ensures LineKey(line, decode).None? ==> v == Skip
    ensures v.Fatal? <==> LineKey(line, decode).Some?
                          && (LineKey(line, decode).value.Failure? || epoch(LineKey(line, decode).value.value).None?)
    ensures v.Fatal? && LineKey(line, decode).value.Failure? ==> v.reason == LineKey(line, decode).value.error
    ensures v.Fatal? && LineKey(line, decode).value.Success? ==> v.reason == BadTimestamp
    ensures LineKey(line, decode).Some? && LineKey(line, decode).value.Success?
            && epoch(LineKey(line, decode).value.value).Some?
            ==> (v.Accept? <==> activeTime <= epoch(LineKey(line, decode).value.value).value)
    ensures v.Accept? ==> v.record.payload == Strip(line) && v.record.payload != [] && Trimmed(v.record.payload)
                          && LineKey(line, decode) == Some(Success(v.record.key))
                          && epoch(v.record.key).Some? && activeTime <= epoch(v.record.key).value
  {
    var s := Strip(line);
    if s == [] then Skip
    else match decode(s)
      case None => Skip
      case Some(j) =>
        match TimestampOf(j)
        case Failure(e) => Fatal(e)
        case Success(t) =>
          match epoch(t)
          case None => Fatal(BadTimestamp)
          case Some(secs) => if secs < activeTime then Skip else Accept(LogRecord(t, s))
  }

  /** The filter every ingestor of one merge runs. */
  function Classifier(decode: seq<byte> -> Option<Json>, epoch: string -> Option<real>,
                      activeTime: real): seq<byte> -> Verdict
  {
    line => Classify(line, decode, epoch, activeTime)
  }

  /** The filter only looks at the stripped line. */
  lemma {:induction false} ClassifyStripped(line: seq<byte>, decode: seq<byte> -> Option<Json>,
                                            epoch: string -> Option<real>, activeTime: real)
    ensures Classify(Strip(line), decode, epoch, activeTime) == Classify(line, decode, epoch, activeTime)
  {
    StripIdempotent(line);
  }

  /** A kept record, written out as a line, is read back as the same record. */
  lemma {:induction false} Reread(line: seq<byte>, decode: seq<byte> -> Option<Json>,
                                  epoch: string -> Option<real>, activeTime: real)
    requires IsRawLine(line) && Classify(line, decode, epoch, activeTime).Accept?
    ensures Rereads(Classifier(decode, epoch, activeTime), Classify(line, decode, epoch, activeTime).record)
  {
    var p := Strip(line);
    StripRawLine(line);
    ClassifyStripped(line, decode, epoch, activeTime);
    StripTerminated(p);
    ClassifyStripped(Terminate(p), decode, epoch, activeTime);
  }

  /** The bytes written for the payloads ps: each one followed by b"\n". */
  function Terminated(ps: seq<seq<byte>>): seq<byte>
  {
    Flatten(Map(Terminate, ps))
  }

  lemma {:induction false} TerminatedSnoc(ps: seq<seq<byte>>, p: seq<byte>)
    ensures Terminated(ps + [p]) == Terminated(ps) + p + [NL]
  {
    MapAppend(Terminate, ps, [p]);
    FlattenAppend(Map(Terminate, ps), [Terminate(p)]);
    assert [Terminate(p)][1..] == [];
    assert Map(Terminate, [p]) == [Terminate(p)];
    assert Flatten([Terminate(p)]) == p + [NL];
  }

  /**
   * Read back line by line, the output holds one line per payload, in
   * order, each the payload and exactly one b"\n".
   */
  lemma {:induction false} LinesOfTerminated(ps: seq<seq<byte>>)
    requires forall i :: 0 <= i < |ps| ==> NL !in ps[i]
    ensures |Lines(Terminated(ps))| == |ps|
    ensures forall i :: 0 <= i < |ps| ==> Lines(Terminated(ps))[i] == Terminate(ps[i])
  {
    if ps != [] {
      assert Map(Terminate, ps)[1..] == Map(Terminate, ps[1..]);
      assert Terminated(ps) == ps[0] + [NL] + Terminated(ps[1..]);
      LinesOfTerminated(ps[1..]);
      LinesCons(ps[0], Terminated(ps[1..]));
    }
  }

  /**
   * The output loop: `full_querylogs[i][1] + b"\n"` written for every index
   * i in turn.
   */
  method WriteMergedLog(acc: SortedList) returns (out: seq<byte>)
    ensures out == Terminated(Payloads(acc.items))
  {
    out := [];
    var i := 0;
    while i < |acc.items|
      invariant 0 <= i <= |acc.items|
      invariant out == Terminated(Payloads(acc.items[..i]))
    {
      var payload := acc.items[i].payload;
      assert Payloads(acc.items[..i + 1]) == Payloads(acc.items[..i]) + [payload];
      TerminatedSnoc(Payloads(acc.items[..i]), payload);
      out := out + payload + [NL];
      i := i + 1;
    }
    assert acc.items[..i] == acc.items;
  }

  /**
   * What a merge comes to: the exception of the first shard in list order
   * that raises, otherwise the payloads of every kept record in ascending
   * `(T, payload)` order, each followed by b"\n".
   */
  function MergedLog(shards: seq<seq<byte>>, decode: seq<byte> -> Option<Json>,
                     epoch: string -> Option<real>, activeTime: real): Result<seq<byte>, FatalReason>
  {
    match Gather(Outcomes(shards, Classifier(decode, epoch, activeTime)))
    case Failure(e) => Failure(e)
    case Success(rs) => Success(Terminated(Payloads(Sort(rs))))
  }

  /**
   * Any sorted arrangement of the gathered records, written out payload by
   * payload, is the merged log.
   */
  lemma {:induction false} MergedLogIs(shards: seq<seq<byte>>, decode: seq<byte> -> Option<Json>,
                                       epoch: string -> Option<real>, activeTime: real, t: seq<LogRecord>)
    requires Gather(Outcomes(shards, Classifier(decode, epoch, activeTime))).Success?
    requires Sorted(t) && multiset(t) == multiset(Gather(Outcomes(shards, Classifier(decode, epoch, activeTime))).value)
    ensures MergedLog(shards, decode, epoch, activeTime) == Success(Terminated(Payloads(t)))
  {
    SortCharacterised(Gather(Outcomes(shards, Classifier(decode, epoch, activeTime))).value, t);
  }

  /**
   * `merge_querylogs`: one ingestor per shard into a fresh `SortedList`,
   * then the output loop. When an ingestor raises, `asyncio.gather` raises
   * before the output is opened, so nothing is written.
   */
  method MergeQuerylogs(shards: seq<seq<byte>>, decode: seq<byte> -> Option<Json>,
                        epoch: string -> Option<real>, activeTime: real)
    returns (r: Result<seq<byte>, FatalReason>)
    ensures r == MergedLog(shards, decode, epoch, activeTime)
  {
    var acc := new SortedList();
    var fatal := GatherInto(acc, shards, ChunkSize, Classifier(decode, epoch, activeTime));
    if fatal.Some? {
      return Failure(fatal.value);
    }
    ghost var rs := Gather(Outcomes(shards, Classifier(decode, epoch, activeTime))).value;
    assert [] + rs == rs;
    var out := WriteMergedLog(acc);
    MergedLogOf(shards, decode, epoch, activeTime);
    return Success(out);
  }

  /** The merge fails exactly when some line of some shard raises. */
  lemma {:induction false} MergeFails(shards: seq<seq<byte>>, decode: seq<byte> -> Option<Json>,
                                      epoch: string -> Option<real>, activeTime: real)
    ensures MergedLog(shards, decode, epoch, activeTime).Failure? <==>
              exists i, j :: 0 <= i < |shards| && 0 <= j < |Lines(shards[i])|
                             && Classify(Lines(shards[i])[j], decode, epoch, activeTime).Fatal?
  {
    var classify := Classifier(decode, epoch, activeTime);
    var outcomes := Outcomes(shards, classify);
    GatherSucceeds(outcomes);
    if MergedLog(shards, decode, epoch, activeTime).Failure? {
      var i :| 0 <= i < |outcomes| && !outcomes[i].Success?;
      assert outcomes[i] == ShardOutcome(shards[i], classify);
      var j :| 0 <= j < |Lines(shards[i])| && classify(Lines(shards[i])[j]).Fatal?;
      assert Classify(Lines(shards[i])[j], decode, epoch, activeTime).Fatal?;
    } else {
      forall i, j | 0 <= i < |shards| && 0 <= j < |Lines(shards[i])|
        ensures !Classify(Lines(shards[i])[j], decode, epoch, activeTime).Fatal?
      {
        assert outcomes[i] == ShardOutcome(shards[i], classify);
        assert !classify(Lines(shards[i])[j]).Fatal?;
      }
    }
  }

  /** A successful merge is the gathered records, sorted and written out. */
  lemma {:induction false} MergedLogOf(shards: seq<seq<byte>>, decode: seq<byte> -> Option<Json>,
                                       epoch: string -> Option<real>, activeTime: real)
    ensures MergedLog(shards, decode, epoch, activeTime).Success? <==>
              Gather(Outcomes(shards, Classifier(decode, epoch, activeTime))).Success?
    ensures MergedLog(shards, decode, epoch, activeTime).Success? ==>
              MergedLog(shards, decode, epoch, activeTime).value
              == Terminated(Payloads(Sort(Gather(Outcomes(shards, Classifier(decode, epoch, activeTime))).value)))
  {
  }

  /** Instant of r's timestamp is not before activeTime. */
  ghost predicate Retained(epoch: string -> Option<real>, activeTime: real, r: LogRecord)
  {
    epoch(r.key).Some? && activeTime <= epoch(r.key).value
  }

  /** Every gathered record is retained and rereads as itself. */
  lemma {:induction false} KeptRecords(shards: seq<seq<byte>>, decode: seq<byte> -> Option<Json>,
                                       epoch: string -> Option<real>, activeTime: real)
    requires Gather(Outcomes(shards, Classifier(decode, epoch, activeTime))).Success?
    ensures forall r :: r in Gather(Outcomes(shards, Classifier(decode, epoch, activeTime))).value ==>
              Rereads(Classifier(decode, epoch, activeTime), r) && Retained(epoch, activeTime, r)
  {
    var classify := Classifier(decode, epoch, activeTime);
    var P := r => Rereads(classify, r) && Retained(epoch, activeTime, r);
    forall l | IsRawLine(l) && classify(l).Accept? ensures P(classify(l).record) {
      Reread(l, decode, epoch, activeTime);
    }
    GatherKeeps(shards, classify, P);
  }

  /**
   * A successful merge writes one line per kept record, in ascending
   * `(T, payload)` order with duplicates kept, and every record written is
   * at or after activeTime.
   */
  lemma {:induction false} MergedOutput(shards: seq<seq<byte>>, decode: seq<byte> -> Option<Json>,
                                        epoch: string -> Option<real>, activeTime: real)
    requires MergedLog(shards, decode, epoch, activeTime).Success?
    ensures var rs := Gather(Outcomes(shards, Classifier(decode, epoch, activeTime))).value;
            var items := Sort(rs);
            var out := MergedLog(shards, decode, epoch, activeTime).value;
            Sorted(items) && multiset(items) == multiset(rs)
            && |Lines(out)| == |items| && (out == [] <==> items == [])
            && (forall i :: 0 <= i < |items| ==> Lines(out)[i] == Terminate(items[i].payload))
            && (forall i :: 0 <= i < |items| ==> Retained(epoch, activeTime, items[i]))
  {
    var classify := Classifier(decode, epoch, activeTime);
    MergedLogOf(shards, decode, epoch, activeTime);
    var rs := Gather(Outcomes(shards, classify)).value;
    KeptRecords(shards, decode, epoch, activeTime);
    SortKeeps(rs, r => Rereads(classify, r) && Retained(epoch, activeTime, r));
    SortPermutes(rs);
    LinesOfTerminated(Payloads(Sort(rs)));
  }

  /**
   * Merging a merged log on its own gives it back unchanged: every line
   * rereads as its record, and the records are already in order.
   */
  lemma {:induction false} MergeIdempotent(shards: seq<seq<byte>>, decode: seq<byte> -> Option<Json>,
                                           epoch: string -> Option<real>, activeTime: real)
    requires MergedLog(shards, decode, epoch, activeTime).Success?
    ensures var out := MergedLog(shards, decode, epoch, activeTime).value;
            MergedLog([out], decode, epoch, activeTime) == Success(out)
  {
    var classify := Classifier(decode, epoch, activeTime);
    MergedOutput(shards, decode, epoch, activeTime);
    var items := Sort(Gather(Outcomes(shards, classify)).value);
    var out := MergedLog(shards, decode, epoch, activeTime).value;
    KeptRecords(shards, decode, epoch, activeTime);
    SortKeeps(Gather(Outcomes(shards, classify)).value, r => Rereads(classify, r));
    assert forall i :: 0 <= i < |items| ==> classify(Lines(out)[i]) == Accept(items[i]);
    GatherExactly(out, items, classify);
    SortSorted(items);
    MergedLogOf([out], decode, epoch, activeTime);
  }

  /**
   * The order of the shard paths does not change the result: a
   * rearrangement of the shards merges to the same bytes (or fails as well).
   */
  lemma {:induction false} ShardOrder(s1: seq<seq<byte>>, s2: seq<seq<byte>>, decode: seq<byte> -> Option<Json>,
                                      epoch: string -> Option<real>, activeTime: real)
    requires multiset(s1) == multiset(s2)
    ensures MergedLog(s1, decode, epoch, activeTime).Failure? <==> MergedLog(s2, decode, epoch, activeTime).Failure?
    ensures MergedLog(s1, decode, epoch, activeTime).Success? ==>
              MergedLog(s1, decode, epoch, activeTime) == MergedLog(s2, decode, epoch, activeTime)
  {
    ShardOrderIrrelevant(s1, s2, Classifier(decode, epoch, activeTime));
  }
}
