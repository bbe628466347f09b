/**
 * The shard ingestor shared by both merge variants: it streams the lines of
 * one shard through a per-line filter, buffers the accepted records and
 * flushes the buffer into the shared `SortedList` in chunks.
 * The per-line filter is the one place where the two variants differ, so it
 * is a parameter here.
 */
module Ingest {
  import opened Common
  import opened Bytes
  import opened Records
  import opened SortedLists

  /** What one line's verdict adds to the buffer. */
  function Kept(v: Verdict): seq<LogRecord>
  {
    if v.Accept? then [v.record] else []
  }

  /** The records the lines contribute, in line order. */
  function Accepted(lines: seq<seq<byte>>, classify: seq<byte> -> Verdict): seq<LogRecord>
  {
    if lines == [] then []
    else Accepted(lines[..|lines| - 1], classify) + Kept(classify(lines[|lines| - 1]))
  }

  /** Accepted grows by one line's contribution at a time. */
  lemma {:induction false} AcceptedStep(lines: seq<seq<byte>>, i: nat, classify: seq<byte> -> Verdict)
    requires i < |lines|
    ensures Accepted(lines[..i + 1], classify) == Accepted(lines[..i], classify) + Kept(classify(lines[i]))
  {
    assert lines[..i + 1][..i] == lines[..i];
  }

  /** The index of the first line that raises, or |lines| when none does. */
  function FatalAt(lines: seq<seq<byte>>, classify: seq<byte> -> Verdict): nat
  {
    FirstIndex(lines, l => classify(l).Fatal?)
  }

  /**
   * The buffer is flushed once `len(chunk_buffer) >= chunk_size`; right after
   * an append the length is at least 1, so a chunk size below 1 acts as 1.
   */
  function EffectiveChunk(chunkSize: int): (e: nat)
    ensures e >= 1 && (chunkSize >= 1 ==> e == chunkSize)
  {
    if chunkSize < 1 then 1 else chunkSize
  }

  /** The records of rs that whole chunks have already carried into the list. */
  function Flushed(rs: seq<LogRecord>, chunkSize: int): seq<LogRecord>
    decreases |rs|
  {
    var e := EffectiveChunk(chunkSize);
    if |rs| < e then [] else rs[..e] + Flushed(rs[e..], chunkSize)
  }

  /** Every chunk of chunks holds exactly e records. */
  predicate WholeChunks(chunks: seq<seq<LogRecord>>, e: nat)
  {
    chunks == [] || (|chunks[0]| == e && WholeChunks(chunks[1..], e))
  }

  /** The chunks Flushed consists of, one `update` each. */
  ghost function FlushedChunks(rs: seq<LogRecord>, chunkSize: int): (chunks: seq<seq<LogRecord>>)
    ensures WholeChunks(chunks, EffectiveChunk(chunkSize))
    ensures Flatten(chunks) == Flushed(rs, chunkSize)
    decreases |rs|
  {
    var e := EffectiveChunk(chunkSize);
    if |rs| < e then []
    else
      var rest := FlushedChunks(rs[e..], chunkSize);
      assert ([rs[..e]] + rest)[1..] == rest;
      [rs[..e]] + rest
  }

  /** Only the chunk size in effect matters to what is flushed. */
  lemma {:induction false} FlushedSameChunk(rs: seq<LogRecord>, c: int, d: int)
    requires EffectiveChunk(c) == EffectiveChunk(d)
    ensures Flushed(rs, c) == Flushed(rs, d)
    decreases |rs|
  {
    var e := EffectiveChunk(c);
    if |rs| >= e {
      FlushedSameChunk(rs[e..], c, d);
    }
  }

  lemma {:induction false} WholeChunksAppend(chunks: seq<seq<LogRecord>>, c: seq<LogRecord>, e: nat)
    requires WholeChunks(chunks, e) && |c| == e
    ensures WholeChunks(chunks + [c], e)
  {
    if chunks != [] {
      assert (chunks + [c])[1..] == chunks[1..] + [c];
      WholeChunksAppend(chunks[1..], c, e);
    } else {
      assert ([] + [c])[1..] == [];
    }
  }

  /** Whole chunks followed by fewer than a chunk's worth: the whole chunks are what is flushed. */
  lemma {:induction false} FlushedWhole(chunks: seq<seq<LogRecord>>, rest: seq<LogRecord>, chunkSize: int)
    requires WholeChunks(chunks, EffectiveChunk(chunkSize))
    requires |rest| < EffectiveChunk(chunkSize)
    ensures Flushed(Flatten(chunks) + rest, chunkSize) == Flatten(chunks)
  {
    if chunks != [] {
      var rs := Flatten(chunks) + rest;
      assert rs == chunks[0] + (Flatten(chunks[1..]) + rest);
      assert rs[..|chunks[0]|] == chunks[0];
      assert rs[|chunks[0]|..] == Flatten(chunks[1..]) + rest;
      FlushedWhole(chunks[1..], rest, chunkSize);
    }
  }

  /** The reason of the first line that raises, if any does. */
  function ShardFatal(lines: seq<seq<byte>>, classify: seq<byte> -> Verdict): (r: Option<FatalReason>)
    ensures r.None? <==> forall j :: 0 <= j < |lines| ==> !classify(lines[j]).Fatal?
    ensures r.Some? <==> exists j :: 0 <= j < |lines| && classify(lines[j]).Fatal?
  {
    var k := FatalAt(lines, classify);
    if k < |lines| then Some(classify(lines[k]).reason) else None
  }

  /**
   * The records one shard's ingestor inserts: every accepted record, whatever
   * the chunk size, when no line raises; otherwise the whole chunks accepted
   * before the first line that raises, which fall short of everything
   * accepted before it by less than one chunk.
   */
  function ShardAdded(lines: seq<seq<byte>>, chunkSize: int, classify: seq<byte> -> Verdict): (r: seq<LogRecord>)
    ensures ShardFatal(lines, classify).None? ==> r == Accepted(lines, classify)
    ensures ShardFatal(lines, classify).Some? ==>
              var before := Accepted(lines[..FatalAt(lines, classify)], classify);
              && |r| <= |before| && r == before[..|r|] && |before| - |r| < EffectiveChunk(chunkSize)
              && exists chunks :: WholeChunks(chunks, EffectiveChunk(chunkSize)) && Flatten(chunks) == r
  {
    var k := FatalAt(lines, classify);
    if k < |lines| then
      var before := Accepted(lines[..k], classify);
      FlushedPrefix(before, chunkSize);
      assert WholeChunks(FlushedChunks(before, chunkSize), EffectiveChunk(chunkSize));
      Flushed(before, chunkSize)
    else Accepted(lines, classify)
  }

  /**
   * The flush test runs right after an append, so any chunk size below 1
   * behaves exactly like a chunk size of 1.
   */
  lemma {:induction false} SmallChunkActsAsOne(lines: seq<seq<byte>>, chunkSize: int, classify: seq<byte> -> Verdict)
    requires chunkSize < 1
    ensures ShardAdded(lines, chunkSize, classify) == ShardAdded(lines, 1, classify)
  {
    var k := FatalAt(lines, classify);
    if k < |lines| {
      FlushedSameChunk(Accepted(lines[..k], classify), chunkSize, 1);
    }
  }

  /**
   * Where the ingestor stands after the first i lines, none of which raised:
   * the records they contribute are the whole chunks already inserted into
   * the list (items) followed by the buffer, which holds less than a chunk.
   */
  ghost predicate Progress(items: seq<LogRecord>, start: seq<LogRecord>, lines: seq<seq<byte>>, i: nat,
                           chunks: seq<seq<LogRecord>>, buffer: seq<LogRecord>, chunkSize: int,
                           classify: seq<byte> -> Verdict)
  {
    && i <= |lines|
    && (forall j :: 0 <= j < i ==> !classify(lines[j]).Fatal?)
    && Flatten(chunks) + buffer == Accepted(lines[..i], classify)
    && WholeChunks(chunks, EffectiveChunk(chunkSize)) && |buffer| < EffectiveChunk(chunkSize)
    && items == Sort(start + Flatten(chunks))
  }

  /**
   * `merge_querylog_streaming`: feeds every line of one shard to the filter.
   * Each accepted record is appended to a local buffer that is inserted into
   * acc and emptied as soon as it holds chunkSize records; a non-empty rest is
   * inserted at the end of the shard. A line that raises stops the shard.
   */
  method IngestShard(acc: SortedList, lines: seq<seq<byte>>, chunkSize: int,
                     classify: seq<byte> -> Verdict)
    returns (fatal: Option<FatalReason>)
    requires acc.Valid()
    modifies acc
    ensures acc.Valid()
    ensures fatal == ShardFatal(lines, classify)
    ensures acc.items == Sort(old(acc.items) + ShardAdded(lines, chunkSize, classify))
  {
    var buffer: seq<LogRecord> := [];
    ghost var chunks: seq<seq<LogRecord>> := [];
    ghost var start := acc.items;
    var i: nat := 0;
    StartShard(acc.items, lines, chunkSize, classify);
    while i < |lines|
      invariant Progress(acc.items, start, lines, i, chunks, buffer, chunkSize, classify)
    {
      var verdict := classify(lines[i]);
      if verdict.Fatal? {
        StopAt(acc.items, start, lines, i, chunks, buffer, chunkSize, classify);
        return Some(verdict.reason);
      }
      buffer, chunks := IngestLine(acc, start, lines, i, chunks, buffer, verdict, chunkSize, classify);
      i := i + 1;
    }
    FinishShard(acc, start, lines, chunks, buffer, chunkSize, classify);
    fatal := None;
  }

  lemma {:induction false} StartShard(items: seq<LogRecord>, lines: seq<seq<byte>>, chunkSize: int,
                                      classify: seq<byte> -> Verdict)
    requires Sorted(items)
    ensures Progress(items, items, lines, 0, [], [], chunkSize, classify)
  {
    SortSorted(items);
    assert items + Flatten([]) == items;
    assert lines[..0] == [];
  }

  /** The outcome when line i is the first that raises. */
  lemma {:induction false} StopAt(items: seq<LogRecord>, start: seq<LogRecord>, lines: seq<seq<byte>>, i: nat,
                                  chunks: seq<seq<LogRecord>>, buffer: seq<LogRecord>, chunkSize: int,
                                  classify: seq<byte> -> Verdict)
    requires Progress(items, start, lines, i, chunks, buffer, chunkSize, classify)
    requires i < |lines| && classify(lines[i]).Fatal?
    ensures ShardFatal(lines, classify) == Some(classify(lines[i]).reason)
    ensures Sorted(items) && items == Sort(start + ShardAdded(lines, chunkSize, classify))
  {
    assert FatalAt(lines, classify) == i;
    FlushedWhole(chunks, buffer, chunkSize);
    SortedSort(start + Flatten(chunks));
  }

  /** The trailing `if chunk_buffer:` flush once every line has been read. */
  method FinishShard(acc: SortedList, ghost start: seq<LogRecord>, ghost lines: seq<seq<byte>>,
                     ghost chunks: seq<seq<LogRecord>>, buffer: seq<LogRecord>, chunkSize: int,
                     ghost classify: seq<byte> -> Verdict)
    requires Progress(acc.items, start, lines, |lines|, chunks, buffer, chunkSize, classify)
    modifies acc
    ensures acc.Valid()
    ensures ShardFatal(lines, classify) == None
    ensures acc.items == Sort(start + ShardAdded(lines, chunkSize, classify))
  {
    assert lines[..|lines|] == lines;
    if |buffer| > 0 {
      Flush(acc, start, chunks, buffer);
    } else {
      assert Flatten(chunks) == Flatten(chunks) + buffer;
      SortedSort(start + Flatten(chunks));
    }
  }

  /**
   * The loop body of `merge_querylog_streaming` for line i when it does not
   * raise: an accepted record joins the buffer, and a buffer that has
   * reached chunkSize records is inserted into acc and emptied.
   */
  method IngestLine(acc: SortedList, ghost start: seq<LogRecord>, ghost lines: seq<seq<byte>>, ghost i: nat,
                    ghost chunks: seq<seq<LogRecord>>, buffer: seq<LogRecord>, verdict: Verdict, chunkSize: int,
                    ghost classify: seq<byte> -> Verdict)
    returns (buffer': seq<LogRecord>, ghost chunks': seq<seq<LogRecord>>)
    requires Progress(acc.items, start, lines, i, chunks, buffer, chunkSize, classify)
    requires i < |lines| && verdict == classify(lines[i]) && !verdict.Fatal?
    modifies acc
    ensures Progress(acc.items, start, lines, i + 1, chunks', buffer', chunkSize, classify)
  {
    AcceptedStep(lines, i, classify);
    chunks', buffer' := chunks, buffer + Kept(verdict);
    if verdict.Accept? && |buffer'| >= chunkSize {
      chunks' := FlushChunk(acc, start, chunks, buffer', EffectiveChunk(chunkSize));
      buffer' := [];
    }
  }

  /** A buffer that has reached the chunk size is flushed and becomes the next whole chunk. */
  method FlushChunk(acc: SortedList, ghost start: seq<LogRecord>, ghost chunks: seq<seq<LogRecord>>,
                    buffer: seq<LogRecord>, ghost e: nat)
    returns (ghost chunks': seq<seq<LogRecord>>)
    requires acc.items == Sort(start + Flatten(chunks))
    requires WholeChunks(chunks, e) && |buffer| == e
    modifies acc
    ensures acc.items == Sort(start + Flatten(chunks'))
    ensures WholeChunks(chunks', e)
    ensures Flatten(chunks') == Flatten(chunks) + buffer
  {
    Flush(acc, start, chunks, buffer);
    WholeChunksAppend(chunks, buffer, e);
    FlattenAppend(chunks, [buffer]);
    assert [buffer][1..] == [];
    assert Flatten([buffer]) == buffer;
    chunks' := chunks + [buffer];
    assert Flatten(chunks') == Flatten(chunks) + buffer;
  }

  /** One `full_querylogs.update(chunk_buffer)` under the lock. */
  method Flush(acc: SortedList, ghost start: seq<LogRecord>, ghost chunks: seq<seq<LogRecord>>,
               buffer: seq<LogRecord>)
    requires acc.items == Sort(start + Flatten(chunks))
    modifies acc
    ensures acc.Valid() && acc.items == Sort(start + (Flatten(chunks) + buffer))
  {
    SortMore(start, Flatten(chunks), buffer);
    acc.Update(buffer);
  }

  /** Inserting a batch into the sorted arrangement of some records sorts them all. */
  lemma {:induction false} SortMore(start: seq<LogRecord>, added: seq<LogRecord>, batch: seq<LogRecord>)
    ensures Sorted(Sort(start + added))
    ensures Sort(Sort(start + added) + batch) == Sort(start + (added + batch))
  {
    SortedSort(start + added);
    SortAppend(start + added, batch);
    assert start + added + batch == start + (added + batch);
  }

  /**
   * What a shard that raises leaves behind: whole chunks from the front of its
   * accepted records, short of all of them by less than one chunk.
   */
  lemma {:induction false} FlushedPrefix(rs: seq<LogRecord>, chunkSize: int)
    ensures |Flushed(rs, chunkSize)| <= |rs|
    ensures Flushed(rs, chunkSize) == rs[..|Flushed(rs, chunkSize)|]
    ensures |rs| - |Flushed(rs, chunkSize)| < EffectiveChunk(chunkSize)
    decreases |rs|
  {
    var e := EffectiveChunk(chunkSize);
    if |rs| >= e {
      FlushedPrefix(rs[e..], chunkSize);
      var f := Flushed(rs[e..], chunkSize);
      assert f == rs[e..][..|f|];
      assert rs[..e] + f == rs[..e + |f|];
    }
  }

  /** A property of every record the filter accepts holds of every record a shard contributes. */
  lemma {:induction false} AcceptedKeeps(lines: seq<seq<byte>>, classify: seq<byte> -> Verdict, P: LogRecord -> bool)
    requires forall i :: 0 <= i < |lines| && classify(lines[i]).Accept? ==> P(classify(lines[i]).record)
    ensures forall r :: r in Accepted(lines, classify) ==> P(r)
  {
    if lines != [] {
      var init := lines[..|lines| - 1];
      assert forall i :: 0 <= i < |init| ==> init[i] == lines[i];
      AcceptedKeeps(init, classify, P);
    }
  }

  /** A record is accepted from the lines exactly when the filter accepts it from one of them. */
  lemma {:induction false} AcceptedMembers(lines: seq<seq<byte>>, classify: seq<byte> -> Verdict)
    ensures forall r :: r in Accepted(lines, classify) <==>
              exists i :: 0 <= i < |lines| && classify(lines[i]) == Accept(r)
  {
    if lines != [] {
      var n := |lines| - 1;
      var init := lines[..n];
      AcceptedMembers(init, classify);
      forall r
        ensures r in Accepted(lines, classify) <==> exists i :: 0 <= i < |lines| && classify(lines[i]) == Accept(r)
      {
        if r in Accepted(lines, classify) {
          if r in Accepted(init, classify) {
            var i :| 0 <= i < |init| && classify(init[i]) == Accept(r);
            assert lines[i] == init[i];
          } else {
            assert classify(lines[n]) == Accept(r);
          }
        } else {
          forall i | 0 <= i < |lines|
            ensures classify(lines[i]) != Accept(r)
          {
            if i < n {
              assert init[i] == lines[i];
            }
          }
        }
      }
    }
  }

  /** Lines the filter accepts one by one contribute exactly their records, and none raises. */
  lemma {:induction false} AcceptedExactly(lines: seq<seq<byte>>, items: seq<LogRecord>, classify: seq<byte> -> Verdict)
    requires |lines| == |items|
    requires forall i :: 0 <= i < |lines| ==> classify(lines[i]) == Accept(items[i])
    ensures Accepted(lines, classify) == items
    ensures ShardFatal(lines, classify) == None
  {
    if lines != [] {
      var n := |lines| - 1;
      AcceptedExactly(lines[..n], items[..n], classify);
      assert items == items[..n] + [items[n]];
    }
  }
}
