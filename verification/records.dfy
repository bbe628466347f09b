/**
 * Log records, the verdict the per-line filter gives, and the total order
 * `SortedList` keeps its `(timestamp, payload)` tuples in.
 */
module Records {
  import opened Common
  import opened Bytes

  /**
   * The part of a decoded JSON value the merge looks at: an object and its
   * members, a string, or anything else (number, array, boolean, null).
   */
  datatype Json = Object(members: map<string, Json>) | Str(text: string) | Other

  /** One kept query-log entry: the verbatim "T" string and the stripped line bytes. */
  datatype LogRecord = LogRecord(key: string, payload: seq<byte>)

  /** The payloads of records, in order: what the merge emits for them. */
  function Payloads(rs: seq<LogRecord>): (ps: seq<seq<byte>>)
    ensures |ps| == |rs| && forall i :: 0 <= i < |rs| ==> ps[i] == rs[i].payload
  {
    Map((r: LogRecord) => r.payload, rs)
  }

  /** Why a line aborts the merge: the exceptions the per-line `try` does not catch. */
  datatype FatalReason =
    | NotAnObject    // `querylog_json["T"]` on an array, string or number: TypeError
    | MissingKey     // an object without "T": KeyError
    | KeyNotString   // "T" is not a string: TypeError from `datetime.fromisoformat`
    | BadTimestamp   // `datetime.fromisoformat` rejects the string: ValueError

  /** What the per-line filter makes of one raw line. */
  datatype Verdict = Skip | Accept(record: LogRecord) | Fatal(reason: FatalReason)

  /**
   * `querylog_json["T"]` together with the `str` that `datetime.fromisoformat`
   * demands of it: the lookup raises on a non-object or a missing key, and a
   * value that is not a string is refused by `fromisoformat`.
   */
  function TimestampOf(j: Json): (r: Result<string, FatalReason>)
    ensures r.Success? <==> j.Object? && "T" in j.members && j.members["T"].Str?
    ensures r.Success? ==> r.value == j.members["T"].text
    ensures r.Failure? && !j.Object? ==> r.error == NotAnObject
    ensures r.Failure? && j.Object? && "T" !in j.members ==> r.error == MissingKey
    ensures r.Failure? && j.Object? && "T" in j.members ==> r.error == KeyNotString
  {
    if !j.Object? then Failure(NotAnObject)
    else if "T" !in j.members then Failure(MissingKey)
    else if !j.members["T"].Str? then Failure(KeyNotString)
    else Success(j.members["T"].text)
  }

  /**
   * What `querylog_json["T"]` comes to for one raw line: None when the
   * stripped line is empty or `orjson.loads` rejects it (nothing is looked
   * up), otherwise the outcome of the lookup on the decoded value.
   */
  function LineKey(line: seq<byte>, decode: seq<byte> -> Option<Json>): (k: Option<Result<string, FatalReason>>)
    ensures k.None? <==> AllSpace(line) || decode(Strip(line)).None?
    ensures k.Some? ==> k.value == TimestampOf(decode(Strip(line)).value)
  {
    var s := Strip(line);
    if s == [] then None
    else match decode(s)
      case None => None
      case Some(j) => Some(TimestampOf(j))
  }

  // ---------------------------------------------------------------------
  // The order of Python tuples (str, bytes)
  // ---------------------------------------------------------------------

  /** The code points of a string: Python compares `str` values by them. */
  function Codes(s: string): (cs: seq<int>)
    ensures |cs| == |s|
  {
    if s == [] then [] else [s[0] as int] + Codes(s[1..])
  }

  lemma {:induction false} CodesInjective(a: string, b: string)
    requires Codes(a) == Codes(b)
    ensures a == b
  {
    if a != [] {
      assert Codes(a)[0] == Codes(b)[0];
      assert Codes(a)[1..] == Codes(a[1..]) && Codes(b)[1..] == Codes(b[1..]);
      CodesInjective(a[1..], b[1..]);
      assert a == [a[0]] + a[1..] && b == [b[0]] + b[1..];
    }
  }

  /** Strict lexicographic order; a proper prefix comes first. */
  predicate LexLess(a: seq<int>, b: seq<int>)
  {
    b != [] && (a == [] || a[0] < b[0] || (a[0] == b[0] && LexLess(a[1..], b[1..])))
  }

  lemma {:induction false} LexIrreflexive(a: seq<int>)
    ensures !LexLess(a, a)
  {
    if a != [] {
      LexIrreflexive(a[1..]);
    }
  }

  lemma {:induction false} LexTransitive(a: seq<int>, b: seq<int>, c: seq<int>)
    requires LexLess(a, b) && LexLess(b, c)
    ensures LexLess(a, c)
  {
    if a != [] && a[0] == b[0] && b[0] == c[0] {
      LexTransitive(a[1..], b[1..], c[1..]);
    }
  }

  lemma {:induction false} LexTrichotomy(a: seq<int>, b: seq<int>)
    ensures a == b || LexLess(a, b) || LexLess(b, a)
  {
    if a != [] && b != [] && a[0] == b[0] {
      LexTrichotomy(a[1..], b[1..]);
      if a[1..] == b[1..] {
        assert a == [a[0]] + a[1..] && b == [b[0]] + b[1..];
      }
    }
  }

  lemma {:induction false} LexAsymmetric(a: seq<int>, b: seq<int>)
    requires LexLess(a, b)
    ensures !LexLess(b, a)
  {
    if a != [] && a[0] == b[0] {
      LexAsymmetric(a[1..], b[1..]);
    }
  }

  /**
   * a comes before b in Python's comparison of sequences: a is a proper
   * prefix of b, or a is smaller at the first position where they differ.
   */
  ghost predicate FirstDifferenceLess(a: seq<int>, b: seq<int>)
  {
    || (|a| < |b| && a == b[..|a|])
    || exists k :: 0 <= k < |a| && k < |b| && a[..k] == b[..k] && a[k] < b[k]
  }

  /** LexLess is Python's comparison of `str` code points and of `bytes`. */
  lemma {:induction false} LexLessFirstDifference(a: seq<int>, b: seq<int>)
    ensures LexLess(a, b) <==> FirstDifferenceLess(a, b)
  {
    if a == [] {
      if b != [] {
        assert a == b[..0];
      }
    } else if b == [] {
    } else if a[0] < b[0] {
      assert a[..0] == b[..0] && a[0] < b[0];
    } else if a[0] > b[0] {
      assert !FirstDifferenceLess(a, b);
    } else {
      LexLessFirstDifference(a[1..], b[1..]);
      FirstDifferenceTail(a, b);
    }
  }

  /** Sequences with the same head compare as their tails do. */
  lemma {:induction false} FirstDifferenceTail(a: seq<int>, b: seq<int>)
    requires a != [] && b != [] && a[0] == b[0]
    ensures FirstDifferenceLess(a, b) <==> FirstDifferenceLess(a[1..], b[1..])
  {
    if FirstDifferenceLess(a[1..], b[1..]) {
      FirstDifferenceFromTail(a, b);
    }
    if FirstDifferenceLess(a, b) {
      FirstDifferenceToTail(a, b);
    }
  }

  /** A difference found in the tails is a difference of the whole sequences. */
  lemma {:induction false} FirstDifferenceFromTail(a: seq<int>, b: seq<int>)
    requires a != [] && b != [] && a[0] == b[0] && FirstDifferenceLess(a[1..], b[1..])
    ensures FirstDifferenceLess(a, b)
  {
    var a', b' := a[1..], b[1..];
    assert a == [a[0]] + a' && b == [b[0]] + b';
    if |a'| < |b'| && a' == b'[..|a'|] {
      assert a == b[..|a|];
    } else {
      var k :| 0 <= k < |a'| && k < |b'| && a'[..k] == b'[..k] && a'[k] < b'[k];
      assert a[..k + 1] == [a[0]] + a'[..k] && b[..k + 1] == [b[0]] + b'[..k];
      assert a[k + 1] < b[k + 1];
    }
  }

  /** A difference of sequences with the same head lies in their tails. */
  lemma {:induction false} FirstDifferenceToTail(a: seq<int>, b: seq<int>)
    requires a != [] && b != [] && a[0] == b[0] && FirstDifferenceLess(a, b)
    ensures FirstDifferenceLess(a[1..], b[1..])
  {
    var a', b' := a[1..], b[1..];
    if |a| < |b| && a == b[..|a|] {
      assert a' == b'[..|a'|];
    } else {
      var k :| 0 <= k < |a| && k < |b| && a[..k] == b[..k] && a[k] < b[k];
      assert k > 0;
      assert a'[..k - 1] == a[..k][1..] && b'[..k - 1] == b[..k][1..];
      assert a'[k - 1] < b'[k - 1];
    }
  }

  /**
   * x sorts no later than y: `(x.key, x.payload) <= (y.key, y.payload)` on
   * Python tuples, so equal timestamps are ordered by the payload bytes.
   */
  predicate Precedes(x: LogRecord, y: LogRecord)
  {
    LexLess(Codes(x.key), Codes(y.key))
    || (x.key == y.key && (x.payload == y.payload || LexLess(x.payload, y.payload)))
  }

  /**
   * Precedes is Python's `<=` on `(str, bytes)` tuples: the tuples are equal,
   * or the timestamps differ and the first is smaller, or the timestamps are
   * equal and the first payload is smaller; each compared at the first
   * position where they differ.
   */
  lemma {:induction false} PrecedesIsTupleOrder(x: LogRecord, y: LogRecord)
    ensures Precedes(x, y) <==>
              || x == y
              || (x.key != y.key && FirstDifferenceLess(Codes(x.key), Codes(y.key)))
              || (x.key == y.key && FirstDifferenceLess(x.payload, y.payload))
  {
    LexLessFirstDifference(Codes(x.key), Codes(y.key));
    LexLessFirstDifference(x.payload, y.payload);
    LexIrreflexive(Codes(x.key));
  }

  /** Precedes is a total order: any two records are comparable... */
  lemma {:induction false} PrecedesTotal(x: LogRecord, y: LogRecord)
    ensures Precedes(x, y) || Precedes(y, x)
  {
    LexTrichotomy(Codes(x.key), Codes(y.key));
    LexTrichotomy(x.payload, y.payload);
    if Codes(x.key) == Codes(y.key) {
      CodesInjective(x.key, y.key);
    }
  }

  /** ...only equal records precede each other... */
  lemma {:induction false} PrecedesAntisymmetric(x: LogRecord, y: LogRecord)
    requires Precedes(x, y) && Precedes(y, x)
    ensures x == y
  {
    if LexLess(Codes(x.key), Codes(y.key)) {
      LexAsymmetric(Codes(x.key), Codes(y.key));
      LexIrreflexive(Codes(x.key));
    } else if LexLess(Codes(y.key), Codes(x.key)) {
      LexIrreflexive(Codes(x.key));
    } else if x.payload != y.payload {
      LexAsymmetric(x.payload, y.payload);
    }
  }

  /** ...and precedence is transitive. */
  lemma {:induction false} PrecedesTransitive(x: LogRecord, y: LogRecord, z: LogRecord)
    requires Precedes(x, y) && Precedes(y, z)
    ensures Precedes(x, z)
  {
    if LexLess(Codes(x.key), Codes(y.key)) && LexLess(Codes(y.key), Codes(z.key)) {
      LexTransitive(Codes(x.key), Codes(y.key), Codes(z.key));
    } else if x.key == y.key && y.key == z.key && x.payload != y.payload && y.payload != z.payload {
      LexTransitive(x.payload, y.payload, z.payload);
    }
  }

  /** Ascending in the tuple order: what `SortedList` keeps at all times. */
  ghost predicate Sorted(s: seq<LogRecord>)
  {
    forall i, j {:trigger Precedes(s[i], s[j])} :: 0 <= i < j < |s| ==> Precedes(s[i], s[j])
  }

  // ---------------------------------------------------------------------
  // The sorted arrangement of a collection of records
  // ---------------------------------------------------------------------

  /** s with x placed after every record that precedes it. */
  function Insert(s: seq<LogRecord>, x: LogRecord): seq<LogRecord>
  {
    if s == [] || !Precedes(s[0], x) then [x] + s else [s[0]] + Insert(s[1..], x)
  }

  /** Inserting into a sorted sequence keeps it sorted and adds exactly x. */
  lemma {:induction false} InsertSorted(s: seq<LogRecord>, x: LogRecord)
    requires Sorted(s)
    ensures Sorted(Insert(s, x))
    ensures multiset(Insert(s, x)) == multiset(s) + multiset{x}
  {
    if s == [] {
    } else if !Precedes(s[0], x) {
      PrecedesTotal(s[0], x);
      forall j | 0 < j < |s| ensures Precedes(x, s[j]) {
        PrecedesTransitive(x, s[0], s[j]);
      }
    } else {
      SortedTail(s);
      InsertSorted(s[1..], x);
      var t := Insert(s[1..], x);
      assert s == [s[0]] + s[1..];
      forall j | 0 <= j < |t| ensures Precedes(s[0], t[j]) {
        assert t[j] in multiset(t);
        if t[j] != x {
          assert t[j] in multiset(s[1..]);
          var k :| 0 <= k < |s[1..]| && s[1..][k] == t[j];
          assert s[k + 1] == t[j];
        }
      }
      assert Insert(s, x) == [s[0]] + t;
    }
  }

  /**
   * The records of s in ascending order: the contents of a `SortedList`
   * holding s. SortPermutes states that it is sorted and holds exactly the
   * records of s.
   */
  function Sort(s: seq<LogRecord>): seq<LogRecord>
  {
    if s == [] then [] else Insert(Sort(s[..|s| - 1]), s[|s| - 1])
  }

  lemma {:induction false} SortPermutes(s: seq<LogRecord>)
    ensures Sorted(Sort(s))
    ensures multiset(Sort(s)) == multiset(s)
  {
    if s != [] {
      var init, x := s[..|s| - 1], s[|s| - 1];
      SortPermutes(init);
      InsertSorted(Sort(init), x);
      assert Sort(s) == Insert(Sort(init), x);
      assert s == init + [x];
      assert multiset(s) == multiset(init) + multiset{x};
    }
  }

  /** Sort's first half alone, for callers that need no multisets. */
  lemma {:induction false} SortedSort(s: seq<LogRecord>)
    ensures Sorted(Sort(s))
  {
    SortPermutes(s);
  }

  /** The first record of a sorted sequence precedes every record in it. */
  lemma {:induction false} SortedHead(s: seq<LogRecord>, x: LogRecord)
    requires Sorted(s) && x in s
    ensures Precedes(s[0], x)
  {
    var i :| 0 <= i < |s| && s[i] == x;
    if i == 0 {
      assert Precedes(x, x);
    }
  }

  lemma {:induction false} SortedTail(s: seq<LogRecord>)
    requires Sorted(s) && s != []
    ensures Sorted(s[1..])
  {
    forall i, j | 0 <= i < j < |s| - 1
      ensures Precedes(s[1..][i], s[1..][j])
    {
      assert s[1..][i] == s[i + 1] && s[1..][j] == s[j + 1];
    }
  }

  /** Two sorted sequences holding the same records are equal. */
  lemma {:induction false} SortedUnique(a: seq<LogRecord>, b: seq<LogRecord>)
    requires Sorted(a) && Sorted(b) && multiset(a) == multiset(b)
    ensures a == b
  {
    if a == [] {
      assert |b| == |multiset(b)| == 0;
    } else {
      SameHead(a, b);
      SortedTail(a);
      SortedTail(b);
      SortedUnique(a[1..], b[1..]);
      assert a == [a[0]] + a[1..] && b == [b[0]] + b[1..];
    }
  }

  /** Two sorted sequences holding the same records start with the same record. */
  lemma {:induction false} SameHead(a: seq<LogRecord>, b: seq<LogRecord>)
    requires Sorted(a) && Sorted(b) && multiset(a) == multiset(b) && a != []
    ensures b != [] && a[0] == b[0] && multiset(a[1..]) == multiset(b[1..])
  {
    assert |b| == |multiset(b)| == |multiset(a)| > 0;
    assert a[0] in multiset(b) && b[0] in multiset(a);
    SortedHead(b, a[0]);
    SortedHead(a, b[0]);
    PrecedesAntisymmetric(a[0], b[0]);
    assert a == [a[0]] + a[1..] && b == [b[0]] + b[1..];
    var ma, mb := multiset(a[1..]), multiset(b[1..]);
    assert ma + multiset{a[0]} == multiset(a) == multiset(b) == mb + multiset{a[0]};
    MultisetCancel(ma, mb, a[0]);
  }

  /** The sorted arrangement depends only on which records there are, not on their order. */
  lemma {:induction false} SortDependsOnMultiset(a: seq<LogRecord>, b: seq<LogRecord>)
    requires multiset(a) == multiset(b)
    ensures Sort(a) == Sort(b)
  {
    SortPermutes(a);
    SortPermutes(b);
    SortedUnique(Sort(a), Sort(b));
  }

  /** What holds of every record of s holds of every record of Sort(s). */
  lemma {:induction false} SortKeeps(s: seq<LogRecord>, P: LogRecord -> bool)
    requires forall r :: r in s ==> P(r)
    ensures forall i :: 0 <= i < |Sort(s)| ==> P(Sort(s)[i])
  {
    SortPermutes(s);
    forall i | 0 <= i < |Sort(s)| ensures P(Sort(s)[i]) {
      assert Sort(s)[i] in multiset(Sort(s));
    }
  }

  /**
   * Sort(s) is the one sequence that is sorted and holds exactly the records
   * of s.
   */
  lemma {:induction false} SortCharacterised(s: seq<LogRecord>, t: seq<LogRecord>)
    ensures t == Sort(s) <==> Sorted(t) && multiset(t) == multiset(s)
  {
    SortPermutes(s);
    if Sorted(t) && multiset(t) == multiset(s) {
      SortedUnique(t, Sort(s));
    }
  }

  /** Sorting a sorted sequence leaves it as it is. */
  lemma {:induction false} SortSorted(s: seq<LogRecord>)
    requires Sorted(s)
    ensures Sort(s) == s
  {
    SortPermutes(s);
    SortedUnique(Sort(s), s);
  }

  /** Adding records to an already sorted arrangement is sorting everything at once. */
  lemma {:induction false} SortAppend(a: seq<LogRecord>, b: seq<LogRecord>)
    ensures Sort(Sort(a) + b) == Sort(a + b)
  {
    SortPermutes(a);
    assert multiset(Sort(a) + b) == multiset(a + b);
    SortDependsOnMultiset(Sort(a) + b, a + b);
  }
}
