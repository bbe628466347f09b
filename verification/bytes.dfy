/**
 * Byte-level helpers of the merge engine: Python's `bytes.strip()` with no
 * argument, and the way iterating over a file opened in binary mode cuts its
 * content into lines.
 */
module Bytes {
  import opened Common

  /** One octet of a query-log file. */
  type byte = b: int | 0 <= b < 256

  /** The line terminator b"\n". */
  const NL: byte := 10

  /** A payload as a line of the merged log: followed by b"\n". */
  function Terminate(p: seq<byte>): seq<byte>
  {
    p + [NL]
  }

  /** ASCII whitespace as `bytes.strip()` removes it: b" \t\n\x0b\x0c\r". */
  predicate IsSpace(b: byte)
  {
    b == 32 || 9 <= b <= 13
  }

  predicate AllSpace(s: seq<byte>)
  {
    forall k :: 0 <= k < |s| ==> IsSpace(s[k])
  }

  /** Neither end of s is whitespace (the empty sequence qualifies). */
  predicate Trimmed(s: seq<byte>)
  {
    s == [] || (!IsSpace(s[0]) && !IsSpace(s[|s| - 1]))
  }

  /** The number of whitespace bytes s starts with. */
  function Lead(s: seq<byte>): (n: nat)
    ensures n <= |s|
    ensures forall k :: 0 <= k < n ==> IsSpace(s[k])
    ensures n < |s| ==> !IsSpace(s[n])
  {
    if s == [] || !IsSpace(s[0]) then 0 else 1 + Lead(s[1..])
  }

  /** The number of whitespace bytes s ends with. */
  function Trail(s: seq<byte>): (n: nat)
    ensures n <= |s|
    ensures forall k :: |s| - n <= k < |s| ==> IsSpace(s[k])
    ensures n < |s| ==> !IsSpace(s[|s| - 1 - n])
  {
    if s == [] || !IsSpace(s[|s| - 1]) then 0 else 1 + Trail(s[..|s| - 1])
  }

  /**
   * `bytes.strip()`: s without its leading and trailing whitespace. The
   * result is the slice of s that starts after the leading whitespace, every
   * byte cut on either side is whitespace, neither end of the result is, and
   * the result is empty exactly when s is all whitespace.
   */
  function Strip(s: seq<byte>): (r: seq<byte>)
    ensures Trimmed(r)
    ensures r == [] <==> AllSpace(s)
    ensures Lead(s) + |r| <= |s| && r == s[Lead(s)..Lead(s) + |r|]
    ensures forall k :: 0 <= k < |s| && !(Lead(s) <= k < Lead(s) + |r|) ==> IsSpace(s[k])
  {
    var i := Lead(s);
    if i == |s| then []
    else
      var j := |s| - Trail(s);
      assert i < j;
      s[i..j]
  }

  /** Lead is the only count that meets its contract. */
  lemma {:induction false} LeadIs(s: seq<byte>, n: nat)
    requires n <= |s| && (forall k :: 0 <= k < n ==> IsSpace(s[k])) && (n < |s| ==> !IsSpace(s[n]))
    ensures Lead(s) == n
  {
    if n > 0 {
      LeadIs(s[1..], n - 1);
    }
  }

  /** Trail is the only count that meets its contract. */
  lemma {:induction false} TrailIs(s: seq<byte>, n: nat)
    requires n <= |s| && (forall k :: |s| - n <= k < |s| ==> IsSpace(s[k]))
    requires n < |s| ==> !IsSpace(s[|s| - 1 - n])
    ensures Trail(s) == n
  {
    if n > 0 {
      TrailIs(s[..|s| - 1], n - 1);
    }
  }

  /**
   * Strip is determined by its contract: whitespace around a trimmed,
   * non-empty middle is exactly what it removes.
   */
  lemma {:induction false} StripAround(a: seq<byte>, m: seq<byte>, c: seq<byte>)
    requires AllSpace(a) && AllSpace(c) && Trimmed(m) && m != []
    ensures Strip(a + m + c) == m
  {
    var s := a + m + c;
    LeadIs(s, |a|);
    TrailIs(s, |c|);
    assert s[|a|..|s| - |c|] == m;
  }

  /** Stripping twice is stripping once. */
  lemma {:induction false} StripIdempotent(s: seq<byte>)
    ensures Strip(Strip(s)) == Strip(s)
  {
    var r := Strip(s);
    if r != [] {
      assert [] + r + [] == r;
      StripAround([], r, []);
    }
  }

  /** A trimmed line followed by its terminator strips back to the line. */
  lemma {:induction false} StripTerminated(p: seq<byte>)
    requires Trimmed(p) && p != []
    ensures Strip(p + [NL]) == p
  {
    assert [] + p + [NL] == p + [NL];
    StripAround([], p, [NL]);
  }

  /** A raw line as file iteration yields it: non-empty, b"\n" at most at its end. */
  predicate IsRawLine(l: seq<byte>)
  {
    l != [] && forall k :: 0 <= k < |l| - 1 ==> l[k] != NL
  }

  /** Stripping a raw line leaves no b"\n" in it: the only one is trailing whitespace. */
  lemma {:induction false} StripRawLine(l: seq<byte>)
    requires IsRawLine(l)
    ensures NL !in Strip(l)
  {
    var r := Strip(l);
    var i := Lead(l);
    forall k | 0 <= k < |r|
      ensures r[k] != NL
    {
      if k == |r| - 1 {
        assert !IsSpace(r[k]);
      } else {
        assert r[k] == l[i + k];
      }
    }
  }

  predicate EndsWithNewline(l: seq<byte>)
  {
    l != [] && l[|l| - 1] == NL
  }

  /** The position of the first b"\n" in s, or |s| when there is none. */
  function IndexOfNewline(s: seq<byte>): (k: nat)
    ensures k <= |s|
    ensures NL !in s[..k]
    ensures k < |s| ==> s[k] == NL
  {
    if s == [] || s[0] == NL then 0
    else
      var k := 1 + IndexOfNewline(s[1..]);
      assert s[..k] == [s[0]] + s[1..][..k - 1];
      k
  }

  /**
   * The lines that iterating over a file opened in binary mode yields: every
   * line ends just after a b"\n" except possibly the last, no line is empty,
   * and the lines put back together are the file.
   */
  function Lines(data: seq<byte>): (ls: seq<seq<byte>>)
    ensures Flatten(ls) == data
    ensures forall i :: 0 <= i < |ls| ==> IsRawLine(ls[i])
    ensures forall i :: 0 <= i < |ls| - 1 ==> EndsWithNewline(ls[i])
    decreases |data|
  {
    if data == [] then []
    else
      var k := IndexOfNewline(data);
      if k == |data| then
        assert Flatten([data]) == data + Flatten([]);
        [data]
      else
        var rest := Lines(data[k + 1..]);
        var ls := [data[..k + 1]] + rest;
        assert ls[1..] == rest;
        assert data == data[..k + 1] + data[k + 1..];
        assert forall j :: 0 <= j < k ==> data[..k + 1][j] == data[..k][j];
        ls
  }

  /** IndexOfNewline is the only position that meets its contract. */
  lemma {:induction false} IndexOfNewlineIs(s: seq<byte>, k: nat)
    requires k <= |s| && NL !in s[..k] && (k < |s| ==> s[k] == NL)
    ensures IndexOfNewline(s) == k
  {
    if k > 0 {
      assert s[0] == s[..k][0];
      assert s[1..][..k - 1] == s[..k][1..];
      IndexOfNewlineIs(s[1..], k - 1);
    }
  }

  /** A line that holds no b"\n" followed by one is cut off as the first line. */
  lemma {:induction false} LinesCons(p: seq<byte>, rest: seq<byte>)
    requires NL !in p
    ensures Lines(p + [NL] + rest) == [p + [NL]] + Lines(rest)
  {
    var data := p + [NL] + rest;
    assert data[..|p|] == p;
    IndexOfNewlineIs(data, |p|);
    assert data[..|p| + 1] == p + [NL];
    assert data[|p| + 1..] == rest;
  }

  /** Content without b"\n" is a single line. */
  lemma {:induction false} LinesSingle(p: seq<byte>)
    requires p != [] && NL !in p
    ensures Lines(p) == [p]
  {
    assert p[..|p|] == p;
    IndexOfNewlineIs(p, |p|);
  }
}
