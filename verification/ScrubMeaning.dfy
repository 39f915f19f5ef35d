/**
 What the snooper's machine does to a stream, said without the machine: the zeroed bytes are the
 values that follow complete prefixes, the matcher's counter is the longest prefix match, and
 scrubbing twice is scrubbing once.
 */
module ScrubMeaning {
  import opened Bytes
  import opened SnoopSpec

  /** The first n bytes of the prefix are the last n bytes of d. */
  predicate EndsWith(d: seq<byte>, n: nat)
    requires n <= |PREFIX|
  {
    n <= |d| && forall t :: 0 <= t < n ==> d[|d| - n + t] == PREFIX[t]
  }

  /** A value may start at j: a complete prefix ends there. */
  predicate ValueStart(d: seq<byte>, j: nat) {
    |PREFIX| <= j <= |d| && forall t :: 0 <= t < |PREFIX| ==> d[j - |PREFIX| + t] == PREFIX[t]
  }

  /** d ends inside a value. */
  ghost predicate OpenValue(d: seq<byte>) {
    exists j: nat :: ValueStart(d, j) && NoTerminator(d, j, |d|)
  }

  /** Byte k of d belongs to a value. */
  ghost predicate InValue(d: seq<byte>, k: nat) {
    k < |d| && exists j: nat :: ValueStart(d, j) && j <= k && NoTerminator(d, j, k + 1)
  }

  ghost predicate LongestMatch(d: seq<byte>, n: nat) {
    && n < |PREFIX| && EndsWith(d, n)
    && forall n' :: n < n' < |PREFIX| ==> !EndsWith(d, n')
  }

  /** A scan that starts outside every value with nothing matched. */
  predicate Fresh(s: Scan) {
    !s.m.partial && s.m.matched == 0 && s.bytes == []
  }

  /** What precedes a position decides what starts or ends there. */
  lemma Earlier(d: seq<byte>, e: seq<byte>)
    requires d <= e
    ensures forall j: nat :: j <= |d| ==> ValueStart(e, j) == ValueStart(d, j)
    ensures forall from: nat, to: nat :: to <= |d| ==> NoTerminator(e, from, to) == NoTerminator(d, from, to)
  {
    assert forall k :: 0 <= k < |d| ==> e[k] == d[k];
  }

  /** PREFIX[0] occurs only once in the prefix, so no proper match contains a shorter one. */
  lemma NoShorterMatch(d: seq<byte>, n: nat, n': nat)
    requires 0 < n < n' < |PREFIX| && EndsWith(d, n')
    ensures !EndsWith(d, n)
  {
    assert d[|d| - n' + (n' - n)] == PREFIX[n' - n];
    assert d[|d| - n + 0] != PREFIX[0];
  }

  /** One byte of the longest-match computation: only the first prefix byte can restart a match. */
  lemma LongestMatchStep(d: seq<byte>, n: nat, c: byte)
    requires LongestMatch(d, n)
    ensures c == PREFIX[n] && n + 1 < |PREFIX| ==> LongestMatch(d + [c], n + 1)
    ensures c == PREFIX[n] && n + 1 == |PREFIX| ==> ValueStart(d + [c], |d| + 1)
    ensures c != PREFIX[n] ==> LongestMatch(d + [c], if c == PREFIX[0] then 1 else 0)
    ensures !(c == PREFIX[n] && n + 1 == |PREFIX|) ==> !ValueStart(d + [c], |d| + 1)
  {
    var e := d + [c];
    forall n' | 0 < n' <= |PREFIX| && EndsWith(e, n')
      ensures n' == 1 || n' == n + 1
      ensures n' == n + 1 ==> EndsWith(d, n)
      ensures c == PREFIX[n' - 1]
    {
      MatchShorter(d, n', c);
      if 0 < n' - 1 < n {
        NoShorterMatch(d, n' - 1, n);
        assert false;
      }
    }
    if ValueStart(e, |d| + 1) {
      assert EndsWith(e, |PREFIX|);
    }
    if c == PREFIX[n] {
      MatchLonger(d, n, c);
    }
  }

  lemma MatchShorter(d: seq<byte>, n: nat, c: byte)
    requires 0 < n <= |PREFIX| && EndsWith(d + [c], n)
    ensures EndsWith(d, n - 1) && c == PREFIX[n - 1]
  {
    var e := d + [c];
    assert e[|e| - n + (n - 1)] == PREFIX[n - 1];
    forall t | 0 <= t < n - 1
      ensures d[|d| - (n - 1) + t] == PREFIX[t]
    {
      assert e[|e| - n + t] == PREFIX[t];
    }
  }

  lemma MatchLonger(d: seq<byte>, n: nat, c: byte)
    requires n < |PREFIX| && EndsWith(d, n) && c == PREFIX[n]
    ensures EndsWith(d + [c], n + 1)
  {
    var e := d + [c];
    forall t | 0 <= t < n + 1
      ensures e[|e| - (n + 1) + t] == PREFIX[t]
    {
      if t < n {
        assert d[|d| - n + t] == PREFIX[t];
      }
    }
  }

  lemma OpenValueStep(d: seq<byte>, c: byte)
    ensures OpenValue(d + [c]) <==> (OpenValue(d) && !IsTerminator(c)) || ValueStart(d + [c], |d| + 1)
  {
    var e := d + [c];
    Earlier(d, e);
    if OpenValue(d) && !IsTerminator(c) {
      var j: nat :| ValueStart(d, j) && NoTerminator(d, j, |d|);
      assert NoTerminator(e, j, |d|);
      assert ValueStart(e, j) && NoTerminator(e, j, |e|);
    }
    if OpenValue(e) {
      var j: nat :| ValueStart(e, j) && NoTerminator(e, j, |e|);
      if j <= |d| {
        assert NoTerminator(e, j, |d|);
        assert !IsTerminator(e[|d|]);
      }
    }
    if ValueStart(e, |d| + 1) {
      assert NoTerminator(e, |e|, |e|);
    }
  }

  lemma InValueStep(d: seq<byte>, c: byte)
    ensures forall k: nat :: k < |d| ==> InValue(d + [c], k) == InValue(d, k)
    ensures InValue(d + [c], |d|) == (OpenValue(d) && !IsTerminator(c))
  {
    var e := d + [c];
    Earlier(d, e);
    if OpenValue(d) && !IsTerminator(c) {
      var j: nat :| ValueStart(d, j) && NoTerminator(d, j, |d|);
      assert NoTerminator(e, j, |d|);
      assert ValueStart(e, j) && NoTerminator(e, j, |d| + 1);
    }
    if InValue(e, |d|) {
      var j: nat :| ValueStart(e, j) && j <= |d| && NoTerminator(e, j, |d| + 1);
      assert NoTerminator(e, j, |d|);
      assert !IsTerminator(e[|d|]);
    }
  }

  /** After a terminator nothing is matched and no value is open. */
  lemma AfterTerminator(d: seq<byte>, c: byte)
    requires IsTerminator(c)
    ensures LongestMatch(d + [c], 0) && !OpenValue(d + [c])
  {
    var e := d + [c];
    assert e[|e| - 1] == c;
    forall n | 0 < n < |PREFIX|
      ensures !EndsWith(e, n)
    {
      if n <= |e| {
        assert e[|e| - n + (n - 1)] == c != PREFIX[n - 1];
      }
    }
    forall j: nat | ValueStart(e, j)
      ensures !NoTerminator(e, j, |e|)
    {
      assert e[j - |PREFIX| + 8] == PREFIX[8];
    }
  }

  /** The matcher stands where the stream does: inside a value, or at its longest match. */
  ghost predicate Exact(m: Matcher, d: seq<byte>) {
    && (m.partial <==> OpenValue(d))
    && (!m.partial ==> LongestMatch(d, m.matched))
  }

  lemma ExactStep(m: Matcher, at: Place, d: seq<byte>, c: byte)
    requires Exact(m, d)
    ensures Exact(StepMatcher(m, at, c), d + [c])
  {
    OpenValueStep(d, c);
    if m.partial {
      if IsTerminator(c) {
        AfterTerminator(d, c);
      }
    } else {
      LongestMatchStep(d, m.matched, c);
    }
  }

  /** What a matcher remembers of the bytes before a scan, as a stream that leads to it. */
  function Before(m: Matcher): (p: seq<byte>)
    ensures |p| <= |PREFIX|
  {
    if m.partial then PREFIX else PREFIX[..m.matched]
  }

  lemma BeforeIsExact(m: Matcher)
    ensures Exact(m, Before(m))
    ensures forall k: nat :: !InValue(Before(m), k)
  {
    var p := Before(m);
    assert forall t :: 0 <= t < |p| ==> p[t] == PREFIX[t];
    if m.partial {
      assert ValueStart(p, |PREFIX|) && NoTerminator(p, |PREFIX|, |p|);
    } else {
      assert EndsWith(p, m.matched);
    }
  }

  /**
   The machine is exact, wherever a scan starts: outside every value, in the middle of a match, or in a
   value that an earlier buffer left open. It stands inside a value exactly when the stream does, its
   counter is the longest match, and it has zeroed exactly the bytes of values.
   */
  lemma {:induction false} ScanFrom(s: Scan, d: seq<byte>)
    requires s.bytes == []
    ensures Exact(Run(s, d).m, Before(s.m) + d)
    ensures Run(s, d).bytes == ScrubbedAfter(Before(s.m), d)
  {
    hide OpenValue, ScrubbedAfter, LongestMatch, StepMatcher, Before;
    var p := Before(s.m);
    if d == [] {
      BeforeIsExact(s.m);
      assert p + d == p;
    } else {
      var d0, c := d[..|d| - 1], d[|d| - 1];
      ScanFrom(s, d0);
      assert d == d0 + [c] && p + d == (p + d0) + [c];
      ExactStep(Run(s, d0).m, Run(s, d0).at, p + d0, c);
      ScrubbedStep(p, d0, c);
    }
  }

  lemma ScrubbedStep(p: seq<byte>, d: seq<byte>, c: byte)
    ensures ScrubbedAfter(p, d + [c])
         == ScrubbedAfter(p, d) + [if OpenValue(p + d) && !IsTerminator(c) then 0 else c]
  {
    hide OpenValue, InValue;
    assert p + (d + [c]) == (p + d) + [c];
    InValueStep(p + d, c);
  }

  /** d as it is left when p came before it: the bytes of values are zero, the others unchanged. */
  ghost function ScrubbedAfter(p: seq<byte>, d: seq<byte>): (r: seq<byte>)
    ensures |r| == |d|
    ensures forall k: nat :: k < |d| ==> r[k] == if InValue(p + d, |p| + k) then 0 else d[k]
  {
    seq(|d|, k requires 0 <= k < |d| => if InValue(p + d, |p| + k) then 0 else d[k])
  }

  /** The scrubbed form of a whole stream. */
  ghost function Scrubbed(d: seq<byte>): (r: seq<byte>)
    ensures |r| == |d|
    ensures forall k: nat :: k < |d| ==> r[k] == if InValue(d, k) then 0 else d[k]
  {
    assert [] + d == d;
    ScrubbedAfter([], d)
  }

  /** A scan that starts outside every value with nothing matched scrubs the stream by itself. */
  lemma ScanExact(s: Scan, d: seq<byte>)
    requires Fresh(s)
    ensures Exact(Run(s, d).m, d)
    ensures Run(s, d).bytes == Scrubbed(d)
  {
    hide Run;
    ScanFrom(s, d);
    assert Before(s.m) == [] && [] + d == d;
  }

  /** What a buffer leaves is what the next one starts from: scrubbing goes on across the cut. */
  lemma ScrubGoesOn(s: Scan, a: seq<byte>, b: seq<byte>)
    requires s.bytes == []
    ensures ScrubbedAfter(Before(s.m), a + b)
         == ScrubbedAfter(Before(s.m), a) + ScrubbedAfter(Before(Run(s, a).m), b)
  {
    hide Run, ScrubbedAfter;
    var s1 := Run(s, a);
    ScanFrom(s, a);
    ScanFrom(s, a + b);
    RunSplit(s, a, b);
    RunBytes(s1, b);
    ScanFrom(s1.(bytes := []), b);
  }

  /** A scrubbed buffer holds no value by itself. */
  lemma ScrubLeavesNoValue(p: seq<byte>, d: seq<byte>)
    ensures forall k: nat :: !InValue(ScrubbedAfter(p, d), k)
  {
    hide ScrubbedAfter;
    var o := ScrubbedAfter(p, d);
    forall k: nat
      ensures !InValue(o, k)
    {
      forall j: nat | ValueStart(o, j) && j <= k < |d|
        ensures !NoTerminator(o, j, k + 1)
      {
        ValueBehind(p, d, j, k);
      }
    }
  }

  /** A prefix that was left stood there before, so the value after it has been zeroed. */
  lemma ValueBehind(p: seq<byte>, d: seq<byte>, j: nat, k: nat)
    requires j <= k < |d| && ValueStart(ScrubbedAfter(p, d), j)
    ensures !NoTerminator(ScrubbedAfter(p, d), j, k + 1)
  {
    hide ScrubbedAfter;
    var (o, e) := (ScrubbedAfter(p, d), p + d);
    forall t | 0 <= t < |PREFIX|
      ensures e[|p| + j - |PREFIX| + t] == PREFIX[t]
    {
      assert o[j - |PREFIX| + t] == PREFIX[t];
    }
    if forall i :: j <= i < k + 1 ==> !IsTerminator(d[i]) {
      assert NoTerminator(e, |p| + j, |p| + k + 1) && ValueStart(e, |p| + j);
      assert InValue(e, |p| + k);
      assert IsTerminator(o[k]);
    } else {
      var i :| j <= i < k + 1 && IsTerminator(d[i]);
      assert IsTerminator(o[i]);
    }
  }

  /** Whatever a snoop has left, snooping it again from a fresh matcher changes no byte. */
  lemma ScrubIdempotent(s: Scan, f: Scan, d: seq<byte>)
    requires s.bytes == [] && Fresh(f)
    ensures Run(f, Run(s, d).bytes).bytes == Run(s, d).bytes
  {
    hide Run, ScrubbedAfter;
    var o := Run(s, d).bytes;
    ScanFrom(s, d);
    ScrubLeavesNoValue(Before(s.m), d);
    ScanExact(f, o);
  }
}
