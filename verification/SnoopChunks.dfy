/** Cutting a stream into buffers: what stays the same, and exactly when the lock state does not. */
module SnoopChunks {
  import opened Bytes
  import opened SnoopSpec
  import opened ScrubMeaning

  /** e ends in a complete prefix, so that a value starts right after it. */
  ghost predicate EndsInPrefix(e: seq<byte>) {
    ValueStart(e, |e|)
  }

  /** Some value of e has a byte. */
  ghost predicate HasValueByte(e: seq<byte>) {
    exists k: nat :: InValue(e, k)
  }

  /** The drive is pending, or a value with a byte is open. */
  predicate Caught(m: Matcher) {
    m.pending || (m.partial && m.len > 0)
  }

  lemma CaughtStep(m: Matcher, at: Place, e: seq<byte>, c: byte)
    requires Exact(m, e) && (Caught(m) <==> HasValueByte(e))
    ensures Caught(StepMatcher(m, at, c)) <==> HasValueByte(e + [c])
  {
    hide OpenValue, HasValueByte, LongestMatch;
    OneMoreByte(e, c);
  }

  /** A buffer that finds the drive not pending makes it so by a byte of a value. */
  lemma {:induction false} PendingMeans(s: Scan, d: seq<byte>)
    requires s.bytes == [] && !s.m.partial && !s.m.pending
    ensures Caught(Run(s, d).m) <==> HasValueByte(Before(s.m) + d)
  {
    hide HasValueByte, Before, Exact, Caught, StepMatcher;
    var p := Before(s.m);
    if d == [] {
      NothingBefore(s.m);
      assert !Caught(s.m) by { NothingCaught(s.m); }
      assert p + d == p;
    } else {
      var d0, c := d[..|d| - 1], d[|d| - 1];
      PendingMeans(s, d0);
      ScanFrom(s, d0);
      assert p + d == (p + d0) + [c];
      CaughtStep(Run(s, d0).m, Run(s, d0).at, p + d0, c);
    }
  }

  lemma NothingCaught(m: Matcher)
    requires !m.partial && !m.pending
    ensures !Caught(m)
  {
  }

  lemma NothingBefore(m: Matcher)
    ensures !HasValueByte(Before(m))
  {
    BeforeIsExact(m);
  }

  lemma OneMoreByte(e: seq<byte>, c: byte)
    ensures HasValueByte(e + [c]) <==> HasValueByte(e) || (OpenValue(e) && !IsTerminator(c))
  {
    InValueStep(e, c);
    if HasValueByte(e) {
      var k: nat :| InValue(e, k);
      assert InValue(e + [c], k);
    }
    if HasValueByte(e + [c]) {
      var k: nat :| InValue(e + [c], k);
      assert k < |e| || k == |e|;
    }
    if OpenValue(e) && !IsTerminator(c) {
      assert InValue(e + [c], |e|);
    }
  }

  /** A value that is open at the end of e, and started before it, has the last byte of e. */
  lemma OpenHasByte(e: seq<byte>, b: seq<byte>, j: nat)
    requires j < |e| && ValueStart(e, j) && NoTerminator(e, j, |e|)
    ensures InValue(e + b, |e| - 1)
  {
    Earlier(e, e + b);
    assert ValueStart(e + b, j) && NoTerminator(e + b, j, |e|);
  }

  /** If no value of e has a byte, a value can only be open at the very end of e. */
  lemma OpenAndEmpty(e: seq<byte>, b: seq<byte>)
    requires !HasValueByte(e + b)
    ensures OpenValue(e) <==> EndsInPrefix(e)
  {
    if OpenValue(e) {
      var j: nat :| ValueStart(e, j) && NoTerminator(e, j, |e|);
      if j < |e| {
        OpenHasByte(e, b, j);
      }
    }
    if EndsInPrefix(e) {
      assert NoTerminator(e, |e|, |e|);
    }
  }

  /**
   The one stream on which a cut shows: the drive is not pending, a complete prefix ends exactly at the
   cut, and in the whole stream no value has a byte or is left open.
   */
  ghost predicate CutShows(m: Matcher, nextLba: nat, lba: nat, a: seq<byte>, b: seq<byte>) {
    var p := Before(Start(m, nextLba, lba).m);
    !m.pending && EndsInPrefix(p + a) && !OpenValue(p + (a + b)) && !HasValueByte(p + (a + b))
  }

  /**
   Snooping a, then the adjacent b, is snooping a + b in one call, except for the lock state; that
   differs exactly if the cut shows, and then the two calls leave the drive unlock-pending with no
   password. The drive is pending whenever a value is open, as every call leaves it.
   */
  lemma {:induction false} ChunkIndependence(m: Matcher, nextLba: nat, lba: nat, a: seq<byte>, b: seq<byte>)
    requires lba < TWO32 && |a| % SECTOR_SIZE == 0
    requires m.partial ==> m.pending
    ensures var first := SnoopWrite(m, nextLba, lba, a);
            var second := SnoopWrite(first.m, first.nextLba, first.nextLba, b);
            var whole := SnoopWrite(m, nextLba, lba, a + b);
            && whole.bytes == first.bytes + second.bytes
            && whole.nextLba == second.nextLba
            && second.m == whole.m.(pending := second.m.pending)
            && (second.m.pending != whole.m.pending <==> CutShows(m, nextLba, lba, a, b))
            && (second.m.pending != whole.m.pending ==> second.m.pending && second.m.len == 0)
  {
    hide Run, OpenValue, HasValueByte, EndsInPrefix;
    var s := Start(m, nextLba, lba);
    var p := Before(s.m);
    TwoCalls(m, nextLba, lba, a, b);
    ScanFrom(s, a);
    ScanFrom(s, a + b);
    if m.pending {
      StaysPending(s, a + b);
    } else {
      PendingMeans(s, a + b);
      assert p + (a + b) == (p + a) + b;
      if !HasValueByte(p + (a + b)) {
        OpenAndEmpty(p + a, b);
      }
    }
  }

  lemma StaysPending(s: Scan, d: seq<byte>)
    requires s.m.pending
    ensures Run(s, d).m.pending
  {
    RunPending(s, d);
    assert s.(m := s.m.(pending := true)) == s;
  }

  /** Every call leaves the drive pending if it leaves a value open. */
  lemma OpenIsPending(m: Matcher, nextLba: nat, lba: nat, d: seq<byte>)
    ensures var r := SnoopWrite(m, nextLba, lba, d).m; r.partial ==> r.pending
  {
    hide Run;
  }

  /** Zero bytes outside a match change nothing but the place. */
  lemma {:induction false} RunZeros(s: Scan, n: nat)
    requires !s.m.partial && s.m.matched == 0
    ensures Run(s, Zeros(n)).m == s.m
  {
    if n == 0 {
    } else {
      RunZeros(s, n - 1);
      assert Zeros(n) == Zeros(n - 1) + [0];
      RunOne(s, Zeros(n - 1), 0);
    }
  }

  lemma {:induction false} RunPartOfPrefix(s: Scan, k: nat)
    requires !s.m.partial && s.m.matched == 0 && k < |PREFIX|
    ensures Run(s, PREFIX[..k]).m == s.m.(matched := k)
  {
    if k == 0 {
    } else {
      RunPartOfPrefix(s, k - 1);
      assert PREFIX[..k] == PREFIX[..k - 1] + [PREFIX[k - 1]];
      RunOne(s, PREFIX[..k - 1], PREFIX[k - 1]);
    }
  }

  /**
   The exception is real: a sector that ends in the prefix, then one that starts with a terminator.
   One call leaves the drive locked, two calls leave it unlock-pending with no password.
   */
  lemma LockStateCanDiffer(lba: nat)
    requires lba < TWO32
    ensures var (a, b) := (Zeros(SECTOR_SIZE - |PREFIX|) + PREFIX, [0x0a] + Zeros(SECTOR_SIZE - 1));
            var first := SnoopWrite(LOCKED_AND_EMPTY, lba, lba, a);
            var second := SnoopWrite(first.m, first.nextLba, first.nextLba, b);
            && |a| == |b| == SECTOR_SIZE
            && second.m.pending && second.m.len == 0
            && !SnoopWrite(LOCKED_AND_EMPTY, lba, lba, a + b).m.pending
  {
    hide Run;
    var start := Start(LOCKED_AND_EMPTY, lba, lba);
    var zeros := Zeros(SECTOR_SIZE - |PREFIX|);
    var a, b := zeros + PREFIX, [0x0a] + Zeros(SECTOR_SIZE - 1);
    var s0 := Run(start, zeros);
    RunZeros(start, SECTOR_SIZE - |PREFIX|);
    RunSplit(start, zeros, PREFIX);
    RunPartOfPrefix(s0, |PREFIX| - 1);
    assert PREFIX == PREFIX[..|PREFIX| - 1] + [PREFIX[|PREFIX| - 1]];
    RunOne(s0, PREFIX[..|PREFIX| - 1], PREFIX[|PREFIX| - 1]);
    var s1 := Run(start, a);
    assert s1.m.partial && s1.m.len == 0 && !s1.m.pending;
    RunSplit(start, a, b);
    RunSplit(s1, [0x0a], Zeros(SECTOR_SIZE - 1));
    var c: byte := 0x0a;
    RunNothing(s1);
    RunOne(s1, [], c);
    assert [] + [c] == [c];
    assert Run(s1, [c]) == Step(s1, c);
    assert Step(s1, c).m == Cleared(s1.m);
    RunZeros(Run(s1, [c]), SECTOR_SIZE - 1);
    TwoCalls(LOCKED_AND_EMPTY, lba, lba, a, b);
  }
}
