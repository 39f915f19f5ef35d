/**
 The write-stream snooper as a machine that reads one byte at a time, and the proof that cutting a
 stream into buffers changes neither what is captured nor what is zeroed.
 */
module SnoopSpec {
  import opened Bytes

  /** "password:" */
  const PREFIX: seq<byte> := [0x70, 0x61, 0x73, 0x73, 0x77, 0x6f, 0x72, 0x64, 0x3a]
  const PASSWORD_MAX: nat := 128

  predicate IsTerminator(c: byte) {
    c == 0x0a || c == 0x0d || c == 0x00
  }

  /**
   The static variables of the snooper. `pending` says that the lock state is UNLOCK_PENDING;
   `len` saturates at PASSWORD_MAX + 1, which stands for every longer capture.
   */
  datatype MatcherState = MatcherState(pw: seq<byte>, len: nat, lba: nat, offset: nat,
                                       partial: bool, matched: nat, pending: bool)
  {
    predicate Valid() {
      && |pw| == PASSWORD_MAX
      && len <= PASSWORD_MAX + 1
      && matched < |PREFIX|
      && (partial ==> matched == 0)
      && (len == 0 ==> pw == Zeros(PASSWORD_MAX))
    }
  }

  type Matcher = m: MatcherState | m.Valid()
    witness MatcherState(Zeros(PASSWORD_MAX), 0, 0, 0, false, 0, false)

  /** After power-up. */
  const LOCKED_AND_EMPTY: Matcher := MatcherState(Zeros(PASSWORD_MAX), 0, 0, 0, false, 0, false)

  /** Where a byte stands: its sector and its offset in that sector. */
  datatype Place = Place(lba: nat, offset: nat)

  function Next(at: Place): Place {
    if at.offset + 1 == SECTOR_SIZE then Place(Add32(at.lba, 1), 0) else Place(at.lba, at.offset + 1)
  }

  function PlaceAt(lba: nat, n: nat): Place {
    Place(Add32(lba, n / SECTOR_SIZE), n % SECTOR_SIZE)
  }

  lemma NextPlace(lba: nat, n: nat)
    ensures Next(PlaceAt(lba, n)) == PlaceAt(lba, n + 1)
  {
    if n % SECTOR_SIZE + 1 == SECTOR_SIZE {
      assert (n + 1) / SECTOR_SIZE == n / SECTOR_SIZE + 1 && (n + 1) % SECTOR_SIZE == 0;
      Add32Assoc(lba, n / SECTOR_SIZE, 1);
    } else {
      assert (n + 1) / SECTOR_SIZE == n / SECTOR_SIZE && (n + 1) % SECTOR_SIZE == n % SECTOR_SIZE + 1;
    }
  }

  /** The matcher after some bytes, the place of the next byte, and the bytes as left in memory. */
  datatype Scan = Scan(m: Matcher, at: Place, bytes: seq<byte>)

  function Cleared(m: MatcherState): Matcher {
    m.(pw := Zeros(PASSWORD_MAX), len := 0, partial := false, matched := 0)
  }

  /** Forget a match in progress; a password already captured stays. */
  function Restarted(m: Matcher): Matcher {
    m.(partial := false, matched := 0)
  }

  function Capture(m: Matcher, c: byte): Matcher {
    m.(pw := if m.len < PASSWORD_MAX then m.pw[m.len := c] else m.pw,
       len := if m.len <= PASSWORD_MAX then m.len + 1 else m.len)
  }

  function Finish(m: Matcher): Matcher {
    if m.len == 0 then Cleared(m) else m.(pending := true, partial := false, matched := 0)
  }

  /** A complete prefix whose last byte is at `at`: the value starts right after it. */
  function Begin(m: Matcher, at: Place): Matcher {
    Cleared(m).(partial := true, lba := at.lba, offset := at.offset + 1)
  }

  function StepMatcher(m: Matcher, at: Place, c: byte): Matcher {
    if m.partial then
      if IsTerminator(c) then Finish(m) else Capture(m, c)
    else if c == PREFIX[m.matched] then
      if m.matched + 1 < |PREFIX| then m.(matched := m.matched + 1) else Begin(m, at)
    else
      m.(matched := if c == PREFIX[0] then 1 else 0)
  }

  function Step(s: Scan, c: byte): Scan {
    Scan(StepMatcher(s.m, s.at, c), Next(s.at),
         s.bytes + [if s.m.partial && !IsTerminator(c) then 0 else c])
  }

  function Run(s: Scan, d: seq<byte>): (r: Scan)
    ensures |r.bytes| == |s.bytes| + |d|
  {
    if d == [] then s else Step(Run(s, d[..|d| - 1]), d[|d| - 1])
  }

  // ---------- cutting a stream ----------

  lemma RunNothing(s: Scan)
    ensures Run(s, []) == s
  {
  }

  lemma RunOne(s: Scan, d: seq<byte>, c: byte)
    ensures Run(s, d + [c]) == Step(Run(s, d), c)
  {
    assert (d + [c])[..|d + [c]| - 1] == d;
  }

  lemma {:induction false} RunSplit(s: Scan, a: seq<byte>, b: seq<byte>)
    ensures Run(s, a + b) == Run(Run(s, a), b)
  {
    if b == [] {
      assert a + b == a;
    } else {
      var b0, c := b[..|b| - 1], b[|b| - 1];
      RunSplit(s, a, b0);
      AppendLast(a, b);
      RunOne(s, a + b0, c);
    }
  }

  /** What was scanned before neither changes nor influences what is scanned now. */
  lemma {:induction false} RunBytes(s: Scan, d: seq<byte>)
    ensures Run(s, d) == Run(s.(bytes := []), d).(bytes := s.bytes + Run(s.(bytes := []), d).bytes)
  {
    if d == [] {
    } else {
      RunBytes(s, d[..|d| - 1]);
    }
  }

  lemma {:induction false} RunPlace(s: Scan, lba: nat, n: nat, d: seq<byte>)
    requires s.at == PlaceAt(lba, n)
    ensures Run(s, d).at == PlaceAt(lba, n + |d|)
  {
    if d == [] {
    } else {
      RunPlace(s, lba, n, d[..|d| - 1]);
      NextPlace(lba, n + |d| - 1);
    }
  }

  // ---------- values ----------

  predicate NoTerminator(d: seq<byte>, from: nat, to: nat)
    requires to <= |d|
  {
    forall k :: from <= k < to ==> !IsTerminator(d[k])
  }

  /** What capturing the value v leaves in the password buffer and in the saturating length. */
  function Captured(m: Matcher, v: seq<byte>): Matcher
    requires NoTerminator(v, 0, |v|)
  {
    var n := Min(|v|, PASSWORD_MAX);
    m.(pw := v[..n] + Zeros(PASSWORD_MAX - n), len := Min(|v|, PASSWORD_MAX + 1))
  }

  /** Reading a value from just after the prefix: its first 128 bytes are kept, all are zeroed. */
  lemma {:induction false} RunValue(s: Scan, v: seq<byte>)
    requires s.m.partial && s.m.len == 0
    requires NoTerminator(v, 0, |v|)
    ensures Run(s, v).m == Captured(s.m, v)
    ensures Run(s, v).bytes == s.bytes + Zeros(|v|)
  {
    if v == [] {
      assert s.m.pw == [] + Zeros(PASSWORD_MAX);
    } else {
      var v0 := v[..|v| - 1];
      RunValue(s, v0);
      CapturedOne(s.m, v);
      assert s.bytes + Zeros(|v0|) + [0] == s.bytes + Zeros(|v|);
    }
  }

  lemma CapturedOne(m: Matcher, v: seq<byte>)
    requires v != [] && NoTerminator(v, 0, |v|)
    ensures Captured(m, v) == Capture(Captured(m, v[..|v| - 1]), v[|v| - 1])
  {
    var v0 := v[..|v| - 1];
    var n := Min(|v0|, PASSWORD_MAX);
    var pw0 := v0[..n] + Zeros(PASSWORD_MAX - n);
    if |v0| < PASSWORD_MAX {
      assert pw0[|v0| := v[|v0|]] == v[..|v|] + Zeros(PASSWORD_MAX - |v|);
    } else {
      assert v0[..PASSWORD_MAX] == v[..PASSWORD_MAX];
    }
  }

  // ---------- one call of the snooper ----------

  /** What one call leaves: the matcher, the address an adjacent write would have, the buffer. */
  datatype Snooped = Snooped(m: Matcher, nextLba: nat, bytes: seq<byte>)

  /** A value still open at the end of a buffer already makes the drive unlock-pending. */
  function EndOfBuffer(m: Matcher): Matcher {
    m.(pending := m.pending || m.partial)
  }

  function Start(m: Matcher, nextLba: nat, lba: nat): Scan {
    Scan(if lba == nextLba then m else Restarted(m), Place(lba, 0), [])
  }

  function SnoopWrite(m: Matcher, nextLba: nat, lba: nat, d: seq<byte>): (r: Snooped)
    ensures |r.bytes| == |d|
  {
    var scan := Run(Start(m, nextLba, lba), d);
    Snooped(EndOfBuffer(scan.m), Add32(lba, |d| / SECTOR_SIZE), scan.bytes)
  }

  /** The lock state is written by the machine and never read by it. */
  lemma {:induction false} RunPending(s: Scan, d: seq<byte>)
    ensures Run(s.(m := s.m.(pending := true)), d)
         == Run(s, d).(m := Run(s, d).m.(pending := true))
  {
    if d == [] {
    } else {
      RunPending(s, d[..|d| - 1]);
    }
  }

  /** A value left open and empty is forgotten, unless something makes the drive unlock-pending. */
  lemma {:induction false} NotPendingIsEmpty(s: Scan, d: seq<byte>)
    requires s.m.pending || s.m.partial || s.m.len == 0
    ensures var m := Run(s, d).m; m.pending || m.partial || m.len == 0
  {
    if d == [] {
    } else {
      NotPendingIsEmpty(s, d[..|d| - 1]);
    }
  }

  /** An open value with captured bytes makes the drive unlock-pending or stays open. */
  lemma {:induction false} OpenCaptureIsKept(s: Scan, d: seq<byte>)
    requires s.m.partial && s.m.len > 0
    ensures var m := Run(s, d).m; m.pending || (m.partial && m.len > 0)
  {
    if d == [] {
    } else {
      OpenCaptureIsKept(s, d[..|d| - 1]);
    }
  }

  /** Entering a buffer with the lock state that the end of the buffer before it has set. */
  lemma SecondBuffer(s: Scan, b: seq<byte>)
    ensures var through := Run(s, b);
            var cut := Run(s.(m := EndOfBuffer(s.m)), b);
            var (p, q) := (EndOfBuffer(cut.m).pending, EndOfBuffer(through.m).pending);
            && cut == through.(m := through.m.(pending := cut.m.pending))
            && (p != q <==> !q && s.m.partial && !through.m.partial)
            && (p != q ==> p && through.m.len == 0 && s.m.len == 0)
  {
    RunPending(s, b);
    if s.m.partial && !s.m.pending {
      NotPendingIsEmpty(s, b);
      if s.m.len > 0 {
        OpenCaptureIsKept(s, b);
      }
    } else {
      assert EndOfBuffer(s.m) == s.m;
      if s.m.pending {
        assert s.(m := s.m.(pending := true)) == s;
      }
    }
  }

  lemma AdjacentAddress(lba: nat, n1: nat, n2: nat)
    requires n1 % SECTOR_SIZE == 0
    ensures Add32(lba, (n1 + n2) / SECTOR_SIZE) == Add32(Add32(lba, n1 / SECTOR_SIZE), n2 / SECTOR_SIZE)
  {
    Add32Assoc(lba, n1 / SECTOR_SIZE, n2 / SECTOR_SIZE);
  }

  /**
   Snooping a, then the adjacent b, is snooping a + b in one call, except for the lock state. That can
   differ only if a ends inside a value that b ends, and then the two calls leave the drive
   unlock-pending with no password.
   */
  lemma {:induction false} TwoCalls(m: Matcher, nextLba: nat, lba: nat, a: seq<byte>, b: seq<byte>)
    requires lba < TWO32 && |a| % SECTOR_SIZE == 0
    ensures var first := SnoopWrite(m, nextLba, lba, a);
            var second := SnoopWrite(first.m, first.nextLba, first.nextLba, b);
            var whole := SnoopWrite(m, nextLba, lba, a + b);
            && whole.bytes == first.bytes + second.bytes
            && whole.nextLba == second.nextLba
            && second.m == whole.m.(pending := second.m.pending)
            && (second.m.pending != whole.m.pending <==>
                !whole.m.pending && first.m.partial && !whole.m.partial)
            && (second.m.pending != whole.m.pending ==> second.m.pending && second.m.len == 0)
  {
    var s1 := Run(Start(m, nextLba, lba), a);
    var next := Add32(lba, |a| / SECTOR_SIZE);
    assert s1.at == Place(next, 0) by { RunPlace(Start(m, nextLba, lba), lba, 0, a); }
    var clean := s1.(bytes := []);
    var through := Run(clean, b);
    assert Run(Start(m, nextLba, lba), a + b) == through.(bytes := s1.bytes + through.bytes) by {
      RunSplit(Start(m, nextLba, lba), a, b);
      RunBytes(s1, b);
    }
    assert Start(EndOfBuffer(s1.m), next, next) == clean.(m := EndOfBuffer(clean.m));
    assert Add32(lba, |a + b| / SECTOR_SIZE) == Add32(next, |b| / SECTOR_SIZE) by { AdjacentAddress(lba, |a|, |b|); }
    SecondBuffer(clean, b);
  }
}
