/** The write-stream snooper as the firmware runs it: static state, buffers scanned in place. */
module Snooper {
  import opened Bytes
  import opened Lock
  import opened Memory
  import opened SnoopSpec

  /** The buffer holds d, scanned up to the end of scan.bytes. */
  ghost predicate Scanned(buf: array<byte>, scan: Scan, d: seq<byte>)
    reads buf
  {
    && |scan.bytes| <= buf.Length == |d|
    && (forall k :: 0 <= k < |scan.bytes| ==> buf[k] == scan.bytes[k])
    && (forall k :: |scan.bytes| <= k < |d| ==> buf[k] == d[k])
  }

  lemma ScannedOne(buf: array<byte>, before: Scan, after: Scan, d: seq<byte>)
    requires Scanned(buf, before, d) && |before.bytes| < |d|
    requires after.bytes == before.bytes + [d[|before.bytes|]]
    ensures Scanned(buf, after, d) && buf[|before.bytes|] == d[|before.bytes|]
  {
  }

  class Snooper {
    var lockState: LockState
    const pendingPw: array<byte>
    var pendingPwLen: nat
    var pendingPwLba: nat
    var pendingPwOffset: nat
    var pwPartial: bool
    var prefixMatchLen: nat
    var nextWriteLba: nat
    var startedMs: nat
    ghost var m: Matcher  // the variables above as a value of the byte-at-a-time machine

    ghost predicate Valid()
      reads this, pendingPw
    {
      && m == MatcherState(pendingPw[..], pendingPwLen, pendingPwLba, pendingPwOffset, pwPartial,
                           prefixMatchLen, lockState == UnlockPending)
      && (pwPartial ==> lockState != Locked)
    }

    constructor ()
      ensures Valid() && fresh(pendingPw) && lockState == Locked && nextWriteLba == 0
      ensures m == LOCKED_AND_EMPTY
    {
      pendingPw := new byte[PASSWORD_MAX](_ => 0);
      lockState, pendingPwLen, pendingPwLba, pendingPwOffset := Locked, 0, 0, 0;
      pwPartial, prefixMatchLen, nextWriteLba, startedMs := false, 0, 0, 0;
      m := LOCKED_AND_EMPTY;
    }

    method ClearPendingPassword()
      requires pendingPw.Length == PASSWORD_MAX
      modifies this`pendingPwLen, this`pwPartial, this`prefixMatchLen, this`m, pendingPw
      ensures Valid()
      ensures m == MatcherState(Zeros(PASSWORD_MAX), 0, pendingPwLba, pendingPwOffset, false, 0,
                                lockState == UnlockPending)
    {
      ClearBytes(pendingPw, 0, PASSWORD_MAX);
      assert pendingPw[..] == Zeros(PASSWORD_MAX);
      pendingPwLen := 0;
      pwPartial := false;
      prefixMatchLen := 0;
      m := MatcherState(Zeros(PASSWORD_MAX), 0, pendingPwLba, pendingPwOffset, false, 0,
                        lockState == UnlockPending);
    }

    method FinishPasswordSnoop(pwLen: nat)
      requires Valid() && pwLen == pendingPwLen && lockState != Unlocked
      modifies this`lockState, this`pendingPwLen, this`pwPartial, this`prefixMatchLen, this`m, pendingPw
      ensures Valid() && m == Finish(old(m)) && lockState != Unlocked
    {
      if pwLen == 0 {
        ClearPendingPassword();
        return;
      }
      lockState := UnlockPending;
      pwPartial := false;
      prefixMatchLen := 0;
      m := Finish(m);
    }

    /** An unlock attempt that has found the file keeps only the password's own bytes. */
    method TrimPassword(passwordLen: nat)
      requires Valid() && 0 < passwordLen <= PASSWORD_MAX
      modifies this`pendingPwLen, this`m
      ensures Valid() && m == old(m).(len := passwordLen)
    {
      pendingPwLen := passwordLen;
      m := m.(len := passwordLen);
    }

    /** Keeps one more byte of a value, as far as the password buffer and the counter go. */
    method CaptureByte(c: byte)
      requires Valid()
      modifies this`pendingPwLen, this`m, pendingPw
      ensures Valid() && m == Capture(old(m), c)
    {
      if pendingPwLen < PASSWORD_MAX {
        pendingPw[pendingPwLen] := c;
      }
      if pendingPwLen <= PASSWORD_MAX {
        pendingPwLen := pendingPwLen + 1;
      }
      m := Capture(m, c);
    }

    /** Takes up a value that an earlier buffer left open; returns where the search goes on. */
    method ContinuePartialPassword(buf: array<byte>, len: nat, ghost s: Scan, ghost d: seq<byte>)
      returns (start: nat)
      requires Valid() && pwPartial && lockState == UnlockPending
      requires len <= buf.Length && buf != pendingPw && d == buf[..]
      requires s.m == m && s.bytes == []
      modifies this`lockState, this`pendingPwLen, this`pwPartial, this`prefixMatchLen, this`m, pendingPw, buf
      ensures Valid() && lockState == UnlockPending
      ensures start <= len && (pwPartial ==> start == len)
      ensures m == Run(s, d[..start]).m && Scanned(buf, Run(s, d[..start]), d)
    {
      hide Run;
      var end := 0;
      var sawTerminator := false;
      assert d[..0] == [];
      RunNothing(s);
      while end < len
        invariant end <= len && !sawTerminator
        invariant Valid() && pwPartial && lockState == UnlockPending
        invariant forall k :: 0 <= k < |d| ==> buf[k] == d[k]
        invariant m == Run(s, d[..end]).m
        invariant forall k :: 0 <= k < end ==> Run(s, d[..end]).bytes[k] == 0
      {
        var c := buf[end];
        RunAt(s, d, end);
        if IsTerminator(c) {
          sawTerminator := true;
          break;
        }
        CaptureByte(c);
        end := end + 1;
      }

      ClearBytes(buf, 0, end);

      if sawTerminator {
        pwPartial := false;
        m := m.(partial := false);
        FinishPasswordSnoop(pendingPwLen);
        return end + 1;
      }
      return end;
    }

    /** Takes the value buf[pwStart..pwEnd] into the empty password buffer and zeroes it in place. */
    method TakeValue(buf: array<byte>, pwStart: nat, pwEnd: nat)
      requires Valid() && buf != pendingPw && m.len == 0 && m.pw == Zeros(PASSWORD_MAX)
      requires pwStart <= pwEnd <= buf.Length && NoTerminator(buf[pwStart..pwEnd], 0, pwEnd - pwStart)
      modifies this`pendingPwLen, this`m, pendingPw, buf
      ensures Valid() && m == Captured(old(m), old(buf[pwStart..pwEnd]))
      ensures forall k :: pwStart <= k < pwEnd ==> buf[k] == 0
      ensures forall k :: 0 <= k < buf.Length && !(pwStart <= k < pwEnd) ==> buf[k] == old(buf[k])
    {
      var pwLen := pwEnd - pwStart;
      var copyLen := if pwLen > PASSWORD_MAX then PASSWORD_MAX else pwLen;
      ghost var v := buf[pwStart..pwEnd];
      assert pendingPw[..] == Zeros(PASSWORD_MAX);
      forall k | 0 <= k < PASSWORD_MAX
        ensures pendingPw[k] == 0
      {
        assert pendingPw[k] == pendingPw[..][k];
      }
      assert buf[pwStart..pwStart + copyLen] == v[..copyLen];
      CopyBytes(pendingPw, 0, buf[pwStart..pwStart + copyLen]);
      assert pendingPw[..] == v[..copyLen] + Zeros(PASSWORD_MAX - copyLen);
      pendingPwLen := pwLen;
      if pendingPwLen > PASSWORD_MAX {
        pendingPwLen := PASSWORD_MAX + 1;
      }
      ClearBytes(buf, pwStart, pwLen);
      m := Captured(m, v);
    }

    /** Where the value that starts at `from` ends, and whether a terminator ends it. */
    static method FindValueEnd(buf: array<byte>, len: nat, from: nat) returns (end: nat, sawTerminator: bool)
      requires from <= len <= buf.Length
      ensures from <= end <= len && sawTerminator == (end < len)
      ensures forall k :: from <= k < end ==> !IsTerminator(buf[k])
      ensures sawTerminator ==> IsTerminator(buf[end])
    {
      end := from;
      sawTerminator := false;
      while end < len
        invariant from <= end <= len
        invariant forall k :: from <= k < end ==> !IsTerminator(buf[k])
      {
        if IsTerminator(buf[end]) {
          return end, true;
        }
        end := end + 1;
      }
    }

    /** Forgets what was captured and takes the value that starts after buf[i], up to its end. */
    method CaptureNewValue(buf: array<byte>, len: nat, i: nat, lba: nat, now: nat)
      returns (pwEnd: nat, sawTerminator: bool)
      requires pendingPw.Length == PASSWORD_MAX
      requires i < len <= buf.Length && buf != pendingPw
      modifies this`pendingPwLen, this`pwPartial, this`prefixMatchLen, this`m, this`startedMs
      modifies this`pendingPwLba, this`pendingPwOffset, pendingPw, buf
      ensures Valid() && startedMs == now
      ensures i < pwEnd <= len && sawTerminator == (pwEnd < len)
      ensures sawTerminator ==> IsTerminator(old(buf[pwEnd]))
      ensures NoTerminator(old(buf[i + 1..pwEnd]), 0, pwEnd - (i + 1))
      ensures m == Captured(ValueBegins(PlaceAt(lba, i), lockState == UnlockPending),
                            old(buf[i + 1..pwEnd])).(partial := false)
      ensures forall k :: i < k < pwEnd ==> buf[k] == 0
      ensures forall k :: 0 <= k < buf.Length && !(i < k < pwEnd) ==> buf[k] == old(buf[k])
    {
      hide Add32;
      ClearPendingPassword();
      startedMs := now;
      pendingPwLba := Add32(lba, i / SECTOR_SIZE);
      pendingPwOffset := i % SECTOR_SIZE + 1;
      m := ValueBegins(PlaceAt(lba, i), lockState == UnlockPending).(partial := false);

      pwEnd, sawTerminator := FindValueEnd(buf, len, i + 1);
      TakeValue(buf, i + 1, pwEnd);
    }

    /** Handles a complete prefix that ends at buf[i]; returns where its value ends. */
    method TakePassword(buf: array<byte>, len: nat, i: nat, lba: nat, now: nat,
                        ghost s: Scan, ghost d: seq<byte>) returns (pwEnd: nat)
      requires pendingPw.Length == PASSWORD_MAX && lockState != Unlocked
      requires i < len <= |d| == buf.Length && buf != pendingPw && s.bytes == []
      requires Run(s, d[..i + 1]).m == ValueBegins(PlaceAt(lba, i), lockState == UnlockPending)
      requires Scanned(buf, Run(s, d[..i + 1]), d)
      modifies this, pendingPw, buf
      ensures Valid() && lockState != Unlocked && nextWriteLba == old(nextWriteLba) && startedMs == now
      ensures i < pwEnd <= len && (pwPartial ==> pwEnd == len)
      ensures m == EndOfBuffer(Run(s, d[..Min(pwEnd + 1, len)]).m)
      ensures Scanned(buf, Run(s, d[..Min(pwEnd + 1, len)]), d)
    {
      hide Run, PlaceAt;
      var sawTerminator;
      pwEnd, sawTerminator := CaptureNewValue(buf, len, i, lba, now);
      ghost var v := d[i + 1..pwEnd];
      assert v == old(buf[i + 1..pwEnd]);
      ghost var full := Captured(Run(s, d[..i + 1]).m, v);
      assert m == full.(partial := false);
      RunOverValue(s, d, i + 1, pwEnd, len);

      if sawTerminator {
        FinishPasswordSnoop(pendingPwLen);
      } else {
        pwPartial := true;
        lockState := UnlockPending;
        m := EndOfBuffer(full);
      }
    }

    /** Compares one byte with the prefix; the prefix is complete when its last byte has matched. */
    method MatchByte(c: byte, ghost at: Place) returns (complete: bool)
      requires Valid() && !pwPartial
      modifies this`prefixMatchLen, this`m
      ensures complete ==> Searched(old(m), at, c) == ValueBegins(at, lockState == UnlockPending)
      ensures !complete ==> Valid() && m == Searched(old(m), at, c)
    {
      if c == PREFIX[prefixMatchLen] {
        prefixMatchLen := prefixMatchLen + 1;

        if prefixMatchLen < |PREFIX| {
          m := m.(matched := prefixMatchLen);
          return false;
        }
      } else {
        prefixMatchLen := if c == PREFIX[0] then 1 else 0;
        m := m.(matched := prefixMatchLen);
        return false;
      }
      return true;
    }

    /** Searches buf[start..len] for complete prefixes, captures their values and zeroes them. */
    method SnoopNewPassword(buf: array<byte>, len: nat, start: nat, lba: nat, now: nat,
                            ghost s: Scan, ghost d: seq<byte>)
      requires Valid() && lockState != Unlocked
      requires start <= len <= |d| == buf.Length && buf != pendingPw
      requires s.at == PlaceAt(lba, 0) && s.bytes == []
      requires pwPartial ==> start == len
      requires m == EndOfBuffer(Run(s, d[..start]).m)
      requires Scanned(buf, Run(s, d[..start]), d)
      modifies this, pendingPw, buf
      ensures Valid() && lockState != Unlocked && nextWriteLba == old(nextWriteLba)
      ensures startedMs == now || startedMs == old(startedMs)
      ensures m == EndOfBuffer(Run(s, d[..len]).m)
      ensures Scanned(buf, Run(s, d[..len]), d)
    {
      hide Run, PlaceAt, Step, Scanned, Searched;
      var i := start;
      while i < len
        invariant Valid() && lockState != Unlocked && nextWriteLba == old(nextWriteLba)
        invariant startedMs == now || startedMs == old(startedMs)
        invariant i <= len + 1 && (pwPartial ==> i >= len)
        invariant m == EndOfBuffer(Run(s, d[..Min(i, len)]).m)
        invariant Scanned(buf, Run(s, d[..Min(i, len)]), d)
      {
        SearchByte(s, d, i, lba);
        ScannedOne(buf, Run(s, d[..i]), Run(s, d[..i + 1]), d);
        var complete := MatchByte(buf[i], PlaceAt(lba, i));
        if !complete {
          i := i + 1;
          continue;
        }

        var pwEnd := TakePassword(buf, len, i, lba, now, s, d);
        i := pwEnd + 1;
      }
    }

    /**
     Snoops one buffer that is about to be written at `lba`: the buffer and the static state become
     what the byte-at-a-time machine makes of them.
     */
    method SnoopWrite(buf: array<byte>, len: nat, lba: nat, now: nat)
      requires Valid() && lockState != Unlocked
      requires len <= buf.Length && buf != pendingPw && lba < TWO32
      modifies this, pendingPw, buf
      ensures Valid() && lockState != Unlocked
      ensures startedMs == now || startedMs == old(startedMs)
      ensures Snooped(m, nextWriteLba, buf[..len])
           == SnoopSpec.SnoopWrite(old(m), old(nextWriteLba), lba, old(buf[..len]))
      ensures buf[len..] == old(buf[len..])
    {
      hide Run, Step;
      ghost var d := buf[..];
      ghost var s := Start(m, nextWriteLba, lba);
      if lba != nextWriteLba {
        pwPartial := false;
        prefixMatchLen := 0;
        m := Restarted(m);
      }
      nextWriteLba := Add32(lba, len / SECTOR_SIZE);

      assert d[..0] == [];
      RunNothing(s);
      var start := 0;
      if pwPartial {
        start := ContinuePartialPassword(buf, len, s, d);
      }

      SnoopNewPassword(buf, len, start, lba, now, s, d);
      assert buf[..len] == Run(s, d[..len]).bytes;
    }
  }

  /** The machine's state just after a complete prefix. */
  function ValueBegins(at: Place, pending: bool): Matcher {
    Begin(LOCKED_AND_EMPTY.(pending := pending), at)
  }

  /** Scanning the byte at i after those before it. */
  lemma RunAt(s: Scan, d: seq<byte>, i: nat)
    requires i < |d|
    ensures Run(s, d[..i + 1]) == Step(Run(s, d[..i]), d[i])
  {
    assert d[..i + 1] == d[..i] + [d[i]];
    RunOne(s, d[..i], d[i]);
  }

  /** What one byte outside a value makes of the matcher. */
  function Searched(m: Matcher, at: Place, c: byte): Matcher {
    StepMatcher(m.(partial := false), at, c)
  }

  /** Scanning the byte at i outside a value. */
  lemma SearchByte(s: Scan, d: seq<byte>, i: nat, lba: nat)
    requires i < |d| && s.at == PlaceAt(lba, 0)
    requires !Run(s, d[..i]).m.partial
    ensures |Run(s, d[..i]).bytes| == |s.bytes| + i
    ensures Run(s, d[..i + 1]).bytes == Run(s, d[..i]).bytes + [d[i]]
    ensures Run(s, d[..i + 1]).m == Searched(Run(s, d[..i]).m, PlaceAt(lba, i), d[i])
  {
    hide Run, PlaceAt;
    RunAt(s, d, i);
    RunPlace(s, lba, 0, d[..i]);
  }

  /** Scanning the value d[i..end] from just after its prefix, and the terminator if there is one. */
  lemma RunOverValue(s: Scan, d: seq<byte>, i: nat, end: nat, len: nat)
    requires s.bytes == []
    requires i <= end <= len <= |d| && NoTerminator(d[i..end], 0, end - i)
    requires Run(s, d[..i]).m.partial && Run(s, d[..i]).m.len == 0
    requires end < len ==> IsTerminator(d[end])
    ensures var m := Captured(Run(s, d[..i]).m, d[i..end]);
            Run(s, d[..Min(end + 1, len)]).m == if end < len then Finish(m) else m
    ensures var (before, after) := (Run(s, d[..i]).bytes, Run(s, d[..Min(end + 1, len)]).bytes);
            && |after| == Min(end + 1, len) && |before| == i
            && (forall k :: 0 <= k < i ==> after[k] == before[k])
            && (forall k :: i <= k < end ==> after[k] == 0)
            && (end < len ==> after[end] == d[end])
  {
    hide Run;
    assert d[..end] == d[..i] + d[i..end];
    RunSplit(s, d[..i], d[i..end]);
    RunValue(Run(s, d[..i]), d[i..end]);
    if end < len {
      RunAt(s, d, end);
    }
  }
}
