/** Finding the file a snooped password was written to, in its scrubbed form on the card. */
module UnlockFile {
  import opened Bytes
  import opened SnoopSpec
  import opened ScrubMeaning
  import opened Snooper

  const FILE_MAX_SIZE: nat := 256

  /** A file whose byte `offset` starts a zeroed value of the captured length, cut at end of file. */
  ghost predicate HoldsScrubbedPassword(file: seq<byte>, offset: nat, captured: nat) {
    && offset < |file| && ValueStart(file, offset)
    && var length := Min(captured, |file| - offset);
       && 1 <= length <= PASSWORD_MAX
       && (forall k :: offset <= k < offset + length ==> file[k] == 0)
       && (offset + length < |file| ==> IsTerminator(file[offset + length]))
  }

  method MatchesScrubbedPassword(contents: array<byte>, size: nat, passwordOffset: nat, passwordLen: nat)
    returns (found: bool, newLen: nat)
    requires size <= contents.Length
    ensures found <==> HoldsScrubbedPassword(contents[..size], passwordOffset, passwordLen)
    ensures newLen == if found then Min(passwordLen, size - passwordOffset) else passwordLen
  {
    var prefixLen := |PREFIX|;
    if passwordOffset < prefixLen || passwordOffset >= size {
      return false, passwordLen;
    }
    ghost var file := contents[..size];
    if contents[passwordOffset - prefixLen..passwordOffset] != PREFIX {
      assert exists t :: 0 <= t < prefixLen && contents[passwordOffset - prefixLen..passwordOffset][t] != PREFIX[t];
      return false, passwordLen;
    }
    assert ValueStart(file, passwordOffset) by {
      forall t | 0 <= t < prefixLen
        ensures file[passwordOffset - prefixLen + t] == PREFIX[t]
      {
        assert contents[passwordOffset - prefixLen..passwordOffset][t] == PREFIX[t];
      }
    }

    var length := passwordLen;
    if length > size - passwordOffset {
      length := size - passwordOffset;
    }
    if length == 0 || length > PASSWORD_MAX {
      return false, passwordLen;
    }

    var offset := 0;
    while offset < length
      invariant offset <= length
      invariant forall k :: passwordOffset <= k < passwordOffset + offset ==> file[k] == 0
    {
      if contents[passwordOffset + offset] != 0 {
        assert file[passwordOffset + offset] != 0;
        return false, passwordLen;
      }
      offset := offset + 1;
    }

    var end := passwordOffset + length;
    if end < size && contents[end] != 0x0d && contents[end] != 0x0a && contents[end] != 0 {
      return false, passwordLen;
    }
    return true, length;
  }

  // ---------- from a snooped stream to the file ----------

  /** Where the value that starts at `from` ends in d. */
  function ValueEnd(d: seq<byte>, from: nat): (end: nat)
    requires from <= |d|
    ensures from <= end <= |d| && NoTerminator(d, from, end)
    ensures end < |d| ==> IsTerminator(d[end])
    decreases |d| - from
  {
    if from == |d| || IsTerminator(d[from]) then from else ValueEnd(d, from + 1)
  }

  lemma ValueEndIs(d: seq<byte>, from: nat, to: nat)
    requires from <= to <= |d| && NoTerminator(d, from, to)
    ensures ValueEnd(d, from) >= to
    ensures to < |d| && IsTerminator(d[to]) ==> ValueEnd(d, from) == to
  {
    var end := ValueEnd(d, from);
    assert NoTerminator(d, from, end);
  }

  lemma PlaceInFirstSector(lba: nat, q: nat, j: nat)
    requires q % SECTOR_SIZE == 0 && 1 <= j <= SECTOR_SIZE
    ensures PlaceAt(lba, q + j - 1) == Place(Add32(lba, q / SECTOR_SIZE), j - 1)
  {
    hide Add32;
    assert (q + j - 1) / SECTOR_SIZE == q / SECTOR_SIZE && (q + j - 1) % SECTOR_SIZE == j - 1;
  }

  /** The only value of the stream d starts at v: every other complete prefix lies inside it. */
  ghost predicate OnlyValue(d: seq<byte>, v: nat) {
    && ValueStart(d, v)
    && forall k: nat :: ValueStart(d, k) ==> v <= k && NoTerminator(d, v, k)
  }

  /** Before the only value nothing is captured, so its prefix is seen. */
  lemma OnlyValueBegins(s: Scan, d: seq<byte>, v: nat, lba: nat)
    requires Fresh(s) && s.at == PlaceAt(lba, 0) && OnlyValue(d, v)
    ensures Run(s, d[..v]).m == ValueBegins(PlaceAt(lba, v - 1), Run(s, d[..v]).m.pending)
  {
    hide Run, PlaceAt, Step, NoTerminator;
    var d0 := d[..v - 1];
    ScanExact(s, d0);
    Earlier(d0, d);
    var m := Run(s, d0).m;
    AllButTheLast(d, v);
    assert m.matched == |PREFIX| - 1;
    SearchByte(s, d, v - 1, lba);
  }

  lemma AllButTheLast(d: seq<byte>, v: nat)
    requires ValueStart(d, v)
    ensures EndsWith(d[..v - 1], |PREFIX| - 1) && d[v - 1] == PREFIX[|PREFIX| - 1]
  {
    var d0 := d[..v - 1];
    forall t | 0 <= t < |PREFIX| - 1
      ensures d0[|d0| - (|PREFIX| - 1) + t] == PREFIX[t]
    {
      assert d[v - |PREFIX| + t] == PREFIX[t];
    }
    assert d[v - |PREFIX| + (|PREFIX| - 1)] == PREFIX[|PREFIX| - 1];
  }

  /** After the only value nothing that was captured changes. */
  lemma {:induction false} OnlyValueStays(s: Scan, d: seq<byte>, v: nat, end: nat, i: nat)
    requires Fresh(s) && OnlyValue(d, v)
    requires v <= end < i <= |d| && IsTerminator(d[end])
    ensures var (m, m') := (Run(s, d[..end + 1]).m, Run(s, d[..i]).m);
            m' == m.(matched := m'.matched, partial := false)
    decreases i
  {
    hide Run;
    forall i' | end < i' <= |d|
      ensures !Run(s, d[..i']).m.partial
    {
      ScanExact(s, d[..i']);
      Earlier(d[..i'], d);
      assert IsTerminator(d[..i'][end]);
    }
    if i == end + 1 {
    } else {
      OnlyValueStays(s, d, v, end, i - 1);
      RunAt(s, d, i - 1);
    }
  }

  /** What is kept of the only value of a stream: its place, its bytes, its saturated length. */
  lemma OnlyValueCaptured(s: Scan, d: seq<byte>, v: nat, lba: nat)
    requires Fresh(s) && s.at == PlaceAt(lba, 0) && OnlyValue(d, v)
    requires ValueEnd(d, v) > v
    ensures var m := EndOfBuffer(Run(s, d).m);
            && m.lba == PlaceAt(lba, v - 1).lba && m.offset == PlaceAt(lba, v - 1).offset + 1
            && m.len == Min(ValueEnd(d, v) - v, PASSWORD_MAX + 1) && |m.pw| == PASSWORD_MAX
            && m.pw[..Min(m.len, PASSWORD_MAX)] == d[v..v + Min(m.len, PASSWORD_MAX)]
            && m.pending
  {
    hide Run, PlaceAt, Captured, Finish, OnlyValue;
    var end := ValueEnd(d, v);
    OnlyValueBegins(s, d, v, lba);
    assert NoTerminator(d[v..end], 0, end - v);
    RunOverValue(s, d, v, end, |d|);
    CapturedFacts(Run(s, d[..v]).m, d, v, end);
    assert d[..|d|] == d;
    if end < |d| {
      OnlyValueStays(s, d, v, end, |d|);
    }
  }

  /** What capturing a value that follows its prefix keeps: its first bytes and its saturated length. */
  lemma CapturedFacts(m: Matcher, d: seq<byte>, from: nat, to: nat)
    requires from < to <= |d| && NoTerminator(d[from..to], 0, to - from)
    ensures var c := Captured(m, d[from..to]);
            var n := Min(c.len, PASSWORD_MAX);
            && c == m.(pw := c.pw, len := Min(to - from, PASSWORD_MAX + 1))
            && |c.pw| == PASSWORD_MAX && c.pw[..n] == d[from..from + n]
            && Finish(c) == c.(pending := true, partial := false, matched := 0)
  {
    var c := Captured(m, d[from..to]);
    assert c.pw[..Min(c.len, PASSWORD_MAX)] == d[from..to][..Min(c.len, PASSWORD_MAX)];
  }

  /** The file as the scrubbed stream holds it. */
  lemma {:induction false} OnlyValueScrubbed(d: seq<byte>, q: nat, size: nat, j: nat, p: nat)
    requires q + size <= |d| && |PREFIX| <= j && 1 <= p && j + p <= size
    requires OnlyValue(d, q + j) && NoTerminator(d, q + j, q + j + p)
    ensures var file := Scrubbed(d)[q..q + size];
            && ValueStart(file, j)
            && (forall k :: j <= k < j + p ==> file[k] == 0)
            && (j + p < size && IsTerminator(d[q + j + p]) ==> IsTerminator(file[j + p]))
  {
    hide Scrubbed;
    var v := q + j;
    var file := Scrubbed(d)[q..q + size];
    forall t | 0 <= t < |PREFIX|
      ensures file[j - |PREFIX| + t] == PREFIX[t]
    {
      assert d[v - |PREFIX| + t] == PREFIX[t];
      assert !InValue(d, v - |PREFIX| + t);
    }
    forall k | j <= k < j + p
      ensures file[k] == 0
    {
      assert ValueStart(d, v) && NoTerminator(d, v, q + k + 1);
      assert InValue(d, q + k);
    }
  }

  /**
   From the snooped stream back to the file: a file of at most 256 bytes at a sector start, with one
   password of 1 to 128 bytes that ends at a terminator or with the file, is accepted in its scrubbed
   form; its recorded place and the password's exact length come back, however far beyond the end of
   the file the capture ran.
   */
  lemma {:induction false} FileRoundTrip(s: Scan, stream: seq<byte>, lba: nat, q: nat, size: nat, j: nat, p: nat)
    requires Fresh(s) && s.at == PlaceAt(lba, 0)
    requires q % SECTOR_SIZE == 0 && size <= FILE_MAX_SIZE && q + size <= |stream|
    requires |PREFIX| <= j && 1 <= p <= PASSWORD_MAX && j + p <= size
    requires OnlyValue(stream, q + j) && NoTerminator(stream, q + j, q + j + p)
    requires j + p < size ==> IsTerminator(stream[q + j + p])
    ensures var m := EndOfBuffer(Run(s, stream).m);
            && m.lba == Add32(lba, q / SECTOR_SIZE) && m.offset == j
            && HoldsScrubbedPassword(Run(s, stream).bytes[q..q + size], j, m.len)
            && Min(m.len, size - j) == p
            && m.pw[..p] == stream[q + j..q + j + p]
            && m.pending
  {
    hide Run, Add32, PlaceAt, Scrubbed, OnlyValue, ValueStart, ValueEnd, NoTerminator, EndOfBuffer, Fresh;
    hide HoldsScrubbedPassword, IsTerminator, MatcherState.Valid;
    var v := q + j;
    PlaceInFirstSector(lba, q, j);
    ValueEndIs(stream, v, v + p);
    OnlyValueCaptured(s, stream, v, lba);
    PrefixOfSlice(EndOfBuffer(Run(s, stream).m).pw, stream, v, p, Min(ValueEnd(stream, v) - v, PASSWORD_MAX));
    OnlyValueHeld(stream, q, size, j, p, Min(ValueEnd(stream, v) - v, PASSWORD_MAX + 1));
    ScanExact(s, stream);
  }

  lemma PrefixOfSlice(a: seq<byte>, b: seq<byte>, at: nat, p: nat, n: nat)
    requires p <= n <= |a| && at + n <= |b| && a[..n] == b[at..at + n]
    ensures a[..p] == b[at..at + p]
  {
    assert a[..p] == a[..n][..p];
  }

  /** The scrubbed file is one that the firmware accepts, for the captured length. */
  lemma {:induction false} OnlyValueHeld(d: seq<byte>, q: nat, size: nat, j: nat, p: nat, captured: nat)
    requires q + size <= |d| && |PREFIX| <= j && 1 <= p <= PASSWORD_MAX && j + p <= size
    requires OnlyValue(d, q + j) && NoTerminator(d, q + j, q + j + p)
    requires j + p < size ==> IsTerminator(d[q + j + p])
    requires Min(captured, size - j) == p
    ensures HoldsScrubbedPassword(Scrubbed(d)[q..q + size], j, captured)
  {
    hide Scrubbed, OnlyValue, ValueStart, NoTerminator;
    OnlyValueScrubbed(d, q, size, j, p);
  }

  /** An empty password, or one of more than 128 bytes, is never accepted. */
  lemma FileRejected(s: Scan, stream: seq<byte>, lba: nat, q: nat, size: nat, j: nat, p: nat)
    requires Fresh(s) && s.at == PlaceAt(lba, 0)
    requires q % SECTOR_SIZE == 0 && size <= FILE_MAX_SIZE && q + size <= |stream|
    requires |PREFIX| <= j && j + p <= size && (p == 0 || p > PASSWORD_MAX)
    requires OnlyValue(stream, q + j) && NoTerminator(stream, q + j, q + j + p)
    requires j + p < size ==> IsTerminator(stream[q + j + p])
    ensures !HoldsScrubbedPassword(Run(s, stream).bytes[q..q + size], j, EndOfBuffer(Run(s, stream).m).len)
  {
    hide Run, PlaceAt, OnlyValue, ValueStart, NoTerminator;
    var v := q + j;
    ValueEndIs(stream, v, v + p);
    if p > PASSWORD_MAX {
      OnlyValueCaptured(s, stream, v, lba);
    } else if j < size {
      EmptyValueCaptured(s, stream, v, lba);
    }
  }

  lemma EmptyValueCaptured(s: Scan, d: seq<byte>, v: nat, lba: nat)
    requires Fresh(s) && s.at == PlaceAt(lba, 0) && OnlyValue(d, v)
    requires v < |d| && IsTerminator(d[v])
    ensures Run(s, d).m.len == 0
  {
    hide Run, PlaceAt;
    OnlyValueBegins(s, d, v, lba);
    RunAt(s, d, v);
    OnlyValueStays(s, d, v, v, |d|);
    assert d[..|d|] == d;
  }

  /** Which files are recognised again: exactly those with a password of 1 to 128 bytes. */
  lemma FileAccepted(s: Scan, stream: seq<byte>, lba: nat, q: nat, size: nat, j: nat, p: nat)
    requires Fresh(s) && s.at == PlaceAt(lba, 0)
    requires q % SECTOR_SIZE == 0 && size <= FILE_MAX_SIZE && q + size <= |stream|
    requires |PREFIX| <= j && j + p <= size
    requires OnlyValue(stream, q + j) && NoTerminator(stream, q + j, q + j + p)
    requires j + p < size ==> IsTerminator(stream[q + j + p])
    ensures HoldsScrubbedPassword(Run(s, stream).bytes[q..q + size], j, EndOfBuffer(Run(s, stream).m).len)
            <==> 1 <= p <= PASSWORD_MAX
  {
    hide Run, PlaceAt, Fresh, OnlyValue, NoTerminator, HoldsScrubbedPassword, EndOfBuffer;
    if 1 <= p <= PASSWORD_MAX {
      FileRoundTrip(s, stream, lba, q, size, j, p);
    } else {
      FileRejected(s, stream, lba, q, size, j, p);
    }
  }

  /** How a text file ends a line: LF, CR LF, CR, or a zero byte. */
  predicate IsLineEnd(e: seq<byte>) {
    e == [0x0a] || e == [0x0d, 0x0a] || e == [0x0d] || e == [0x00]
  }

  /** Bytes that a line may have. */
  predicate IsLineText(v: seq<byte>) {
    forall k :: 0 <= k < |v| ==> v[k] != 0x0a && v[k] != 0x0d && v[k] != 0x00
  }

  /** A sector with a file of one line: "password:", v, and the line end. */
  function OneLineFile(v: seq<byte>, e: seq<byte>): (d: seq<byte>)
    requires 9 + |v| + |e| <= SECTOR_SIZE
    ensures |d| == SECTOR_SIZE
  {
    [0x70, 0x61, 0x73, 0x73, 0x77, 0x6f, 0x72, 0x64, 0x3a] + v + e + Zeros(SECTOR_SIZE - (9 + |v| + |e|))
  }

  lemma OneLineIsOnlyValue(v: seq<byte>, e: seq<byte>)
    requires IsLineText(v) && IsLineEnd(e) && 9 + |v| + |e| <= SECTOR_SIZE
    ensures OnlyValue(OneLineFile(v, e), 9)
    ensures NoTerminator(OneLineFile(v, e), 9, 9 + |v|) && IsTerminator(OneLineFile(v, e)[9 + |v|])
    ensures OneLineFile(v, e)[9..9 + |v|] == v
  {
    var d := OneLineFile(v, e);
    assert forall k :: 9 <= k < 9 + |v| ==> d[k] == v[k - 9];
    assert forall k :: 9 + |v| <= k < 9 + |v| + |e| ==> d[k] == e[k - (9 + |v|)];
    assert forall k :: 9 + |v| <= k < |d| ==> d[k] == 0x0a || d[k] == 0x0d || d[k] == 0;
    forall k: nat | ValueStart(d, k)
      ensures k <= 9 + |v|
    {
      assert d[k - |PREFIX| + 8] == PREFIX[8];
    }
    assert forall t :: 0 <= t < |PREFIX| ==> d[t] == PREFIX[t];
    assert ValueStart(d, 9);
  }

  /**
   A saved line of 1 to 128 bytes: exactly these bytes are captured, whatever ends the line, and its
   scrubbed file is recognised again.
   */
  lemma OneLineCaptured(v: seq<byte>, e: seq<byte>, lba: nat)
    requires IsLineText(v) && IsLineEnd(e) && 1 <= |v| <= 128 && lba < TWO32
    ensures var r := SnoopWrite(LOCKED_AND_EMPTY, lba, lba, OneLineFile(v, e));
            && r.m.len == |v| && r.m.pw[..|v|] == v && r.m.lba == lba && r.m.offset == 9 && r.m.pending
            && HoldsScrubbedPassword(r.bytes[..9 + |v| + |e|], 9, |v|)
  {
    hide Run, OneLineFile, OnlyValue, NoTerminator, HoldsScrubbedPassword, EndOfBuffer, IsLineText, ValueEnd;
    var (d, size) := (OneLineFile(v, e), 9 + |v| + |e|);
    OneLineIsOnlyValue(v, e);
    assert PlaceAt(lba, 0) == Place(lba, 0) && Add32(lba, 0) == lba;
    FileRoundTrip(Start(LOCKED_AND_EMPTY, lba, lba), d, lba, 0, size, 9, |v|);
    ValueEndIs(d, 9, 9 + |v|);
    OnlyValueCaptured(Start(LOCKED_AND_EMPTY, lba, lba), d, 9, lba);
    var bytes := Run(Start(LOCKED_AND_EMPTY, lba, lba), d).bytes;
    assert bytes[0..size] == bytes[..size];
  }

  /** A file of one line is recognised again exactly if its password has 1 to 128 bytes. */
  lemma OneLineAccepted(v: seq<byte>, e: seq<byte>, lba: nat)
    requires IsLineText(v) && IsLineEnd(e) && 9 + |v| + |e| <= FILE_MAX_SIZE && lba < TWO32
    ensures var r := SnoopWrite(LOCKED_AND_EMPTY, lba, lba, OneLineFile(v, e));
            HoldsScrubbedPassword(r.bytes[..9 + |v| + |e|], 9, r.m.len) <==> 1 <= |v| <= 128
  {
    hide Run, OneLineFile, OnlyValue, NoTerminator, HoldsScrubbedPassword, EndOfBuffer, IsLineText;
    var size := 9 + |v| + |e|;
    OneLineIsOnlyValue(v, e);
    assert PlaceAt(lba, 0) == Place(lba, 0);
    FileAccepted(Start(LOCKED_AND_EMPTY, lba, lba), OneLineFile(v, e), lba, 0, size, 9, |v|);
    var bytes := Run(Start(LOCKED_AND_EMPTY, lba, lba), OneLineFile(v, e)).bytes;
    assert bytes[0..size] == bytes[..size];
  }

  /** A saved line without a password is not recognised. */
  lemma EmptyPasswordRejected(lba: nat)
    requires lba < TWO32
    ensures var r := SnoopWrite(LOCKED_AND_EMPTY, lba, lba, OneLineFile([], [0x0a]));
            !HoldsScrubbedPassword(r.bytes[..10], 9, r.m.len)
  {
    hide HoldsScrubbedPassword, SnoopWrite, OneLineFile;
    OneLineAccepted([], [0x0a], lba);
  }

  /** Neither is one with a password of 129 bytes. */
  lemma LongPasswordRejected(lba: nat)
    requires lba < TWO32
    ensures var v := seq(129, _ => 0x61);
            var r := SnoopWrite(LOCKED_AND_EMPTY, lba, lba, OneLineFile(v, [0x0a]));
            !HoldsScrubbedPassword(r.bytes[..139], 9, r.m.len)
  {
    hide HoldsScrubbedPassword, SnoopWrite, OneLineFile;
    var v: seq<byte> := seq(129, _ => 0x61);
    OneLineAccepted(v, [0x0a], lba);
    assert seq(129, _ => 0x61) == v;
  }
}
