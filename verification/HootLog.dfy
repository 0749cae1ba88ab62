/** The `hootty.log v1` file format: frames on disk, the decoder, and the windowed query. */
module HootLog {
  import opened Bytes

  const OUTPUT: byte := 1
  const RESIZE: byte := 2
  const SPACER: byte := 3
  const NEWLINE: byte := 0x0a

  /** Milliseconds as nanoseconds. */
  function Ns(ms: int): int {
    ms * 1_000_000
  }

  /** "# hootty.log v1" */
  const MAGIC: seq<byte> := [35, 32, 104, 111, 111, 116, 116, 121, 46, 108, 111, 103, 32, 118, 49]
  const PREAMBLE: seq<byte> := MAGIC + [NEWLINE, NEWLINE]

  // ---------------------------------------------------------------- frames on disk

  /** A payload whose length fits the 16-bit length field. */
  type Chunk = s: seq<byte> | |s| < 0x1_0000

  /** A frame as the recorder writes it. */
  datatype RawFrame =
    | OutputFrame(delta: u16, data: Chunk)
    | ResizeFrame(delta: u16, cols: u16, rows: u16)
    | SpacerFrame(advance: u32)
  {
    function Typ(): byte {
      if OutputFrame? then OUTPUT else if ResizeFrame? then RESIZE else SPACER
    }

    function Delta(): u16 {
      if SpacerFrame? then 0 else delta
    }

    function Payload(): Chunk {
      match this
      case OutputFrame(_, data) => data
      case ResizeFrame(_, cols, rows) => Le16(cols) + Le16(rows)
      case SpacerFrame(advance) => Le32(advance)
    }
  }

  /** Type, little-endian delta, little-endian length, payload. */
  function Encode(r: RawFrame): seq<byte> {
    [r.Typ()] + Le16(r.Delta()) + Le16(|r.Payload()|) + r.Payload()
  }

  function EncodeAll(rs: seq<RawFrame>): seq<byte> {
    if rs == [] then [] else Encode(rs[0]) + EncodeAll(rs[1..])
  }

  lemma {:induction false} EncodeAllSnoc(rs: seq<RawFrame>, r: RawFrame)
    ensures EncodeAll(rs + [r]) == EncodeAll(rs) + Encode(r)
  {
    if rs != [] {
      assert (rs + [r])[1..] == rs[1..] + [r];
      EncodeAllSnoc(rs[1..], r);
    }
  }

  // ---------------------------------------------------------------- scanning frames off a byte stream

  datatype Stop = Eof | BadMagic | BadSpacer(length: nat)

  /** A frame with the milliseconds since the previous one, idle spacers included. */
  datatype Gapped = Gapped(typ: byte, gap: nat, payload: seq<byte>)

  datatype Scan = Hit(frame: Gapped, rest: seq<byte>) | Miss(stop: Stop)

  datatype Scanned = Scanned(frames: seq<Gapped>, stop: Stop)

  /** One call of the decoder past the preamble: spacers are skipped, their time kept. */
  function NextRaw(s: seq<byte>): (r: Scan)
    ensures r.Hit? ==> |r.rest| < |s|
  {
    if |s| < 5 then Miss(Eof)
    else
      var n: nat := Le16At(s, 3);
      if |s| < 5 + n then Miss(Eof)
      else if s[0] == SPACER then
        if n != 4 then Miss(BadSpacer(n)) else Delay(Le32At(s, 5), NextRaw(s[9..]))
      else Hit(Gapped(s[0], Le16At(s, 1), s[5..5 + n]), s[5 + n..])
  }

  function Delay(ms: nat, r: Scan): Scan {
    if r.Hit? then r.(frame := r.frame.(gap := r.frame.gap + ms)) else r
  }

  function Lead(ms: nat, gs: seq<Gapped>): seq<Gapped> {
    if gs == [] then [] else [gs[0].(gap := gs[0].gap + ms)] + gs[1..]
  }

  /** Everything that repeated calls of the decoder return, before times are accumulated. */
  function RawFrames(s: seq<byte>): Scanned
    decreases |s|
  {
    match NextRaw(s)
    case Miss(stop) => Scanned([], stop)
    case Hit(f, rest) => Scanned([f] + RawFrames(rest).frames, RawFrames(rest).stop)
  }

  /** What a scan of encoded frames shows: spacers folded into the following frame. */
  function Gaps(rs: seq<RawFrame>): seq<Gapped> {
    if rs == [] then []
    else if rs[0].SpacerFrame? then Lead(rs[0].advance, Gaps(rs[1..]))
    else [Gapped(rs[0].Typ(), rs[0].delta, rs[0].Payload())] + Gaps(rs[1..])
  }

  lemma HeaderOf(typ: byte, delta: u16, payload: Chunk, tail: seq<byte>)
    ensures var s := [typ] + Le16(delta) + Le16(|payload|) + payload + tail;
      && |s| >= 5 + |payload| && s[0] == typ
      && Le16At(s, 1) == delta && Le16At(s, 3) == |payload|
      && s[5..5 + |payload|] == payload && s[5 + |payload|..] == tail
  {
    var s := [typ] + Le16(delta) + Le16(|payload|) + payload + tail;
    assert s == [typ, delta % 0x100, delta / 0x100, |payload| % 0x100, |payload| / 0x100] + payload + tail;
  }

  lemma NextOfEncoded(r: RawFrame, tail: seq<byte>)
    ensures NextRaw(Encode(r) + tail) ==
      if r.SpacerFrame? then Delay(r.advance, NextRaw(tail)) else Hit(Gapped(r.Typ(), r.delta, r.Payload()), tail)
  {
    HeaderOf(r.Typ(), r.Delta(), r.Payload(), tail);
    if r.SpacerFrame? {
      Le32RoundTrip(Encode(r) + tail, 5, r.advance);
    }
  }

  lemma DelayLeads(s: seq<byte>, tail: seq<byte>, ms: nat)
    requires NextRaw(s) == Delay(ms, NextRaw(tail))
    ensures RawFrames(s) == Scanned(Lead(ms, RawFrames(tail).frames), RawFrames(tail).stop)
  {
  }

  /** Scanning an encoded list shows exactly its frames, then the end of the file. */
  lemma {:induction false} ScanEncoded(rs: seq<RawFrame>)
    ensures RawFrames(EncodeAll(rs)) == Scanned(Gaps(rs), Eof)
  {
    if rs != [] {
      var tail := EncodeAll(rs[1..]);
      NextOfEncoded(rs[0], tail);
      ScanEncoded(rs[1..]);
      if rs[0].SpacerFrame? {
        DelayLeads(Encode(rs[0]) + tail, tail, rs[0].advance);
      }
    }
  }

  // ---------------------------------------------------------------- accumulating times

  /** A decoded frame; `at` is a duration in nanoseconds. */
  datatype Frame = Frame(typ: byte, at: int, payload: seq<byte>)

  datatype Decoded = Decoded(frames: seq<Frame>, stop: Stop)

  /** Accumulated milliseconds as a `time.Duration`, with int64 wrap-around. */
  function Duration(ms: u64): int {
    Int64(Ns(ms))
  }

  /** The decoder's own times: a uint64 millisecond counter shown as an int64 duration. */
  function Stamp(gs: seq<Gapped>, cum: u64): seq<Frame> {
    if gs == [] then []
    else
      var cum' := U64(cum + gs[0].gap);
      [Frame(gs[0].typ, Duration(cum'), gs[0].payload)] + Stamp(gs[1..], cum')
  }

  /** The reference times: the same frames with unbounded totals. */
  function TrueStamp(gs: seq<Gapped>, total: nat): seq<Frame> {
    if gs == [] then []
    else [Frame(gs[0].typ, Ns(total + gs[0].gap), gs[0].payload)] + TrueStamp(gs[1..], total + gs[0].gap)
  }

  function Frames(s: seq<byte>): Decoded {
    Decoded(Stamp(RawFrames(s).frames, 0), RawFrames(s).stop)
  }

  function TrueFrames(s: seq<byte>): seq<Frame> {
    TrueStamp(RawFrames(s).frames, 0)
  }

  /** The same frame as the decoder reports it: the time wraps to an int64. */
  function Wrapped(f: Frame): Frame {
    f.(at := Int64(f.at))
  }

  ghost predicate Wraps(d: seq<Frame>, t: seq<Frame>) {
    |d| == |t| && forall i | 0 <= i < |t| :: d[i] == Wrapped(t[i])
  }

  /** Times start no earlier than `from` and never fall. */
  ghost predicate Rising(fs: seq<Frame>, from: int) {
    && (forall i | 0 <= i < |fs| :: from <= fs[i].at)
    && (forall i, j | 0 <= i <= j < |fs| :: fs[i].at <= fs[j].at)
  }

  lemma WrapShift(x: int, q: int)
    ensures (x + q * 0x1_0000_0000_0000_0000) % 0x1_0000_0000_0000_0000 == x % 0x1_0000_0000_0000_0000
  {
  }

  lemma WrapSum(ms: nat, more: nat)
    ensures U64(U64(ms) + more) == U64(ms + more)
  {
    WrapShift(U64(ms) + more, ms / 0x1_0000_0000_0000_0000);
  }

  lemma WrapDuration(ms: nat)
    ensures Duration(U64(ms)) == Int64(Ns(ms))
  {
    var q := ms / 0x1_0000_0000_0000_0000;
    assert ms == q * 0x1_0000_0000_0000_0000 + U64(ms);
    assert Ns(ms) == Ns(q) * 0x1_0000_0000_0000_0000 + Ns(U64(ms));
    WrapShift(Ns(U64(ms)) + 0x8000_0000_0000_0000, Ns(q));
  }

  lemma {:induction false} StampWraps(gs: seq<Gapped>, total: nat)
    ensures Wraps(Stamp(gs, U64(total)), TrueStamp(gs, total))
    decreases |gs|
  {
    if gs != [] {
      WrapSum(total, gs[0].gap);
      WrapDuration(total + gs[0].gap);
      StampWraps(gs[1..], total + gs[0].gap);
    }
  }

  lemma {:induction false} TrueTimesRise(gs: seq<Gapped>, total: nat)
    ensures Rising(TrueStamp(gs, total), Ns(total))
    decreases |gs|
  {
    if gs != [] {
      TrueTimesRise(gs[1..], total + gs[0].gap);
    }
  }

  lemma {:induction false} StampPrefix(a: seq<Gapped>, b: seq<Gapped>, cum: u64)
    requires a <= b
    ensures Stamp(a, cum) <= Stamp(b, cum)
    decreases |a|
  {
    if a != [] {
      StampPrefix(a[1..], b[1..], U64(cum + a[0].gap));
    }
  }

  /** The last time fits a signed 64-bit count of nanoseconds. */
  predicate InRange(fs: seq<Frame>) {
    fs == [] || Last(fs).at < TWO63
  }

  lemma WrapsExactly(d: seq<Frame>, t: seq<Frame>)
    requires Wraps(d, t) && Rising(t, 0)
    ensures d == t <==> InRange(t)
  {
    if t != [] {
      assert d[|t| - 1] == Wrapped(Last(t)) && Int64(Last(t).at) < TWO63;
      if InRange(t) {
        forall i | 0 <= i < |t| ensures d[i] == t[i] {
          assert 0 <= t[i].at <= Last(t).at;
        }
      }
    }
  }

  /** For any frame stream at all: every decoded time is exact if and only if the last one fits an
      int64 duration, and then the decoded times never fall. */
  lemma TimesExactIffInRange(s: seq<byte>)
    ensures Frames(s).frames == TrueFrames(s) <==> InRange(TrueFrames(s))
    ensures InRange(TrueFrames(s)) ==> Rising(Frames(s).frames, 0)
  {
    StampWraps(RawFrames(s).frames, 0);
    TrueTimesRise(RawFrames(s).frames, 0);
    WrapsExactly(Frames(s).frames, TrueFrames(s));
  }

  // ---------------------------------------------------------------- the clock over a list of frames

  /** The milliseconds by which one frame moves the clock. */
  function Span(r: RawFrame): nat {
    if r.SpacerFrame? then r.advance else r.delta
  }

  function Total(rs: seq<RawFrame>): nat {
    if rs == [] then 0 else Span(rs[0]) + Total(rs[1..])
  }

  lemma LeadStamp(ms: nat, gs: seq<Gapped>, total: nat)
    ensures TrueStamp(Lead(ms, gs), total) == TrueStamp(gs, total + ms)
  {
  }

  /** The true times of a list, one frame at a time. */
  lemma StampCons(rs: seq<RawFrame>, total: nat)
    requires rs != []
    ensures var r, tail := rs[0], TrueStamp(Gaps(rs[1..]), total + Span(rs[0]));
      TrueStamp(Gaps(rs), total) ==
      if r.SpacerFrame? then tail else [Frame(r.Typ(), Ns(total + r.delta), r.Payload())] + tail
  {
    if rs[0].SpacerFrame? {
      LeadStamp(rs[0].advance, Gaps(rs[1..]), total);
    }
  }

  lemma {:induction false} StampBefore(rs: seq<RawFrame>, total: nat)
    ensures forall f | f in TrueStamp(Gaps(rs), total) :: f.at <= Ns(total + Total(rs))
    decreases |rs|
  {
    if rs != [] {
      StampBefore(rs[1..], total + Span(rs[0]));
      StampCons(rs, total);
    }
  }

  /** Within the clock's range the decoder shows a recorded list at its true times, then end of file. */
  lemma DecodeRecorded(log: seq<RawFrame>)
    requires Ns(Total(log)) < TWO63
    ensures Decode(PREAMBLE + EncodeAll(log)) == Decoded(TrueStamp(Gaps(log), 0), Eof)
  {
    BodyAfterPreamble(EncodeAll(log));
    ScanEncoded(log);
    StampBefore(log, 0);
    TimesExactIffInRange(EncodeAll(log));
    var t := TrueStamp(Gaps(log), 0);
    assert t != [] ==> Last(t) in t;
  }

  /** `n` full spacers, then one output frame. */
  function LongIdle(n: nat): seq<RawFrame> {
    if n == 0 then [OutputFrame(0, [])] else [SpacerFrame(0xffff_ffff)] + LongIdle(n - 1)
  }

  lemma {:induction false} LongIdleGap(n: nat)
    ensures Gaps(LongIdle(n)) == [Gapped(OUTPUT, n * 0xffff_ffff, [])]
  {
    if n > 0 {
      LongIdleGap(n - 1);
    }
  }

  /** A family of valid files whose decoded time is wrong: from 2148 full spacers on, the frame's int64
      duration overflows. */
  lemma LongIdleOverflows(n: nat)
    requires n >= 2148
    ensures var s := EncodeAll(LongIdle(n));
      !InRange(TrueFrames(s)) && Decode(PREAMBLE + s) == Decoded(Frames(s).frames, Eof) && Frames(s).frames != TrueFrames(s)
  {
    BodyAfterPreamble(EncodeAll(LongIdle(n)));
    var s, g := EncodeAll(LongIdle(n)), Gapped(OUTPUT, n * 0xffff_ffff, []);
    ScanEncoded(LongIdle(n));
    LongIdleGap(n);
    assert TrueStamp([g], 0)[0].at == Ns(n * 0xffff_ffff) >= TWO63;
    TimesExactIffInRange(s);
  }

  // ---------------------------------------------------------------- whole files

  /** The length of the preamble: the first blank line, no later than byte 4097. */
  function BlankLine(s: seq<byte>, n: nat): (r: Option<nat>)
    requires n <= |s|
    ensures r.Some? ==> n < r.value <= |s|
    decreases |s| - n
  {
    if n > 4096 || n == |s| then None
    else if n >= 1 && s[n] == NEWLINE && s[n - 1] == NEWLINE then Some(n + 1)
    else BlankLine(s, n + 1)
  }

  predicate MagicOk(buf: seq<byte>) {
    |buf| > |MAGIC| && buf[..|MAGIC|] == MAGIC && buf[|MAGIC|] == NEWLINE
  }

  /** The bytes after a well-formed preamble. */
  function Body(file: seq<byte>): Option<seq<byte>> {
    match BlankLine(file, 0)
    case None => None
    case Some(n) => if MagicOk(file[..n]) then Some(file[n..]) else None
  }

  /** A whole file through a fresh decoder. */
  function Decode(file: seq<byte>): Decoded {
    match Body(file)
    case None => Decoded([], BadMagic)
    case Some(body) => Frames(body)
  }

  lemma {:induction false} BlankLineAt(s: seq<byte>, n: nat, at: nat)
    requires n <= at < |s| && 1 <= at <= 4096
    requires s[at] == NEWLINE && s[at - 1] == NEWLINE
    requires forall k | 1 <= k < at :: s[k] != NEWLINE || s[k - 1] != NEWLINE
    ensures BlankLine(s, n) == Some(at + 1)
    decreases at - n
  {
    if n < at {
      BlankLineAt(s, n + 1, at);
    }
  }

  /** A file that starts with the recorder's preamble is that preamble and its frames. */
  lemma BodyAfterPreamble(body: seq<byte>)
    ensures Body(PREAMBLE + body) == Some(body)
  {
    var file := PREAMBLE + body;
    assert forall k | 0 <= k < 17 :: file[k] == PREAMBLE[k];
    assert forall k | 0 <= k < 15 :: MAGIC[k] != NEWLINE;
    BlankLineAt(file, 0, 16);
    assert file[..17] == PREAMBLE && file[17..] == body;
  }

  // ---------------------------------------------------------------- crash truncation

  /** The scan of `s` cut at `k` bytes agrees with the scan of `s` until the bytes run out. */
  ghost predicate CutScan(s: seq<byte>, k: nat, cut: Scan, whole: Scan)
    requires k <= |s|
  {
    || cut == Miss(Eof)
    || (cut == whole && whole.Miss?)
    || (cut.Hit? && whole.Hit? && cut.frame == whole.frame && |whole.rest| < |s| && |s| - |whole.rest| <= k
        && cut.rest == whole.rest[..k - (|s| - |whole.rest|)])
  }

  lemma {:induction false} NextOnPrefix(s: seq<byte>, k: nat)
    requires k <= |s|
    ensures CutScan(s, k, NextRaw(s[..k]), NextRaw(s))
    decreases |s|
  {
    var p := s[..k];
    if k >= 5 {
      var n: nat := Le16At(s, 3);
      assert p[0] == s[0] && p[1] == s[1] && p[2] == s[2] && p[3] == s[3] && p[4] == s[4];
      if k >= 5 + n {
        if s[0] == SPACER {
          if n == 4 {
            assert p[5] == s[5] && p[6] == s[6] && p[7] == s[7] && p[8] == s[8];
            assert p[9..] == s[9..][..k - 9];
            NextOnPrefix(s[9..], k - 9);
          }
        } else {
          assert p[5..5 + n] == s[5..5 + n];
          assert p[5 + n..] == s[5 + n..][..k - 5 - n];
        }
      }
    }
  }

  /** Any prefix of any byte stream scans to a prefix of its frames. */
  lemma {:induction false} RawFramesOnPrefix(s: seq<byte>, k: nat)
    requires k <= |s|
    ensures RawFrames(s[..k]).frames <= RawFrames(s).frames
    ensures RawFrames(s[..k]).stop in {Eof, RawFrames(s).stop}
    decreases |s|
  {
    NextOnPrefix(s, k);
    var cut, whole := NextRaw(s[..k]), NextRaw(s);
    if cut.Hit? {
      RawFramesOnPrefix(whole.rest, k - (|s| - |whole.rest|));
    }
  }

  /** Any byte stream cut anywhere decodes to a prefix of its frames with the same times, then to end of
      file or to the error the whole stream ends in. */
  lemma FramesOnPrefix(s: seq<byte>, k: nat)
    requires k <= |s|
    ensures Frames(s[..k]).frames <= Frames(s).frames
    ensures Frames(s[..k]).stop in {Eof, Frames(s).stop}
  {
    RawFramesOnPrefix(s, k);
    StampPrefix(RawFrames(s[..k]).frames, RawFrames(s).frames, 0);
  }

  /** A recording cut anywhere after its preamble decodes to a prefix of the full recording's frames with
      the same times, and then to end of file, never to an error. */
  lemma CrashTruncation(log: seq<RawFrame>, k: nat)
    requires |PREAMBLE| <= k <= |PREAMBLE + EncodeAll(log)|
    ensures var file := PREAMBLE + EncodeAll(log);
      && Decode(file[..k]).frames <= Decode(file).frames
      && Decode(file[..k]).stop == Eof == Decode(file).stop
  {
    var body := EncodeAll(log);
    ScanEncoded(log);
    FramesOnPrefix(body, k - |PREAMBLE|);
    DecodeOnPrefix(body, k);
  }

  lemma DecodeOnPrefix(body: seq<byte>, k: nat)
    requires |PREAMBLE| <= k <= |PREAMBLE + body|
    ensures Decode(PREAMBLE + body) == Frames(body)
    ensures Decode((PREAMBLE + body)[..k]) == Frames(body[..k - |PREAMBLE|])
  {
    var cut := body[..k - |PREAMBLE|];
    assert (PREAMBLE + body)[..k] == PREAMBLE + cut;
    BodyAfterPreamble(body);
    BodyAfterPreamble(cut);
  }

  // ---------------------------------------------------------------- the windowed query

  datatype Event = Event(at: int, data: seq<byte>)

  function Outputs(fs: seq<Frame>): seq<Event> {
    if fs == [] then []
    else (if fs[0].typ == OUTPUT then [Event(fs[0].at, fs[0].payload)] else []) + Outputs(fs[1..])
  }

  function LastAt(fs: seq<Frame>): (r: int)
    ensures r >= 0
  {
    if fs == [] then 0
    else
      var r := LastAt(Front(fs));
      if Last(fs).at > r then Last(fs).at else r
  }

  /** Drop leading events before the cutoff. */
  function DropBefore(es: seq<Event>, cutoff: int): seq<Event> {
    if es != [] && es[0].at < cutoff then DropBefore(es[1..], cutoff) else es
  }

  /** Keep every event at or after the cutoff. */
  function KeepFrom(es: seq<Event>, cutoff: int): seq<Event> {
    if es == [] then []
    else (if es[0].at >= cutoff then [es[0]] else []) + KeepFrom(es[1..], cutoff)
  }

  /** The source's window selection over the events it decoded. */
  function Window(es: seq<Event>, last: int, window: int): seq<Event> {
    if window <= 0 || es == [] || last - window <= 0 then es else DropBefore(es, last - window)
  }

  /** The promise: the output events of the final window, by true times. */
  function TrueWindow(fs: seq<Frame>, window: int): seq<Event> {
    if fs == [] then [] else KeepFrom(Outputs(fs), Last(fs).at - window)
  }

  /** Every time is a whole number of milliseconds. */
  ghost predicate WholeMs(fs: seq<Frame>) {
    forall i | 0 <= i < |fs| :: fs[i].at % 1_000_000 == 0
  }

  ghost predicate Sorted(es: seq<Event>) {
    forall i, j | 0 <= i <= j < |es| :: es[i].at <= es[j].at
  }

  lemma {:induction false} KeepIsDrop(es: seq<Event>, cutoff: int)
    requires Sorted(es)
    ensures KeepFrom(es, cutoff) == DropBefore(es, cutoff)
  {
    if es != [] {
      KeepIsDrop(es[1..], cutoff);
    }
  }

  lemma {:induction false} OutputsRise(fs: seq<Frame>, from: int)
    requires Rising(fs, from)
    ensures var es := Outputs(fs);
      && Sorted(es)
      && (forall i | 0 <= i < |es| :: from <= es[i].at)
      && (fs != [] && es != [] ==> Last(es).at <= Last(fs).at)
  {
    if fs != [] {
      OutputsRise(fs[1..], fs[0].at);
    }
  }

  lemma {:induction false} OutputsWhole(fs: seq<Frame>)
    requires WholeMs(fs)
    ensures forall i | 0 <= i < |Outputs(fs)| :: Outputs(fs)[i].at % 1_000_000 == 0
  {
    if fs != [] {
      OutputsWhole(fs[1..]);
    }
  }

  lemma {:induction false} StampWhole(gs: seq<Gapped>, total: nat)
    ensures WholeMs(TrueStamp(gs, total))
    decreases |gs|
  {
    if gs != [] {
      StampWhole(gs[1..], total + gs[0].gap);
    }
  }

  lemma {:induction false} OutputsWrapped(d: seq<Frame>, t: seq<Frame>)
    requires Wraps(d, t)
    ensures |Outputs(d)| == |Outputs(t)|
    ensures forall i | 0 <= i < |Outputs(t)| :: Outputs(d)[i].at == Int64(Outputs(t)[i].at)
  {
    if t != [] {
      OutputsWrapped(d[1..], t[1..]);
    }
  }

  lemma {:induction false} DropKeepsLast(es: seq<Event>, cutoff: int)
    ensures es != [] && Last(es).at >= cutoff ==> DropBefore(es, cutoff) != []
    ensures DropBefore(es, cutoff) != [] ==> es != [] && Last(DropBefore(es, cutoff)) == Last(es)
    ensures es != [] && Sorted(es) && Last(es).at < cutoff ==> DropBefore(es, cutoff) == []
  {
    if es != [] {
      DropKeepsLast(es[1..], cutoff);
    }
  }

  lemma {:induction false} LastAtRising(fs: seq<Frame>)
    requires Rising(fs, 0)
    ensures LastAt(fs) == if fs == [] then 0 else Last(fs).at
  {
    if fs != [] {
      LastAtRising(Front(fs));
    }
  }

  /** In range, the query is exactly the filter. */
  lemma WindowIsFilter(t: seq<Frame>, w: int)
    requires w > 0 && Rising(t, 0)
    ensures Window(Outputs(t), LastAt(t), w) == TrueWindow(t, w)
  {
    OutputsRise(t, 0);
    LastAtRising(t);
    if t != [] {
      var es, cutoff := Outputs(t), Last(t).at - w;
      KeepIsDrop(es, cutoff);
      if cutoff <= 0 && es != [] {
        assert es[0].at >= 0;
      }
    }
  }

  lemma {:induction false} LastAtBelow(fs: seq<Frame>)
    requires forall i | 0 <= i < |fs| :: fs[i].at < TWO63
    ensures LastAt(fs) < TWO63
  {
    if fs != [] {
      LastAtBelow(Front(fs));
    }
  }

  /** Out of range, some window gives a wrong answer. */
  lemma OutOfRangeWindow(d: seq<Frame>, t: seq<Frame>) returns (w: int)
    requires Wraps(d, t) && Rising(t, 0) && WholeMs(t) && !InRange(t) && Outputs(t) != []
    ensures 0 < w < TWO63 && Window(Outputs(d), LastAt(d), w) != TrueWindow(t, w)
  {
    OutputsRise(t, 0);
    OutputsWhole(t);
    OutputsWrapped(d, t);
    LastAtBelow(d);
    var got, want, last := Outputs(d), Outputs(t), LastAt(d);
    w := MisleadingWindow(got, want, last, Last(t).at);
  }

  lemma MisleadingWindow(got: seq<Event>, want: seq<Event>, last: int, end: int) returns (w: int)
    requires want != [] && Sorted(want) && 0 <= Last(want).at <= end && Last(want).at != TWO63 - 1
    requires got != [] && Last(got).at == Int64(Last(want).at)
    requires 0 <= last < TWO63 <= end
    ensures 0 < w < TWO63 && Window(got, last, w) != KeepFrom(want, end - w)
  {
    var e := Last(want).at;
    w := if e >= TWO63 then TWO63 - 1 else if last > e then last - e else 1;
    assert e >= TWO63 ==> Last(got).at < TWO63;
    assert e < TWO63 ==> e < end - w && Last(got).at == e;
    WindowDiffers(got, want, last, end, w);
  }

  lemma WindowDiffers(got: seq<Event>, want: seq<Event>, last: int, end: int, w: int)
    requires got != [] && (Last(got).at >= last - w || last - w <= 0)
    requires want != [] && Sorted(want) && (Last(want).at < end - w || Last(want).at != Last(got).at)
    ensures Window(got, last, w) != KeepFrom(want, end - w)
  {
    WindowHasLast(got, last, w);
    KeepIsDrop(want, end - w);
    DropKeepsLast(want, end - w);
  }

  lemma WindowHasLast(es: seq<Event>, last: int, w: int)
    requires es != [] && (Last(es).at >= last - w || last - w <= 0)
    ensures Window(es, last, w) != [] && Last(Window(es, last, w)) == Last(es)
  {
    DropKeepsLast(es, last - w);
  }

  /** For any frame stream: every positive window is answered exactly, if and only if the stream holds
      no output or its last frame's time fits an int64 duration. */
  lemma WindowQueryExact(s: seq<byte>)
    ensures var d, t := Frames(s).frames, TrueFrames(s);
      (forall w | 0 < w < TWO63 :: Window(Outputs(d), LastAt(d), w) == TrueWindow(t, w))
      <==> (InRange(t) || Outputs(t) == [])
  {
    StampWraps(RawFrames(s).frames, 0);
    TrueTimesRise(RawFrames(s).frames, 0);
    StampWhole(RawFrames(s).frames, 0);
    WindowExact(Frames(s).frames, TrueFrames(s));
  }

  lemma WindowExact(d: seq<Frame>, t: seq<Frame>)
    requires Wraps(d, t) && Rising(t, 0) && WholeMs(t)
    ensures (forall w | 0 < w < TWO63 :: Window(Outputs(d), LastAt(d), w) == TrueWindow(t, w))
      <==> (InRange(t) || Outputs(t) == [])
  {
    WrapsExactly(d, t);
    OutputsWrapped(d, t);
    if InRange(t) {
      forall w | 0 < w < TWO63 ensures Window(Outputs(d), LastAt(d), w) == TrueWindow(t, w) {
        WindowIsFilter(t, w);
      }
    } else if Outputs(t) != [] {
      var w := OutOfRangeWindow(d, t);
    }
  }

  // ---------------------------------------------------------------- the decoder as an object

  datatype Result<+T> = Ok(value: T) | Err(stop: Stop)

  /** What the decoder will return past the preamble. */
  function Rest(s: seq<byte>, cum: u64): Decoded {
    Decoded(Stamp(RawFrames(s).frames, cum), RawFrames(s).stop)
  }

  lemma RestUnfolds(s: seq<byte>, cum: u64)
    ensures match NextRaw(s)
      case Miss(stop) => Rest(s, cum) == Decoded([], stop)
      case Hit(g, rest) =>
        var cum' := U64(cum + g.gap);
        Rest(s, cum) == Decoded([Frame(g.typ, Duration(cum'), g.payload)] + Rest(rest, cum').frames, Rest(rest, cum').stop)
  {
    match NextRaw(s)
    case Miss(_) =>
    case Hit(g, rest) =>
      assert RawFrames(s).frames == [g] + RawFrames(rest).frames;
  }

  /** The decoder over a reader, modelled as the bytes it has yet to deliver. */
  class FrameDecoder {
    var input: seq<byte>
    var preambleParsed: bool
    var cumMs: u64
    var scratch: seq<byte>

    /** The frames that the calls of Next still to come will return, and how they end. */
    ghost var pending: Decoded

    ghost predicate Valid()
      reads this
    {
      pending == if preambleParsed then Rest(input, cumMs) else Decode(input)
    }

    constructor (file: seq<byte>)
      ensures Valid() && pending == Decode(file) && input == file
    {
      input, preambleParsed, cumMs, scratch, pending := file, false, 0, [], Decode(file);
    }

    /** Next takes the first pending frame off, or reports why there is none; after the end of the file it
        reports that again, and after any other error reading goes on behind the bytes consumed. */
    method Next() returns (r: Result<Frame>)
      requires Valid()
      modifies this
      ensures Valid()
      ensures r.Ok? ==> |input| < |old(input)| && old(pending) == Decoded([r.value] + pending.frames, pending.stop)
      ensures r.Err? ==> old(pending) == Decoded([], r.stop)
      ensures r == Err(Eof) ==> input == [] && pending == Decoded([], Eof)
    {
      if !preambleParsed {
        var ok := ParsePreamble();
        if !ok {
          pending := Decode(input);
          return Err(BadMagic);
        }
        preambleParsed, cumMs := true, 0;
      }
      ghost var s, cum := input, cumMs;
      r := NextPastPreamble();
      RestUnfolds(s, cum);
      pending := Rest(input, cumMs);
    }

    /** Header, payload, and the recursion that skips a spacer. */
    method NextPastPreamble() returns (r: Result<Frame>)
      requires preambleParsed
      modifies `input, `cumMs, `scratch
      ensures match NextRaw(old(input))
        case Miss(stop) => r == Err(stop)
        case Hit(g, rest) =>
          input == rest && cumMs == U64(old(cumMs) + g.gap) && r == Ok(Frame(g.typ, Duration(cumMs), g.payload))
      ensures r == Err(Eof) ==> input == []
      decreases |input|
    {
      if |input| < 5 {
        input := [];
        return Err(Eof);
      }
      var t, delta := input[0], Le16At(input, 1);
      var length: nat := Le16At(input, 3);
      if |input| < 5 + length {
        input := [];
        return Err(Eof);
      }
      scratch := input[5..5 + length];
      input := input[5 + length..];
      if t == SPACER {
        if length != 4 {
          return Err(BadSpacer(length));
        }
        var advance := Le32At(scratch, 0);
        cumMs := U64(cumMs + advance);
        r := NextPastPreamble();
        ghost var tail := NextRaw(old(input)[9..]);
        if tail.Hit? {
          WrapSum(old(cumMs) + advance, tail.frame.gap);
        }
      } else {
        cumMs := U64(cumMs + delta);
        r := Ok(Frame(t, Duration(cumMs), scratch));
      }
    }

    method ParsePreamble() returns (ok: bool)
      modifies this`input
      ensures ok ==> |input| < |old(input)| && Body(old(input)) == Some(input)
      ensures !ok ==> Body(old(input)) == None
    {
      var buf: seq<byte> := [];
      while true
        invariant |buf| <= 4097 && |buf| <= |old(input)|
        invariant buf == old(input)[..|buf|] && input == old(input)[|buf|..]
        invariant BlankLine(old(input), 0) == BlankLine(old(input), |buf|)
        decreases |input|
      {
        if |buf| > 4096 || input == [] {
          return false;
        }
        buf := buf + [input[0]];
        input := input[1..];
        if |buf| >= 2 && buf[|buf| - 1] == NEWLINE && buf[|buf| - 2] == NEWLINE {
          break;
        }
      }
      ok := MagicOk(buf);
    }
  }

  /** Read every output event of a file, or those of the final window; no path or no file, no events. */
  method ReadOutputEvents(file: Option<seq<byte>>, window: int) returns (r: Result<seq<Event>>)
    ensures file.None? ==> r == Ok([])
    ensures file.Some? && Decode(file.value).stop != Eof ==> r == Err(Decode(file.value).stop)
    ensures file.Some? && Decode(file.value).stop == Eof ==>
      var fs := Decode(file.value).frames;
      r == Ok(Window(Outputs(fs), LastAt(fs), window)) && (window <= 0 ==> r == Ok(Outputs(fs)))
  {
    if file.None? {
      return Ok([]);
    }
    var events, last, stop := CollectOutputs(file.value);
    if stop != Eof {
      return Err(stop);
    }
    if window <= 0 || |events| == 0 {
      return Ok(events);
    }
    var cutoff := last - window;
    if cutoff <= 0 {
      return Ok(events);
    }
    var tail := FromCutoff(events, cutoff);
    r := Ok(tail);
  }

  method FromCutoff(events: seq<Event>, cutoff: int) returns (tail: seq<Event>)
    ensures tail == DropBefore(events, cutoff)
  {
    var i := 0;
    while i < |events| && events[i].at < cutoff
      invariant 0 <= i <= |events|
      invariant DropBefore(events, cutoff) == DropBefore(events[i..], cutoff)
    {
      i := i + 1;
    }
    tail := events[i..];
  }

  /** The decoding loop of the query: output events, and the latest time seen on any frame. */
  method CollectOutputs(file: seq<byte>) returns (events: seq<Event>, last: int, stop: Stop)
    ensures events == Outputs(Decode(file).frames) && last == LastAt(Decode(file).frames)
    ensures stop == Decode(file).stop
  {
    var dec := new FrameDecoder(file);
    ghost var whole := Decode(file);
    events, last := [], 0;
    ghost var seen: seq<Frame> := [];
    while true
      invariant fresh(dec) && dec.Valid()
      invariant whole == Decoded(seen + dec.pending.frames, dec.pending.stop)
      invariant events == Outputs(seen) && last == LastAt(seen)
      decreases |dec.input|
    {
      var fr := dec.Next();
      if fr.Err? {
        assert seen + [] == seen;
        return events, last, fr.stop;
      }
      var f := fr.value;
      OutputsSnoc(seen, f);
      LastAtSnoc(seen, f);
      OneSeen(seen, f, dec.pending.frames);
      seen := seen + [f];
      if f.at > last {
        last := f.at;
      }
      if f.typ == OUTPUT {
        events := events + [Event(f.at, f.payload)];
      }
    }
  }

  lemma OneSeen(seen: seq<Frame>, f: Frame, more: seq<Frame>)
    ensures seen + ([f] + more) == seen + [f] + more
  {
  }

  lemma LastAtSnoc(fs: seq<Frame>, f: Frame)
    ensures LastAt(fs + [f]) == if f.at > LastAt(fs) then f.at else LastAt(fs)
  {
    assert Front(fs + [f]) == fs;
  }

  lemma {:induction false} OutputsSnoc(fs: seq<Frame>, f: Frame)
    ensures Outputs(fs + [f]) == Outputs(fs) + if f.typ == OUTPUT then [Event(f.at, f.payload)] else []
  {
    if fs != [] {
      assert (fs + [f])[1..] == fs[1..] + [f];
      OutputsSnoc(fs[1..], f);
    }
  }
}
