/** The recorder: bucketed output, resizes, idle spacers and chained frames, and what it promises over whole runs. */
module Recording {
  import opened Bytes
  import opened HootLog

  const MAX_CHUNK: nat := 0xffff

  // ---------------------------------------------------------------- frames the recorder emits

  /** The spacer's advance for a gap: all of it, or the largest u32. */
  function Stride(gap: nat): u32 {
    if gap > 0xffff_ffff then 0xffff_ffff else gap
  }

  /** A log after the spacers that bring its clock from `last` to within a u16 of `now`. */
  function Bridge(log: seq<RawFrame>, last: nat, now: nat): seq<RawFrame>
    decreases now - last
  {
    if now <= last || now - last <= 0xffff then log
    else Bridge(log + [SpacerFrame(Stride(now - last))], last + Stride(now - last), now)
  }

  lemma BridgeStep(log: seq<RawFrame>, last: nat, now: nat)
    requires last < now && now - last > 0xffff
    ensures var advance := Stride(now - last);
      && Bridge(log, last, now) == Bridge(log + [SpacerFrame(advance)], last + advance, now)
      && BridgedTo(last, now) == BridgedTo(last + advance, now)
  {
  }

  /** Where those spacers leave the clock. */
  function BridgedTo(last: nat, now: nat): nat
    decreases now - last
  {
    if now <= last || now - last <= 0xffff then last else BridgedTo(last + Stride(now - last), now)
  }

  /** A log after one bucket as chained output frames; only the first carries the delta. */
  function Chunks(log: seq<RawFrame>, delta: u16, buf: seq<byte>): seq<RawFrame>
    decreases |buf|
  {
    if |buf| <= MAX_CHUNK then log + [OutputFrame(delta, buf)]
    else Chunks(log + [OutputFrame(delta, buf[..MAX_CHUNK])], 0, buf[MAX_CHUNK..])
  }

  // ---------------------------------------------------------------- recorder state and operations

  datatype State = State(log: seq<RawFrame>, last: u64, bucket: u64, has: bool, buf: seq<byte>, open: bool)

  function Init(cols: u16, rows: u16): State {
    State([ResizeFrame(0, if cols == 0 then 80 else cols, if rows == 0 then 24 else rows)], 0, 0, false, [], true)
  }

  function Flush(st: State): State {
    if !st.has then st
    else
      var delta := U16(st.bucket - BridgedTo(st.last, st.bucket));
      State(Chunks(Bridge(st.log, st.last, st.bucket), delta, st.buf), st.bucket, 0, false, [], st.open)
  }

  /** The window a write falls into, floored to the last emitted time. */
  function Bucket(last: u64, now: u64): u64 {
    if now / 33 * 33 < last then last else now / 33 * 33
  }

  function DoWrite(st: State, data: seq<byte>, now: u64): State {
    if !st.open || data == [] then st
    else
      var bucket := Bucket(st.last, now);
      var st' := if st.has && bucket != st.bucket then Flush(st) else st;
      st'.(bucket := if st'.has then st'.bucket else bucket, has := true, buf := st'.buf + data)
  }

  function DoResize(st: State, cols: u16, rows: u16, now: u64): State {
    if !st.open then st
    else
      var st' := Flush(st);
      var delta := U16(now - BridgedTo(st'.last, now));
      st'.(log := Bridge(st'.log, st'.last, now) + [ResizeFrame(delta, cols, rows)], last := now)
  }

  function DoClose(st: State): State {
    if st.open then Flush(st).(open := false) else st
  }

  // ---------------------------------------------------------------- what was written and what is read back

  /** A recording seen byte by byte: each output byte and each resize with its time. */
  datatype Item = Out(b: byte, at: int) | Size(cols: u16, rows: u16, at: int) | Other(typ: byte, at: int)

  function BytesAt(data: seq<byte>, at: int): seq<Item> {
    seq(|data|, i requires 0 <= i < |data| => Out(data[i], at))
  }

  function ItemsOf(f: Frame): seq<Item> {
    if f.typ == OUTPUT then BytesAt(f.payload, f.at)
    else if f.typ == RESIZE && |f.payload| == 4 then [Size(Le16At(f.payload, 0), Le16At(f.payload, 2), f.at)]
    else [Other(f.typ, f.at)]
  }

  function Items(fs: seq<Frame>): seq<Item> {
    if fs == [] then [] else ItemsOf(fs[0]) + Items(fs[1..])
  }

  /** What one written frame stands for. */
  function RawItems(r: RawFrame, at: int): seq<Item> {
    match r
    case OutputFrame(_, data) => BytesAt(data, at)
    case ResizeFrame(_, cols, rows) => [Size(cols, rows, at)]
    case SpacerFrame(_) => []
  }

  /** What a list of written frames stands for when the clock starts at `total`. */
  function ShownFrom(rs: seq<RawFrame>, total: nat): seq<Item> {
    if rs == [] then []
    else RawItems(rs[0], Ns(total + Span(rs[0]))) + ShownFrom(rs[1..], total + Span(rs[0]))
  }

  function Shown(log: seq<RawFrame>): seq<Item> {
    ShownFrom(log, 0)
  }

  /** The same byte within 33 ms before its clock value, or the same resize at exactly its clock value. */
  ghost predicate Matches(got: Item, want: Item) {
    match want
    case Out(b, now) => got.Out? && got.b == b && Ns(now - 33) < got.at <= Ns(now)
    case Size(cols, rows, now) => got == Size(cols, rows, Ns(now))
    case Other(_, _) => false
  }

  /** Item for item, in order, nothing lost and nothing added. */
  ghost predicate Faithful(got: seq<Item>, want: seq<Item>) {
    |got| == |want| && forall i | 0 <= i < |want| :: Matches(got[i], want[i])
  }

  datatype Op = WriteOp(data: seq<byte>, now: u64) | ResizeOp(cols: u16, rows: u16, now: u64)

  function Apply(st: State, op: Op): State {
    match op
    case WriteOp(data, now) => DoWrite(st, data, now)
    case ResizeOp(cols, rows, now) => DoResize(st, cols, rows, now)
  }

  function Run(cols: u16, rows: u16, ops: seq<Op>): State {
    if ops == [] then Init(cols, rows) else Apply(Run(cols, rows, Front(ops)), Last(ops))
  }

  /** What the caller handed over, stamped with the clock (in milliseconds) of each call. */
  function Given(op: Op): seq<Item> {
    match op
    case WriteOp(data, now) => BytesAt(data, now)
    case ResizeOp(cols, rows, now) => [Size(cols, rows, now)]
  }

  function Wanted(cols: u16, rows: u16, ops: seq<Op>): seq<Item> {
    if ops == [] then [Size(if cols == 0 then 80 else cols, if rows == 0 then 24 else rows, 0)]
    else Wanted(cols, rows, Front(ops)) + Given(Last(ops))
  }

  lemma RunSnoc(cols: u16, rows: u16, ops: seq<Op>, op: Op)
    ensures Run(cols, rows, ops + [op]) == Apply(Run(cols, rows, ops), op)
  {
    assert Front(ops + [op]) == ops;
  }

  lemma WantedSnoc(cols: u16, rows: u16, ops: seq<Op>, op: Op)
    ensures Wanted(cols, rows, ops + [op]) == Wanted(cols, rows, ops) + Given(op)
  {
    assert Front(ops + [op]) == ops;
  }

  /** The clock after a run. */
  function Clock(ops: seq<Op>): u64 {
    if ops == [] then 0 else Last(ops).now
  }

  /** A monotonic clock read from an int64 duration. */
  ghost predicate Clocked(ops: seq<Op>) {
    ops != [] ==> Clocked(Front(ops)) && Clock(Front(ops)) <= Last(ops).now && Ns(Last(ops).now) < TWO63
  }

  // ---------------------------------------------------------------- lemmas about the emitted frames

  lemma {:induction false} TotalSnoc(rs: seq<RawFrame>, r: RawFrame)
    ensures Total(rs + [r]) == Total(rs) + Span(r)
  {
    if rs != [] {
      assert (rs + [r])[1..] == rs[1..] + [r];
      TotalSnoc(rs[1..], r);
    }
  }

  lemma {:induction false} ShownFromSnoc(rs: seq<RawFrame>, r: RawFrame, total: nat)
    ensures ShownFrom(rs + [r], total) == ShownFrom(rs, total) + RawItems(r, Ns(total + Total(rs) + Span(r)))
    decreases |rs|
  {
    if rs != [] {
      var total' := total + Span(rs[0]);
      ShownFromSnoc(rs[1..], r, total');
      ShownFromCons(rs[0], rs[1..] + [r], total);
      assert [rs[0]] + (rs[1..] + [r]) == rs + [r];
    }
  }

  lemma ShownFromCons(r: RawFrame, rs: seq<RawFrame>, total: nat)
    ensures ShownFrom([r] + rs, total) == RawItems(r, Ns(total + Span(r))) + ShownFrom(rs, total + Span(r))
  {
  }

  lemma ShownSnoc(log: seq<RawFrame>, r: RawFrame)
    ensures Total(log + [r]) == Total(log) + Span(r)
    ensures Shown(log + [r]) == Shown(log) + RawItems(r, Ns(Total(log) + Span(r)))
  {
    TotalSnoc(log, r);
    ShownFromSnoc(log, r, 0);
  }

  /** Bridging leaves a gap that fits a u16, moves the clock by exactly what the spacers carry, and shows nothing. */
  lemma {:induction false} BridgeSpec(log: seq<RawFrame>, last: nat, now: nat)
    requires Total(log) == last <= now
    ensures last <= BridgedTo(last, now) <= now && now - BridgedTo(last, now) <= 0xffff
    ensures Total(Bridge(log, last, now)) == BridgedTo(last, now)
    ensures Shown(Bridge(log, last, now)) == Shown(log)
    decreases now - last
  {
    if now - last > 0xffff {
      var r := SpacerFrame(Stride(now - last));
      ShownSnoc(log, r);
      BridgeSpec(log + [r], last + Stride(now - last), now);
    }
  }

  /** Exactly gap div (2^32 - 1) spacers, one more if what is left over does not fit a u16. */
  lemma {:induction false} BridgeCount(log: seq<RawFrame>, last: nat, now: nat)
    ensures now <= last || now - last <= 0xffff ==> Bridge(log, last, now) == log
    ensures now > last && now - last > 0xffff ==>
      |Bridge(log, last, now)| - |log| ==
      (now - last) / 0xffff_ffff + (if (now - last) % 0xffff_ffff > 0xffff then 1 else 0)
    decreases now - last
  {
    if now > last && now - last > 0xffff {
      var gap := now - last;
      BridgeCount(log + [SpacerFrame(Stride(gap))], last + Stride(gap), now);
      if gap > 0xffff_ffff {
        assert gap / 0xffff_ffff == (gap - 0xffff_ffff) / 0xffff_ffff + 1;
        assert gap % 0xffff_ffff == (gap - 0xffff_ffff) % 0xffff_ffff;
      }
    }
  }

  /** Chained frames carry the whole bucket at one time. */
  lemma {:induction false} ChunksSpec(log: seq<RawFrame>, delta: u16, buf: seq<byte>)
    ensures Total(Chunks(log, delta, buf)) == Total(log) + delta
    ensures Shown(Chunks(log, delta, buf)) == Shown(log) + BytesAt(buf, Ns(Total(log) + delta))
    decreases |buf|
  {
    if |buf| <= MAX_CHUNK {
      ShownSnoc(log, OutputFrame(delta, buf));
    } else {
      var r, at := OutputFrame(delta, buf[..MAX_CHUNK]), Ns(Total(log) + delta);
      ShownSnoc(log, r);
      ChunksSpec(log + [r], 0, buf[MAX_CHUNK..]);
      BytesSplit(buf, MAX_CHUNK, at);
    }
  }

  lemma BytesSplit(data: seq<byte>, k: nat, at: int)
    requires k <= |data|
    ensures BytesAt(data, at) == BytesAt(data[..k], at) + BytesAt(data[k..], at)
  {
  }

  lemma ItemsOfRaw(r: RawFrame, at: int)
    requires !r.SpacerFrame?
    ensures ItemsOf(Frame(r.Typ(), at, r.Payload())) == RawItems(r, at)
  {
  }

  lemma ItemsStep(r: RawFrame, at: int, fs: seq<Frame>)
    requires !r.SpacerFrame?
    ensures Items([Frame(r.Typ(), at, r.Payload())] + fs) == RawItems(r, at) + Items(fs)
  {
    ItemsOfRaw(r, at);
  }

  /** The decoder's frames for a recorded list stand for exactly that list. */
  lemma {:induction false} ItemsDecoded(rs: seq<RawFrame>, total: nat)
    ensures Items(TrueStamp(Gaps(rs), total)) == ShownFrom(rs, total)
    decreases |rs|
  {
    if rs != [] {
      ItemsDecoded(rs[1..], total + Span(rs[0]));
      StampCons(rs, total);
      if !rs[0].SpacerFrame? {
        ItemsStep(rs[0], Ns(total + rs[0].delta), TrueStamp(Gaps(rs[1..]), total + Span(rs[0])));
      }
    }
  }

  // ---------------------------------------------------------------- the invariant over every run

  /** Everything the recorder has taken: the emitted frames, then the held bucket. */
  function Visible(st: State): seq<Item> {
    Shown(st.log) + if st.has then BytesAt(st.buf, Ns(st.bucket)) else []
  }

  /** No stored time is behind the last emitted one or ahead of the clock; a held bucket sits on a window
      boundary or at the last emitted time, so a later write cannot fall behind it; and what the recorder has
      taken is faithful to everything handed over so far. */
  ghost predicate Inv(st: State, clock: nat, want: seq<Item>) {
    && Total(st.log) == st.last <= clock && Ns(clock) < TWO63
    && (st.has ==> st.last <= st.bucket <= clock && (st.bucket == st.last || st.bucket % 33 == 0))
    && (!st.has ==> st.buf == [])
    && Faithful(Visible(st), want)
  }

  /** Flushing a bucket shows its bytes at the bucket's time and leaves the clock there. */
  lemma FlushFrames(log: seq<RawFrame>, last: nat, bucket: nat, buf: seq<byte>)
    requires Total(log) == last <= bucket
    ensures var log' := Chunks(Bridge(log, last, bucket), U16(bucket - BridgedTo(last, bucket)), buf);
      Total(log') == bucket && Shown(log') == Shown(log) + BytesAt(buf, Ns(bucket))
  {
    BridgeSpec(log, last, bucket);
    ChunksSpec(Bridge(log, last, bucket), U16(bucket - BridgedTo(last, bucket)), buf);
  }

  lemma FlushSpec(st: State)
    requires Total(st.log) == st.last && (st.has ==> st.last <= st.bucket)
    ensures Total(Flush(st).log) == Flush(st).last && !Flush(st).has && Flush(st).open == st.open
    ensures st.has ==> Flush(st).last == st.bucket && Flush(st).buf == []
    ensures Visible(Flush(st)) == Visible(st)
  {
    if st.has {
      FlushFrames(st.log, st.last, st.bucket, st.buf);
    }
  }

  lemma FlushKeeps(st: State, clock: nat, want: seq<Item>)
    requires Inv(st, clock, want)
    ensures Inv(Flush(st), clock, want) && !Flush(st).has && Flush(st).open == st.open
  {
    FlushSpec(st);
  }

  lemma BytesNear(data: seq<byte>, at: nat, now: nat)
    requires now - 33 < at <= now
    ensures Faithful(BytesAt(data, Ns(at)), BytesAt(data, now))
  {
  }

  lemma FaithfulAppend(a: seq<Item>, b: seq<Item>, wantA: seq<Item>, wantB: seq<Item>)
    requires Faithful(a, wantA) && Faithful(b, wantB)
    ensures Faithful(a + b, wantA + wantB)
  {
  }

  /** Adding bytes to the held bucket shows them after everything else, at the bucket's time. */
  lemma HoldBytes(st: State, bucket: u64, data: seq<byte>)
    requires st.has ==> st.bucket == bucket
    requires !st.has ==> st.buf == []
    ensures Visible(st.(bucket := bucket, has := true, buf := st.buf + data)) == Visible(st) + BytesAt(data, Ns(bucket))
  {
    assert BytesAt(st.buf + data, Ns(bucket)) == BytesAt(st.buf, Ns(bucket)) + BytesAt(data, Ns(bucket));
  }

  /** A bucket is a window boundary or the last emitted time, and less than a window before the clock. */
  lemma BucketNear(last: u64, now: u64)
    requires last <= now
    ensures var bucket := Bucket(last, now);
      last <= bucket <= now && now - 33 < bucket && (bucket == last || bucket % 33 == 0)
  {
  }

  /** No later bucket falls behind a held one. */
  lemma BucketAhead(last: u64, held: u64, now: u64)
    requires last <= held <= now && (held == last || held % 33 == 0)
    ensures held <= Bucket(last, now)
  {
    assert held % 33 == 0 ==> held / 33 <= now / 33;
  }

  /** Holding bytes at a time that fits keeps the invariant. */
  lemma HoldKeeps(st: State, bucket: u64, data: seq<byte>, now: u64, want: seq<Item>)
    requires Total(st.log) == st.last <= bucket <= now && Ns(now) < TWO63 && now - 33 < bucket
    requires (st.has ==> st.bucket == bucket) && (!st.has ==> st.buf == [])
    requires bucket == st.last || bucket % 33 == 0
    requires Faithful(Visible(st), want)
    ensures Inv(st.(bucket := bucket, has := true, buf := st.buf + data), now, want + BytesAt(data, now))
  {
    HoldBytes(st, bucket, data);
    BytesNear(data, bucket, now);
    FaithfulAppend(Visible(st), BytesAt(data, Ns(bucket)), want, BytesAt(data, now));
  }

  lemma WriteKeeps(st: State, data: seq<byte>, now: u64, clock: nat, want: seq<Item>)
    requires Inv(st, clock, want) && clock <= now && Ns(now) < TWO63 && st.open
    ensures Inv(DoWrite(st, data, now), now, want + BytesAt(data, now)) && DoWrite(st, data, now).open
  {
    if data == [] {
      assert want + BytesAt(data, now) == want;
    } else {
      var bucket := Bucket(st.last, now);
      BucketNear(st.last, now);
      FlushSpec(st);
      if st.has {
        BucketAhead(st.last, st.bucket, now);
      }
      var st1 := if st.has && bucket != st.bucket then Flush(st) else st;
      assert DoWrite(st, data, now) == st1.(bucket := bucket, has := true, buf := st1.buf + data);
      HoldKeeps(st1, bucket, data, now, want);
    }
  }

  /** A resize with nothing held shows at exactly its clock and leaves the log's clock there. */
  lemma ResizeSpec(st: State, cols: u16, rows: u16, now: u64)
    requires st.open && !st.has && Total(st.log) == st.last <= now
    ensures var st' := DoResize(st, cols, rows, now);
      && st' == st.(log := st'.log, last := now) && Total(st'.log) == now
      && Visible(st') == Visible(st) + [Size(cols, rows, Ns(now))]
  {
    BridgeSpec(st.log, st.last, now);
    var delta := U16(now - BridgedTo(st.last, now));
    ShownSnoc(Bridge(st.log, st.last, now), ResizeFrame(delta, cols, rows));
  }

  lemma ResizeKeeps(st: State, cols: u16, rows: u16, now: u64, clock: nat, want: seq<Item>)
    requires Inv(st, clock, want) && clock <= now && Ns(now) < TWO63 && st.open
    ensures Inv(DoResize(st, cols, rows, now), now, want + [Size(cols, rows, now)]) && DoResize(st, cols, rows, now).open
  {
    FlushKeeps(st, clock, want);
    var st1 := Flush(st);
    assert DoResize(st, cols, rows, now) == DoResize(st1, cols, rows, now);
    ResizeSpec(st1, cols, rows, now);
    FaithfulAppend(Visible(st1), [Size(cols, rows, Ns(now))], want, [Size(cols, rows, now)]);
  }

  /** The invariant holds after every run under a monotonic clock. */
  lemma {:induction false} RunKeeps(cols: u16, rows: u16, ops: seq<Op>)
    requires Clocked(ops)
    ensures Inv(Run(cols, rows, ops), Clock(ops), Wanted(cols, rows, ops)) && Run(cols, rows, ops).open
  {
    if ops == [] {
      var st := Init(cols, rows);
      ShownSnoc([], st.log[0]);
      assert st.log == [] + [st.log[0]];
    } else {
      RunKeeps(cols, rows, Front(ops));
      var st, clock, want := Run(cols, rows, Front(ops)), Clock(Front(ops)), Wanted(cols, rows, Front(ops));
      match Last(ops)
      case WriteOp(data, now) => WriteKeeps(st, data, now, clock, want);
      case ResizeOp(c, r, now) => ResizeKeeps(st, c, r, now, clock, want);
    }
  }

  /** Round trip and timing bound: after any run and Close, the file decodes without error to the prelude
      resize at 0 and then, in order, every byte written, within 33 ms before the clock of its Write, and
      every resize, at exactly its clock. */
  lemma RoundTrip(cols: u16, rows: u16, ops: seq<Op>)
    requires Clocked(ops)
    ensures var file := PREAMBLE + EncodeAll(DoClose(Run(cols, rows, ops)).log);
      && Decode(file).stop == Eof
      && Faithful(Items(Decode(file).frames), Wanted(cols, rows, ops))
  {
    RunKeeps(cols, rows, ops);
    var st, want := Run(cols, rows, ops), Wanted(cols, rows, ops);
    FlushKeeps(st, Clock(ops), want);
    DecodeRecorded(Flush(st).log);
    ItemsDecoded(Flush(st).log, 0);
    assert Visible(Flush(st)) == Shown(Flush(st).log);
  }

  // ---------------------------------------------------------------- a crash in the middle of a run

  lemma {:induction false} ItemsPrefix(a: seq<Frame>, b: seq<Frame>)
    requires a <= b
    ensures Items(a) <= Items(b)
    decreases |a|
  {
    if a != [] {
      ItemsPrefix(a[1..], b[1..]);
    }
  }

  lemma {:induction false} ShownIsDecoded(st: State, clock: nat, want: seq<Item>)
    requires Inv(st, clock, want)
    ensures var d := Decode(PREAMBLE + EncodeAll(st.log)); d.stop == Eof && Items(d.frames) == Shown(st.log)
  {
    DecodeRecorded(st.log);
    ItemsDecoded(st.log, 0);
  }

  lemma FaithfulPrefix(got: seq<Item>, part: seq<Item>, want: seq<Item>)
    requires Faithful(got, want) && part <= got
    ensures Faithful(part, want[..|part|])
  {
  }

  /** A file cut anywhere after its preamble, in the middle of any run, decodes without error to a faithful
      beginning of what was handed over; the whole file lacks no more than the held bucket. */
  lemma {:induction false} CrashMidRun(cols: u16, rows: u16, ops: seq<Op>, k: nat)
    requires Clocked(ops) && |PREAMBLE| <= k <= |PREAMBLE + EncodeAll(Run(cols, rows, ops).log)|
    ensures var st, want := Run(cols, rows, ops), Wanted(cols, rows, ops);
      var file := PREAMBLE + EncodeAll(st.log);
      var got := Items(Decode(file[..k]).frames);
      && Decode(file[..k]).stop == Eof && |got| <= |want| && Faithful(got, want[..|got|])
      && (k == |file| ==> |want| - |got| == if st.has then |st.buf| else 0)
  {
    var st, want := Run(cols, rows, ops), Wanted(cols, rows, ops);
    RunKeeps(cols, rows, ops);
    CrashedState(st, Clock(ops), want, k);
  }

  lemma {:induction false} CrashedState(st: State, clock: nat, want: seq<Item>, k: nat)
    requires Inv(st, clock, want) && |PREAMBLE| <= k <= |PREAMBLE + EncodeAll(st.log)|
    ensures var file := PREAMBLE + EncodeAll(st.log);
      var got := Items(Decode(file[..k]).frames);
      && Decode(file[..k]).stop == Eof && |got| <= |want| && Faithful(got, want[..|got|])
      && (k == |file| ==> |want| - |got| == if st.has then |st.buf| else 0)
  {
    var file := PREAMBLE + EncodeAll(st.log);
    ShownIsDecoded(st, clock, want);
    CrashTruncation(st.log, k);
    ItemsPrefix(Decode(file[..k]).frames, Decode(file).frames);
    FaithfulPrefix(Visible(st), Items(Decode(file[..k]).frames), want);
    assert file[..|file|] == file;
  }

  // ---------------------------------------------------------------- the recorder as an object

  lemma Regroup(a: seq<byte>, b: seq<byte>, c: seq<byte>, d: seq<byte>)
    ensures a + b + c + d == a + (b + (c + d))
  {
  }

  /** The recorder over an appending writer, modelled as the bytes written so far. */
  class Recorder {
    var w: seq<byte>
    var open: bool
    var lastEmittedMs: u64
    var pendingBucketMs: u64
    var pendingHasBucket: bool
    var pendingBuf: seq<byte>
    ghost var log: seq<RawFrame>

    /** The file holds the preamble and exactly the logged frames. */
    ghost predicate Valid()
      reads this
    {
      w == PREAMBLE + EncodeAll(log)
    }

    ghost function View(): State
      reads this
    {
      State(log, lastEmittedMs, pendingBucketMs, pendingHasBucket, pendingBuf, open)
    }

    constructor (cols: u16, rows: u16)
      ensures Valid() && View() == Init(cols, rows)
    {
      var c, r := if cols == 0 then 80 else cols, if rows == 0 then 24 else rows;
      open, lastEmittedMs, pendingBucketMs, pendingHasBucket, pendingBuf := true, 0, 0, false, [];
      w, log := PREAMBLE, [];
      new;
      Emit(ResizeFrame(0, c, r));
    }

    /** Write one frame: header, then payload. */
    method Emit(r: RawFrame)
      requires Valid()
      modifies `w, `log
      ensures Valid() && log == old(log) + [r]
    {
      var header, payload := [r.Typ()] + Le16(r.Delta()) + Le16(|r.Payload()|), r.Payload();
      EncodeAllSnoc(log, r);
      Regroup(PREAMBLE, EncodeAll(log), header, payload);
      w := w + header;
      w := w + payload;
      log := log + [r];
    }

    /** Spacer loop; a regressed time emits nothing. */
    method BridgeIdle(nowMs: u64)
      requires Valid()
      modifies `w, `log, `lastEmittedMs
      ensures Valid()
      ensures log == Bridge(old(log), old(lastEmittedMs), nowMs)
      ensures lastEmittedMs == BridgedTo(old(lastEmittedMs), nowMs)
    {
      if nowMs <= lastEmittedMs {
        return;
      }
      while U64(nowMs - lastEmittedMs) > 0xffff
        invariant Valid() && lastEmittedMs <= nowMs
        invariant Bridge(log, lastEmittedMs, nowMs) == Bridge(old(log), old(lastEmittedMs), nowMs)
        invariant BridgedTo(lastEmittedMs, nowMs) == BridgedTo(old(lastEmittedMs), nowMs)
        decreases nowMs - lastEmittedMs
      {
        BridgeStep(log, lastEmittedMs, nowMs);
        EmitSpacer(nowMs);
      }
    }

    /** One spacer: as much of the gap as a u32 holds. */
    method EmitSpacer(nowMs: u64)
      requires Valid() && lastEmittedMs <= nowMs
      modifies `w, `log, `lastEmittedMs
      ensures Valid() && log == old(log) + [SpacerFrame(Stride(nowMs - old(lastEmittedMs)))]
      ensures lastEmittedMs == old(lastEmittedMs) + Stride(nowMs - old(lastEmittedMs)) <= nowMs
    {
      var gap := U64(nowMs - lastEmittedMs);
      var advance: u32 := if gap > 0xffff_ffff then 0xffff_ffff else gap;
      Emit(SpacerFrame(advance));
      lastEmittedMs := U64(lastEmittedMs + advance);
    }

    /** Drain the held bucket into chained frames. */
    method FlushPending()
      requires Valid()
      modifies this
      ensures Valid() && View() == Flush(old(View()))
    {
      if !pendingHasBucket {
        return;
      }
      var bucket, buf := pendingBucketMs, pendingBuf;
      pendingBucketMs, pendingHasBucket, pendingBuf := 0, false, [];
      BridgeIdle(bucket);
      var delta := U16(bucket - lastEmittedMs);
      ghost var start := log;
      var first := true;
      while true
        modifies `w, `log
        invariant Valid()
        invariant Chunks(log, if first then delta else 0, buf) == Chunks(start, delta, old(pendingBuf))
        decreases |buf|
      {
        var chunkLen := if |buf| > MAX_CHUNK then MAX_CHUNK else |buf|;
        Emit(OutputFrame(if first then delta else 0, buf[..chunkLen]));
        assert buf[..|buf|] == buf;
        if chunkLen == |buf| {
          break;
        }
        buf := buf[chunkLen..];
        first := false;
      }
      lastEmittedMs := bucket;
    }

    method Write(data: seq<byte>, now: u64) returns (n: nat)
      requires Valid()
      modifies this
      ensures Valid() && View() == DoWrite(old(View()), data, now) && n == |data|
    {
      n := |data|;
      if !open || |data| == 0 {
        return;
      }
      var bucket: u64 := now / 33 * 33;
      if bucket < lastEmittedMs {
        bucket := lastEmittedMs;
      }
      if pendingHasBucket && bucket != pendingBucketMs {
        FlushPending();
      }
      if !pendingHasBucket {
        pendingBucketMs, pendingHasBucket := bucket, true;
      }
      pendingBuf := pendingBuf + data;
    }

    method RecordResize(cols: u16, rows: u16, now: u64)
      requires Valid()
      modifies this
      ensures Valid() && View() == DoResize(old(View()), cols, rows, now)
    {
      if !open {
        return;
      }
      FlushPending();
      BridgeIdle(now);
      Emit(ResizeFrame(U16(now - lastEmittedMs), cols, rows));
      lastEmittedMs := now;
    }

    method Close()
      requires Valid()
      modifies this
      ensures Valid() && View() == DoClose(old(View()))
    {
      if !open {
        return;
      }
      FlushPending();
      open := false;
    }
  }
}
