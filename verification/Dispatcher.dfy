/** The PTY dispatcher: serialised actions that tee every chunk to the recorder, the emulator, the mirror and
    each subscriber, as a step system and as an object whose methods take those steps. */
module Dispatcher {
  import opened Bytes
  import opened VtTokens
  import S = QueryStripper
  import P = PrimaryFilter
  import R = Recording
  import L = HootLog

  type ChanId = nat

  /** A streaming filter: state and chunk in, state and passed bytes out. */
  type Strip = (Lexer, seq<byte>) -> S.Fed

  /** Cutting a string in two does not change what a streaming filter does with it. */
  ghost predicate Streaming(f: Strip) {
    && (forall st :: f(st, []) == S.Fed(st, []))
    && (forall st, a, b :: f(st, a + b) == S.Fed(f(f(st, a).st, b).st, f(st, a).out + f(f(st, a).st, b).out))
  }

  lemma StripperStreams()
    ensures Streaming(S.Run)
  {
    forall st, a, b
      ensures S.Run(st, a + b) == S.Fed(S.Run(S.Run(st, a).st, b).st, S.Run(st, a).out + S.Run(S.Run(st, a).st, b).out)
    {
      S.RunAppend(st, a, b);
    }
  }

  /** A buffered Go channel: everything accepted by a send, how much of it was received, and its capacity. */
  datatype Channel = Channel(cap: nat, sent: seq<seq<byte>>, received: nat, closed: bool)

  /** What a subscription has been through: the emulator's history when it was made together with a snapshot,
      the chunks processed since, and whether a send ever found the buffer full. */
  datatype History = History(snapshot: Option<seq<seq<byte>>>, raw: seq<seq<byte>>, lost: bool)

  /** An emulator is abstracted to the chunks it has been fed; None once it is torn down. */
  datatype State = State(
    term: Option<seq<seq<byte>>>,
    primary: Option<seq<seq<byte>>>,
    filter: P.State,
    rec: Option<R.State>,
    subs: map<ChanId, Lexer>,
    chans: map<ChanId, Channel>,
    hist: map<ChanId, History>,
    next: ChanId,
    panicked: bool)

  datatype Action =
    | Chunk(data: seq<byte>, now: u64)
    | Resize(cols: u16, rows: u16, now: u64, ok: bool)
    | Subscribe(cap: nat)
    | SubscribeSnapshot(ok: bool)
    | SubscribeSkipped(cap: nat, closes: bool)
    | Cancel(ch: ChanId)
    | Receive(ch: ChanId)
    | Teardown

  // ---------------------------------------------------------------- channel operations

  /** A non-blocking send; on a closed channel it panics, on a full one the chunk is lost. */
  function Send(c: Channel, out: seq<byte>): Channel {
    if out != [] && !c.closed && |c.sent| - c.received < c.cap then c.(sent := c.sent + [out]) else c
  }

  predicate SendLoses(c: Channel, out: seq<byte>) {
    out != [] && !c.closed && |c.sent| - c.received >= c.cap
  }

  predicate SendPanics(c: Channel, out: seq<byte>) {
    out != [] && c.closed
  }

  // ---------------------------------------------------------------- the steps

  function Start(rec: Option<R.State>): State {
    State(Some([]), Some([]), P.FRESH, rec, map[], map[], map[], 0, false)
  }

  /** Fan a chunk out to the subscribers in `to`, each through its own stripper. */
  function FanOutTo(f: Strip, s: State, data: seq<byte>, to: set<ChanId>): State
    requires Wired(s) && to <= s.subs.Keys
  {
    s.(subs := map ch | ch in s.subs :: if ch in to then f(s.subs[ch], data).st else s.subs[ch],
       chans := map ch | ch in s.chans :: if ch in to then Send(s.chans[ch], f(s.subs[ch], data).out) else s.chans[ch],
       hist := map ch | ch in s.hist ::
         if ch in to then Process(s.hist[ch], s.chans[ch], data, f(s.subs[ch], data).out) else s.hist[ch],
       panicked := s.panicked || exists ch | ch in to :: SendPanics(s.chans[ch], f(s.subs[ch], data).out))
  }

  function FanOut(f: Strip, s: State, data: seq<byte>): State
    requires Wired(s)
  {
    FanOutTo(f, s, data, s.subs.Keys)
  }

  function Process(h: History, c: Channel, data: seq<byte>, out: seq<byte>): History {
    h.(raw := h.raw + [data], lost := h.lost || SendLoses(c, out))
  }

  /** Feed a chunk to the recorder, the emulator and, filtered, to the mirror. */
  function Tee(s: State, data: seq<byte>, now: u64): State {
    var rec := if s.rec.Some? then Some(R.DoWrite(s.rec.value, data, now)) else None;
    var term := if s.term.Some? then Some(s.term.value + [data]) else None;
    if s.primary.None? then s.(rec := rec, term := term)
    else
      var fed := P.Run(s.filter, data);
      s.(rec := rec, term := term, filter := fed.st,
         primary := Some(s.primary.value + if fed.out == [] then [] else [fed.out]))
  }

  /** A fresh channel, not yet subscribed. */
  function Open(s: State, cap: nat, closed: bool): State {
    s.(next := s.next + 1, chans := s.chans[s.next := Channel(cap, [], 0, closed)],
       hist := s.hist[s.next := History(None, [], false)])
  }

  /** Delete a subscription and close its channel; closing a closed channel panics. */
  function Drop(s: State, ch: ChanId): State
    requires ch in s.chans
  {
    s.(subs := s.subs - {ch}, chans := s.chans[ch := s.chans[ch].(closed := true)],
       panicked := s.panicked || s.chans[ch].closed)
  }

  /** Register a channel together with a snapshot of the emulator, or drop it again if the snapshot failed. */
  function Join(s: State, ch: ChanId, ok: bool): State
    requires ch in s.chans
  {
    if s.term.None? then s
    else
      var joined := s.(subs := s.subs[ch := GROUND], hist := s.hist[ch := History(s.term, [], false)]);
      if ok then joined else Drop(joined, ch)
  }

  /** Every subscription has a channel and a history, and identifiers are not reused. */
  predicate Wired(s: State) {
    && s.subs.Keys <= s.chans.Keys && s.chans.Keys == s.hist.Keys
    && (forall ch | ch in s.chans :: ch < s.next)
  }

  /** Delete the subscriptions in `which` and close their channels. */
  function CloseSome(s: State, which: set<ChanId>): State
    requires Wired(s) && which <= s.subs.Keys
  {
    s.(subs := s.subs - which,
       chans := map ch | ch in s.chans :: if ch in which then s.chans[ch].(closed := true) else s.chans[ch],
       panicked := s.panicked || exists ch | ch in which :: s.chans[ch].closed)
  }

  function CloseAll(s: State): State
    requires Wired(s)
  {
    CloseSome(s, s.subs.Keys)
  }

  function Step(f: Strip, s: State, a: Action): (s': State)
    requires Wired(s)
    ensures Wired(s')
  {
    match a
    case Chunk(data, now) => FanOut(f, Tee(s, data, now), data)
    case Resize(cols, rows, now, ok) =>
      if s.term.None? || !ok || s.rec.None? then s
      else s.(rec := Some(R.DoResize(s.rec.value, cols, rows, now)))
    case Subscribe(cap) =>
      Open(s, cap, false).(subs := s.subs[s.next := GROUND])
    case SubscribeSnapshot(ok) =>
      Join(Open(s, 256, false), s.next, ok)
    case SubscribeSkipped(cap, closes) => Open(s, cap, closes)
    case Cancel(ch) => if ch in s.subs then Drop(s, ch) else s
    case Receive(ch) =>
      if ch in s.chans && s.chans[ch].received < |s.chans[ch].sent|
      then s.(chans := s.chans[ch := s.chans[ch].(received := s.chans[ch].received + 1)]) else s
    case Teardown =>
      CloseAll(s).(term := None, primary := None, rec := if s.rec.Some? then Some(R.DoClose(s.rec.value)) else None)
  }

  function Exec(f: Strip, rec: Option<R.State>, actions: seq<Action>): (s: State)
    ensures Wired(s)
  {
    if actions == [] then Start(rec) else Step(f, Exec(f, rec, Front(actions)), Last(actions))
  }

  // ---------------------------------------------------------------- what a subscriber is owed

  function Owe(owed: seq<seq<byte>>, out: seq<byte>): seq<seq<byte>> {
    if out == [] then owed else owed + [out]
  }

  /** The non-empty outputs of a fresh stripper over a list of chunks. */
  function Passed(f: Strip, raw: seq<seq<byte>>): seq<seq<byte>> {
    if raw == [] then []
    else
      var out := f(f(GROUND, Concat(Front(raw))).st, Last(raw)).out;
      Owe(Passed(f, Front(raw)), out)
  }

  lemma OweConcat(owed: seq<seq<byte>>, out: seq<byte>)
    ensures Concat(Owe(owed, out)) == Concat(owed) + out
  {
    if out != [] {
      ConcatSnoc(owed, out);
    }
  }

  /** Joined up, those outputs are one fresh stripper run over the whole of the raw bytes. */
  lemma {:induction false} PassedIsOneRun(f: Strip, raw: seq<seq<byte>>)
    requires Streaming(f)
    ensures Concat(Passed(f, raw)) == f(GROUND, Concat(raw)).out
  {
    if raw != [] {
      var front, data := Front(raw), Last(raw);
      PassedIsOneRun(f, front);
      var ra := f(GROUND, Concat(front));
      var rb := f(ra.st, data);
      assert f(GROUND, Concat(front) + data) == S.Fed(rb.st, ra.out + rb.out);
      assert raw == front + [data];
      ConcatSnoc(front, data);
      OweConcat(Passed(f, front), rb.out);
    }
  }

  /** Delivery: everything owed if no send found the buffer full, otherwise a subsequence of it. */
  ghost predicate Delivered(f: Strip, c: Channel, h: History) {
    Paid(c, h.lost, Passed(f, h.raw))
  }

  ghost predicate Paid(c: Channel, lost: bool, owed: seq<seq<byte>>) {
    c.received <= |c.sent| && Subsequence(c.sent, owed) && (!lost ==> c.sent == owed)
  }

  /** A subscription: its channel is open and its stripper is where a fresh one would be. */
  ghost predicate SubOk(f: Strip, s: State, ch: ChanId)
    requires Wired(s)
  {
    ch in s.subs ==> !s.chans[ch].closed && s.subs[ch] == f(GROUND, Concat(s.hist[ch].raw)).st
  }

  /** Snapshot and live bytes: the history at the snapshot plus the chunks since is the emulator's history. */
  ghost predicate NoGap(s: State, ch: ChanId)
    requires Wired(s)
  {
    ch in s.subs && s.term.Some? && s.hist[ch].snapshot.Some? ==>
      s.hist[ch].snapshot.value + s.hist[ch].raw == s.term.value
  }

  ghost predicate MirrorOk(s: State) {
    s.term.Some? ==>
      && s.primary.Some?
      && P.Run(P.FRESH, Concat(s.term.value)) == P.Fed(s.filter, Concat(s.primary.value))
  }

  ghost predicate ChanOk(f: Strip, s: State, ch: ChanId)
    requires Wired(s) && ch in s.chans
  {
    SubOk(f, s, ch) && NoGap(s, ch) && Delivered(f, s.chans[ch], s.hist[ch])
  }

  ghost predicate Inv(f: Strip, s: State) {
    && Wired(s) && !s.panicked && MirrorOk(s)
    && (forall ch | ch in s.chans :: ChanOk(f, s, ch))
  }

  // ---------------------------------------------------------------- every step keeps the invariant

  lemma SubsequenceGrows<T>(small: seq<T>, big: seq<T>, x: T)
    requires Subsequence(small, big)
    ensures Subsequence(small, big + [x]) && Subsequence(small + [x], big + [x])
  {
    assert Front(big + [x]) == big && Front(small + [x]) == small;
  }

  lemma SendPays(c: Channel, lost: bool, owed: seq<seq<byte>>, out: seq<byte>)
    requires Paid(c, lost, owed) && !c.closed
    ensures Paid(Send(c, out), lost || SendLoses(c, out), Owe(owed, out))
  {
    SubsequenceGrows(c.sent, owed, out);
  }

  lemma SendDelivers(f: Strip, c: Channel, h: History, data: seq<byte>)
    requires Delivered(f, c, h) && !c.closed
    ensures var out := f(f(GROUND, Concat(h.raw)).st, data).out;
      Delivered(f, Send(c, out), Process(h, c, data, out))
  {
    var out := f(f(GROUND, Concat(h.raw)).st, data).out;
    assert Front(h.raw + [data]) == h.raw;
    SendPays(c, h.lost, Passed(f, h.raw), out);
  }

  lemma TeeKeeps(s: State, data: seq<byte>, now: u64)
    requires Wired(s) && MirrorOk(s)
    ensures MirrorOk(Tee(s, data, now))
  {
    if s.term.Some? {
      var t, p, fed := s.term.value, s.primary.value, P.Run(s.filter, data);
      ConcatSnoc(t, data);
      P.RunThen(P.FRESH, Concat(t), data, P.Fed(s.filter, Concat(p)), fed);
      if fed.out == [] {
        assert p + [] == p;
      } else {
        ConcatSnoc(p, fed.out);
      }
    }
  }

  lemma FanOutKeeps(f: Strip, s: State, data: seq<byte>, ch: ChanId)
    requires Streaming(f) && Wired(s) && ch in s.chans && SubOk(f, s, ch) && Delivered(f, s.chans[ch], s.hist[ch])
    ensures var s' := FanOut(f, s, data);
      && SubOk(f, s', ch) && Delivered(f, s'.chans[ch], s'.hist[ch])
      && (ch in s'.subs ==> s'.hist[ch].raw == s.hist[ch].raw + [data] && s'.hist[ch].snapshot == s.hist[ch].snapshot)
  {
    if ch in s.subs {
      ChunkKeepsOne(f, s.subs[ch], s.chans[ch], s.hist[ch], data);
    }
  }

  /** Teeing a chunk extends the emulator's history by it and leaves the subscriptions alone. */
  ghost predicate Teed(s: State, s': State, data: seq<byte>) {
    && s'.subs == s.subs && s'.chans == s.chans && s'.hist == s.hist && s'.next == s.next && s'.panicked == s.panicked
    && s'.term == if s.term.Some? then Some(s.term.value + [data]) else None
  }

  lemma ChunkKeepsChan(f: Strip, s: State, teed: State, data: seq<byte>, ch: ChanId)
    requires Streaming(f) && Wired(s) && Wired(teed) && ch in s.chans && ChanOk(f, s, ch) && Teed(s, teed, data)
    ensures ChanOk(f, FanOut(f, teed, data), ch)
  {
    FanOutKeeps(f, teed, data, ch);
    if ch in s.subs && s.term.Some? && s.hist[ch].snapshot.Some? {
      assert s.hist[ch].snapshot.value + (s.hist[ch].raw + [data]) == s.term.value + [data];
    }
  }

  lemma FanOutSafe(f: Strip, s: State, data: seq<byte>)
    requires Wired(s) && !s.panicked && forall ch | ch in s.chans :: SubOk(f, s, ch)
    ensures !FanOut(f, s, data).panicked
  {
    assert forall ch | ch in s.subs :: SubOk(f, s, ch);
  }

  lemma TeedKeeps(f: Strip, s: State, teed: State, data: seq<byte>)
    requires Streaming(f) && Inv(f, s) && Teed(s, teed, data) && Wired(teed) && MirrorOk(teed)
    ensures Inv(f, FanOut(f, teed, data))
  {
    var s' := FanOut(f, teed, data);
    forall ch | ch in s'.chans ensures ChanOk(f, s', ch) {
      assert ChanOk(f, s, ch);
      ChunkKeepsChan(f, s, teed, data, ch);
    }
    assert forall ch | ch in s.chans :: ChanOk(f, s, ch);
    FanOutSafe(f, teed, data);
  }

  lemma ChunkKeeps(f: Strip, s: State, data: seq<byte>, now: u64)
    requires Streaming(f) && Inv(f, s)
    ensures Inv(f, Step(f, s, Chunk(data, now)))
  {
    TeeKeeps(s, data, now);
    TeedKeeps(f, s, Tee(s, data, now), data);
  }

  lemma ChunkKeepsOne(f: Strip, lexer: Lexer, c: Channel, h: History, data: seq<byte>)
    requires Streaming(f) && lexer == f(GROUND, Concat(h.raw)).st && !c.closed && Delivered(f, c, h)
    ensures f(lexer, data).st == f(GROUND, Concat(h.raw + [data])).st
    ensures !Send(c, f(lexer, data).out).closed
    ensures Delivered(f, Send(c, f(lexer, data).out), Process(h, c, data, f(lexer, data).out))
  {
    ConcatSnoc(h.raw, data);
    assert f(GROUND, Concat(h.raw) + data).st == f(lexer, data).st;
    SendDelivers(f, c, h, data);
  }

  /** A fresh channel leaves every other one alone, and starts out owing nothing. */
  lemma SubscribeKeeps(f: Strip, s: State, a: Action)
    requires Streaming(f) && Inv(f, s) && (a.Subscribe? || a.SubscribeSnapshot? || a.SubscribeSkipped?)
    ensures Inv(f, Step(f, s, a))
  {
    var s' := Step(f, s, a);
    FreshKeeps(f, s.term);
    forall ch | ch in s'.chans ensures ChanOk(f, s', ch) {
      if ch != s.next {
        assert ChanOk(f, s, ch);
      }
    }
  }

  lemma DropKeeps(f: Strip, s: State, ch: ChanId)
    requires Inv(f, s) && ch in s.subs
    ensures Inv(f, Drop(s, ch))
  {
    assert ChanOk(f, s, ch);
    var s' := Drop(s, ch);
    forall c | c in s'.chans ensures ChanOk(f, s', c) {
      assert ChanOk(f, s, c);
    }
  }

  lemma TeardownKeeps(f: Strip, s: State)
    requires Inv(f, s)
    ensures Inv(f, Step(f, s, Teardown))
  {
    var s' := Step(f, s, Teardown);
    assert forall ch | ch in s.subs :: ChanOk(f, s, ch);
    forall ch | ch in s'.chans ensures ChanOk(f, s', ch) {
      assert ChanOk(f, s, ch);
    }
  }

  /** Receiving changes nothing that was sent; a resize touches only the recorder. */
  lemma QuietKeeps(f: Strip, s: State, a: Action)
    requires Inv(f, s) && (a.Resize? || a.Receive?)
    ensures Inv(f, Step(f, s, a))
  {
    var s' := Step(f, s, a);
    forall ch | ch in s'.chans ensures ChanOk(f, s', ch) {
      assert ChanOk(f, s, ch);
    }
  }

  /** The invariant is kept by every action from every state that has it. */
  lemma StepKeeps(f: Strip, s: State, a: Action)
    requires Streaming(f) && Inv(f, s)
    ensures Inv(f, Step(f, s, a))
  {
    if a.Chunk? {
      ChunkKeeps(f, s, a.data, a.now);
    } else if a.Subscribe? || a.SubscribeSnapshot? || a.SubscribeSkipped? {
      SubscribeKeeps(f, s, a);
    } else if a.Cancel? {
      if a.ch in s.subs {
        DropKeeps(f, s, a.ch);
      }
    } else if a.Teardown? {
      TeardownKeeps(f, s);
    } else {
      QuietKeeps(f, s, a);
    }
  }

  lemma FreshKeeps(f: Strip, term: Option<seq<seq<byte>>>)
    requires Streaming(f)
    ensures f(GROUND, Concat<byte>([])).st == GROUND
    ensures term.Some? ==> term.value + [] == term.value
  {
    assert Concat<byte>([]) == [];
  }

  lemma {:induction false} ExecKeeps(f: Strip, rec: Option<R.State>, actions: seq<Action>)
    requires Streaming(f)
    ensures Inv(f, Exec(f, rec, actions))
  {
    if actions == [] {
      assert P.Run(P.FRESH, Concat<byte>([])) == P.Fed(P.FRESH, []);
    } else {
      ExecKeeps(f, rec, Front(actions));
      StepKeeps(f, Exec(f, rec, Front(actions)), Last(actions));
    }
  }

  /** In every state reachable by any interleaving of actions, with or without a recorder: no channel has
      been closed twice or sent to after its close; each subscriber's snapshot and live chunks cover the
      emulator's history with no gap and no overlap; what was delivered is what a fresh stripper passes, or a
      subsequence if a send found the buffer full; and the mirror has been fed exactly the filtered stream. */
  lemma ReachableSafe(rec: Option<R.State>, actions: seq<Action>)
    ensures Inv(S.Run, Exec(S.Run, rec, actions))
  {
    StripperStreams();
    ExecKeeps(S.Run, rec, actions);
  }

  /** A live, lossless subscriber made with its snapshot: snapshot history followed by the raw bytes since is
      the emulator's whole history, and the bytes delivered are those raw bytes with ENQs and queries
      removed. */
  lemma SubscriberSeesEverything(rec: Option<R.State>, actions: seq<Action>, ch: ChanId)
    requires var s := Exec(S.Run, rec, actions);
      ch in s.subs && s.term.Some? && s.hist[ch].snapshot.Some? && !s.hist[ch].lost
    ensures var s := Exec(S.Run, rec, actions);
      var raw := Concat(s.hist[ch].raw);
      && Concat(s.hist[ch].snapshot.value) + raw == Concat(s.term.value)
      && Concat(s.chans[ch].sent) == S.RenderAll(Tokens(raw, true))
  {
    StripperStreams();
    ReachableSafe(rec, actions);
    CoversHistory(S.Run, Exec(S.Run, rec, actions), ch);
    LexRefines(Concat(Exec(S.Run, rec, actions).hist[ch].raw), true);
  }

  lemma CoversHistory(f: Strip, s: State, ch: ChanId)
    requires Streaming(f) && Inv(f, s) && ch in s.subs && s.term.Some? && s.hist[ch].snapshot.Some? && !s.hist[ch].lost
    ensures Concat(s.hist[ch].snapshot.value) + Concat(s.hist[ch].raw) == Concat(s.term.value)
    ensures Concat(s.chans[ch].sent) == f(GROUND, Concat(s.hist[ch].raw)).out
  {
    assert ChanOk(f, s, ch);
    ConcatAppend(s.hist[ch].snapshot.value, s.hist[ch].raw);
    PassedIsOneRun(f, s.hist[ch].raw);
  }

  // ---------------------------------------------------------------- the recorder sees what the emulator sees

  /** What one action hands to the recorder while the emulator is up. */
  function OpOf(a: Action): Option<R.Op> {
    match a
    case Chunk(data, now) => Some(R.WriteOp(data, now))
    case Resize(cols, rows, now, ok) => if ok then Some(R.ResizeOp(cols, rows, now)) else None
    case _ => None
  }

  /** What actions hand to the recorder while the emulator is up. */
  function RecOps(actions: seq<Action>): seq<R.Op> {
    if actions == [] then []
    else
      match OpOf(Last(actions))
      case Some(op) => RecOps(Front(actions)) + [op]
      case None => RecOps(Front(actions))
  }

  /** The chunks that actions feed to the emulator while it is up. */
  function Fed(actions: seq<Action>): seq<seq<byte>> {
    if actions == [] then []
    else if Last(actions).Chunk? then Fed(Front(actions)) + [Last(actions).data]
    else Fed(Front(actions))
  }

  /** The emulator is not torn down in the course of these actions. */
  ghost predicate Live(actions: seq<Action>) {
    forall i | 0 <= i < |actions| :: !actions[i].Teardown?
  }

  /** The output bytes among a list of recorded items. */
  function OutBytes(items: seq<R.Item>): seq<byte> {
    if items == [] then []
    else OutBytes(Front(items)) + if Last(items).Out? then [Last(items).b] else []
  }

  lemma {:induction false} OutBytesOf(items: seq<R.Item>, data: seq<byte>, at: int)
    ensures OutBytes(items + R.BytesAt(data, at)) == OutBytes(items) + data
    decreases |data|
  {
    var more := R.BytesAt(data, at);
    if data == [] {
      assert items + more == items;
    } else {
      OutBytesOf(items, Front(data), at);
      assert Front(items + more) == items + R.BytesAt(Front(data), at) && Last(items + more) == R.Out(Last(data), at);
    }
  }

  lemma OutBytesSize(items: seq<R.Item>, cols: u16, rows: u16, at: int)
    ensures OutBytes(items + [R.Size(cols, rows, at)]) == OutBytes(items)
  {
    assert Front(items + [R.Size(cols, rows, at)]) == items;
  }

  lemma WantedByOne(cols: u16, rows: u16, ops: seq<R.Op>, op: R.Op)
    ensures OutBytes(R.Wanted(cols, rows, ops + [op])) ==
      OutBytes(R.Wanted(cols, rows, ops)) + if op.WriteOp? then op.data else []
  {
    R.WantedSnoc(cols, rows, ops, op);
    var want := R.Wanted(cols, rows, ops);
    match op
    case WriteOp(data, now) => OutBytesOf(want, data, now);
    case ResizeOp(c, r, now) => OutBytesSize(want, c, r, now);
  }

  lemma WantedAtStart(cols: u16, rows: u16)
    ensures OutBytes(R.Wanted(cols, rows, [])) == []
  {
    var want := R.Wanted(cols, rows, []);
    OutBytesSize([], want[0].cols, want[0].rows, 0);
    assert [] + want == want;
  }

  /** The bytes handed to the recorder are the bytes fed to the emulator. */
  lemma {:induction false} WantedBytes(cols: u16, rows: u16, actions: seq<Action>)
    ensures OutBytes(R.Wanted(cols, rows, RecOps(actions))) == Concat(Fed(actions))
  {
    if actions == [] {
      WantedAtStart(cols, rows);
    } else {
      WantedBytes(cols, rows, Front(actions));
      var ops := RecOps(Front(actions));
      if OpOf(Last(actions)).Some? {
        WantedByOne(cols, rows, ops, OpOf(Last(actions)).value);
      }
      if Last(actions).Chunk? {
        ConcatSnoc(Fed(Front(actions)), Last(actions).data);
      }
    }
  }

  lemma {:induction false} EmulatorTracks(f: Strip, rec: Option<R.State>, actions: seq<Action>)
    requires Live(actions)
    ensures Exec(f, rec, actions).term == Some(Fed(actions))
  {
    if actions != [] {
      EmulatorTracks(f, rec, Front(actions));
    }
  }

  lemma LiveStep(f: Strip, s: State, a: Action, rec: R.State)
    requires Wired(s) && s.term.Some? && !a.Teardown? && s.rec == Some(rec)
    ensures Step(f, s, a).rec == Some(if OpOf(a).Some? then R.Apply(rec, OpOf(a).value) else rec)
  {
  }

  /** Before teardown the recorder has been given exactly what the emulator was fed. */
  lemma {:induction false} RecorderTracks(f: Strip, cols: u16, rows: u16, actions: seq<Action>)
    requires Live(actions)
    ensures Exec(f, Some(R.Init(cols, rows)), actions).rec == Some(R.Run(cols, rows, RecOps(actions)))
  {
    if actions != [] {
      var before, ops := Exec(f, Some(R.Init(cols, rows)), Front(actions)), RecOps(Front(actions));
      RecorderTracks(f, cols, rows, Front(actions));
      EmulatorTracks(f, Some(R.Init(cols, rows)), Front(actions));
      LiveStep(f, before, Last(actions), R.Run(cols, rows, ops));
      if OpOf(Last(actions)).Some? {
        R.RunSnoc(cols, rows, ops, OpOf(Last(actions)).value);
      }
    }
  }

  /** Torn down: no emulator, and the recorder, if any, is closed. */
  predicate Down(s: State, rec: Option<R.State>) {
    s.term == None && s.rec == rec && (rec.Some? ==> !rec.value.open)
  }

  lemma DownStays(f: Strip, s: State, a: Action, rec: Option<R.State>)
    requires Wired(s) && Down(s, rec)
    ensures Down(Step(f, s, a), rec)
  {
  }

  lemma TeardownCloses(f: Strip, s: State, rec: R.State)
    requires Wired(s) && s.rec == Some(rec)
    ensures Down(Step(f, s, Teardown), Some(R.DoClose(rec)))
  {
  }

  /** Whatever is still queued when the dispatcher is torn down leaves the recording as it was closed. */
  lemma {:induction false} DrainedAfter(f: Strip, rec: Option<R.State>, actions: seq<Action>, more: seq<Action>, closed: R.State)
    requires Exec(f, rec, actions).rec.Some? && closed == R.DoClose(Exec(f, rec, actions).rec.value)
    ensures Down(Exec(f, rec, actions + [Teardown] + more), Some(closed))
    decreases |more|
  {
    var all := actions + [Teardown] + more;
    if more == [] {
      assert Front(all) == actions && Last(all) == Teardown;
      TeardownCloses(f, Exec(f, rec, actions), Exec(f, rec, actions).rec.value);
    } else {
      assert Front(all) == actions + [Teardown] + Front(more) && Last(all) == Last(more);
      DrainedAfter(f, rec, actions, Front(more), closed);
      DownStays(f, Exec(f, rec, Front(all)), Last(all), Some(closed));
    }
  }

  /** End to end: after any run of a recorded session, its teardown and whatever was still queued then, the log
      file decodes without error to the prelude and then every resize and every byte the emulator was fed, in
      order, each byte within 33 ms before its chunk's clock and each resize at exactly its clock. */
  lemma {:induction false} SessionRecorded(cols: u16, rows: u16, actions: seq<Action>, more: seq<Action>)
    requires Live(actions) && R.Clocked(RecOps(actions))
    ensures var s := Exec(S.Run, Some(R.Init(cols, rows)), actions + [Teardown] + more);
      s.rec.Some? &&
      var d := L.Decode(L.PREAMBLE + L.EncodeAll(s.rec.value.log));
      var want := R.Wanted(cols, rows, RecOps(actions));
      d.stop == L.Eof && R.Faithful(R.Items(d.frames), want) && OutBytes(want) == Concat(Fed(actions))
  {
    var ops := RecOps(actions);
    RecorderTracks(S.Run, cols, rows, actions);
    DrainedAfter(S.Run, Some(R.Init(cols, rows)), actions, more, R.DoClose(R.Run(cols, rows, ops)));
    WantedBytes(cols, rows, actions);
    R.RoundTrip(cols, rows, ops);
  }

  // ---------------------------------------------------------------- the dispatcher as an object

  /** One more subscriber served, in whatever order the map is walked. */
  lemma FanOutOneMore(f: Strip, s: State, data: seq<byte>, to: set<ChanId>, ch: ChanId)
    requires Wired(s) && to <= s.subs.Keys && ch in s.subs && ch !in to
    ensures var p, fed := FanOutTo(f, s, data, to), f(s.subs[ch], data);
      && p.subs[ch] == s.subs[ch] && p.chans[ch] == s.chans[ch] && p.hist[ch] == s.hist[ch]
      && FanOutTo(f, s, data, to + {ch}) == p.(
        subs := p.subs[ch := fed.st], chans := p.chans[ch := Send(p.chans[ch], fed.out)],
        hist := p.hist[ch := Process(p.hist[ch], p.chans[ch], data, fed.out)],
        panicked := p.panicked || SendPanics(p.chans[ch], fed.out))
  {
    var p, fed, q := FanOutTo(f, s, data, to), f(s.subs[ch], data), FanOutTo(f, s, data, to + {ch});
    assert q.subs == p.subs[ch := fed.st];
    assert q.chans == p.chans[ch := Send(p.chans[ch], fed.out)];
    assert q.hist == p.hist[ch := Process(p.hist[ch], p.chans[ch], data, fed.out)];
  }

  lemma FanOutNone(f: Strip, s: State, data: seq<byte>)
    requires Wired(s)
    ensures FanOutTo(f, s, data, {}) == s
  {
    var q := FanOutTo(f, s, data, {});
    assert q.subs == s.subs && q.chans == s.chans && q.hist == s.hist;
  }

  lemma CloseOneMore(s: State, which: set<ChanId>, ch: ChanId)
    requires Wired(s) && which <= s.subs.Keys && ch in s.subs && ch !in which
    ensures var p := CloseSome(s, which); ch in p.subs && CloseSome(s, which + {ch}) == Drop(p, ch)
  {
    var p, q := CloseSome(s, which), CloseSome(s, which + {ch});
    assert q.subs == p.subs - {ch};
    assert q.chans == p.chans[ch := p.chans[ch].(closed := true)];
  }

  lemma CloseNone(s: State)
    requires Wired(s)
    ensures CloseSome(s, {}) == s
  {
    var q := CloseSome(s, {});
    assert q.subs == s.subs && q.chans == s.chans;
  }

  /** The dispatcher's own state; each method is one queued action run to completion. */
  class LibghosttyPty {
    var term: Option<seq<seq<byte>>>
    var primaryTerm: Option<seq<seq<byte>>>
    var primaryFilter: P.State
    var rec: Option<R.State>
    var subs: map<ChanId, Lexer>
    var chans: map<ChanId, Channel>
    var nextChan: ChanId
    var panicked: bool
    var done: bool
    ghost var hist: map<ChanId, History>

    ghost function View(): State
      reads this
    {
      State(term, primaryTerm, primaryFilter, rec, subs, chans, hist, nextChan, panicked)
    }

    constructor (recorder: Option<R.State>)
      ensures View() == Start(recorder) && Wired(View()) && !done
    {
      term, primaryTerm, primaryFilter, rec := Some([]), Some([]), P.FRESH, recorder;
      subs, chans, hist, nextChan, panicked, done := map[], map[], map[], 0, false, false;
    }

    method OnChunk(chunk: seq<byte>, now: u64)
      requires Wired(View())
      modifies this
      ensures Wired(View()) && View() == Step(S.Run, old(View()), Chunk(chunk, now))
    {
      if rec.Some? {
        rec := Some(R.DoWrite(rec.value, chunk, now));
      }
      if term.Some? {
        term := Some(term.value + [chunk]);
      }
      if primaryTerm.Some? {
        var fed := P.Run(primaryFilter, chunk);
        primaryFilter := fed.st;
        primaryTerm := Some(primaryTerm.value + if fed.out == [] then [] else [fed.out]);
      }
      assert View() == Tee(old(View()), chunk, now);
      FanOutChunk(chunk);
    }

    /** Serve every subscriber; the order of the walk does not matter. */
    method FanOutChunk(chunk: seq<byte>)
      requires Wired(View())
      modifies `subs, `chans, `hist, `panicked
      ensures View() == FanOut(S.Run, old(View()), chunk)
    {
      ghost var s := View();
      var todo := subs.Keys;
      FanOutNone(S.Run, s, chunk);
      while todo != {}
        invariant todo <= s.subs.Keys
        invariant View() == FanOutTo(S.Run, s, chunk, s.subs.Keys - todo)
        decreases todo
      {
        var ch :| ch in todo;
        FanOutOneMore(S.Run, s, chunk, s.subs.Keys - todo, ch);
        assert s.subs.Keys - (todo - {ch}) == s.subs.Keys - todo + {ch};
        ServeOne(ch, chunk);
        todo := todo - {ch};
      }
      assert s.subs.Keys - {} == s.subs.Keys;
    }

    /** Filter for one subscriber and send without blocking. */
    method ServeOne(ch: ChanId, chunk: seq<byte>)
      requires ch in subs && ch in chans && ch in hist
      modifies `subs, `chans, `hist, `panicked
      ensures var fed := S.Run(old(subs)[ch], chunk);
        && subs == old(subs)[ch := fed.st]
        && chans == old(chans)[ch := Send(old(chans)[ch], fed.out)]
        && hist == old(hist)[ch := Process(old(hist)[ch], old(chans)[ch], chunk, fed.out)]
        && panicked == (old(panicked) || SendPanics(old(chans)[ch], fed.out))
    {
      var fed := S.Run(subs[ch], chunk);
      var c := chans[ch];
      subs := subs[ch := fed.st];
      hist := hist[ch := Process(hist[ch], c, chunk, fed.out)];
      if |fed.out| != 0 {
        if c.closed {
          panicked := true;
        } else if |c.sent| - c.received < c.cap {
          c := c.(sent := c.sent + [fed.out]);
        }
      }
      chans := chans[ch := c];
    }

    method OnResize(cols: u16, rows: u16, now: u64, terminalsResized: bool)
      requires Wired(View())
      modifies `rec
      ensures View() == Step(S.Run, old(View()), Resize(cols, rows, now, terminalsResized))
    {
      if term.None? || !terminalsResized {
        return;
      }
      if rec.Some? {
        rec := Some(R.DoResize(rec.value, cols, rows, now));
      }
    }

    method MakeChannel(cap: nat) returns (ch: ChanId)
      requires Wired(View())
      modifies `chans, `hist, `nextChan
      ensures ch == old(nextChan) && View() == Open(old(View()), cap, false)
    {
      ch := nextChan;
      chans := chans[ch := Channel(cap, [], 0, false)];
      hist := hist[ch := History(None, [], false)];
      nextChan := nextChan + 1;
    }

    method CloseChannel(ch: ChanId)
      requires ch in chans
      modifies `chans, `panicked
      ensures chans == old(chans)[ch := old(chans)[ch].(closed := true)]
      ensures panicked == (old(panicked) || old(chans)[ch].closed)
    {
      if chans[ch].closed {
        panicked := true;
      }
      chans := chans[ch := chans[ch].(closed := true)];
    }

    /** A plain subscription; an action that never ran leaves an open channel nobody sends to. */
    method DoSubscribe(cap: nat, ran: bool) returns (ch: ChanId)
      requires Wired(View())
      modifies this
      ensures Wired(View())
      ensures View() == Step(S.Run, old(View()), if ran then Subscribe(cap) else SubscribeSkipped(cap, false))
    {
      ch := MakeChannel(cap);
      if ran {
        subs := subs[ch := GROUND];
      }
    }

    /** Register and snapshot in one action; a failed snapshot takes the registration back, and an action that
        never ran leaves a closed channel. */
    method SubscribeWithSnapshot(ran: bool, snapshotOk: bool) returns (ch: ChanId, snap: Option<seq<seq<byte>>>)
      requires Wired(View())
      modifies this
      ensures Wired(View())
      ensures View() == Step(S.Run, old(View()), if ran then SubscribeSnapshot(snapshotOk) else SubscribeSkipped(256, true))
      ensures snap == if ran && snapshotOk then old(term) else None
    {
      ch := MakeChannel(256);
      if !ran {
        CloseChannel(ch);
        return ch, None;
      }
      snap := JoinWithSnapshot(ch, snapshotOk);
    }

    /** The action itself. */
    method JoinWithSnapshot(ch: ChanId, snapshotOk: bool) returns (snap: Option<seq<seq<byte>>>)
      requires ch in chans && ch !in subs
      modifies `subs, `chans, `hist, `panicked
      ensures View() == old(Join(View(), ch, snapshotOk))
      ensures snap == if snapshotOk then term else None
    {
      if term.None? {
        return None;
      }
      subs := subs[ch := GROUND];
      hist := hist[ch := History(term, [], false)];
      snap := term;
      if !snapshotOk {
        snap := None;
        subs := subs - {ch};
        CloseChannel(ch);
      }
    }

    method DoCancel(ch: ChanId)
      requires Wired(View())
      modifies this
      ensures Wired(View()) && View() == Step(S.Run, old(View()), Cancel(ch))
    {
      if ch in subs {
        subs := subs - {ch};
        CloseChannel(ch);
      }
    }

    /** Only the first call does anything, and it tears down only if the action queue had room. */
    method Close(queued: bool)
      requires Wired(View())
      modifies this
      ensures Wired(View()) && done
      ensures View() == if !old(done) && queued then Step(S.Run, old(View()), Teardown) else old(View())
    {
      if done {
        return;
      }
      done := true;
      if queued {
        CloseSubscribers();
        term, primaryTerm := None, None;
        if rec.Some? {
          rec := Some(R.DoClose(rec.value));
        }
      }
    }

    method CloseSubscribers()
      requires Wired(View())
      modifies `subs, `chans, `panicked
      ensures View() == CloseAll(old(View()))
    {
      ghost var s := View();
      var todo := subs.Keys;
      CloseNone(s);
      while todo != {}
        invariant todo <= s.subs.Keys
        invariant View() == CloseSome(s, s.subs.Keys - todo)
        decreases todo
      {
        var ch :| ch in todo;
        CloseOneMore(s, s.subs.Keys - todo, ch);
        assert s.subs.Keys - (todo - {ch}) == s.subs.Keys - todo + {ch};
        subs := subs - {ch};
        CloseChannel(ch);
        todo := todo - {ch};
      }
      assert s.subs.Keys - {} == s.subs.Keys;
    }
  }
}
