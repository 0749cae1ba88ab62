/** The kitty-keyboard stack tracker of the attach client: it watches the output for pushes and pops, and on
    detach pops what is left so that the terminal's stack is back where it was. */
module KittyRestorer {
  import opened Bytes
  import opened KeyEvents
  import opened CsiScan

  const LOWER_M: byte := 0x6d
  const LESS: byte := 0x3c
  const GREATER: byte := 0x3e

  // ---------------------------------------------------------------- what a sequence does

  datatype Event = Push | Pop(n: nat) | OtherKeys(on: bool) | Other

  /** Signed decimal in the 64-bit range, as the standard library reads it. */
  function Atoi(s: seq<byte>): Option<int> {
    var signed := s != [] && (s[0] == 0x2b || s[0] == 0x2d);
    var digits := if signed then s[1..] else s;
    if digits == [] || !AllDigits(digits) then None
    else
      var v: int := Value(digits);
      var n := if signed && s[0] == 0x2d then -v else v;
      if -0x8000_0000_0000_0000 <= n < 0x8000_0000_0000_0000 then Some(n) else None
  }

  /** A missing, malformed, out-of-range or non-positive count is 1. */
  function PopCount(params: seq<byte>): (n: nat)
    ensures n > 0
  {
    var n := Atoi(params);
    if n.Some? && n.value > 0 then n.value else 1
  }

  function EventOf(body: seq<byte>): Event {
    if |body| < 2 then Other
    else
      var params := body[1..|body| - 1];
      if body[0] == GREATER && Last(body) == LOWER_U then Push
      else if body[0] == LESS && Last(body) == LOWER_U then Pop(PopCount(params))
      else if body[0] == GREATER && Last(body) == LOWER_M then OtherKeysEvent(params)
      else Other
  }

  /** `CSI > m` and `CSI > 4 ; v m`; the mode is on for v = 2 alone. */
  function OtherKeysEvent(params: seq<byte>): Event {
    var fields := Fields(params, SEMICOLON);
    if params == [] then OtherKeys(false)
    else if fields[0] != [0x34] then Other
    else OtherKeys(|fields| >= 2 && fields[1] == [0x32])
  }

  function Events(bodies: seq<seq<byte>>): seq<Event> {
    seq(|bodies|, i requires 0 <= i < |bodies| => EventOf(bodies[i]))
  }

  // ---------------------------------------------------------------- the terminal and the tracker

  /** The terminal: how deep its keyboard stack is, and whether modifyOtherKeys mode 2 is on. */
  datatype Terminal = Terminal(depth: nat, otherKeys: bool)

  function Shown(es: seq<Event>, t: Terminal): Terminal {
    if es == [] then t else Does(Shown(Front(es), t), Last(es))
  }

  /** A pop of more frames than there are empties the stack. */
  function Does(t: Terminal, e: Event): Terminal {
    match e
    case Push => t.(depth := t.depth + 1)
    case Pop(n) => t.(depth := if n < t.depth then t.depth - n else 0)
    case OtherKeys(on) => t.(otherKeys := on)
    case Other => t
  }

  lemma ShownOne(e: Event, t: Terminal)
    ensures Shown([e], t) == Does(t, e)
  {
    assert Front([e]) == [] && Last([e]) == e;
  }

  lemma ShownTwo(d: Event, e: Event, t: Terminal)
    ensures Shown([d, e], t) == Does(Does(t, d), e)
  {
    assert Front([d, e]) == [d] && Last([d, e]) == e;
    ShownOne(d, t);
  }

  /** The tracker: a 32-bit count of pops owed, and the mode it last saw. */
  datatype Tally = Tally(pops: int, otherKeys: bool)

  /** Subtraction of a 64-bit count on the 32-bit counter, clamped at zero. */
  function Removed(pops: int, n: int): int {
    if n <= 0 then pops
    else
      var next := Int32(pops - Int32(n));
      if next < 0 then 0 else next
  }

  function Noted(t: Tally, e: Event): Tally {
    match e
    case Push => t.(pops := Int32(t.pops + 1))
    case Pop(n) => t.(pops := Removed(t.pops, n))
    case OtherKeys(on) => t.(otherKeys := on)
    case Other => t
  }

  function Tracked(es: seq<Event>, t: Tally): Tally {
    if es == [] then t else Noted(Tracked(Front(es), t), Last(es))
  }

  lemma {:induction false} TrackedAppend(a: seq<Event>, b: seq<Event>, t: Tally)
    ensures Tracked(a + b, t) == Tracked(b, Tracked(a, t))
    decreases |b|
  {
    if b == [] {
      assert a + b == a;
    } else {
      assert Front(a + b) == a + Front(b) && Last(a + b) == Last(b);
      TrackedAppend(a, Front(b), t);
    }
  }

  // ---------------------------------------------------------------- when the 32-bit count is right

  /** Frames pushed and not yet popped, without a bound. */
  function Outstanding(es: seq<Event>, k: nat): nat {
    if es == [] then k else Left(Outstanding(Front(es), k), Last(es))
  }

  function Left(k: nat, e: Event): nat {
    match e
    case Push => k + 1
    case Pop(n) => if n < k then k - n else 0
    case _ => k
  }

  /** A push has room for one more; a pop's count fits 32 bits, or happens to land at or below zero. */
  predicate StepFits(k: nat, e: Event) {
    match e
    case Push => k + 1 < 0x8000_0000
    case Pop(n) => n < 0x8000_0000 || Int32(k - n) <= 0
    case _ => true
  }

  ghost predicate Fits(es: seq<Event>, k: nat) {
    forall i | 0 <= i < |es| :: StepFits(Outstanding(es[..i], k), es[i])
  }

  lemma WrapTwice(k: int, n: int)
    ensures Int32(k - Int32(n)) == Int32(k - n)
  {
    var q := (n + 0x8000_0000) / 0x1_0000_0000;
    assert Int32(n) == n - q * 0x1_0000_0000;
    assert k - Int32(n) + 0x8000_0000 == (k - n + 0x8000_0000) + q * 0x1_0000_0000;
  }

  lemma InRange(x: int)
    requires -0x8000_0000 <= x < 0x8000_0000
    ensures Int32(x) == x
  {
  }

  lemma PushExact(k: nat)
    requires k < 0x8000_0000
    ensures Int32(k + 1) == k + 1 <==> k + 1 < 0x8000_0000
  {
    if k + 1 < 0x8000_0000 {
      InRange(k + 1);
    }
  }

  lemma PopExact(k: nat, n: nat)
    requires k < 0x8000_0000 && n > 0
    ensures Removed(k, n) == (if n < k then k - n else 0) <==> n < 0x8000_0000 || Int32(k - n) <= 0
  {
    WrapTwice(k, n);
    if n < 0x8000_0000 {
      InRange(k - n);
    }
  }

  lemma StepExact(t: Tally, e: Event, k: nat, k': nat)
    requires t.pops == k < 0x8000_0000 && (e.Pop? ==> e.n > 0) && k' == Left(k, e)
    ensures Noted(t, e).pops == k' <==> StepFits(k, e)
    ensures StepFits(k, e) ==> k' < 0x8000_0000
  {
    match e
    case Push => PushExact(k);
    case Pop(n) => PopExact(k, n);
    case _ =>
  }

  /** Counts are positive, as the sequence reader returns them. */
  ghost predicate Positive(es: seq<Event>) {
    forall i | 0 <= i < |es| && es[i].Pop? :: es[i].n > 0
  }

  /** The count is right after every event. */
  ghost predicate Exact(es: seq<Event>, k: nat, t: Tally) {
    forall i | 0 <= i <= |es| :: Tracked(es[..i], t).pops == Outstanding(es[..i], k)
  }

  lemma ExactSnoc(es: seq<Event>, k: nat, t: Tally)
    requires es != []
    ensures Exact(es, k, t) <==> Exact(Front(es), k, t) && Tracked(es, t).pops == Outstanding(es, k)
    ensures Exact(es, k, t) ==> Tracked(es, t).pops == Outstanding(es, k)
  {
    var f := Front(es);
    assert forall i | 0 <= i <= |f| :: f[..i] == es[..i];
    assert es[..|es|] == es;
  }

  lemma FitsSnoc(es: seq<Event>, k: nat)
    requires es != []
    ensures Fits(es, k) <==> Fits(Front(es), k) && StepFits(Outstanding(Front(es), k), Last(es))
  {
    var f := Front(es);
    assert forall i | 0 <= i <= |f| :: f[..i] == es[..i];
    assert es[..|f|] == f;
  }

  /** The count is right after every event if and only if every event fits. */
  lemma {:induction false} CountExactIffFits(es: seq<Event>, k: nat, t: Tally)
    requires t.pops == k < 0x8000_0000 && Positive(es)
    ensures Exact(es, k, t) <==> Fits(es, k)
    ensures Fits(es, k) ==> Tracked(es, t).pops == Outstanding(es, k) < 0x8000_0000
    decreases |es|
  {
    if es == [] {
      assert forall i | 0 <= i <= |es| :: es[..i] == [];
    } else {
      CountExactIffFits(Front(es), k, t);
      ExactSnoc(es, k, t);
      FitsSnoc(es, k);
      if Fits(Front(es), k) {
        StepExact(Tracked(Front(es), t), Last(es), Outstanding(Front(es), k), Outstanding(es, k));
      }
    }
  }

  function Pushes(es: seq<Event>): nat {
    if es == [] then 0 else Pushes(Front(es)) + if Last(es).Push? then 1 else 0
  }

  lemma {:induction false} OutstandingAtMost(es: seq<Event>, k: nat)
    ensures Outstanding(es, k) <= k + Pushes(es)
  {
    if es != [] {
      OutstandingAtMost(Front(es), k);
    }
  }

  lemma {:induction false} PushesPrefix(es: seq<Event>, i: nat)
    requires i < |es|
    ensures Pushes(es[..i]) + (if es[i].Push? then 1 else 0) <= Pushes(es)
  {
    if i < |es| - 1 {
      assert Front(es)[..i] == es[..i];
      PushesPrefix(Front(es), i);
    }
  }

  /** Every output with fewer than 2^31 - 1 pushes and pop counts below 2^31 fits. */
  lemma OrdinaryFits(es: seq<Event>, k: nat)
    requires k + Pushes(es) < 0x8000_0000
    requires forall i | 0 <= i < |es| && es[i].Pop? :: es[i].n < 0x8000_0000
    ensures Fits(es, k)
  {
    forall i | 0 <= i < |es| ensures StepFits(Outstanding(es[..i], k), es[i]) {
      PushesPrefix(es, i);
      OutstandingAtMost(es[..i], k);
    }
  }

  // ---------------------------------------------------------------- the stack is restored

  /** No pop asks for more frames than are outstanding. */
  ghost predicate NeverOverpops(es: seq<Event>, k: nat) {
    forall i | 0 <= i < |es| && es[i].Pop? :: es[i].n <= Outstanding(es[..i], k)
  }

  lemma {:induction false} DepthAbove(es: seq<Event>, k: nat, t: Terminal)
    requires k <= t.depth
    ensures var d, o := Shown(es, t).depth, Outstanding(es, k);
      o <= d <= o + (t.depth - k) && (d == o + (t.depth - k) <==> t.depth == k || NeverOverpops(es, k))
    decreases |es|
  {
    if es != [] {
      var f, e := Front(es), Last(es);
      assert forall i | 0 <= i < |f| :: f[..i] == es[..i] && f[i] == es[i];
      assert es[..|f|] == f;
      DepthAbove(f, k, t);
      assert NeverOverpops(es, k) <==> NeverOverpops(f, k) && (e.Pop? ==> e.n <= Outstanding(f, k));
    }
  }

  // ---------------------------------------------------------------- attach, observe, clean up

  /** What the restorer holds. */
  datatype State = State(tally: Tally, buf: seq<byte>)

  const FRESH: State := State(Tally(0, false), [])

  /** `CSI > u` */
  const PUSH_EMPTY: seq<byte> := [ESC, LBRACKET, GREATER, LOWER_U]

  /** `CSI > 4 ; 0 m` */
  const OTHER_KEYS_OFF: seq<byte> := [ESC, LBRACKET, GREATER, 0x34, SEMICOLON, 0x30, LOWER_M]

  /** One of the fixed resets: a private mode, another control sequence, ESC and one byte, or plain text. */
  datatype Reset =
    | Mode(n: nat, on: bool)
    | Sequence(params: seq<byte>, final: byte)
    | Escape(b: byte)
    | Text(text: seq<byte>)

  function ResetBytes(r: Reset): seq<byte> {
    match r
    case Mode(n, on) => [ESC, LBRACKET] + ([0x3f] + Decimal(n)) + [if on then 0x68 else 0x6c]
    case Sequence(params, final) => [ESC, LBRACKET] + params + [final]
    case Escape(b) => [ESC, b]
    case Text(text) => text
  }

  function AllResets(rs: seq<Reset>): seq<byte> {
    if rs == [] then [] else AllResets(Front(rs)) + ResetBytes(Last(rs))
  }

  const PROGRESS_CLEAR: seq<Reset> := [Escape(0x5d), Text([0x39, 0x3b, 0x34, 0x3b, 0x30, 0x3b, 0x07])]

  const MOUSE: seq<Reset> := [
    Mode(9, false), Mode(1000, false), Mode(1002, false), Mode(1003, false),
    Mode(1005, false), Mode(1006, false), Mode(1015, false), Mode(1016, false)]

  const KEYBOARD: seq<Reset> := [
    Mode(1, false), Mode(66, false), Escape(0x3e), Mode(67, false), Mode(1004, false), Mode(2004, false),
    Mode(1039, false), Sequence([0x32], 0x6c), Sequence([0x34], 0x6c), Sequence([0x32, 0x30], 0x6c)]

  const DISPLAY: seq<Reset> := [
    Mode(5, false), Mode(6, false), Mode(7, true), Mode(4, false), Mode(45, false), Mode(1045, false),
    Mode(3, false), Mode(2026, false), Mode(2027, false), Mode(2031, false), Mode(2048, false)]

  const LAYOUT: seq<Reset> := [
    Mode(69, false), Sequence([], 0x72), Sequence([0x30, 0x20], 0x71), Text([0x0f]), Escape(0x28), Text([0x42])]

  const SCREEN: seq<Reset> := [
    Mode(47, false), Mode(1047, false), Mode(1049, false),
    Sequence([0x30], 0x6d), Mode(25, true), Sequence([], 0x48), Sequence([0x32], 0x4a)]

  /** Progress, mouse, keyboard, display, layout and charset, alternate screens and visual reset. */
  const RESETS: seq<Reset> := PROGRESS_CLEAR + MOUSE + KEYBOARD + DISPLAY + LAYOUT + SCREEN

  function Attached(st: State): State {
    st.(tally := Noted(st.tally, Push))
  }

  function Observed(st: State, s: seq<byte>): State {
    var sc := Scan(st.buf, s);
    State(Tracked(Events(sc.bodies), st.tally), sc.buf)
  }

  function ObservedAll(st: State, chunks: seq<seq<byte>>): State
    decreases |chunks|
  {
    if chunks == [] then st else ObservedAll(Observed(st, chunks[0]), chunks[1..])
  }

  /** `CSI < u` or `CSI < n u` if anything is owed, the mode off if it was left on, and the fixed resets. */
  function CleanupBytes(t: Tally, resets: seq<Reset>): seq<byte> {
    PopBytes(t.pops) + (if t.otherKeys then OTHER_KEYS_OFF else []) + AllResets(resets)
  }

  function PopBytes(n: int): seq<byte> {
    if n <= 0 then [] else if n == 1 then [ESC, LBRACKET, LESS, LOWER_U]
    else [ESC, LBRACKET, LESS] + Decimal(n) + [LOWER_U]
  }

  lemma EventsAppend(a: seq<seq<byte>>, b: seq<seq<byte>>)
    ensures Events(a + b) == Events(a) + Events(b)
  {
  }

  lemma ObservedAppend(st: State, a: seq<byte>, b: seq<byte>)
    ensures Observed(st, a + b) == Observed(Observed(st, a), b)
  {
    ScanAppend(st.buf, a, b);
    var first, second := Scan(st.buf, a), Scan(Scan(st.buf, a).buf, b);
    EventsAppend(first.bodies, second.bodies);
    TrackedAppend(Events(first.bodies), Events(second.bodies), st.tally);
  }

  /** How the output is cut into payloads does not matter. */
  lemma {:induction false} ChunkingIrrelevant(st: State, chunks: seq<seq<byte>>)
    ensures ObservedAll(st, chunks) == Observed(st, Concat(chunks))
    decreases |chunks|
  {
    if chunks != [] {
      ObservedAppend(st, chunks[0], Concat(chunks[1..]));
      ChunkingIrrelevant(Observed(st, chunks[0]), chunks[1..]);
    }
  }

  // ---------------------------------------------------------------- what the terminal makes of the clean-up

  function Pow10(m: nat): nat {
    if m == 0 then 1 else 10 * Pow10(m - 1)
  }

  lemma {:induction false} DecimalShort(n: nat, m: nat)
    requires 0 < m && n < Pow10(m)
    ensures |Decimal(n)| <= m
  {
    if n >= 10 {
      assert m > 1 by { assert Pow10(1) == 10 * Pow10(0); }
      DecimalShort(n / 10, m - 1);
    }
  }

  lemma Pow10Big()
    ensures Pow10(10) == 10_000_000_000
  {
    assert Pow10(5) == 100_000;
    assert Pow10(10) == 100_000 * Pow10(5);
  }

  /** Restorer and terminal both read exactly these events, and both end between sequences. */
  ghost predicate Settled(s: seq<byte>, es: seq<Event>) {
    exists bodies :: ReadAs(s, bodies) && Events(bodies) == es
  }

  lemma SettledMeans(s: seq<byte>, es: seq<Event>)
    requires Settled(s, es)
    ensures Events(Bodies(s)) == es == Events(Recognised(s)) && Unfinished(s) == [] == Dangling(s)
  {
  }

  lemma SettledAppend(a: seq<byte>, ea: seq<Event>, b: seq<byte>, eb: seq<Event>)
    requires Settled(a, ea) && Settled(b, eb)
    ensures Settled(a + b, ea + eb)
  {
    var ba :| ReadAs(a, ba) && Events(ba) == ea;
    var bb :| ReadAs(b, bb) && Events(bb) == eb;
    ReadAsAppend(a, ba, b, bb);
    EventsAppend(ba, bb);
  }

  lemma SettledNothing(s: seq<byte>)
    requires ReadAs(s, [])
    ensures Settled(s, [])
  {
    assert Events([]) == [];
  }

  lemma SettledSequence(params: seq<byte>, final: byte)
    requires |params| <= 29 && IsFinal(final)
    requires forall i | 0 <= i < |params| :: !IsFinal(params[i]) && !Interrupts(params[i])
    ensures Settled([ESC, LBRACKET] + params + [final], [EventOf(params + [final])])
  {
    OneSequence(params, final);
    assert Events([params + [final]]) == [EventOf(params + [final])];
  }

  lemma AtoiDecimal(n: nat)
    requires 0 < n < 10_000_000_000
    ensures Decimal(n) != [] && PopCount(Decimal(n)) == n
    ensures |Decimal(n)| <= 10 && AllDigits(Decimal(n))
  {
    DecimalValue(n);
    Pow10Big();
    DecimalShort(n, 10);
  }

  lemma PopEvent(digits: seq<byte>)
    ensures EventOf([LESS] + digits + [LOWER_U]) == Pop(PopCount(digits))
  {
    var body := [LESS] + digits + [LOWER_U];
    assert body[1..|body| - 1] == digits;
  }

  lemma PopSequence(digits: seq<byte>)
    requires AllDigits(digits) && |digits| <= 28
    ensures Settled([ESC, LBRACKET] + ([LESS] + digits) + [LOWER_U], [Pop(PopCount(digits))])
  {
    SettledSequence([LESS] + digits, LOWER_U);
    PopEvent(digits);
  }

  /** The pop printed on clean-up reads back as a pop of exactly the number owed. */
  lemma {:induction false} PopReadsBack(n: nat)
    requires 0 < n < 10_000_000_000
    ensures Settled(PopBytes(n), [Pop(n)])
  {
    var digits := if n == 1 then [] else Decimal(n);
    AtoiDecimal(n);
    assert PopBytes(n) == [ESC, LBRACKET] + ([LESS] + digits) + [LOWER_U];
    PopSequence(digits);
  }

  lemma PushReadsBack()
    ensures Settled(PUSH_EMPTY, [Push])
  {
    assert PUSH_EMPTY == [ESC, LBRACKET] + [GREATER] + [LOWER_U];
    SettledSequence([GREATER], LOWER_U);
  }

  lemma OffEvent(params: seq<byte>)
    requires params == [0x34, SEMICOLON, 0x30]
    ensures EventOf([GREATER] + params + [LOWER_M]) == OtherKeys(false)
  {
    assert ([GREATER] + params + [LOWER_M])[1..4] == params;
    assert params == [0x34] + [SEMICOLON] + [0x30];
    FieldThen([0x34], SEMICOLON, [0x30]);
    FieldAlone([0x30], SEMICOLON);
  }

  lemma OffReadsBack()
    ensures Settled(OTHER_KEYS_OFF, [OtherKeys(false)])
  {
    var params := [0x34, SEMICOLON, 0x30];
    assert OTHER_KEYS_OFF == [ESC, LBRACKET] + ([GREATER] + params) + [LOWER_M];
    SettledSequence([GREATER] + params, LOWER_M);
    OffEvent(params);
  }

  /** Resets whose bytes are no push, no pop and no modifyOtherKeys. */
  predicate Tame(r: Reset) {
    match r
    case Mode(n, _) => n < 10_000
    case Sequence(params, final) =>
      && |params| <= 29 && IsFinal(final) && (forall i | 0 <= i < |params| :: 0x20 <= params[i] < 0x40)
      && (params == [] || params[0] !in {LESS, GREATER})
    case Escape(b) => b != ESC && b != LBRACKET
    case Text(text) => ESC !in text
  }

  /** Nothing that a tracker or the modelled terminal reacts to. */
  ghost predicate Quiet(es: seq<Event>) {
    forall i | 0 <= i < |es| :: es[i] == Other
  }

  lemma PlainSequence(params: seq<byte>, final: byte)
    requires Tame(Sequence(params, final))
    ensures Settled([ESC, LBRACKET] + params + [final], [Other])
  {
    SettledSequence(params, final);
    assert params != [] ==> (params + [final])[0] == params[0];
  }

  lemma ModeReset(n: nat, on: bool)
    requires n < 10_000
    ensures Settled(ResetBytes(Mode(n, on)), [Other])
  {
    DecimalValue(n);
    assert Pow10(4) == 10_000;
    DecimalShort(n, 4);
    PlainSequence([0x3f] + Decimal(n), if on then 0x68 else 0x6c);
  }

  lemma ResetReads(r: Reset) returns (es: seq<Event>)
    requires Tame(r)
    ensures Settled(ResetBytes(r), es) && Quiet(es)
  {
    match r
    case Mode(n, on) =>
      ModeReset(n, on);
      es := [Other];
    case Sequence(params, final) =>
      PlainSequence(params, final);
      es := [Other];
    case Escape(b) =>
      OneEscape(b);
      SettledNothing([ESC, b]);
      es := [];
    case Text(text) =>
      OnlyText(text);
      SettledNothing(text);
      es := [];
  }

  predicate AllTame(rs: seq<Reset>) {
    forall r | r in rs :: Tame(r)
  }

  lemma {:induction false} ResetsRead(rs: seq<Reset>) returns (es: seq<Event>)
    requires AllTame(rs)
    ensures Settled(AllResets(rs), es) && Quiet(es)
  {
    if rs == [] {
      OnlyText([]);
      SettledNothing([]);
      es := [];
    } else {
      var before := ResetsRead(Front(rs));
      var last := ResetReads(Last(rs));
      SettledAppend(AllResets(Front(rs)), before, ResetBytes(Last(rs)), last);
      es := before + last;
    }
  }

  lemma TameAppend(a: seq<Reset>, b: seq<Reset>)
    requires AllTame(a) && AllTame(b)
    ensures AllTame(a + b)
  {
  }

  lemma MouseTame()
    ensures AllTame(PROGRESS_CLEAR) && AllTame(MOUSE)
  {
  }

  lemma KeyboardTame()
    ensures AllTame(KEYBOARD)
  {
  }

  lemma DisplayTame()
    ensures AllTame(DISPLAY)
  {
  }

  lemma LayoutTame()
    ensures AllTame(LAYOUT)
  {
  }

  lemma ScreenTame()
    ensures AllTame(SCREEN)
  {
  }

  /** The fixed resets push, pop and switch nothing that is tracked. */
  lemma ResetsTame()
    ensures AllTame(RESETS)
  {
    MouseTame();
    KeyboardTame();
    DisplayTame();
    LayoutTame();
    ScreenTame();
    TameAppend(PROGRESS_CLEAR, MOUSE);
    TameAppend(PROGRESS_CLEAR + MOUSE, KEYBOARD);
    TameAppend(PROGRESS_CLEAR + MOUSE + KEYBOARD, DISPLAY);
    TameAppend(PROGRESS_CLEAR + MOUSE + KEYBOARD + DISPLAY, LAYOUT);
    TameAppend(PROGRESS_CLEAR + MOUSE + KEYBOARD + DISPLAY + LAYOUT, SCREEN);
  }

  /** The clean-up's events: the pops owed, the mode off, and nothing else of note. */
  function CleanupEvents(t: Tally): seq<Event> {
    (if t.pops > 0 then [Pop(t.pops)] else []) + if t.otherKeys then [OtherKeys(false)] else []
  }

  lemma PrefixReads(t: Tally)
    requires t.pops < 0x8000_0000
    ensures Settled(PopBytes(t.pops) + (if t.otherKeys then OTHER_KEYS_OFF else []), CleanupEvents(t))
  {
    var off := if t.otherKeys then OTHER_KEYS_OFF else [];
    OnlyText([]);
    SettledNothing([]);
    if t.pops > 0 {
      PopReadsBack(t.pops);
    }
    OffReadsBack();
    SettledAppend(PopBytes(t.pops), if t.pops > 0 then [Pop(t.pops)] else [],
                  off, if t.otherKeys then [OtherKeys(false)] else []);
  }

  lemma CleanupReadsBack(t: Tally, resets: seq<Reset>) returns (quiet: seq<Event>)
    requires t.pops < 0x8000_0000 && AllTame(resets)
    ensures Quiet(quiet) && Settled(CleanupBytes(t, resets), CleanupEvents(t) + quiet)
  {
    PrefixReads(t);
    quiet := ResetsRead(resets);
    SettledAppend(PopBytes(t.pops) + (if t.otherKeys then OTHER_KEYS_OFF else []), CleanupEvents(t),
                  AllResets(resets), quiet);
  }

  // ---------------------------------------------------------------- a whole attachment

  /** What the sequences that the restorer reads in a string do to a terminal. */
  function Reads(t: Terminal, s: seq<byte>): Terminal {
    Shown(Events(Bodies(s)), t)
  }

  /** What the sequences that a terminal recognises in a string do to it. */
  function Displays(t: Terminal, s: seq<byte>): Terminal {
    Shown(Events(Recognised(s)), t)
  }

  /** Attach, the output in these payloads, clean up. */
  function AfterSession(t: Terminal, chunks: seq<seq<byte>>, resets: seq<Reset>): Terminal {
    Session(Reads(t, PUSH_EMPTY), Attached(FRESH), chunks, resets)
  }

  /** The output in these payloads and the clean-up, with the terminal and the restorer as they are after attach. */
  function Session(t: Terminal, st: State, chunks: seq<seq<byte>>, resets: seq<Reset>): Terminal {
    Reads(Reads(t, Concat(chunks)), CleanupBytes(ObservedAll(st, chunks).tally, resets))
  }

  /** The same, from the events of the output. */
  function AfterEvents(t: Terminal, es: seq<Event>): Terminal {
    CleanedUp(Shown(es, t.(depth := t.depth + 1)), Tracked(es, Tally(1, false)))
  }

  function CleanedUp(t: Terminal, owed: Tally): Terminal {
    Shown(CleanupEvents(owed), t)
  }

  lemma {:induction false} EventsPositive(bodies: seq<seq<byte>>)
    ensures Positive(Events(bodies))
  {
  }

  lemma {:induction false} ShownAppend(a: seq<Event>, b: seq<Event>, t: Terminal)
    ensures Shown(a + b, t) == Shown(b, Shown(a, t))
    decreases |b|
  {
    if b == [] {
      assert a + b == a;
    } else {
      assert Front(a + b) == a + Front(b) && Last(a + b) == Last(b);
      ShownAppend(a, Front(b), t);
    }
  }

  lemma {:induction false} QuietShown(es: seq<Event>, t: Terminal)
    requires Quiet(es)
    ensures Shown(es, t) == t
  {
    if es != [] {
      QuietShown(Front(es), t);
    }
  }

  lemma CleanupShown(t: Terminal, owed: Tally)
    ensures var k := if owed.pops < 0 then 0 else owed.pops;
      CleanedUp(t, owed) == Terminal(if k < t.depth then t.depth - k else 0, t.otherKeys && !owed.otherKeys)
  {
    var k, off := if owed.pops < 0 then 0 else owed.pops, OtherKeys(false);
    ShownOne(Pop(k), t);
    ShownOne(off, t);
    ShownTwo(Pop(k), off, t);
    assert [Pop(k)] + [off] == [Pop(k), off] && [Pop(k)] + [] == [Pop(k)] && [] + [off] == [off];
  }

  /** The clean-up bytes do what the clean-up events do, however they are read. */
  lemma CleanupDoes(t: Terminal, owed: Tally, resets: seq<Reset>)
    requires owed.pops < 0x8000_0000 && AllTame(resets)
    ensures Reads(t, CleanupBytes(owed, resets)) == CleanedUp(t, owed)
    ensures Displays(t, CleanupBytes(owed, resets)) == CleanedUp(t, owed)
  {
    var quiet := CleanupReadsBack(owed, resets);
    SettledMeans(CleanupBytes(owed, resets), CleanupEvents(owed) + quiet);
    ShownAppend(CleanupEvents(owed), quiet, t);
    QuietShown(quiet, Shown(CleanupEvents(owed), t));
  }

  /** Some event sets or resets modifyOtherKeys. */
  ghost predicate Touched(es: seq<Event>) {
    exists i :: 0 <= i < |es| && es[i].OtherKeys?
  }

  lemma {:induction false} ModeFollowed(es: seq<Event>, t: Terminal, owed: Tally)
    ensures Touched(es) ==> Shown(es, t).otherKeys == Tracked(es, owed).otherKeys
    ensures !Touched(es) ==> Shown(es, t).otherKeys == t.otherKeys && Tracked(es, owed).otherKeys == owed.otherKeys
    decreases |es|
  {
    if es != [] {
      var f, e := Front(es), Last(es);
      assert forall i | 0 <= i < |f| :: f[i] == es[i];
      ModeFollowed(f, t, owed);
      assert e.OtherKeys? ==> es[|es| - 1].OtherKeys?;
    }
  }

  /** The state the restorer ends in, in terms of the whole output. */
  lemma {:induction false} SessionTally(st: State, chunks: seq<seq<byte>>)
    requires st.buf == []
    ensures ObservedAll(st, chunks) ==
      State(Tracked(Events(Bodies(Concat(chunks))), st.tally), Unfinished(Concat(chunks)))
  {
    ChunkingIrrelevant(st, chunks);
    ScanRefines(Concat(chunks));
  }

  lemma AttachedOnce()
    ensures Attached(FRESH) == State(Tally(1, false), [])
  {
    InRange(1);
  }

  lemma {:induction false} PushDoes(t: Terminal)
    ensures Reads(t, PUSH_EMPTY) == t.(depth := t.depth + 1)
  {
    PushReadsBack();
    SettledMeans(PUSH_EMPTY, [Push]);
    ShownOne(Push, t);
  }

  lemma {:induction false} EndsAsEvents(es: seq<Event>, t1: Terminal, resets: seq<Reset>)
    requires AllTame(resets)
    ensures var owed := Tracked(es, Tally(1, false));
      Reads(Shown(es, t1), CleanupBytes(owed, resets)) == CleanedUp(Shown(es, t1), owed)
  {
    var owed := Tracked(es, Tally(1, false));
    TallyRange(es, Tally(1, false));
    CleanupDoes(Shown(es, t1), owed, resets);
  }

  lemma {:induction false} SessionFrom(t1: Terminal, st: State, chunks: seq<seq<byte>>, resets: seq<Reset>)
    requires AllTame(resets) && st == State(Tally(1, false), [])
    ensures var es := Events(Bodies(Concat(chunks)));
      Session(t1, st, chunks, resets) == CleanedUp(Shown(es, t1), Tracked(es, Tally(1, false)))
  {
    SessionTally(st, chunks);
    EndsAsEvents(Events(Bodies(Concat(chunks))), t1, resets);
  }

  lemma {:induction false} SessionIsEvents(t: Terminal, chunks: seq<seq<byte>>, resets: seq<Reset>)
    requires AllTame(resets)
    ensures AfterSession(t, chunks, resets) == AfterEvents(t, Events(Bodies(Concat(chunks))))
  {
    PushDoes(t);
    AttachedOnce();
    SessionFrom(t.(depth := t.depth + 1), Attached(FRESH), chunks, resets);
  }

  /** No push finds the 32-bit count at its maximum. */
  ghost predicate RoomToPush(es: seq<Event>, t: Tally) {
    forall i | 0 <= i < |es| && es[i].Push? :: Tracked(es[..i], t).pops != 0x7fff_ffff
  }

  lemma Int32Range(x: int)
    ensures -0x8000_0000 <= Int32(x) < 0x8000_0000
  {
  }

  lemma RemovedWithin(k: nat, n: nat)
    requires k < 0x8000_0000
    ensures 0 <= Removed(k, n) < 0x8000_0000 && Removed(k, n) >= k - n
  {
    Int32Range(k - Int32(n));
    if n < 0x8000_0000 {
      InRange(n);
      InRange(k - n);
    }
  }

  /** While no push wraps, at least what is outstanding is owed, however large a pop's count. */
  lemma {:induction false} OwedAtLeast(es: seq<Event>, owed: Tally)
    requires 0 <= owed.pops < 0x8000_0000 && Positive(es) && RoomToPush(es, owed)
    ensures Outstanding(es, owed.pops) <= Tracked(es, owed).pops < 0x8000_0000
    decreases |es|
  {
    if es != [] {
      RoomSnoc(es, owed);
      OwedAtLeast(Front(es), owed);
      var k := Tracked(Front(es), owed).pops;
      match Last(es)
      case Push => InRange(k + 1);
      case Pop(n) => RemovedWithin(k, n);
      case _ =>
    }
  }

  /** It is exactly that if no pop overpops. */
  lemma {:induction false} OwedExactly(es: seq<Event>, owed: Tally)
    requires 0 <= owed.pops < 0x8000_0000 && Positive(es) && RoomToPush(es, owed) && NeverOverpops(es, owed.pops)
    ensures Tracked(es, owed).pops == Outstanding(es, owed.pops) < 0x8000_0000
    decreases |es|
  {
    if es != [] {
      RoomSnoc(es, owed);
      OverpopSnoc(es, owed.pops);
      OwedExactly(Front(es), owed);
      var k := Tracked(Front(es), owed).pops;
      match Last(es)
      case Push => InRange(k + 1);
      case Pop(n) => PopExact(k, n);
      case _ =>
    }
  }

  lemma RoomSnoc(es: seq<Event>, owed: Tally)
    requires es != [] && Positive(es) && RoomToPush(es, owed)
    ensures RoomToPush(Front(es), owed) && Positive(Front(es))
    ensures Last(es).Push? ==> Tracked(Front(es), owed).pops != 0x7fff_ffff
  {
    var f := Front(es);
    assert forall i | 0 <= i <= |f| :: f[..i] == es[..i];
    assert es[..|f|] == f && es[|f|] == Last(es);
  }

  lemma OverpopSnoc(es: seq<Event>, k: nat)
    requires es != [] && NeverOverpops(es, k)
    ensures NeverOverpops(Front(es), k) && (Last(es).Pop? ==> Last(es).n <= Outstanding(Front(es), k))
  {
    var f := Front(es);
    assert forall i | 0 <= i <= |f| :: f[..i] == es[..i];
    assert es[..|f|] == f && es[|f|] == Last(es);
  }

  lemma EventsRestored(t: Terminal, es: seq<Event>)
    requires Positive(es) && RoomToPush(es, Tally(1, false))
    ensures AfterEvents(t, es).depth <= t.depth
    ensures AfterEvents(t, es).depth == t.depth <==> t.depth == 0 || NeverOverpops(es, 1)
  {
    var t1, owed := t.(depth := t.depth + 1), Tally(1, false);
    OwedAtLeast(es, owed);
    if NeverOverpops(es, 1) {
      OwedExactly(es, owed);
    }
    DepthAbove(es, 1, t1);
    CleanupShown(Shown(es, t1), Tracked(es, owed));
  }

  /** After attach, any output in any chunking in which no push finds the count at its maximum, and clean-up:
      the stack is never deeper than before the attachment, and is exactly as deep if and only if it was empty
      or no pop in the output asked for more frames than hoot and the output had pushed. */
  lemma {:induction false} StackRestored(t: Terminal, chunks: seq<seq<byte>>, resets: seq<Reset>)
    requires AllTame(resets) && RoomToPush(Events(Bodies(Concat(chunks))), Tally(1, false))
    ensures AfterSession(t, chunks, resets).depth <= t.depth
    ensures AfterSession(t, chunks, resets).depth == t.depth <==>
      t.depth == 0 || NeverOverpops(Events(Bodies(Concat(chunks))), 1)
  {
    SessionIsEvents(t, chunks, resets);
    EventsPositive(Bodies(Concat(chunks)));
    EventsRestored(t, Events(Bodies(Concat(chunks))));
  }

  /** Where the count is right throughout, every push has room. */
  lemma FitsHasRoom(es: seq<Event>, t: Tally)
    requires 0 <= t.pops < 0x8000_0000 && Positive(es) && Fits(es, t.pops)
    ensures RoomToPush(es, t)
  {
    CountExactIffFits(es, t.pops, t);
    forall i | 0 <= i < |es| && es[i].Push? ensures Tracked(es[..i], t).pops != 0x7fff_ffff {
      assert StepFits(Outstanding(es[..i], t.pops), es[i]);
    }
  }

  lemma NeverDeeperEvents(es: seq<Event>)
    requires Positive(es)
    ensures (forall t: Terminal, i | 0 <= i <= |es| :: AfterEvents(t, es[..i]).depth <= t.depth)
      <==> RoomToPush(es, Tally(1, false))
  {
    if RoomToPush(es, Tally(1, false)) {
      forall t: Terminal, i | 0 <= i <= |es| ensures AfterEvents(t, es[..i]).depth <= t.depth {
        RoomPrefix(es, i);
        EventsRestored(t, es[..i]);
      }
    } else {
      var i :| 0 <= i < |es| && es[i].Push? && Tracked(es[..i], Tally(1, false)).pops == 0x7fff_ffff;
      assert Front(es[..i + 1]) == es[..i] && Last(es[..i + 1]) == es[i];
      FullPushLeaks(es[..i + 1], Terminal(0, false));
    }
  }

  lemma RoomPrefix(es: seq<Event>, n: nat)
    requires n <= |es| && RoomToPush(es, Tally(1, false)) && Positive(es)
    ensures RoomToPush(es[..n], Tally(1, false)) && Positive(es[..n])
  {
    assert forall i | 0 <= i < n :: es[..n][..i] == es[..i] && es[..n][i] == es[i];
  }

  lemma FullPushLeaks(es: seq<Event>, t: Terminal)
    requires es != [] && Last(es) == Push && Tracked(Front(es), Tally(1, false)).pops == 0x7fff_ffff
    ensures AfterEvents(t, es).depth > 0
  {
    var t1, owed := t.(depth := t.depth + 1), Tally(1, false);
    assert Int32(0x7fff_ffff + 1) == -0x8000_0000;
    assert Tracked(es, owed).pops == -0x8000_0000;
    assert Shown(es, t1).depth > 0;
    CleanupShown(Shown(es, t1), Tracked(es, owed));
  }

  lemma EventsPrefix(bodies: seq<seq<byte>>, i: nat)
    requires i <= |bodies|
    ensures Events(bodies[..i]) == Events(bodies)[..i]
  {
  }

  lemma {:induction false} CutEvents(out: seq<byte>, k: nat, t: Terminal, resets: seq<Reset>) returns (i: nat)
    requires k <= |out| && AllTame(resets)
    ensures i <= |Events(Bodies(out))|
    ensures AfterSession(t, [out[..k]], resets) == AfterEvents(t, Events(Bodies(out))[..i])
  {
    BodiesOfPrefix(out, k);
    i := |Bodies(out[..k])|;
    assert Bodies(out)[..i] == Bodies(out[..k]);
    EventsPrefix(Bodies(out), i);
    OneChunk(t, out[..k], resets);
  }

  lemma {:induction false} EventsCut(out: seq<byte>, i: nat, t: Terminal, resets: seq<Reset>) returns (k: nat)
    requires i <= |Events(Bodies(out))| && AllTame(resets)
    ensures k <= |out| && AfterSession(t, [out[..k]], resets) == AfterEvents(t, Events(Bodies(out))[..i])
  {
    k := CutAfter(out, i);
    EventsPrefix(Bodies(out), i);
    OneChunk(t, out[..k], resets);
  }

  /** Detaching after any bytes of the output leaves no terminal deeper than before the attachment, if and only
      if no push in the output finds the count at its maximum. */
  lemma {:induction false} NeverDeeperIffRoom(out: seq<byte>, resets: seq<Reset>)
    requires AllTame(resets)
    ensures (forall t: Terminal, k | 0 <= k <= |out| :: AfterSession(t, [out[..k]], resets).depth <= t.depth)
      <==> RoomToPush(Events(Bodies(out)), Tally(1, false))
  {
    var es := Events(Bodies(out));
    EventsPositive(Bodies(out));
    NeverDeeperEvents(es);
    if RoomToPush(es, Tally(1, false)) {
      forall t: Terminal, k | 0 <= k <= |out| ensures AfterSession(t, [out[..k]], resets).depth <= t.depth {
        var i := CutEvents(out, k, t, resets);
      }
    } else {
      var t: Terminal, i :| 0 <= i <= |es| && AfterEvents(t, es[..i]).depth > t.depth;
      var k := EventsCut(out, i, t, resets);
    }
  }

  /** modifyOtherKeys mode 2 is off afterwards if the output touched it, and untouched otherwise. */
  lemma {:induction false} OtherKeysRestored(t: Terminal, chunks: seq<seq<byte>>, resets: seq<Reset>)
    requires AllTame(resets)
    ensures AfterSession(t, chunks, resets).otherKeys <==> t.otherKeys && !Touched(Events(Bodies(Concat(chunks))))
  {
    SessionIsEvents(t, chunks, resets);
    OtherKeysAfter(t, Events(Bodies(Concat(chunks))));
  }

  lemma {:induction false} OtherKeysAfter(t: Terminal, es: seq<Event>)
    ensures AfterEvents(t, es).otherKeys <==> t.otherKeys && !Touched(es)
  {
    var t1, owed := t.(depth := t.depth + 1), Tally(1, false);
    ModeFollowed(es, t1, owed);
    TallyRange(es, owed);
    CleanupShown(Shown(es, t1), Tracked(es, owed));
  }

  /** The count is a 32-bit integer throughout. */
  lemma {:induction false} TallyRange(es: seq<Event>, owed: Tally)
    requires -0x8000_0000 <= owed.pops < 0x8000_0000
    ensures -0x8000_0000 <= Tracked(es, owed).pops < 0x8000_0000
  {
    if es != [] {
      TallyRange(Front(es), owed);
      var k := Tracked(Front(es), owed).pops;
      match Last(es)
      case Push => Int32Range(k + 1);
      case Pop(n) => Int32Range(k - Int32(n));
      case _ =>
    }
  }

  lemma HugePopTally(n: nat)
    requires n == 0x8000_0002
    ensures Noted(Tally(1, false), Pop(n)).pops == 0x7fff_ffff
    ensures Noted(Noted(Tally(1, false), Pop(n)), Push).pops == -0x8000_0000
  {
    assert Int32(n) == 2 - 0x8000_0000;
    assert Int32(1 - (2 - 0x8000_0000)) == 0x7fff_ffff;
    assert Int32(0x7fff_ffff + 1) == -0x8000_0000;
  }

  lemma TrackedTwo(d: Event, e: Event, t: Tally)
    ensures Tracked([d, e], t) == Noted(Noted(t, d), e)
  {
    assert Front([d, e]) == [d] && Last([d, e]) == e;
    assert Front([d]) == [] && Last([d]) == d;
    assert Tracked([d], t) == Noted(t, d);
  }

  lemma PopThenPush(n: nat)
    requires 0 < n < 10_000_000_000
    ensures Events(Bodies(PopBytes(n) + PUSH_EMPTY)) == [Pop(n), Push]
  {
    PopReadsBack(n);
    PushReadsBack();
    SettledAppend(PopBytes(n), [Pop(n)], PUSH_EMPTY, [Push]);
    SettledMeans(PopBytes(n) + PUSH_EMPTY, [Pop(n)] + [Push]);
  }

  lemma {:induction false} HugePopEvents(n: nat)
    requires n == 0x8000_0002
    ensures AfterEvents(Terminal(0, false), [Pop(n), Push]) == Terminal(1, false)
    ensures !RoomToPush([Pop(n), Push], Tally(1, false))
  {
    var es := [Pop(n), Push];
    HugePopTally(n);
    assert es[..1] == [es[0]] && Front([es[0]]) == [] && es[1].Push?;
    TrackedTwo(Pop(n), Push, Tally(1, false));
    ShownTwo(Pop(n), Push, Terminal(1, false));
    CleanupShown(Terminal(1, false), Tally(-0x8000_0000, false));
  }

  lemma {:induction false} OneChunk(t: Terminal, out: seq<byte>, resets: seq<Reset>)
    requires AllTame(resets)
    ensures AfterSession(t, [out], resets) == AfterEvents(t, Events(Bodies(out)))
  {
    assert Concat([out]) == out + Concat([out][1..]) == out;
    SessionIsEvents(t, [out], resets);
  }

  /** Beyond the 32-bit range the promise fails: a pop of 2^31 + 2 takes the count to its maximum, the next
      push wraps it negative, and clean-up pops nothing. */
  lemma {:induction false} HugePopLeaks(n: nat, resets: seq<Reset>)
    requires n == 0x8000_0002 && AllTame(resets)
    ensures var out := PopBytes(n) + PUSH_EMPTY;
      !RoomToPush(Events(Bodies(out)), Tally(1, false)) && AfterSession(Terminal(0, false), [out], resets) == Terminal(1, false)
  {
    PopThenPush(n);
    HugePopEvents(n);
    OneChunk(Terminal(0, false), PopBytes(n) + PUSH_EMPTY, resets);
  }

  // ---------------------------------------------------------------- the restorer as an object

  class HootRestorer {
    var kittyPops: int
    var modifyOtherKeys: bool
    var csiBuf: seq<byte>

    ghost function View(): State
      reads this
    {
      State(Tally(kittyPops, modifyOtherKeys), csiBuf)
    }

    constructor ()
      ensures View() == FRESH
    {
      kittyPops, modifyOtherKeys, csiBuf := 0, false, [];
    }

    /** Claim a frame; nothing is owed for a push that could not be written. */
    method Attach(writeOk: bool) returns (out: seq<byte>)
      modifies this
      ensures View() == if writeOk then Attached(old(View())) else old(View())
      ensures out == if writeOk then PUSH_EMPTY else []
    {
      if !writeOk {
        return [];
      }
      out := PUSH_EMPTY;
      kittyPops := Int32(kittyPops + 1);
    }

    /** The buffer holds at most 32 bytes between bytes. */
    method Observe(payload: seq<byte>)
      requires |csiBuf| <= 32
      modifies this
      ensures View() == Observed(old(View()), payload) && |csiBuf| <= 32
    {
      for i := 0 to |payload|
        invariant View() == Observed(old(View()), payload[..i]) && |csiBuf| <= 32
      {
        ObservedSnoc(old(View()), payload[..i], payload[i]);
        assert payload[..i] + [payload[i]] == payload[..i + 1];
        ObserveByte(payload[i]);
      }
      assert payload[..|payload|] == payload;
    }

    method ObserveByte(b: byte)
      requires |csiBuf| <= 32
      modifies this
      ensures |csiBuf| <= 32
      ensures var one := Feed(old(csiBuf), b);
        View() == State(Tracked(Events(one.bodies), old(View()).tally), one.buf)
    {
      if |csiBuf| == 0 {
        if b == ESC {
          csiBuf := csiBuf + [b];
        }
        return;
      }
      if |csiBuf| == 1 {
        if b == LBRACKET {
          csiBuf := csiBuf + [b];
          return;
        }
        if b == ESC {
          csiBuf := csiBuf[..1];
          return;
        }
        csiBuf := [];
        return;
      }
      csiBuf := csiBuf + [b];
      if |csiBuf| > 32 {
        csiBuf := [];
        return;
      }
      if 0x40 <= b <= 0x7e {
        OneEvent(csiBuf[2..], View().tally);
        ObserveCsi(csiBuf[2..]);
        csiBuf := [];
      }
    }

    method ObserveCsi(body: seq<byte>)
      modifies `kittyPops, `modifyOtherKeys
      ensures View().tally == Noted(old(View()).tally, EventOf(body))
    {
      if |body| < 2 {
        return;
      }
      var private, final, params := body[0], body[|body| - 1], body[1..|body| - 1];
      if private == GREATER && final == LOWER_U {
        kittyPops := Int32(kittyPops + 1);
      } else if private == LESS && final == LOWER_U {
        RemoveKittyKbdPop(PopCount(params));
      } else if private == GREATER && final == LOWER_M {
        ObserveModifyOtherKeys(params);
      }
    }

    method ObserveModifyOtherKeys(params: seq<byte>)
      modifies `modifyOtherKeys
      ensures View().tally == Noted(old(View()).tally, OtherKeysEvent(params))
    {
      if |params| == 0 {
        modifyOtherKeys := false;
        return;
      }
      var parts := SplitByte(params, SEMICOLON);
      if parts[0] != [0x34] {
        return;
      }
      modifyOtherKeys := |parts| >= 2 && parts[1] == [0x32];
    }

    method RemoveKittyKbdPop(n: int)
      modifies `kittyPops
      ensures kittyPops == Removed(old(kittyPops), n)
    {
      if n <= 0 {
        return;
      }
      var next := Int32(kittyPops - Int32(n));
      if next < 0 {
        next := 0;
      }
      kittyPops := next;
    }

    /** The state-derived part, then the fixed resets. */
    method Cleanup() returns (out: seq<byte>)
      ensures out == CleanupBytes(View().tally, RESETS)
    {
      out := WriteState();
      var fixed := WriteResets(RESETS);
      out := out + fixed;
    }

    /** The pops owed and the mode. */
    method WriteState() returns (out: seq<byte>)
      ensures out == PopBytes(kittyPops) + if modifyOtherKeys then OTHER_KEYS_OFF else []
    {
      out := [];
      if kittyPops > 0 {
        if kittyPops == 1 {
          out := out + [ESC, LBRACKET, LESS, LOWER_U];
        } else {
          out := out + ([ESC, LBRACKET, LESS] + Decimal(kittyPops) + [LOWER_U]);
        }
      }
      if modifyOtherKeys {
        out := out + OTHER_KEYS_OFF;
      }
    }

    static method WriteResets(resets: seq<Reset>) returns (out: seq<byte>)
      ensures out == AllResets(resets)
    {
      out := [];
      for i := 0 to |resets|
        invariant out == AllResets(resets[..i])
      {
        assert Front(resets[..i + 1]) == resets[..i];
        out := out + ResetBytes(resets[i]);
      }
      assert resets[..|resets|] == resets;
    }
  }

  lemma ObservedSnoc(st: State, s: seq<byte>, b: byte)
    ensures var st', one := Observed(st, s), Feed(Observed(st, s).buf, b);
      Observed(st, s + [b]) == State(Tracked(Events(one.bodies), st'.tally), one.buf)
  {
    ObservedAppend(st, s, [b]);
    ScanSnoc(Observed(st, s).buf, [], b);
    assert [] + [b] == [b];
    assert [] + Feed(Observed(st, s).buf, b).bodies == Feed(Observed(st, s).buf, b).bodies;
  }

  lemma OneEvent(body: seq<byte>, t: Tally)
    ensures Tracked(Events([body]), t) == Noted(t, EventOf(body))
  {
    assert Events([body]) == [EventOf(body)] && Front([EventOf(body)]) == [];
  }
}
