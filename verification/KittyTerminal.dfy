/** The restorer at a terminal that reads the output by itself: when both see the same events at every point, and
    what becomes of the keyboard stack then. */
module KittyTerminal {
  import opened Bytes
  import opened KeyEvents
  import opened CsiScan
  import opened CsiSteps
  import opened KittyRestorer
  import opened KittySequences

  // ---------------------------------------------------------------- events of note

  /** The events of note. */
  function Acts(bodies: seq<seq<byte>>): seq<Event> {
    if bodies == [] then []
    else (if EventOf(bodies[0]) == Other then [] else [EventOf(bodies[0])]) + Acts(bodies[1..])
  }

  lemma {:induction false} ActsShown(bodies: seq<seq<byte>>, t: Terminal)
    ensures Shown(Events(bodies), t) == Shown(Acts(bodies), t)
    decreases |bodies|
  {
    if bodies != [] {
      var e, more := EventOf(bodies[0]), bodies[1..];
      ShownOne(e, t);
      assert Events(bodies) == [e] + Events(more);
      ShownAppend([e], Events(more), t);
      ActsShown(more, Does(t, e));
      ShownAppend([e], Acts(more), t);
      assert [] + Acts(more) == Acts(more);
    }
  }

  /** No control sequence of more than 32 bytes is an event of note. */
  ghost predicate LongOnesQuiet(bodies: seq<seq<byte>>) {
    forall i | 0 <= i < |bodies| && |bodies[i]| > 30 :: EventOf(bodies[i]) == Other
  }

  lemma LongOnesCons(bodies: seq<seq<byte>>)
    requires bodies != []
    ensures LongOnesQuiet(bodies) <==>
      (|bodies[0]| > 30 ==> EventOf(bodies[0]) == Other) && LongOnesQuiet(bodies[1..])
  {
    assert forall i | 0 <= i < |bodies| - 1 :: bodies[1..][i] == bodies[i + 1];
    if LongOnesQuiet(bodies[1..]) {
      forall i | 1 <= i < |bodies| && |bodies[i]| > 30 ensures EventOf(bodies[i]) == Other {
        assert bodies[1..][i - 1] == bodies[i];
      }
    }
  }

  lemma ActsCons(body: seq<byte>, more: seq<seq<byte>>)
    ensures Acts([body] + more) == (if EventOf(body) == Other then [] else [EventOf(body)]) + Acts(more)
  {
  }

  lemma {:induction false} ActsOfShort(bodies: seq<seq<byte>>)
    ensures |Acts(ShortOnes(bodies))| <= |Acts(bodies)|
    ensures Acts(ShortOnes(bodies)) == Acts(bodies) <==> LongOnesQuiet(bodies)
    decreases |bodies|
  {
    if bodies != [] {
      var body, more := bodies[0], bodies[1..];
      ActsOfShort(more);
      LongOnesCons(bodies);
      ActsCons(body, more);
      ActsCons(body, ShortOnes(more));
      assert bodies == [body] + more;
      if |body| <= 30 {
        SameAct(if EventOf(body) == Other then [] else [EventOf(body)], Acts(ShortOnes(more)), Acts(more));
      } else {
        assert [] + ShortOnes(more) == ShortOnes(more) && [] + Acts(more) == Acts(more);
      }
    }
  }

  lemma SameAct(x: seq<Event>, a: seq<Event>, b: seq<Event>)
    ensures x + a == x + b <==> a == b
  {
    assert (x + a)[|x|..] == a && (x + b)[|x|..] == b;
  }

  /** Of any output without broken-off sequences, the restorer notes exactly the events a terminal acts on, if
      and only if no sequence of more than 32 bytes is one. */
  lemma SameEventsIff(s: seq<byte>)
    requires Unbroken(s)
    ensures Acts(Bodies(s)) == Acts(Recognised(s)) <==> LongOnesQuiet(Recognised(s))
  {
    RestorerSees(s);
    ActsOfShort(Recognised(s));
  }

  // ---------------------------------------------------------------- when both see the same at every point

  /** At every point of the output the restorer has noted exactly the events that the terminal has acted on. */
  ghost predicate InStep(s: seq<byte>) {
    forall k | 0 <= k <= |s| :: Acts(Bodies(s[..k])) == Acts(Recognised(s[..k]))
  }

  /** None of these is an event that holds an ESC, CAN or SUB. */
  ghost predicate Genuine(bodies: seq<seq<byte>>) {
    forall i | 0 <= i < |bodies| && EventOf(bodies[i]) != Other :: !HasInterrupt(bodies[i])
  }

  /** No sequence that the restorer takes for an event holds an ESC, CAN or SUB. */
  ghost predicate NothingSpurious(s: seq<byte>) {
    Genuine(Bodies(s))
  }

  /** The sequence that the byte after `f` completes for the terminal. */
  function Completed(f: seq<byte>, b: byte): seq<byte> {
    if |Dangling(f)| >= 2 && IsFinal(b) then (Dangling(f) + [b])[2..] else []
  }

  /** If the byte after `f` completes an event for the terminal, the whole sequence has at most 32 bytes, and the
      restorer was in no sequence when it began. */
  ghost predicate Caught(f: seq<byte>, b: byte) {
    EventOf(Completed(f, b)) != Other ==> |Completed(f, b)| <= 30 && |Unfinished(Before(f))| < 2
  }

  ghost predicate NothingMissed(s: seq<byte>) {
    forall k | 0 <= k < |s| :: Caught(s[..k], s[k])
  }

  lemma {:induction false} ActsAppend(a: seq<seq<byte>>, b: seq<seq<byte>>)
    ensures Acts(a + b) == Acts(a) + Acts(b)
  {
    if a == [] {
      assert a + b == b;
    } else {
      assert (a + b)[1..] == a[1..] + b;
      ActsAppend(a[1..], b);
    }
  }

  lemma InStepSnoc(f: seq<byte>, b: byte)
    ensures InStep(f + [b]) <==> InStep(f) && Acts(Bodies(f + [b])) == Acts(Recognised(f + [b]))
  {
    var s := f + [b];
    assert forall k | 0 <= k <= |f| :: s[..k] == f[..k];
    assert s[..|s|] == s;
  }

  lemma MissedSnoc(f: seq<byte>, b: byte)
    ensures NothingMissed(f + [b]) <==> NothingMissed(f) && Caught(f, b)
  {
    var s := f + [b];
    assert forall k | 0 <= k <= |f| :: s[..k] == f[..k];
    assert forall k | 0 <= k < |f| :: s[k] == f[k];
    assert s[|f|] == b && s[..|f|] == f;
    if NothingMissed(s) {
      assert Caught(s[..|f|], s[|f|]);
      assert forall k | 0 <= k < |f| :: Caught(s[..k], s[k]);
    }
  }

  lemma GenuineAppend(a: seq<seq<byte>>, b: seq<seq<byte>>)
    ensures Genuine(a + b) <==> Genuine(a) && Genuine(b)
  {
    assert forall i | 0 <= i < |a| :: (a + b)[i] == a[i];
    assert forall i | 0 <= i < |b| :: (a + b)[|a| + i] == b[i];
  }

  lemma ActsOne(body: seq<byte>)
    ensures Acts([body]) == if EventOf(body) == Other then [] else [EventOf(body)]
  {
    assert [body][1..] == [];
  }

  /** For one byte: both see the same if and only if what the restorer notes is genuine and what the terminal
      acts on is caught. */
  lemma ByteInStep(f: seq<byte>, b: byte)
    ensures var noted, acted := Feed(Unfinished(f), b).bodies, TerminalFeed(Dangling(f), b).bodies;
      Acts(noted) == Acts(acted) <==> Genuine(noted) && Caught(f, b)
  {
    var p, d := Unfinished(f), Dangling(f);
    var noted, acted := Feed(p, b).bodies, TerminalFeed(d, b).bodies;
    JointHolds(f);
    Completes(p, d, b);
    if |d| >= 2 && IsFinal(b) {
      Followed(f);
      ActsOne(acted[0]);
    } else if noted != [] {
      ActsOne(noted[0]);
    }
  }

  /** For every output: restorer and terminal see the same events at every point, if and only if the restorer
      takes no interrupted sequence for an event, and each event of the terminal has at most 32 bytes and began
      when the restorer was in no sequence. */
  lemma {:induction false} InStepIff(s: seq<byte>)
    ensures InStep(s) <==> NothingSpurious(s) && NothingMissed(s)
    decreases |s|
  {
    if s == [] {
      assert s[..0] == [];
    } else {
      var f, b := Front(s), Last(s);
      assert s == f + [b];
      InStepIff(f);
      InStepStep(f, b);
    }
  }

  lemma {:induction false} InStepStep(f: seq<byte>, b: byte)
    requires InStep(f) <==> NothingSpurious(f) && NothingMissed(f)
    ensures InStep(f + [b]) <==> NothingSpurious(f + [b]) && NothingMissed(f + [b])
  {
    var noted, acted := Feed(Unfinished(f), b).bodies, TerminalFeed(Dangling(f), b).bodies;
    InStepSnoc(f, b);
    MissedSnoc(f, b);
    ByteInStep(f, b);
    RestorerSnoc(f, b);
    TerminalSnoc(f, b);
    GenuineAppend(Bodies(f), noted);
    ActsAppend(Bodies(f), noted);
    ActsAppend(Recognised(f), acted);
    assert f[..|f|] == f;
    if InStep(f) {
      assert Acts(Bodies(f[..|f|])) == Acts(Recognised(f[..|f|]));
      SameAct(Acts(Bodies(f)), Acts(noted), Acts(acted));
    }
  }

  lemma {:induction false} UnbrokenFront(f: seq<byte>, b: byte)
    requires Unbroken(f + [b])
    ensures Unbroken(f)
    decreases |f|
  {
    if f != [] && TerminalFirst(f).Some? {
      var item := TerminalFirst(f).value;
      TerminalFirstExtends(f, [b]);
      assert (f + [b])[item.len..] == f[item.len..] + [b];
      UnbrokenFront(f[item.len..], b);
    }
  }

  lemma {:induction false} OrdinaryFront(f: seq<byte>, b: byte)
    requires Unbroken(f + [b]) && LongOnesQuiet(Recognised(f + [b]))
    ensures Unbroken(f) && LongOnesQuiet(Recognised(f))
  {
    UnbrokenFront(f, b);
    TerminalSnoc(f, b);
    QuietPrefix(Recognised(f), TerminalFeed(Dangling(f), b).bodies);
  }

  lemma QuietPrefix(a: seq<seq<byte>>, b: seq<seq<byte>>)
    requires LongOnesQuiet(a + b)
    ensures LongOnesQuiet(a)
  {
    assert forall i | 0 <= i < |a| :: (a + b)[i] == a[i];
  }

  lemma {:induction false} OrdinaryEnd(f: seq<byte>, b: byte)
    requires InStep(f) && Unbroken(f + [b]) && LongOnesQuiet(Recognised(f + [b]))
    ensures InStep(f + [b])
  {
    SameEventsIff(f + [b]);
    InStepSnoc(f, b);
  }

  lemma InStepAtStart(s: seq<byte>)
    requires s == []
    ensures InStep(s)
  {
    assert s[..0] == [];
  }

  /** Output without broken-off sequences, in which no sequence of more than 32 bytes is an event, is read in
      step. */
  lemma {:induction false} OrdinaryInStep(s: seq<byte>)
    requires Unbroken(s) && LongOnesQuiet(Recognised(s))
    ensures InStep(s)
    decreases |s|
  {
    if s == [] {
      InStepAtStart(s);
    } else {
      var f, b := Front(s), Last(s);
      assert s == f + [b];
      OrdinaryFront(f, b);
      OrdinaryInStep(f);
      OrdinaryEnd(f, b);
    }
  }

  // ---------------------------------------------------------------- at a terminal with its own reading

  /** Attach, output and clean-up as one stream, read by a terminal. */
  ghost function AtTerminal(t: Terminal, chunks: seq<seq<byte>>, resets: seq<Reset>): Terminal {
    var st := ObservedAll(Attached(FRESH), chunks);
    Obeyed(Recognised(PUSH_EMPTY + (Concat(chunks) + CleanupBytes(st.tally, resets))), t)
  }

  /** Resets that begin with ESC. */
  predicate Proper(resets: seq<Reset>) {
    AllTame(resets) && resets != [] && !resets[0].Text?
  }

  lemma ResetsProper()
    ensures Proper(RESETS)
  {
    ResetsTame();
    assert RESETS[0] == PROGRESS_CLEAR[0];
  }

  lemma {:induction false} ResetsBegin(rs: seq<Reset>)
    requires rs != [] && !rs[0].Text?
    ensures AllResets(rs) != [] && AllResets(rs)[0] == ESC
  {
    if |rs| == 1 {
      assert Front(rs) == [];
    } else {
      ResetsBegin(Front(rs));
    }
  }

  lemma CleanupBegins(owed: Tally, resets: seq<Reset>)
    requires Proper(resets)
    ensures CleanupBytes(owed, resets) != [] && CleanupBytes(owed, resets)[0] == ESC
  {
    ResetsBegin(resets);
  }

  lemma {:induction false} DisplaysAppend(a: seq<byte>, b: seq<byte>, t: Terminal)
    requires Dangling(a) == [] || (b != [] && b[0] == ESC)
    ensures Displays(t, a + b) == Displays(Displays(t, a), b)
  {
    RecognisedAppend(a, b);
    EventsAppend(Recognised(a), Recognised(b));
    ShownAppend(Events(Recognised(a)), Events(Recognised(b)), t);
  }

  lemma {:induction false} DisplaysThree(
    t: Terminal, push: seq<byte>, out: seq<byte>, clean: seq<byte>, t1: Terminal, t2: Terminal, t3: Terminal)
    requires Dangling(push) == [] && clean != [] && clean[0] == ESC
    requires Displays(t, push) == t1 && Displays(t1, out) == t2 && Displays(t2, clean) == t3
    ensures Displays(t, push + (out + clean)) == t3
  {
    DisplaysAppend(push, out + clean, t);
    DisplaysAppend(out, clean, t1);
  }

  lemma PushDisplays(t: Terminal)
    ensures Displays(t, PUSH_EMPTY) == t.(depth := t.depth + 1) && Dangling(PUSH_EMPTY) == []
  {
    PushReadsBack();
    SettledMeans(PUSH_EMPTY, [Push]);
    ShownOne(Push, t);
  }

  lemma {:induction false} StreamIs(t: Terminal, out: seq<byte>, owed: Tally, resets: seq<Reset>)
    requires Proper(resets) && owed.pops < 0x8000_0000
    ensures Displays(t, PUSH_EMPTY + (out + CleanupBytes(owed, resets))) ==
      CleanedUp(Displays(t.(depth := t.depth + 1), out), owed)
  {
    var t1 := t.(depth := t.depth + 1);
    var t2 := Displays(t1, out);
    PushDisplays(t);
    CleanupBegins(owed, resets);
    CleanupDoes(t2, owed, resets);
    DisplaysThree(t, PUSH_EMPTY, out, CleanupBytes(owed, resets), t1, t2, CleanedUp(t2, owed));
  }

  /** A terminal's own reading of the whole stream: its reading of the output, then the clean-up. */
  lemma {:induction false} AtTerminalIs(t: Terminal, chunks: seq<seq<byte>>, resets: seq<Reset>)
    requires Proper(resets)
    ensures var out := Concat(chunks);
      AtTerminal(t, chunks, resets) ==
      CleanedUp(Displays(t.(depth := t.depth + 1), out), Tracked(Events(Bodies(out)), Tally(1, false)))
  {
    var es := Events(Bodies(Concat(chunks)));
    AttachedOnce();
    SessionTally(Attached(FRESH), chunks);
    TallyRange(es, Tally(1, false));
    StreamIs(t, Concat(chunks), Tracked(es, Tally(1, false)), resets);
    ObeyedIsShown(Recognised(PUSH_EMPTY + (Concat(chunks) + CleanupBytes(Tracked(es, Tally(1, false)), resets))), t);
  }

  /** Output read in step does to a terminal what the restorer reads. */
  lemma {:induction false} SameDisplay(out: seq<byte>, t: Terminal)
    requires NothingSpurious(out) && NothingMissed(out)
    ensures Displays(t, out) == Reads(t, out)
  {
    InStepIff(out);
    assert out[..|out|] == out;
    assert Acts(Bodies(out[..|out|])) == Acts(Recognised(out[..|out|]));
    ActsShown(Bodies(out), t);
    ActsShown(Recognised(out), t);
  }

  lemma {:induction false} ShownAsDisplayed(out: seq<byte>, es: seq<Event>, t: Terminal)
    requires es == Events(Bodies(out)) && Displays(t.(depth := t.depth + 1), out) == Reads(t.(depth := t.depth + 1), out)
    ensures CleanedUp(Displays(t.(depth := t.depth + 1), out), Tracked(es, Tally(1, false))) == AfterEvents(t, es)
  {
  }

  lemma {:induction false} TerminalIsEvents(t: Terminal, chunks: seq<seq<byte>>, resets: seq<Reset>, es: seq<Event>)
    requires Proper(resets) && es == Events(Bodies(Concat(chunks)))
    requires NothingSpurious(Concat(chunks)) && NothingMissed(Concat(chunks))
    ensures AtTerminal(t, chunks, resets) == AfterEvents(t, es)
  {
    SameDisplay(Concat(chunks), t.(depth := t.depth + 1));
    ShownAsDisplayed(Concat(chunks), es, t);
    AtTerminalIs(t, chunks, resets);
  }

  /** The promise at a terminal with its own reading of the whole stream, for any output that both read in step
      and in which no push finds the count at its maximum. */
  lemma {:induction false} StackRestoredAtTerminal(t: Terminal, chunks: seq<seq<byte>>, resets: seq<Reset>)
    requires Proper(resets) && NothingSpurious(Concat(chunks)) && NothingMissed(Concat(chunks))
    requires RoomToPush(Events(Bodies(Concat(chunks))), Tally(1, false))
    ensures AtTerminal(t, chunks, resets).depth <= t.depth
    ensures AtTerminal(t, chunks, resets).depth == t.depth <==>
      t.depth == 0 || NeverOverpops(Events(Bodies(Concat(chunks))), 1)
    ensures AtTerminal(t, chunks, resets).otherKeys <==>
      t.otherKeys && !Touched(Events(Bodies(Concat(chunks))))
  {
    var es := Events(Bodies(Concat(chunks)));
    TerminalIsEvents(t, chunks, resets, es);
    EventsPositive(Bodies(Concat(chunks)));
    EventsRestored(t, es);
    OtherKeysAfter(t, es);
  }

  lemma InStepCut(out: seq<byte>, k: nat)
    requires k <= |out| && NothingSpurious(out) && NothingMissed(out)
    ensures NothingSpurious(out[..k]) && NothingMissed(out[..k])
  {
    InStepIff(out);
    InStepIff(out[..k]);
    assert forall i | 0 <= i <= k :: out[..k][..i] == out[..i];
  }

  lemma {:induction false} CutAtTerminal(t: Terminal, out: seq<byte>, k: nat, resets: seq<Reset>)
    requires k <= |out| && Proper(resets) && NothingSpurious(out) && NothingMissed(out)
    ensures AtTerminal(t, [out[..k]], resets) == AfterEvents(t, Events(Bodies(out[..k])))
  {
    var cut := out[..k];
    InStepCut(out, k);
    assert Concat([cut]) == cut + Concat([cut][1..]) == cut;
    TerminalIsEvents(t, [cut], resets, Events(Bodies(cut)));
  }

  /** At such a terminal and for output read in step: detaching after any bytes leaves no terminal deeper than
      before the attachment, if and only if no push finds the count at its maximum. */
  lemma {:induction false} NeverDeeperAtTerminal(out: seq<byte>, resets: seq<Reset>)
    requires Proper(resets) && NothingSpurious(out) && NothingMissed(out)
    ensures (forall t: Terminal, k | 0 <= k <= |out| :: AtTerminal(t, [out[..k]], resets).depth <= t.depth)
      <==> RoomToPush(Events(Bodies(out)), Tally(1, false))
  {
    NeverDeeperIffRoom(out, resets);
    forall t: Terminal, k | 0 <= k <= |out|
      ensures AtTerminal(t, [out[..k]], resets) == AfterSession(t, [out[..k]], resets)
    {
      CutAtTerminal(t, out, k, resets);
      OneChunk(t, out[..k], resets);
    }
  }

  lemma BrokenOffNoted(out: seq<byte>)
    requires out == [ESC, LBRACKET, 0x31, ESC, LBRACKET, GREATER, LOWER_U]
    ensures Bodies(out) == [[0x31, ESC, LBRACKET]] && Events(Bodies(out)) == [Other] && Acts(Bodies(out)) == []
  {
    FinalAtIs(out, 2, 4);
    var body, text := out[2..5], out[5..];
    assert body == [0x31, ESC, LBRACKET] && text == [GREATER, LOWER_U];
    BodiesStep(out, Item(5, [body]), text);
    OnlyText(text);
    assert Events([body]) == [Other] && [body] + [] == [body];
    ActsOne(body);
  }

  lemma BrokenOffActed(out: seq<byte>)
    requires out == [ESC, LBRACKET, 0x31] + PUSH_EMPTY
    ensures Recognised(out) == Recognised(PUSH_EMPTY)
  {
    StopAtIs(out, 2, 3);
    assert out[3..] == PUSH_EMPTY;
    RecognisedStep(out, Item(3, []), PUSH_EMPTY);
    assert [] + Recognised(PUSH_EMPTY) == Recognised(PUSH_EMPTY);
  }

  lemma BrokenOffRead(out: seq<byte>)
    requires out == [ESC, LBRACKET, 0x31] + PUSH_EMPTY
    ensures Events(Bodies(out)) == [Other] && Recognised(out) == Recognised(PUSH_EMPTY) && !InStep(out)
  {
    assert out == [ESC, LBRACKET, 0x31, ESC, LBRACKET, GREATER, LOWER_U];
    BrokenOffNoted(out);
    BrokenOffActed(out);
    PushActs();
    OutOfStep(out);
  }

  lemma PushActs()
    ensures Acts(Recognised(PUSH_EMPTY)) == [Push]
  {
    PushReadsBack();
    SettledMeans(PUSH_EMPTY, [Push]);
    var bodies := Recognised(PUSH_EMPTY);
    assert |Events(bodies)| == 1 && Events(bodies)[0] == EventOf(bodies[0]);
    assert bodies == [bodies[0]];
    ActsOne(bodies[0]);
  }

  lemma {:induction false} BrokenOffMissed(t: Terminal, out: seq<byte>)
    requires out == [ESC, LBRACKET, 0x31] + PUSH_EMPTY
    ensures Displays(t, out) == t.(depth := t.depth + 1)
    ensures Tracked(Events(Bodies(out)), Tally(1, false)) == Tally(1, false)
  {
    BrokenOffRead(out);
    PushDisplays(t);
    assert Front([Other]) == [] && Tracked([Other], Tally(1, false)) == Tally(1, false);
  }

  /** A push that breaks off another sequence is seen by every such terminal and missed by the restorer, and
      stays on the stack. */
  lemma {:induction false} BrokenOffLeaks(t: Terminal, out: seq<byte>, chunks: seq<seq<byte>>, resets: seq<Reset>)
    requires out == [ESC, LBRACKET, 0x31] + PUSH_EMPTY && Concat(chunks) == out && Proper(resets)
    ensures AtTerminal(t, chunks, resets) == t.(depth := t.depth + 1)
  {
    var t1 := t.(depth := t.depth + 1);
    AtTerminalIs(t, chunks, resets);
    BrokenOffMissed(t1, out);
    CleanupShown(Displays(t1, out), Tally(1, false));
  }

  lemma SpuriousRead(out: seq<byte>)
    requires out == [ESC, LBRACKET, GREATER, CAN, LOWER_U]
    ensures Events(Bodies(out)) == [Push] && Recognised(out) == [] && !InStep(out)
  {
    var body, text := out[2..5], out[4..];
    assert body == [GREATER, CAN, LOWER_U] && text == [LOWER_U] && out[5..] == [];
    FinalAtIs(out, 2, 4);
    BodiesStep(out, Item(5, [body]), []);
    assert [body] + [] == [body] && Events([body]) == [EventOf(body)];
    StopAtIs(out, 2, 3);
    OnlyText(text);
    RecognisedStep(out, Item(4, []), text);
    assert [] + Recognised(text) == [];
    ActsOne(body);
    OutOfStep(out);
  }

  lemma OutOfStep(out: seq<byte>)
    requires Acts(Bodies(out)) != Acts(Recognised(out))
    ensures !InStep(out)
  {
    assert out[..|out|] == out;
  }

  lemma {:induction false} SpuriousNoted(t: Terminal, out: seq<byte>)
    requires out == [ESC, LBRACKET, GREATER, CAN, LOWER_U]
    ensures Displays(t, out) == t && Tracked(Events(Bodies(out)), Tally(1, false)) == Tally(2, false)
  {
    SpuriousRead(out);
    assert Events([]) == [];
    assert Front([Push]) == [] && Tracked([Push], Tally(1, false)) == Noted(Tally(1, false), Push);
    InRange(2);
  }

  /** A push that the terminal gives up is noted all the same, and cleaning up takes a frame that was there
      before. */
  lemma {:induction false} SpuriousTakes(t: Terminal, out: seq<byte>, chunks: seq<seq<byte>>, resets: seq<Reset>)
    requires out == [ESC, LBRACKET, GREATER, CAN, LOWER_U] && Concat(chunks) == out && Proper(resets)
    ensures AtTerminal(t, chunks, resets).depth == if t.depth > 0 then t.depth - 1 else 0
  {
    var t1 := t.(depth := t.depth + 1);
    AtTerminalIs(t, chunks, resets);
    SpuriousNoted(t1, out);
    CleanupShown(t1, Tally(2, false));
  }
}
