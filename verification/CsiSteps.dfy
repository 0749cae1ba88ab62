/** The restorer's reading and the terminal's, byte by byte: what each holds at any point of the output, and which
    sequences both complete. */
module CsiSteps {
  import opened Bytes
  import opened CsiScan

  // ---------------------------------------------------------------- one more byte

  lemma RestorerSnoc(s: seq<byte>, b: byte)
    ensures var one := Feed(Unfinished(s), b);
      Unfinished(s + [b]) == one.buf && Bodies(s + [b]) == Bodies(s) + one.bodies
  {
    ScanSnoc([], s, b);
    ScanRefines(s);
    ScanRefines(s + [b]);
  }

  /** What a terminal makes of one more byte. */
  function TerminalFeed(d: seq<byte>, b: byte): Scanned {
    if |d| == 0 then Scanned(if b == ESC then [b] else [], [])
    else if |d| == 1 then Scanned(if b == LBRACKET then d + [b] else if b == ESC then d else [], [])
    else if IsFinal(b) then Scanned([], [(d + [b])[2..]])
    else if Interrupts(b) then Scanned(if b == ESC then [b] else [], [])
    else Scanned(d + [b], [])
  }

  lemma {:induction false} Restarts(w: seq<byte>, item: Item)
    requires w != [] && TerminalFirst(w) == Some(item) && (w[item.len..] == [] || w[item.len..] == [ESC])
    ensures Recognised(w) == item.body && Dangling(w) == w[item.len..]
  {
    RecognisedStep(w, item, w[item.len..]);
    assert Recognised([ESC]) == [] && item.body + [] == item.body;
  }

  lemma {:induction false} AfterEscape(b: byte)
    ensures var one := TerminalFeed([ESC], b);
      Dangling([ESC, b]) == one.buf && Recognised([ESC, b]) == one.bodies
  {
    var w := [ESC, b];
    if b == ESC {
      assert w[1..] == [ESC];
      Restarts(w, Item(1, []));
    } else if b != LBRACKET {
      assert w[2..] == [];
      Restarts(w, Item(2, []));
    }
  }

  lemma {:induction false} InSequence(s: seq<byte>, b: byte)
    requires |s| >= 2 && TerminalFirst(s) == None
    ensures var one := TerminalFeed(s, b);
      Dangling(s + [b]) == one.buf && Recognised(s + [b]) == one.bodies
  {
    var w := s + [b];
    assert forall k | 0 <= k < |s| :: w[k] == s[k];
    if IsFinal(b) || Interrupts(b) {
      StopAtIs(w, 2, |s|);
      assert w[|s|..] == [b] && w[|s| + 1..] == [] && w[2..|s| + 1] == w[2..];
      Restarts(w, if IsFinal(b) then Item(|s| + 1, [w[2..]]) else Item(if b == ESC then |s| else |s| + 1, []));
    }
  }

  lemma {:induction false} TerminalSnoc(s: seq<byte>, b: byte)
    ensures var one := TerminalFeed(Dangling(s), b);
      Dangling(s + [b]) == one.buf && Recognised(s + [b]) == Recognised(s) + one.bodies
    decreases |s|
  {
    if s == [] {
      assert s + [b] == [b];
    } else if TerminalFirst(s).Some? {
      var item := TerminalFirst(s).value;
      TerminalFirstExtends(s, [b]);
      assert (s + [b])[item.len..] == s[item.len..] + [b];
      RecognisedStep(s, item, s[item.len..]);
      RecognisedStep(s + [b], item, s[item.len..] + [b]);
      TerminalSnoc(s[item.len..], b);
      Associate(item.body, Recognised(s[item.len..]), TerminalFeed(Dangling(s), b).bodies);
    } else if |s| == 1 {
      assert s == [ESC] && s + [b] == [ESC, b];
      AfterEscape(b);
    } else {
      InSequence(s, b);
    }
  }

  // ---------------------------------------------------------------- what the two hold together

  /** The start of a control sequence without its final byte. */
  predicate OpenSequence(p: seq<byte>) {
    |p| >= 2 && p[0] == ESC && p[1] == LBRACKET && forall i | 2 <= i < |p| :: !IsFinal(p[i])
  }

  predicate HasInterrupt(p: seq<byte>) {
    exists i | 0 <= i < |p| :: Interrupts(p[i])
  }

  /** Restorer and terminal hold the same, or the restorer is stuck in a sequence that the terminal has given up,
      or the terminal is in a sequence that the restorer does not follow. */
  ghost predicate Joint(p: seq<byte>, d: seq<byte>) {
    && |p| <= 32 && (p == [] || p == [ESC] || OpenSequence(p))
    && (d == [] || d == [ESC] || (OpenSequence(d) && !HasInterrupt(d[2..])))
    && (|p| == 1 ==> d == p)
    && (|p| >= 2 ==> if HasInterrupt(p[2..]) then |d| < 2 else d == p)
    && (|d| >= 2 ==> p == d || p == [])
  }

  lemma InterruptSnoc(p: seq<byte>, b: byte)
    ensures HasInterrupt(p + [b]) <==> HasInterrupt(p) || Interrupts(b)
  {
    assert (p + [b])[|p|] == b;
    assert forall i | 0 <= i < |p| :: (p + [b])[i] == p[i];
  }

  lemma GrowInterrupt(p: seq<byte>, b: byte)
    requires |p| >= 2
    ensures HasInterrupt((p + [b])[2..]) <==> HasInterrupt(p[2..]) || Interrupts(b)
  {
    assert (p + [b])[2..] == p[2..] + [b];
    InterruptSnoc(p[2..], b);
  }

  lemma JointStep(p: seq<byte>, d: seq<byte>, b: byte)
    requires Joint(p, d)
    ensures Joint(Feed(p, b).buf, TerminalFeed(d, b).buf)
  {
    if |p| >= 2 {
      GrowInterrupt(p, b);
    } else if |p| == 1 {
      assert !HasInterrupt((p + [b])[2..]);
    }
    if |d| >= 2 {
      GrowInterrupt(d, b);
    } else if |d| == 1 {
      assert !HasInterrupt((d + [b])[2..]);
    }
  }

  lemma {:induction false} JointHolds(s: seq<byte>)
    ensures Joint(Unfinished(s), Dangling(s))
    decreases |s|
  {
    if s != [] {
      var f, b := Front(s), Last(s);
      assert s == f + [b];
      JointHolds(f);
      JointStep(Unfinished(f), Dangling(f), b);
      RestorerSnoc(f, b);
      TerminalSnoc(f, b);
    }
  }

  /** What one more byte completes: a sequence for the terminal, and for the restorer too if it follows and the
      buffer has room; or, for the restorer alone, one that the terminal has given up. */
  lemma Completes(p: seq<byte>, d: seq<byte>, b: byte)
    requires Joint(p, d)
    ensures var noted, acted := Feed(p, b).bodies, TerminalFeed(d, b).bodies;
      && (IsFinal(b) && |d| >= 2 ==>
            acted == [(d + [b])[2..]] && noted == (if p == d && |d| < 32 then acted else []) && !HasInterrupt(acted[0]))
      && (!(IsFinal(b) && |d| >= 2) ==> acted == [] && (noted != [] ==> noted == [(p + [b])[2..]] && HasInterrupt(noted[0])))
  {
    if |p| >= 2 {
      GrowInterrupt(p, b);
    }
    if |d| >= 2 {
      GrowInterrupt(d, b);
    }
  }

  // ---------------------------------------------------------------- which sequences the restorer follows

  lemma {:induction false} DanglingIsSuffix(s: seq<byte>)
    ensures |Dangling(s)| <= |s| && s[|s| - |Dangling(s)|..] == Dangling(s)
    decreases |s|
  {
    if s != [] && TerminalFirst(s).Some? {
      var rest := s[TerminalFirst(s).value.len..];
      DanglingIsSuffix(rest);
      assert rest[|rest| - |Dangling(rest)|..] == s[|s| - |Dangling(rest)|..];
    }
  }

  /** The output before the sequence that the terminal is in. */
  function Before(s: seq<byte>): seq<byte> {
    if |Dangling(s)| <= |s| then s[..|s| - |Dangling(s)|] else []
  }

  /** The restorer was in no sequence when this one began, and has had room for it so far. */
  predicate InReach(s: seq<byte>) {
    |Unfinished(Before(s))| < 2 && |Dangling(s)| <= 32
  }

  lemma Begins(g: seq<byte>)
    ensures var s := g + [ESC] + [LBRACKET];
      Unfinished(s) == if |Unfinished(g)| < 2 then [ESC, LBRACKET] else []
  {
    JointHolds(g);
    RestorerSnoc(g, ESC);
    RestorerSnoc(g + [ESC], LBRACKET);
  }

  lemma BeforeSame(f: seq<byte>, b: byte)
    requires |Dangling(f + [b])| == |Dangling(f)| + 1 <= |f| + 1
    ensures Before(f + [b]) == Before(f)
  {
  }

  /** One more byte of a sequence the terminal is in. */
  lemma FollowsOn(p: seq<byte>, d: seq<byte>, b: byte, begun: bool)
    requires |d| >= 2 && |TerminalFeed(d, b).buf| >= 2
    requires p == if begun && |d| <= 32 then d else []
    ensures var d' := TerminalFeed(d, b).buf;
      d' == d + [b] && Feed(p, b).buf == if begun && |d'| <= 32 then d' else []
  {
  }

  lemma {:induction false} FollowsFrom(f: seq<byte>, b: byte)
    requires |Dangling(f)| >= 2 && |Dangling(f + [b])| >= 2
    requires Unfinished(f) == if InReach(f) then Dangling(f) else []
    ensures Unfinished(f + [b]) == if InReach(f + [b]) then Dangling(f + [b]) else []
  {
    TerminalSnoc(f, b);
    RestorerSnoc(f, b);
    DanglingIsSuffix(f);
    FollowsOn(Unfinished(f), Dangling(f), b, |Unfinished(Before(f))| < 2);
    BeforeSame(f, b);
  }

  lemma {:induction false} FollowsFirst(f: seq<byte>, b: byte)
    requires |Dangling(f)| < 2 && |Dangling(f + [b])| >= 2
    ensures Unfinished(f + [b]) == if InReach(f + [b]) then Dangling(f + [b]) else []
  {
    TerminalSnoc(f, b);
    JointHolds(f);
    DanglingIsSuffix(f);
    DanglingIsSuffix(f + [b]);
    var g := Before(f + [b]);
    assert f == g + [ESC] && b == LBRACKET;
    Begins(g);
  }

  /** While the terminal is in a sequence, the restorer holds exactly that sequence if it is in reach, and
      nothing otherwise. */
  lemma {:induction false} Followed(s: seq<byte>)
    requires |Dangling(s)| >= 2
    ensures Unfinished(s) == if InReach(s) then Dangling(s) else []
    decreases |s|
  {
    DanglingIsSuffix(s);
    var f, b := Front(s), Last(s);
    assert s == f + [b];
    if |Dangling(f)| >= 2 {
      Followed(f);
      FollowsFrom(f, b);
    } else {
      FollowsFirst(f, b);
    }
  }
}
