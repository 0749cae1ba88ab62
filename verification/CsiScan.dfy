/** Two readings of control sequences in terminal output: the restorer's byte loop with its 32-byte buffer, and
    an independent reading by a terminal; and for which outputs the two agree. */
module CsiScan {
  import opened Bytes
  import opened KeyEvents

  const CAN: byte := 0x18
  const SUB: byte := 0x1a

  // ---------------------------------------------------------------- control sequences of a whole string

  /** What stands first: how many bytes to pass over, and the sequence they form, if any. */
  datatype Item = Item(len: nat, body: seq<seq<byte>>)

  /** Everything but a control sequence of at most 32 bytes is passed over; a longer one is cut at 33 bytes. */
  function First(s: seq<byte>): (item: Option<Item>)
    requires s != []
    ensures item.Some? ==> 0 < item.value.len <= |s|
  {
    if s[0] != ESC then Some(Item(1, []))
    else if |s| == 1 then None
    else if s[1] == ESC then Some(Item(1, []))
    else if s[1] != LBRACKET then Some(Item(2, []))
    else
      match FinalAt(s, 2)
      case Some(j) => if j < 32 then Some(Item(j + 1, [s[2..j + 1]])) else Some(Item(33, []))
      case None => if |s| > 32 then Some(Item(33, [])) else None
  }

  /** The control sequences of a string, without their introducers. */
  function Bodies(s: seq<byte>): seq<seq<byte>>
    decreases |s|
  {
    if s == [] then []
    else
      match First(s)
      case None => []
      case Some(item) => item.body + Bodies(s[item.len..])
  }

  /** The unfinished sequence a string ends in. */
  function Unfinished(s: seq<byte>): (p: seq<byte>)
    ensures |p| <= 32
    decreases |s|
  {
    if s == [] then []
    else
      match First(s)
      case None => s
      case Some(item) => Unfinished(s[item.len..])
  }

  // ---------------------------------------------------------------- the same, one byte at a time

  datatype Scanned = Scanned(buf: seq<byte>, bodies: seq<seq<byte>>)

  function Feed(buf: seq<byte>, b: byte): Scanned {
    if |buf| == 0 then Scanned(if b == ESC then [b] else [], [])
    else if |buf| == 1 then
      Scanned(if b == LBRACKET then buf + [b] else if b == ESC then buf else [], [])
    else
      var p := buf + [b];
      if |p| > 32 then Scanned([], [])
      else if IsFinal(b) then Scanned([], [p[2..]])
      else Scanned(p, [])
  }

  function Scan(buf: seq<byte>, s: seq<byte>): Scanned
    decreases |s|
  {
    if s == [] then Scanned(buf, [])
    else
      var one := Feed(buf, s[0]);
      var more := Scan(one.buf, s[1..]);
      Scanned(more.buf, one.bodies + more.bodies)
  }

  lemma {:induction false} ScanAppend(buf: seq<byte>, a: seq<byte>, b: seq<byte>)
    ensures var first, second := Scan(buf, a), Scan(Scan(buf, a).buf, b);
      Scan(buf, a + b) == Scanned(second.buf, first.bodies + second.bodies)
    decreases |a|
  {
    if a == [] {
      assert a + b == b;
    } else {
      assert (a + b)[1..] == a[1..] + b;
      ScanAppend(Feed(buf, a[0]).buf, a[1..], b);
    }
  }

  lemma ScanSnoc(buf: seq<byte>, s: seq<byte>, b: byte)
    ensures var one := Feed(Scan(buf, s).buf, b);
      Scan(buf, s + [b]) == Scanned(one.buf, Scan(buf, s).bodies + one.bodies)
  {
    ScanAppend(buf, s, [b]);
    var one := Feed(Scan(buf, s).buf, b);
    assert one.bodies + [] == one.bodies;
    assert Scan(Scan(buf, s).buf, [b]) == one;
  }

  /** An unfinished control sequence that still fits the buffer. */
  ghost predicate Open(p: seq<byte>) {
    2 <= |p| <= 32 && p[0] == ESC && p[1] == LBRACKET && forall i | 2 <= i < |p| :: !IsFinal(p[i])
  }

  lemma {:induction false} OpenIsHeld(p: seq<byte>)
    requires Open(p)
    ensures Scan([], p) == Scanned(p, [])
    decreases |p|
  {
    if |p| == 2 {
      assert p == [ESC] + [LBRACKET];
      ScanSnoc([], [ESC], LBRACKET);
      ScanSnoc([], [], ESC);
    } else {
      OpenIsHeld(Front(p));
      assert p == Front(p) + [Last(p)];
      ScanSnoc([], Front(p), Last(p));
    }
  }

  /** A held sequence and the byte that ends it, by completing it or by overrunning the buffer. */
  lemma EndsSequence(p: seq<byte>, b: byte, rest: seq<byte>)
    requires Open(p) && (IsFinal(b) || |p| == 32)
    ensures var after, body := Scan([], rest), if |p| < 32 then [(p + [b])[2..]] else [];
      Scan([], p + [b] + rest) == Scanned(after.buf, body + after.bodies)
  {
    EndsAlone(p, b);
    ScanAppend([], p + [b], rest);
  }

  lemma EndsAlone(p: seq<byte>, b: byte)
    requires Open(p) && (IsFinal(b) || |p| == 32)
    ensures Scan([], p + [b]) == Scanned([], if |p| < 32 then [(p + [b])[2..]] else [])
  {
    OpenIsHeld(p);
    ScanSnoc([], p, b);
    assert Feed(p, b) == Scanned([], if |p| < 32 then [(p + [b])[2..]] else []);
  }

  lemma {:induction false} FinalAtMeans(s: seq<byte>, i: nat)
    requires i <= |s|
    ensures forall k | i <= k < (if FinalAt(s, i).Some? then FinalAt(s, i).value else |s|) :: !IsFinal(s[k])
    ensures FinalAt(s, i).Some? ==> IsFinal(s[FinalAt(s, i).value])
    decreases |s| - i
  {
    if i < |s| && !IsFinal(s[i]) {
      FinalAtMeans(s, i + 1);
    }
  }

  /** From an empty buffer the scanner passes over exactly the first item. */
  lemma FirstScanned(s: seq<byte>)
    requires s != []
    ensures match First(s)
      case None => Scan([], s) == Scanned(s, [])
      case Some(item) =>
        var after := Scan([], s[item.len..]);
        Scan([], s) == Scanned(after.buf, item.body + after.bodies)
  {
    if s[0] == ESC && |s| > 1 && s[1] == LBRACKET {
      SequenceScanned(s);
    } else if s[0] == ESC && |s| > 1 {
      assert s[1..][1..] == s[2..];
      assert Scan([], s) == Scan([ESC], s[1..]);
    } else if s[0] == ESC {
      assert s == [ESC];
    }
  }

  lemma SequenceScanned(s: seq<byte>)
    requires |s| > 1 && s[0] == ESC && s[1] == LBRACKET
    ensures match First(s)
      case None => Scan([], s) == Scanned(s, [])
      case Some(item) =>
        var after := Scan([], s[item.len..]);
        Scan([], s) == Scanned(after.buf, item.body + after.bodies)
  {
    FinalAtMeans(s, 2);
    match First(s)
    case None => OpenIsHeld(s);
    case Some(item) => SplitSequence(s, item.len, item.body);
  }

  lemma SplitSequence(s: seq<byte>, n: nat, body: seq<seq<byte>>)
    requires 3 <= n <= |s| && n <= 33 && Open(s[..n - 1]) && (IsFinal(s[n - 1]) || n == 33)
    requires body == if n <= 32 then [s[2..n]] else []
    ensures var after := Scan([], s[n..]); Scan([], s) == Scanned(after.buf, body + after.bodies)
  {
    var p, b := s[..n - 1], s[n - 1];
    assert s == p + [b] + s[n..] && (p + [b])[2..] == s[2..n];
    EndsSequence(p, b, s[n..]);
  }

  /** The streaming scanner finds the control sequences of the whole string and holds the unfinished one. */
  lemma {:induction false} ScanRefines(s: seq<byte>)
    ensures Scan([], s) == Scanned(Unfinished(s), Bodies(s))
    decreases |s|
  {
    if s != [] {
      FirstScanned(s);
      match First(s)
      case None =>
      case Some(item) => ScanRefines(s[item.len..]);
    }
  }

  /** Strings that end between sequences can be read one after the other. */
  lemma BodiesAppend(a: seq<byte>, b: seq<byte>)
    requires Unfinished(a) == []
    ensures Bodies(a + b) == Bodies(a) + Bodies(b) && Unfinished(a + b) == Unfinished(b)
  {
    ScanAppend([], a, b);
    ScanRefines(a);
    ScanRefines(b);
    ScanRefines(a + b);
  }

  lemma BodiesSnoc(s: seq<byte>)
    requires s != []
    ensures Bodies(Front(s)) <= Bodies(s) && |Bodies(s)| <= |Bodies(Front(s))| + 1
  {
    assert s == Front(s) + [Last(s)];
    ScanSnoc([], Front(s), Last(s));
    ScanRefines(Front(s));
    ScanRefines(s);
  }

  lemma BodiesOfPrefix(s: seq<byte>, k: nat)
    requires k <= |s|
    ensures Bodies(s[..k]) <= Bodies(s)
  {
    assert s == s[..k] + s[k..];
    ScanAppend([], s[..k], s[k..]);
    ScanRefines(s[..k]);
    ScanRefines(s);
  }

  /** Somewhere in the string exactly the first `i` sequences have been read. */
  lemma {:induction false} CutAfter(s: seq<byte>, i: nat) returns (k: nat)
    requires i <= |Bodies(s)|
    ensures k <= |s| && Bodies(s[..k]) == Bodies(s)[..i]
    decreases |s|
  {
    if i == |Bodies(s)| {
      k := |s|;
      assert s[..k] == s;
    } else {
      BodiesSnoc(s);
      k := CutAfter(Front(s), i);
      assert Front(s)[..k] == s[..k];
    }
  }

  // ---------------------------------------------------------------- what a terminal recognises

  /** Inside a sequence ESC starts over, and CAN and SUB give it up. */
  predicate Interrupts(b: byte) {
    b == ESC || b == CAN || b == SUB
  }

  /** The first final or interrupting byte at or after `i`. */
  function StopAt(s: seq<byte>, i: nat): (j: Option<nat>)
    requires i <= |s|
    ensures j.Some? ==> i <= j.value < |s| && (IsFinal(s[j.value]) || Interrupts(s[j.value]))
    ensures forall k | i <= k < (if j.Some? then j.value else |s|) :: !IsFinal(s[k]) && !Interrupts(s[k])
    decreases |s| - i
  {
    if i == |s| then None else if IsFinal(s[i]) || Interrupts(s[i]) then Some(i) else StopAt(s, i + 1)
  }

  lemma {:induction false} StopAtIs(s: seq<byte>, i: nat, j: nat)
    requires i <= j < |s| && (IsFinal(s[j]) || Interrupts(s[j]))
    requires forall k | i <= k < j :: !IsFinal(s[k]) && !Interrupts(s[k])
    ensures StopAt(s, i) == Some(j)
    decreases j - i
  {
    if i < j {
      StopAtIs(s, i + 1, j);
    }
  }

  /** What stands first for a terminal, which has no limit on the length of a sequence. */
  function TerminalFirst(s: seq<byte>): (item: Option<Item>)
    requires s != []
    ensures item.Some? ==> 0 < item.value.len <= |s|
  {
    if s[0] != ESC then Some(Item(1, []))
    else if |s| == 1 then None
    else if s[1] == ESC then Some(Item(1, []))
    else if s[1] != LBRACKET then Some(Item(2, []))
    else
      match StopAt(s, 2)
      case Some(j) =>
        if IsFinal(s[j]) then Some(Item(j + 1, [s[2..j + 1]])) else Some(Item(if s[j] == ESC then j else j + 1, []))
      case None => None
  }

  /** The control sequences a terminal acts on, without their introducers. */
  function Recognised(s: seq<byte>): seq<seq<byte>>
    decreases |s|
  {
    if s == [] then []
    else
      match TerminalFirst(s)
      case None => []
      case Some(item) => item.body + Recognised(s[item.len..])
  }

  /** The sequence a terminal is in at the end of a string. */
  function Dangling(s: seq<byte>): seq<byte>
    decreases |s|
  {
    if s == [] then []
    else
      match TerminalFirst(s)
      case None => s
      case Some(item) => Dangling(s[item.len..])
  }

  lemma TerminalFirstExtends(a: seq<byte>, b: seq<byte>)
    requires a != [] && TerminalFirst(a).Some?
    ensures TerminalFirst(a + b) == TerminalFirst(a)
  {
    var s := a + b;
    assert forall k | 0 <= k < |a| :: s[k] == a[k];
    if |a| > 1 && a[0] == ESC && a[1] == LBRACKET {
      var j := StopAt(a, 2).value;
      StopAtIs(s, 2, j);
      assert s[2..j + 1] == a[2..j + 1];
    }
  }

  /** ESC ends whatever the terminal is in. */
  lemma EscapeEnds(a: seq<byte>, b: seq<byte>)
    requires a != [] && TerminalFirst(a).None? && b != [] && b[0] == ESC
    ensures TerminalFirst(a + b) == Some(Item(|a|, []))
  {
    var s := a + b;
    assert forall k | 0 <= k < |a| :: s[k] == a[k];
    assert s[|a|] == ESC;
    if |a| > 1 {
      StopAtIs(s, 2, |a|);
    }
  }

  lemma {:induction false} RecognisedStep(s: seq<byte>, item: Item, rest: seq<byte>)
    requires s != [] && TerminalFirst(s) == Some(item) && s[item.len..] == rest
    ensures Recognised(s) == item.body + Recognised(rest) && Dangling(s) == Dangling(rest)
  {
  }

  /** Reading `a` and then `b` by itself. */
  ghost predicate ReadsApart(a: seq<byte>, b: seq<byte>) {
    && Recognised(a + b) == Recognised(a) + Recognised(b)
    && (b != [] || Dangling(a) == [] ==> Dangling(a + b) == Dangling(b))
  }

  lemma {:induction false} ReadsApartStep(a: seq<byte>, item: Item, rest: seq<byte>, b: seq<byte>)
    requires a != [] && TerminalFirst(a) == Some(item) && a[item.len..] == rest && ReadsApart(rest, b)
    ensures ReadsApart(a, b)
  {
    TerminalFirstExtends(a, b);
    assert (a + b)[item.len..] == rest + b;
    RecognisedStep(a, item, rest);
    RecognisedStep(a + b, item, rest + b);
    Associate(item.body, Recognised(rest), Recognised(b));
  }

  lemma Associate<T>(x: seq<T>, y: seq<T>, z: seq<T>)
    ensures x + (y + z) == x + y + z
  {
  }

  lemma {:induction false} ReadsApartEscape(a: seq<byte>, b: seq<byte>)
    requires a != [] && TerminalFirst(a).None? && b != [] && b[0] == ESC
    ensures ReadsApart(a, b)
  {
    EscapeEnds(a, b);
    assert (a + b)[|a|..] == b;
    RecognisedStep(a + b, Item(|a|, []), b);
  }

  lemma ReadsApartTrivial(a: seq<byte>, b: seq<byte>)
    requires a == [] || b == []
    ensures ReadsApart(a, b)
  {
    assert a + b == if a == [] then b else a;
    assert [] + Recognised(b) == Recognised(b) && Recognised(a) + [] == Recognised(a);
  }

  /** A string that ends between sequences, or any string before an ESC, can be read by itself. */
  lemma {:induction false} RecognisedAppend(a: seq<byte>, b: seq<byte>)
    requires Dangling(a) == [] || b == [] || b[0] == ESC
    ensures ReadsApart(a, b)
    decreases |a|
  {
    if a == [] || b == [] {
      ReadsApartTrivial(a, b);
    } else if TerminalFirst(a).None? {
      ReadsApartEscape(a, b);
    } else {
      var item := TerminalFirst(a).value;
      RecognisedStep(a, item, a[item.len..]);
      RecognisedAppend(a[item.len..], b);
      ReadsApartStep(a, item, a[item.len..], b);
    }
  }

  // ---------------------------------------------------------------- where the two readings agree

  /** A control sequence that the terminal gives up before its final byte. */
  predicate BrokenOff(s: seq<byte>, item: Item)
    requires s != []
  {
    |s| > 1 && s[0] == ESC && s[1] == LBRACKET && item.body == []
  }

  /** No control sequence is broken off; the last one may be unfinished. */
  predicate Unbroken(s: seq<byte>)
    decreases |s|
  {
    s == [] ||
    match TerminalFirst(s)
    case None => true
    case Some(item) => !BrokenOff(s, item) && Unbroken(s[item.len..])
  }

  /** The control sequences of at most 32 bytes. */
  function ShortOnes(bodies: seq<seq<byte>>): seq<seq<byte>> {
    if bodies == [] then []
    else (if |bodies[0]| <= 30 then [bodies[0]] else []) + ShortOnes(bodies[1..])
  }

  lemma {:induction false} SkipText(s: seq<byte>, k: nat)
    requires k <= |s| && ESC !in s[..k]
    ensures Bodies(s) == Bodies(s[k..])
    decreases k
  {
    if k > 0 {
      assert s[0] == s[..k][0];
      assert s[1..][..k - 1] == s[..k][1..] && s[1..][k - 1..] == s[k..];
      SkipText(s[1..], k - 1);
    } else {
      assert s[k..] == s;
    }
  }

  /** A sequence of the whole string as the restorer reads it: found if short, passed over if long. */
  lemma SequenceRead(s: seq<byte>, j: nat)
    requires |s| > 1 && s[0] == ESC && s[1] == LBRACKET && StopAt(s, 2) == Some(j) && IsFinal(s[j])
    ensures Bodies(s) == (if j < 32 then [s[2..j + 1]] else []) + Bodies(s[j + 1..])
  {
    FinalAtIs(s, 2, j);
    if j < 32 {
      BodiesStep(s, Item(j + 1, [s[2..j + 1]]), s[j + 1..]);
    } else {
      BodiesStep(s, Item(33, []), s[33..]);
      LongTail(s, j);
    }
  }

  lemma {:induction false} BodiesStep(s: seq<byte>, item: Item, rest: seq<byte>)
    requires s != [] && First(s) == Some(item) && s[item.len..] == rest
    ensures Bodies(s) == item.body + Bodies(rest)
  {
  }

  lemma LongTail(s: seq<byte>, j: nat)
    requires 32 <= j < |s| && IsFinal(s[j]) && forall k | 33 <= k < j :: s[k] != ESC
    ensures Bodies(s[33..]) == Bodies(s[j + 1..])
  {
    var tail := s[33..];
    assert forall k | 0 <= k < j - 32 :: tail[k] == s[33 + k];
    assert ESC !in tail[..j - 32];
    assert tail[j - 32..] == s[j + 1..];
    SkipText(tail, j - 32);
  }

  lemma UnfinishedRead(s: seq<byte>)
    requires |s| > 1 && s[0] == ESC && s[1] == LBRACKET && StopAt(s, 2) == None
    ensures Bodies(s) == []
  {
    FinalAtMeans(s, 2);
    if |s| > 32 {
      SkipText(s[33..], |s| - 33);
    }
  }

  lemma ShortCons(body: seq<byte>, more: seq<seq<byte>>)
    ensures ShortOnes([body] + more) == (if |body| <= 30 then [body] else []) + ShortOnes(more)
  {
  }

  lemma {:induction false} SeesSequence(s: seq<byte>, j: nat)
    requires |s| > 1 && s[0] == ESC && s[1] == LBRACKET && StopAt(s, 2) == Some(j) && IsFinal(s[j])
    requires Bodies(s[j + 1..]) == ShortOnes(Recognised(s[j + 1..]))
    ensures Bodies(s) == ShortOnes(Recognised(s))
  {
    RecognisedStep(s, Item(j + 1, [s[2..j + 1]]), s[j + 1..]);
    SequenceRead(s, j);
    ShortCons(s[2..j + 1], Recognised(s[j + 1..]));
  }

  lemma {:induction false} SeesOther(s: seq<byte>, item: Item, rest: seq<byte>)
    requires s != [] && First(s) == TerminalFirst(s) == Some(item) && item.body == [] && s[item.len..] == rest
    requires Bodies(rest) == ShortOnes(Recognised(rest))
    ensures Bodies(s) == ShortOnes(Recognised(s))
  {
    RecognisedStep(s, item, rest);
    BodiesStep(s, item, rest);
    assert [] + Bodies(rest) == Bodies(rest) && [] + Recognised(rest) == Recognised(rest);
  }

  lemma {:induction false} UnbrokenStep(s: seq<byte>)
    requires s != [] && Unbroken(s) && TerminalFirst(s).Some?
    ensures Unbroken(s[TerminalFirst(s).value.len..])
    ensures |s| > 1 && s[0] == ESC && s[1] == LBRACKET ==> IsFinal(s[StopAt(s, 2).value])
  {
  }

  /** Of a string without broken-off sequences the restorer reads exactly the terminal's sequences of at most
      32 bytes. */
  lemma {:induction false} RestorerSees(s: seq<byte>)
    requires Unbroken(s)
    ensures Bodies(s) == ShortOnes(Recognised(s))
    decreases |s|
  {
    if s != [] && TerminalFirst(s).Some? {
      var item := TerminalFirst(s).value;
      UnbrokenStep(s);
      RestorerSees(s[item.len..]);
      if |s| > 1 && s[0] == ESC && s[1] == LBRACKET {
        SeesSequence(s, StopAt(s, 2).value);
      } else {
        SeesOther(s, item, s[item.len..]);
      }
    } else if |s| > 1 {
      UnfinishedRead(s);
    }
  }

  // ---------------------------------------------------------------- strings both read alike

  /** Both read exactly these sequences, and both end between sequences. */
  ghost predicate ReadAs(s: seq<byte>, bodies: seq<seq<byte>>) {
    Bodies(s) == bodies == Recognised(s) && Unfinished(s) == [] == Dangling(s)
  }

  lemma ReadAsAppend(a: seq<byte>, ba: seq<seq<byte>>, b: seq<byte>, bb: seq<seq<byte>>)
    requires ReadAs(a, ba) && ReadAs(b, bb)
    ensures ReadAs(a + b, ba + bb)
  {
    BodiesAppend(a, b);
    RecognisedAppend(a, b);
  }

  /** One sequence by itself. */
  lemma OneSequence(params: seq<byte>, final: byte)
    requires |params| <= 29 && IsFinal(final)
    requires forall i | 0 <= i < |params| :: !IsFinal(params[i]) && !Interrupts(params[i])
    ensures ReadAs([ESC, LBRACKET] + params + [final], [params + [final]])
  {
    var p, s, j := [ESC, LBRACKET] + params, [ESC, LBRACKET] + params + [final], 2 + |params|;
    ScanRefines(s);
    EndsAlone(p, final);
    assert s[2..] == params + [final];
    assert forall k | 2 <= k < j :: s[k] == params[k - 2];
    StopAtIs(s, 2, j);
    assert s[2..j + 1] == params + [final] && s[j + 1..] == [];
  }

  lemma {:induction false} OnlyText(p: seq<byte>)
    requires ESC !in p
    ensures ReadAs(p, [])
  {
    if p != [] {
      assert p[0] in p && forall b | b in p[1..] :: b in p;
      OnlyText(p[1..]);
    }
  }

  lemma OneEscape(b: byte)
    requires b != ESC && b != LBRACKET
    ensures ReadAs([ESC, b], [])
  {
    assert [ESC, b][2..] == [];
  }
}
