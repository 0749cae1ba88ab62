/** What a terminal takes for a push, a pop and a modifyOtherKeys switch, told from the bytes, and that the tracker
    notes exactly these; and the bytes of the clean-up, written out. */
module KittySequences {
  import opened Bytes
  import opened KeyEvents
  import opened CsiScan
  import opened KittyRestorer

  // ---------------------------------------------------------------- a terminal's own definitions

  /** `CSI > ... u` */
  predicate IsPush(body: seq<byte>, params: seq<byte>) {
    body == Ascii(">") + params + Ascii("u")
  }

  /** `CSI < ... u` */
  predicate IsPop(body: seq<byte>, params: seq<byte>) {
    body == Ascii("<") + params + Ascii("u")
  }

  /** `CSI > ... m` */
  predicate IsModeReport(body: seq<byte>, params: seq<byte>) {
    body == Ascii(">") + params + Ascii("m")
  }

  /** An optional sign and at least one digit. */
  predicate Spelled(params: seq<byte>, sign: seq<byte>, digits: seq<byte>) {
    && params == sign + digits && (sign == [] || sign == Ascii("+") || sign == Ascii("-"))
    && digits != [] && forall i | 0 <= i < |digits| :: 0x30 <= digits[i] <= 0x39
  }

  predicate CountsTo(params: seq<byte>, sign: seq<byte>, digits: seq<byte>, n: nat) {
    && Spelled(params, sign, digits) && sign != Ascii("-")
    && AllDigits(digits) && Value(digits) == n && 0 < n < 0x8000_0000_0000_0000
  }

  /** The count that is spelled, if it is positive and fits 63 bits; 1 otherwise. */
  ghost predicate HasCount(params: seq<byte>, n: nat) {
    || (exists sign, digits :: CountsTo(params, sign, digits, n))
    || (n == 1 && forall sign, digits, k: nat :: !CountsTo(params, sign, digits, k))
  }

  /** No parameters, or resource 4, with its value. */
  ghost predicate SwitchesMode(params: seq<byte>, on: bool) {
    || (params == [] && !on)
    || (params == Ascii("4") && !on)
    || exists value, more :: ValueOfFour(params, value, more) && (on <==> value == Ascii("2"))
  }

  predicate ValueOfFour(params: seq<byte>, value: seq<byte>, more: seq<byte>) {
    params == Ascii("4;") + value + more && 0x3b !in value && (more == [] || more[0] == 0x3b)
  }

  /** What one sequence does to a terminal. */
  ghost function Obeys(t: Terminal, body: seq<byte>): Terminal {
    if exists params :: IsPush(body, params) then t.(depth := t.depth + 1)
    else if params, n: nat :| IsPop(body, params) && HasCount(params, n) then
      t.(depth := if n < t.depth then t.depth - n else 0)
    else if exists params :: IsModeReport(body, params) && SwitchesMode(params, true) then t.(otherKeys := true)
    else if exists params :: IsModeReport(body, params) && SwitchesMode(params, false) then t.(otherKeys := false)
    else t
  }

  ghost function Obeyed(bodies: seq<seq<byte>>, t: Terminal): Terminal {
    if bodies == [] then t else Obeys(Obeyed(Front(bodies), t), Last(bodies))
  }

  // ---------------------------------------------------------------- the tracker's reading is the terminal's

  lemma Signs()
    ensures Ascii("+") == [0x2b] && Ascii("-") == [0x2d]
  {
  }

  lemma CountIsAtoi(params: seq<byte>, sign: seq<byte>, digits: seq<byte>, n: nat)
    requires CountsTo(params, sign, digits, n)
    ensures Atoi(params) == Some(n)
  {
    Signs();
    if sign == [] {
      assert params == digits;
    } else {
      assert params[0] == 0x2b && params[1..] == digits;
    }
  }

  lemma AtoiIsCount(params: seq<byte>)
    requires Atoi(params).Some? && Atoi(params).value > 0
    ensures exists sign, digits :: CountsTo(params, sign, digits, Atoi(params).value)
  {
    Signs();
    var signed := params[0] == 0x2b || params[0] == 0x2d;
    var sign, digits := if signed then params[..1] else [], if signed then params[1..] else params;
    assert params == sign + digits;
    assert sign == [] || sign == [params[0]];
    assert CountsTo(params, sign, digits, Atoi(params).value);
  }

  lemma HasCountIs(params: seq<byte>, n: nat)
    ensures HasCount(params, n) <==> n == PopCount(params)
  {
    forall sign, digits, k: nat | CountsTo(params, sign, digits, k) ensures Atoi(params) == Some(k) {
      CountIsAtoi(params, sign, digits, k);
    }
    if Atoi(params).Some? && Atoi(params).value > 0 {
      AtoiIsCount(params);
    }
  }

  /** The first field of a string that starts with this value. */
  lemma ValueFirst(value: seq<byte>, more: seq<byte>)
    requires 0x3b !in value && (more == [] || more[0] == 0x3b)
    ensures Fields(value + more, SEMICOLON)[0] == value
  {
    if more == [] {
      assert value + more == value;
      FieldAlone(value, SEMICOLON);
    } else {
      assert value + more == value + [SEMICOLON] + more[1..];
      FieldThen(value, SEMICOLON, more[1..]);
    }
  }

  lemma FourThen(params: seq<byte>, rest: seq<byte>)
    requires params == [0x34] + [SEMICOLON] + rest
    ensures OtherKeysEvent(params) == OtherKeys(Fields(rest, SEMICOLON)[0] == [0x32])
  {
    FieldThen([0x34], SEMICOLON, rest);
  }

  lemma FourMeans(params: seq<byte>, value: seq<byte>, more: seq<byte>)
    requires ValueOfFour(params, value, more)
    ensures OtherKeysEvent(params) == OtherKeys(value == [0x32]) && Ascii("2") == [0x32]
  {
    assert Ascii("4;") == [0x34, SEMICOLON];
    assert params == [0x34] + [SEMICOLON] + (value + more);
    FourThen(params, value + more);
    ValueFirst(value, more);
  }

  lemma FourHolds(params: seq<byte>)
    requires params != [] && Fields(params, SEMICOLON)[0] == [0x34] && params != [0x34]
    ensures exists value, more :: ValueOfFour(params, value, more)
  {
    var j := FieldEnd(params, SEMICOLON, 0);
    assert Fields(params, SEMICOLON)[0] == params[..j];
    assert j == 1 && params[0] == params[..j][0] == 0x34;
    var rest := params[2..];
    var k := FieldEnd(rest, SEMICOLON, 0);
    assert Ascii("4;") == [0x34, SEMICOLON];
    assert params == Ascii("4;") + rest[..k] + rest[k..];
    assert ValueOfFour(params, rest[..k], rest[k..]);
  }

  lemma ModeIs(params: seq<byte>, on: bool)
    ensures SwitchesMode(params, on) <==> OtherKeysEvent(params) == OtherKeys(on)
  {
    assert Ascii("4") == [0x34];
    if params == [0x34] {
      FieldAlone(params, SEMICOLON);
      assert forall value, more :: !ValueOfFour(params, value, more) by {
        assert |Ascii("4;")| == 2;
      }
    } else if params != [] {
      forall value, more | ValueOfFour(params, value, more)
        ensures OtherKeysEvent(params) == OtherKeys(value == Ascii("2"))
      {
        FourMeans(params, value, more);
      }
      if Fields(params, SEMICOLON)[0] == [0x34] {
        FourHolds(params);
      }
    } else {
      assert forall value, more :: !ValueOfFour(params, value, more) by {
        assert |Ascii("4;")| == 2;
      }
    }
  }

  lemma Leads()
    ensures Ascii(">") == [GREATER] && Ascii("<") == [LESS] && Ascii("u") == [LOWER_U] && Ascii("m") == [LOWER_M]
  {
  }

  /** A body between its first and its last byte. */
  lemma ShapeIs(body: seq<byte>, lead: byte, params: seq<byte>, final: byte)
    ensures body == [lead] + params + [final] <==>
      |body| >= 2 && body[0] == lead && Last(body) == final && params == body[1..|body| - 1]
  {
    if body == [lead] + params + [final] {
      assert body[1..|body| - 1] == params;
    }
    if |body| >= 2 && body[0] == lead && Last(body) == final && params == body[1..|body| - 1] {
      assert body == [body[0]] + body[1..|body| - 1] + [body[|body| - 1]];
    }
  }

  ghost predicate Middle(body: seq<byte>, params: seq<byte>) {
    |body| >= 2 && params == body[1..|body| - 1]
  }

  lemma ShapesAre(body: seq<byte>, params: seq<byte>)
    ensures IsPush(body, params) <==> Middle(body, params) && body[0] == GREATER && Last(body) == LOWER_U
    ensures IsPop(body, params) <==> Middle(body, params) && body[0] == LESS && Last(body) == LOWER_U
    ensures IsModeReport(body, params) <==> Middle(body, params) && body[0] == GREATER && Last(body) == LOWER_M
  {
    Leads();
    ShapeIs(body, GREATER, params, LOWER_U);
    ShapeIs(body, LESS, params, LOWER_U);
    ShapeIs(body, GREATER, params, LOWER_M);
  }

  /** What the tracker takes a sequence for is exactly what it does to a terminal. */
  lemma ObeysIsDoes(t: Terminal, body: seq<byte>)
    ensures Obeys(t, body) == Does(t, EventOf(body))
  {
    forall params
      ensures IsPush(body, params) <==> Middle(body, params) && body[0] == GREATER && Last(body) == LOWER_U
      ensures IsPop(body, params) <==> Middle(body, params) && body[0] == LESS && Last(body) == LOWER_U
      ensures IsModeReport(body, params) <==> Middle(body, params) && body[0] == GREATER && Last(body) == LOWER_M
    {
      ShapesAre(body, params);
    }
    if |body| >= 2 {
      var params := body[1..|body| - 1];
      forall n: nat ensures HasCount(params, n) <==> n == PopCount(params) {
        HasCountIs(params, n);
      }
      ModeIs(params, true);
      ModeIs(params, false);
      ObeysInShape(t, body, params);
    }
  }

  lemma ObeysPush(t: Terminal, body: seq<byte>, params: seq<byte>)
    requires IsPush(body, params)
    ensures Obeys(t, body) == t.(depth := t.depth + 1)
  {
  }

  lemma ObeysPop(t: Terminal, body: seq<byte>, params: seq<byte>, count: nat)
    requires IsPop(body, params) && HasCount(params, count)
    requires forall p :: !IsPush(body, p)
    requires forall p, n: nat :: IsPop(body, p) && HasCount(p, n) ==> n == count
    ensures Obeys(t, body) == t.(depth := if count < t.depth then t.depth - count else 0)
  {
  }

  lemma ObeysMode(t: Terminal, body: seq<byte>, params: seq<byte>)
    requires IsModeReport(body, params) && forall p :: IsModeReport(body, p) ==> p == params
    requires forall p :: !IsPush(body, p) && !IsPop(body, p)
    ensures Obeys(t, body) ==
      if SwitchesMode(params, true) then t.(otherKeys := true)
      else if SwitchesMode(params, false) then t.(otherKeys := false) else t
  {
  }

  lemma ObeysNothing(t: Terminal, body: seq<byte>)
    requires forall p :: !IsPush(body, p) && !IsPop(body, p) && !IsModeReport(body, p)
    ensures Obeys(t, body) == t
  {
  }

  lemma ObeysInShape(t: Terminal, body: seq<byte>, params: seq<byte>)
    requires Middle(body, params)
    requires forall p :: IsPush(body, p) <==> Middle(body, p) && body[0] == GREATER && Last(body) == LOWER_U
    requires forall p :: IsPop(body, p) <==> Middle(body, p) && body[0] == LESS && Last(body) == LOWER_U
    requires forall p :: IsModeReport(body, p) <==> Middle(body, p) && body[0] == GREATER && Last(body) == LOWER_M
    requires forall n: nat :: HasCount(params, n) <==> n == PopCount(params)
    requires SwitchesMode(params, true) <==> OtherKeysEvent(params) == OtherKeys(true)
    requires SwitchesMode(params, false) <==> OtherKeysEvent(params) == OtherKeys(false)
    ensures Obeys(t, body) == Does(t, EventOf(body))
  {
    if body[0] == GREATER && Last(body) == LOWER_U {
      ObeysPush(t, body, params);
    } else if body[0] == LESS && Last(body) == LOWER_U {
      ObeysPop(t, body, params, PopCount(params));
    } else if body[0] == GREATER && Last(body) == LOWER_M {
      ObeysMode(t, body, params);
    } else {
      ObeysNothing(t, body);
    }
  }

  lemma {:induction false} ObeyedIsShown(bodies: seq<seq<byte>>, t: Terminal)
    ensures Obeyed(bodies, t) == Shown(Events(bodies), t)
  {
    if bodies != [] {
      ObeyedIsShown(Front(bodies), t);
      ObeysIsDoes(Obeyed(Front(bodies), t), Last(bodies));
      assert Front(Events(bodies)) == Events(Front(bodies)) && Last(Events(bodies)) == EventOf(Last(bodies));
    }
  }

  // ---------------------------------------------------------------- one sequence of output

  predicate PlainParams(params: seq<byte>) {
    forall i | 0 <= i < |params| :: !(0x40 <= params[i] <= 0x7e) && params[i] != 0x1b && params[i] != 0x18 && params[i] != 0x1a
  }

  /** `ESC [ lead params final` observed between sequences is noted as its event, and nothing is held back. */
  lemma OneNoted(tally: Tally, lead: byte, params: seq<byte>, final: byte)
    requires PlainParams([lead] + params) && |params| <= 28 && 0x40 <= final <= 0x7e
    ensures Observed(State(tally, []), [0x1b, 0x5b] + ([lead] + params) + [final]) ==
      State(Noted(tally, EventOf([lead] + params + [final])), [])
  {
    var s, body := [ESC, LBRACKET] + ([lead] + params) + [final], [lead] + params + [final];
    OneSequence([lead] + params, final);
    ScanRefines(s);
    OneEvent(body, tally);
  }

  /** A push, with or without flags, adds one to what is owed. */
  lemma PushNoted(tally: Tally, params: seq<byte>)
    requires PlainParams(params) && |params| <= 28 && 0 <= tally.pops < 0x7fff_ffff
    ensures Observed(State(tally, []), [0x1b, 0x5b, 0x3e] + params + [0x75]) ==
      State(tally.(pops := tally.pops + 1), [])
  {
    OneNoted(tally, GREATER, params, LOWER_U);
    Regrouped(GREATER, params, LOWER_U);
    InRange(tally.pops + 1);
  }

  lemma Regrouped(lead: byte, params: seq<byte>, final: byte)
    ensures [0x1b, 0x5b] + ([lead] + params) + [final] == [0x1b, 0x5b, lead] + params + [final]
    ensures ([lead] + params + [final])[1..|params| + 1] == params
  {
  }

  /** A pop takes its count off, down to zero. */
  lemma PopNoted(tally: Tally, params: seq<byte>, n: nat)
    requires PlainParams(params) && |params| <= 28 && 0 <= tally.pops < 0x8000_0000
    requires HasCount(params, n) && 0 < n < 0x8000_0000
    ensures Observed(State(tally, []), [0x1b, 0x5b, 0x3c] + params + [0x75]) ==
      State(tally.(pops := if n < tally.pops then tally.pops - n else 0), [])
  {
    OneNoted(tally, LESS, params, LOWER_U);
    Regrouped(LESS, params, LOWER_U);
    HasCountIs(params, n);
    PopExact(tally.pops, n);
  }

  /** A printed count is the count; nothing, zero, a negative count, a malformed or an oversized one are 1. */
  lemma Counts(n: nat, junk: seq<byte>)
    ensures HasCount(Decimal(n), if 0 < n < 0x8000_0000_0000_0000 then n else 1)
    ensures HasCount([], 1) && HasCount(Ascii("-") + Decimal(n), 1)
    ensures 0 < n < 0x8000_0000_0000_0000 ==> HasCount(Ascii("+") + Decimal(n), n)
    ensures Malformed(junk) ==> HasCount(junk, 1)
  {
    Signs();
    DecimalValue(n);
    DecimalStarts(n);
    assert (Ascii("-") + Decimal(n))[1..] == Decimal(n) && (Ascii("+") + Decimal(n))[1..] == Decimal(n);
    HasCountIs(Decimal(n), if 0 < n < 0x8000_0000_0000_0000 then n else 1);
    HasCountIs([], 1);
    HasCountIs(Ascii("-") + Decimal(n), 1);
    HasCountIs(Ascii("+") + Decimal(n), n);
    JunkCount(junk);
  }

  lemma DecimalStarts(n: nat)
    ensures Decimal(n) != [] && Decimal(n)[0] != 0x2b && Decimal(n)[0] != 0x2d
  {
    DecimalValue(n);
  }

  /** A byte that is no digit, other than a sign in front. */
  predicate Malformed(params: seq<byte>) {
    || (exists i :: 1 <= i < |params| && !(0x30 <= params[i] <= 0x39))
    || (params != [] && !(0x30 <= params[0] <= 0x39) && params[0] != 0x2b && params[0] != 0x2d)
    || params == [0x2b] || params == [0x2d]
  }

  lemma JunkAtoi(junk: seq<byte>)
    requires Malformed(junk)
    ensures Atoi(junk) == None
  {
    if i :| 1 <= i < |junk| && !(0x30 <= junk[i] <= 0x39) {
      assert junk[1..][i - 1] == junk[i];
    }
  }

  lemma JunkCount(junk: seq<byte>)
    ensures Malformed(junk) ==> HasCount(junk, 1)
  {
    HasCountIs(junk, 1);
    if Malformed(junk) {
      JunkAtoi(junk);
    }
  }

  /** `CSI > 4 ; 2 m` switches the mode on; any other value of 4, 4 alone and nothing switch it off; any other
      resource leaves it. */
  lemma ModeNoted(tally: Tally, params: seq<byte>)
    requires PlainParams(params) && |params| <= 28
    ensures Observed(State(tally, []), [0x1b, 0x5b, 0x3e] + params + [0x6d]) ==
      State(tally.(otherKeys := if SwitchesMode(params, true) then true
                                else if SwitchesMode(params, false) then false else tally.otherKeys), [])
  {
    OneNoted(tally, GREATER, params, LOWER_M);
    Regrouped(GREATER, params, LOWER_M);
    ModeIs(params, true);
    ModeIs(params, false);
  }

  lemma ModeExamples(value: seq<byte>)
    requires 0x3b !in value
    ensures SwitchesMode(Ascii("4;") + value, value == Ascii("2"))
    ensures SwitchesMode(Ascii("4"), false) && SwitchesMode([], false)
  {
    var params := Ascii("4;") + value;
    assert params == Ascii("4;") + value + [];
    assert ValueOfFour(params, value, []);
  }

  /** Every other sequence changes nothing. */
  lemma OthersIgnored(tally: Tally, lead: byte, params: seq<byte>, final: byte)
    requires PlainParams([lead] + params) && |params| <= 28 && 0x40 <= final <= 0x7e
    requires !(lead == '>' as int && (final == 'u' as int || final == 'm' as int))
    requires !(lead == '<' as int && final == 'u' as int)
    ensures Observed(State(tally, []), [0x1b, 0x5b] + ([lead] + params) + [final]) == State(tally, [])
  {
    OneNoted(tally, lead, params, final);
  }

  lemma BareIgnored(tally: Tally, final: byte)
    requires 0x40 <= final <= 0x7e
    ensures Observed(State(tally, []), [0x1b, 0x5b, final]) == State(tally, [])
  {
    var s := [ESC, LBRACKET] + [] + [final];
    OneSequence([], final);
    ScanRefines(s);
    OneEvent([] + [final], tally);
    assert s == [0x1b, 0x5b, final];
  }

  /** A sequence of more than 32 bytes is passed over. */
  lemma LongIgnored(tally: Tally, params: seq<byte>, final: byte)
    requires PlainParams(params) && |params| >= 30 && 0x40 <= final <= 0x7e
    ensures Observed(State(tally, []), [0x1b, 0x5b] + params + [final]).tally == tally
  {
    var s, j := [ESC, LBRACKET] + params + [final], 2 + |params|;
    assert forall k | 2 <= k < j :: s[k] == params[k - 2];
    StopAtIs(s, 2, j);
    SequenceRead(s, j);
    assert s[j + 1..] == [];
    ScanRefines(s);
  }

  // ---------------------------------------------------------------- the bytes of the clean-up

  function Esc(text: string): seq<byte> {
    [0x1b] + Ascii(text)
  }

  /** What is written on attach, for the pops owed, and for the mode. */
  lemma AttachAndPopText(n: int)
    ensures PUSH_EMPTY == Esc("[>u") && OTHER_KEYS_OFF == Esc("[>4;0m")
    ensures PopBytes(n) == if n <= 0 then [] else if n == 1 then Esc("[<u") else Esc("[<") + Decimal(n) + Ascii("u")
  {
    assert Esc("[>u") == [0x1b, 0x5b, 0x3e, 0x75];
    assert Esc("[>4;0m") == [0x1b, 0x5b, 0x3e, 0x34, 0x3b, 0x30, 0x6d];
    assert Esc("[<u") == [0x1b, 0x5b, 0x3c, 0x75];
    assert Esc("[<") == [0x1b, 0x5b, 0x3c] && Ascii("u") == [0x75];
  }

  /** Attach, one push with any flags, clean up: two pops. */
  lemma PushPoppedOff(params: seq<byte>, resets: seq<Reset>)
    requires PlainParams(params) && |params| <= 28
    ensures CleanupBytes(Observed(Attached(FRESH), [0x1b, 0x5b, 0x3e] + params + [0x75]).tally, resets) ==
      Esc("[<2u") + AllResets(resets)
  {
    AttachedOnce();
    PushNoted(Tally(1, false), params);
    AttachAndPopText(2);
    assert Decimal(2) == [0x32] && Esc("[<") + [0x32] + Ascii("u") == Esc("[<2u");
    assert Esc("[<2u") + [] == Esc("[<2u");
  }

  // ---------------------------------------------------------------- the catalogue of resets

  const PROGRESS_TEXT: seq<string> := ["\U{1b}]", "9;4;0;\U{07}"]

  const MOUSE_TEXT: seq<string> := [
    "\U{1b}[?9l", "\U{1b}[?1000l", "\U{1b}[?1002l", "\U{1b}[?1003l",
    "\U{1b}[?1005l", "\U{1b}[?1006l", "\U{1b}[?1015l", "\U{1b}[?1016l"]

  const KEYBOARD_TEXT: seq<string> := [
    "\U{1b}[?1l", "\U{1b}[?66l", "\U{1b}>", "\U{1b}[?67l", "\U{1b}[?1004l", "\U{1b}[?2004l",
    "\U{1b}[?1039l", "\U{1b}[2l", "\U{1b}[4l", "\U{1b}[20l"]

  const DISPLAY_TEXT: seq<string> := [
    "\U{1b}[?5l", "\U{1b}[?6l", "\U{1b}[?7h", "\U{1b}[?4l", "\U{1b}[?45l", "\U{1b}[?1045l",
    "\U{1b}[?3l", "\U{1b}[?2026l", "\U{1b}[?2027l", "\U{1b}[?2031l", "\U{1b}[?2048l"]

  const LAYOUT_TEXT: seq<string> := [
    "\U{1b}[?69l", "\U{1b}[r", "\U{1b}[0 q", "\U{0f}", "\U{1b}(", "B"]

  const SCREEN_TEXT: seq<string> := [
    "\U{1b}[?47l", "\U{1b}[?1047l", "\U{1b}[?1049l", "\U{1b}[0m", "\U{1b}[?25h", "\U{1b}[H", "\U{1b}[2J"]

  /** These resets are these texts, one by one. */
  ghost predicate SpelledOut(rs: seq<Reset>, texts: seq<string>) {
    |rs| == |texts| && SpelledFrom(rs, texts, 0, |rs|)
  }

  ghost predicate SpelledFrom(rs: seq<Reset>, texts: seq<string>, from: nat, to: nat)
    requires to <= |rs| == |texts|
  {
    forall i | from <= i < to :: ResetBytes(rs[i]) == Ascii(texts[i])
  }

  lemma ModeWritten(n: nat, on: bool, digits: string, text: string)
    requires Decimal(n) == Ascii(digits) && text == "\U{1b}[?" + digits + if on then "h" else "l"
    ensures ResetBytes(Mode(n, on)) == Ascii(text)
  {
    var s := ResetBytes(Mode(n, on));
    var d := |digits|;
    assert |s| == 4 + d == |text|;
    assert forall i | 3 <= i < 3 + d :: s[i] == Decimal(n)[i - 3] == Ascii(digits)[i - 3] && text[i] == digits[i - 3];
  }

  lemma DigitsWritten(n: nat)
    requires n < 10_000
    ensures n < 10 ==> Decimal(n) == [0x30 + n]
    ensures 10 <= n < 100 ==> Decimal(n) == [0x30 + n / 10, 0x30 + n % 10]
    ensures 1000 <= n ==> Decimal(n) == [0x30 + n / 1000, 0x30 + n / 100 % 10, 0x30 + n / 10 % 10, 0x30 + n % 10]
  {
    if n >= 1000 {
      assert Decimal(n) == Decimal(n / 10) + [0x30 + n % 10];
      assert Decimal(n / 10) == Decimal(n / 100) + [0x30 + n / 10 % 10];
      assert Decimal(n / 100) == Decimal(n / 1000) + [0x30 + n / 100 % 10];
    }
  }

  lemma ModeText(n: nat, on: bool, digits: string, text: string)
    requires n < 10_000 && (n < 100 || n >= 1000) && text == "\U{1b}[?" + digits + if on then "h" else "l"
    requires Ascii(digits) ==
      if n < 10 then [0x30 + n]
      else if n < 100 then [0x30 + n / 10, 0x30 + n % 10]
      else [0x30 + n / 1000, 0x30 + n / 100 % 10, 0x30 + n / 10 % 10, 0x30 + n % 10]
    ensures ResetBytes(Mode(n, on)) == Ascii(text)
  {
    DigitsWritten(n);
    ModeWritten(n, on, digits, text);
  }

  lemma ProgressText()
    ensures SpelledOut(PROGRESS_CLEAR, PROGRESS_TEXT)
  {
    assert ResetBytes(PROGRESS_CLEAR[0]) == Ascii(PROGRESS_TEXT[0]);
    assert ResetBytes(PROGRESS_CLEAR[1]) == Ascii(PROGRESS_TEXT[1]);
  }

  lemma MouseText1()
    ensures SpelledFrom(MOUSE, MOUSE_TEXT, 0, 3)
  {
    ModeText(9, false, "9", MOUSE_TEXT[0]);
    ModeText(1000, false, "1000", MOUSE_TEXT[1]);
    ModeText(1002, false, "1002", MOUSE_TEXT[2]);
  }

  lemma MouseText2()
    ensures SpelledFrom(MOUSE, MOUSE_TEXT, 3, 6)
  {
    ModeText(1003, false, "1003", MOUSE_TEXT[3]);
    ModeText(1005, false, "1005", MOUSE_TEXT[4]);
    ModeText(1006, false, "1006", MOUSE_TEXT[5]);
  }

  lemma MouseText3()
    ensures SpelledFrom(MOUSE, MOUSE_TEXT, 6, 8)
  {
    ModeText(1015, false, "1015", MOUSE_TEXT[6]);
    ModeText(1016, false, "1016", MOUSE_TEXT[7]);
  }

  lemma MouseText()
    ensures SpelledOut(MOUSE, MOUSE_TEXT)
  {
    MouseText1();
    MouseText2();
    MouseText3();
  }

  lemma KeyboardText1()
    ensures SpelledFrom(KEYBOARD, KEYBOARD_TEXT, 0, 3)
  {
    ModeText(1, false, "1", KEYBOARD_TEXT[0]);
    ModeText(66, false, "66", KEYBOARD_TEXT[1]);
    assert ResetBytes(KEYBOARD[2]) == Ascii(KEYBOARD_TEXT[2]);
  }

  lemma KeyboardText2()
    ensures SpelledFrom(KEYBOARD, KEYBOARD_TEXT, 3, 6)
  {
    ModeText(67, false, "67", KEYBOARD_TEXT[3]);
    ModeText(1004, false, "1004", KEYBOARD_TEXT[4]);
    ModeText(2004, false, "2004", KEYBOARD_TEXT[5]);
  }

  lemma KeyboardText3()
    ensures SpelledFrom(KEYBOARD, KEYBOARD_TEXT, 6, 9)
  {
    ModeText(1039, false, "1039", KEYBOARD_TEXT[6]);
    assert ResetBytes(KEYBOARD[7]) == Ascii(KEYBOARD_TEXT[7]);
    assert ResetBytes(KEYBOARD[8]) == Ascii(KEYBOARD_TEXT[8]);
  }

  lemma KeyboardText4()
    ensures SpelledFrom(KEYBOARD, KEYBOARD_TEXT, 9, 10)
  {
    assert ResetBytes(KEYBOARD[9]) == Ascii(KEYBOARD_TEXT[9]);
  }

  lemma KeyboardText()
    ensures SpelledOut(KEYBOARD, KEYBOARD_TEXT)
  {
    KeyboardText1();
    KeyboardText2();
    KeyboardText3();
    KeyboardText4();
  }

  lemma DisplayText1()
    ensures SpelledFrom(DISPLAY, DISPLAY_TEXT, 0, 3)
  {
    ModeText(5, false, "5", DISPLAY_TEXT[0]);
    ModeText(6, false, "6", DISPLAY_TEXT[1]);
    ModeText(7, true, "7", DISPLAY_TEXT[2]);
  }

  lemma DisplayText2()
    ensures SpelledFrom(DISPLAY, DISPLAY_TEXT, 3, 6)
  {
    ModeText(4, false, "4", DISPLAY_TEXT[3]);
    ModeText(45, false, "45", DISPLAY_TEXT[4]);
    ModeText(1045, false, "1045", DISPLAY_TEXT[5]);
  }

  lemma DisplayText3()
    ensures SpelledFrom(DISPLAY, DISPLAY_TEXT, 6, 9)
  {
    ModeText(3, false, "3", DISPLAY_TEXT[6]);
    ModeText(2026, false, "2026", DISPLAY_TEXT[7]);
    ModeText(2027, false, "2027", DISPLAY_TEXT[8]);
  }

  lemma DisplayText4()
    ensures SpelledFrom(DISPLAY, DISPLAY_TEXT, 9, 11)
  {
    ModeText(2031, false, "2031", DISPLAY_TEXT[9]);
    ModeText(2048, false, "2048", DISPLAY_TEXT[10]);
  }

  lemma DisplayText()
    ensures SpelledOut(DISPLAY, DISPLAY_TEXT)
  {
    DisplayText1();
    DisplayText2();
    DisplayText3();
    DisplayText4();
  }

  lemma LayoutText()
    ensures SpelledOut(LAYOUT, LAYOUT_TEXT)
  {
    ModeText(69, false, "69", LAYOUT_TEXT[0]);
    assert ResetBytes(LAYOUT[1]) == Ascii(LAYOUT_TEXT[1]);
    assert ResetBytes(LAYOUT[2]) == Ascii(LAYOUT_TEXT[2]);
    assert ResetBytes(LAYOUT[3]) == Ascii(LAYOUT_TEXT[3]);
    assert ResetBytes(LAYOUT[4]) == Ascii(LAYOUT_TEXT[4]);
    assert ResetBytes(LAYOUT[5]) == Ascii(LAYOUT_TEXT[5]);
  }

  lemma ScreenText1()
    ensures SpelledFrom(SCREEN, SCREEN_TEXT, 0, 3)
  {
    ModeText(47, false, "47", SCREEN_TEXT[0]);
    ModeText(1047, false, "1047", SCREEN_TEXT[1]);
    ModeText(1049, false, "1049", SCREEN_TEXT[2]);
  }

  lemma ScreenText2()
    ensures SpelledFrom(SCREEN, SCREEN_TEXT, 3, 6)
  {
    assert ResetBytes(SCREEN[3]) == Ascii(SCREEN_TEXT[3]);
    ModeText(25, true, "25", SCREEN_TEXT[4]);
    assert ResetBytes(SCREEN[5]) == Ascii(SCREEN_TEXT[5]);
  }

  lemma ScreenText3()
    ensures SpelledFrom(SCREEN, SCREEN_TEXT, 6, 7)
  {
    assert ResetBytes(SCREEN[6]) == Ascii(SCREEN_TEXT[6]);
  }

  lemma ScreenText()
    ensures SpelledOut(SCREEN, SCREEN_TEXT)
  {
    ScreenText1();
    ScreenText2();
    ScreenText3();
  }

  /** The texts one after the other. */
  function AllTexts(texts: seq<string>): seq<byte> {
    if texts == [] then [] else AllTexts(Front(texts)) + Ascii(Last(texts))
  }

  lemma {:induction false} SpelledResets(rs: seq<Reset>, texts: seq<string>)
    requires SpelledOut(rs, texts)
    ensures AllResets(rs) == AllTexts(texts)
  {
    if rs != [] {
      SpelledResets(Front(rs), Front(texts));
    }
  }

  lemma SpelledAppend(a: seq<Reset>, ta: seq<string>, b: seq<Reset>, tb: seq<string>)
    requires SpelledOut(a, ta) && SpelledOut(b, tb)
    ensures SpelledOut(a + b, ta + tb)
  {
  }

  const CATALOGUE: seq<string> :=
    PROGRESS_TEXT + MOUSE_TEXT + KEYBOARD_TEXT + DISPLAY_TEXT + LAYOUT_TEXT + SCREEN_TEXT

  /** After the pops and the mode, clean-up writes exactly the texts of the catalogue, in order. */
  lemma ResetsAreCatalogue()
    ensures AllResets(RESETS) == AllTexts(CATALOGUE)
  {
    ProgressText();
    MouseText();
    KeyboardText();
    DisplayText();
    LayoutText();
    ScreenText();
    SpelledAppend(PROGRESS_CLEAR, PROGRESS_TEXT, MOUSE, MOUSE_TEXT);
    SpelledAppend(PROGRESS_CLEAR + MOUSE, PROGRESS_TEXT + MOUSE_TEXT, KEYBOARD, KEYBOARD_TEXT);
    SpelledAppend(PROGRESS_CLEAR + MOUSE + KEYBOARD, PROGRESS_TEXT + MOUSE_TEXT + KEYBOARD_TEXT, DISPLAY, DISPLAY_TEXT);
    SpelledAppend(PROGRESS_CLEAR + MOUSE + KEYBOARD + DISPLAY,
                  PROGRESS_TEXT + MOUSE_TEXT + KEYBOARD_TEXT + DISPLAY_TEXT, LAYOUT, LAYOUT_TEXT);
    SpelledAppend(PROGRESS_CLEAR + MOUSE + KEYBOARD + DISPLAY + LAYOUT,
                  PROGRESS_TEXT + MOUSE_TEXT + KEYBOARD_TEXT + DISPLAY_TEXT + LAYOUT_TEXT, SCREEN, SCREEN_TEXT);
    SpelledResets(RESETS, CATALOGUE);
  }
}
