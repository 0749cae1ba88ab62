/** The detach chord told from bytes and written reports: which keys are a prefix press, what each follow-up does,
    which text names which prefix, and how input splits into keys. */
module ChordTable {
  import opened Bytes
  import opened KeyEvents
  import opened ChordFsm

  // ---------------------------------------------------------------- what a report says

  /** One of its two code points. */
  predicate Names(w: Written, code: u64) {
    w.cp == code || w.altCp == Some(code)
  }

  /** Its modifier is 1 plus a mask that holds 4. */
  ghost predicate HoldsCtrl(w: Written) {
    w.mods.Some? && exists high: nat, low: nat :: low < 4 && MaskIs(w.mods.value.mod, high, low)
  }

  predicate MaskIs(mod: u64, high: nat, low: nat) {
    mod == 1 + (8 * high + 4 + low)
  }

  function EventOf(w: Written): u64 {
    if w.mods.Some? && w.mods.value.event.Some? then w.mods.value.event.value else 0
  }

  /** No event, or event 1. */
  predicate Pressed(w: Written) {
    EventOf(w) == 0 || EventOf(w) == 1
  }

  lemma MaskMeans(mod: u64, high: nat, low: nat)
    requires low < 4 && MaskIs(mod, high, low)
    ensures HasCtrl(mod)
  {
    assert (mod - 1) / 4 == 2 * high + 1;
  }

  lemma MaskHolds(mod: u64)
    requires HasCtrl(mod)
    ensures MaskIs(mod, (mod - 1) / 8, (mod - 1) % 4)
  {
    var mask: nat := mod - 1;
    assert mask == 4 * (mask / 4) + mask % 4 && mask / 4 == 2 * (mask / 8) + 1;
  }

  lemma CtrlIs(w: Written)
    ensures HasCtrl(ReportKey(w).mod) <==> HoldsCtrl(w)
  {
    if w.mods.Some? {
      var mod := w.mods.value.mod;
      if HasCtrl(mod) {
        MaskHolds(mod);
      }
      if high: nat, low: nat :| low < 4 && MaskIs(mod, high, low) {
        MaskMeans(mod, high, low);
      }
    }
  }

  lemma NamesIs(w: Written, code: u64)
    requires code != 0
    ensures (ReportKey(w).cp == code || (ReportKey(w).altCp != 0 && ReportKey(w).altCp == code)) <==> Names(w, code)
  {
  }

  // ---------------------------------------------------------------- the prefix

  /** Ctrl with this key gives this control byte: letters in either case; \ ] ^ _ and, for the last two, the
      unshifted '6' and '-'; '@', '2' and space for zero. */
  predicate NamesPrefix(prefix: byte, code: u64) {
    || (0x01 <= prefix <= 0x1a && (code == 0x40 + prefix || code == 0x60 + prefix))
    || (0x1c <= prefix <= 0x1f && code == 0x40 + prefix)
    || (prefix == 0x1e && code == '6' as int) || (prefix == 0x1f && code == '-' as int)
    || (prefix == 0x00 && (code == '@' as int || code == '2' as int || code == ' ' as int))
  }

  lemma PrefixIs(prefix: byte, code: u64)
    ensures code in PrefixCodepoints(prefix) <==> NamesPrefix(prefix, code)
    ensures NamesPrefix(prefix, code) ==> code != 0
  {
  }

  ghost predicate PrefixPress(prefix: byte, w: Written) {
    Pressed(w) && HoldsCtrl(w) && exists code :: NamesPrefix(prefix, code) && Names(w, code)
  }

  lemma PrefixKeyIs(prefix: byte, w: Written)
    ensures IsPrefixKey(prefix, ReportKey(w)) <==> PrefixPress(prefix, w)
  {
    var ev := ReportKey(w);
    CtrlIs(w);
    PrefixIs(prefix, ev.cp);
    PrefixIs(prefix, ev.altCp);
    if Reports(ev, PrefixCodepoints(prefix)) {
      var code := if ev.cp in PrefixCodepoints(prefix) then ev.cp else ev.altCp;
      assert NamesPrefix(prefix, code) && Names(w, code);
    }
    if code :| NamesPrefix(prefix, code) && Names(w, code) {
      PrefixIs(prefix, code);
    }
  }

  /** For every prefix and every printed report, whatever follows: it is swallowed as a prefix press if and only
      if it is pressed with ctrl and names a key that ctrl turns into the prefix; otherwise it is forwarded. */
  lemma {:induction false} ReportPrefixIff(prefix: byte, w: Written, rest: seq<byte>)
    ensures Fsm(prefix, false, Keys(Report(w) + rest)) ==
      if PrefixPress(prefix, w) then Fsm(prefix, true, Keys(rest))
      else [Forward(Report(w))] + Fsm(prefix, false, Keys(rest))
  {
    ReportRoundTrip(w, rest);
    KeyThen(Report(w), rest, ReportKey(w));
    PrefixKeyIs(prefix, w);
    FirstKey(prefix, ReportKey(w), Keys(rest));
  }

  lemma {:induction false} FirstKey(prefix: byte, k: KeyEvent, ks: seq<KeyEvent>)
    ensures Fsm(prefix, false, [k] + ks) ==
      if IsPrefixKey(prefix, k) then Fsm(prefix, true, ks) else [Forward(k.raw)] + Fsm(prefix, false, ks)
  {
    assert ([k] + ks)[1..] == ks && [] + Fsm(prefix, true, ks) == Fsm(prefix, true, ks);
  }

  /** A byte other than ESC is the prefix press if it is the prefix, and forwarded otherwise. */
  lemma {:induction false} BytePrefixIff(prefix: byte, b: byte, rest: seq<byte>)
    requires b != 0x1b
    ensures Fsm(prefix, false, Keys([b] + rest)) ==
      if b == prefix then Fsm(prefix, true, Keys(rest)) else [Forward([b])] + Fsm(prefix, false, Keys(rest))
  {
    KeysCons(b, rest);
    FirstKey(prefix, Plain([b]), Keys(rest));
  }

  // ---------------------------------------------------------------- the follow-up

  /** What a chord does, and that the machine then types again, except after a detach. */
  function Then(prefix: byte, chord: Chord, ks: seq<KeyEvent>): seq<Act> {
    match chord
    case DetachChord => [Detach]
    case LiteralChord => [Literal] + Fsm(prefix, false, ks)
    case SuspendChord => [Suspend] + Fsm(prefix, false, ks)
    case CloneChord => [Clone] + Fsm(prefix, false, ks)
    case NoChord => Fsm(prefix, false, ks)
  }

  lemma {:induction false} FollowKey(prefix: byte, k: KeyEvent, ks: seq<KeyEvent>)
    ensures Fsm(prefix, true, [k] + ks) ==
      if IsRepeatOrRelease(k) then Fsm(prefix, true, ks) else Then(prefix, MatchChord(k), ks)
  {
    assert ([k] + ks)[1..] == ks;
    assert [] + Fsm(prefix, true, ks) == Fsm(prefix, true, ks) && [] + Fsm(prefix, false, ks) == Fsm(prefix, false, ks);
  }

  /** After the prefix: '.' detaches and ends it, '^' sends the prefix, Ctrl-Z suspends, 'c' clones, and any other
      byte but ESC is swallowed. */
  lemma {:induction false} ByteFollowUp(prefix: byte, b: byte, rest: seq<byte>)
    requires b != 0x1b
    ensures var more := Fsm(prefix, false, Keys(rest));
      Fsm(prefix, true, Keys([b] + rest)) ==
      if b == '.' as int then [Detach]
      else if b == '^' as int then [Literal] + more
      else if b == 0x1a then [Suspend] + more
      else if b == 'c' as int then [Clone] + more
      else more
  {
    KeysCons(b, rest);
    FollowKey(prefix, Plain([b]), Keys(rest));
  }

  /** A sequence that is no report is swallowed after the prefix, and forwarded before it. */
  lemma {:induction false} SequenceSwallowed(prefix: byte, raw: seq<byte>, ks: seq<KeyEvent>)
    requires |raw| != 1
    ensures Fsm(prefix, true, [Plain(raw)] + ks) == Fsm(prefix, false, ks)
    ensures Fsm(prefix, false, [Plain(raw)] + ks) == [Forward(raw)] + Fsm(prefix, false, ks)
  {
    FollowKey(prefix, Plain(raw), ks);
    FirstKey(prefix, Plain(raw), ks);
  }

  /** The chord of a report: '.' without ctrl, '^' or '6' with, 'z' or 'Z' with, 'c' or 'C' without, in this
      order. */
  ghost predicate DetachReport(w: Written) {
    Names(w, '.' as int) && !HoldsCtrl(w)
  }

  ghost predicate LiteralReport(w: Written) {
    (Names(w, '^' as int) || Names(w, '6' as int)) && HoldsCtrl(w)
  }

  ghost predicate SuspendReport(w: Written) {
    (Names(w, 'z' as int) || Names(w, 'Z' as int)) && HoldsCtrl(w)
  }

  ghost predicate CloneReport(w: Written) {
    (Names(w, 'c' as int) || Names(w, 'C' as int)) && !HoldsCtrl(w)
  }

  lemma ChordIs(w: Written)
    requires Pressed(w)
    ensures MatchChord(ReportKey(w)) ==
      if DetachReport(w) then DetachChord
      else if LiteralReport(w) then LiteralChord
      else if SuspendReport(w) then SuspendChord
      else if CloneReport(w) then CloneChord
      else NoChord
  {
    CtrlIs(w);
    NamesIs(w, '.' as int);
    NamesIs(w, '^' as int);
    NamesIs(w, '6' as int);
    NamesIs(w, 'z' as int);
    NamesIs(w, 'Z' as int);
    NamesIs(w, 'c' as int);
    NamesIs(w, 'C' as int);
  }

  /** What a report leads to after the prefix when `more` is what typing leads to and `same` what staying does. */
  ghost function FollowedBy(w: Written, same: seq<Act>, more: seq<Act>): seq<Act> {
    if EventOf(w) == 2 || EventOf(w) == 3 then same
    else if !Pressed(w) then more
    else if DetachReport(w) then [Detach]
    else if LiteralReport(w) then [Literal] + more
    else if SuspendReport(w) then [Suspend] + more
    else if CloneReport(w) then [Clone] + more
    else more
  }

  lemma {:induction false} FollowReport(prefix: byte, w: Written, ks: seq<KeyEvent>)
    ensures Fsm(prefix, true, [ReportKey(w)] + ks) == FollowedBy(w, Fsm(prefix, true, ks), Fsm(prefix, false, ks))
  {
    FollowKey(prefix, ReportKey(w), ks);
    if Pressed(w) {
      ChordIs(w);
    }
  }

  /** After the prefix, for every printed report: a repeat or release changes nothing; a press does what its
      chord does, or is swallowed; any other event is swallowed. */
  lemma {:induction false} ReportFollowUp(prefix: byte, w: Written, rest: seq<byte>)
    ensures Fsm(prefix, true, Keys(Report(w) + rest)) ==
      FollowedBy(w, Fsm(prefix, true, Keys(rest)), Fsm(prefix, false, Keys(rest)))
  {
    ReportRoundTrip(w, rest);
    KeyThen(Report(w), rest, ReportKey(w));
    FollowReport(prefix, w, Keys(rest));
  }

  // ---------------------------------------------------------------- naming a prefix

  /** "C-x", "c-x" and "^x" name the control byte of x: x with its upper bits cleared for '@' to '_' except '[',
      and for 'a' to 'z'; DEL for '?'; nothing for any other x. */
  lemma ControlSpec(x: byte)
    ensures var named :=
        if 0x40 <= x <= 0x5f && x != 0x5b then Some(x - 0x40)
        else if 0x61 <= x <= 0x7a then Some(x - 0x60)
        else if x == 0x3f then Some(0x7f)
        else None;
      && ParsePrefixKey(Ascii("C-") + [x]) == named && ParsePrefixKey(Ascii("c-") + [x]) == named
      && ParsePrefixKey(Ascii("^") + [x]) == named
  {
    assert Ascii("C-") == [0x43, 0x2d] && Ascii("c-") == [0x63, 0x2d] && Ascii("^") == [0x5e];
  }

  /** One byte names itself unless it is printable; the empty text names nothing. */
  lemma ByteSpec(b: byte)
    ensures ParsePrefixKey([b]) == if 0x20 <= b < 0x7f then None else Some(b)
    ensures ParsePrefixKey([]) == None
  {
  }

  /** A hexadecimal digit and its value. */
  predicate HexIs(digit: byte, n: nat) {
    (n < 10 && digit == 0x30 + n) || (10 <= n < 16 && (digit == 0x61 + (n - 10) || digit == 0x41 + (n - 10)))
  }

  lemma HexDigitIs(digit: byte, n: nat)
    requires HexIs(digit, n)
    ensures IsHexDigit(digit) && HexDigit(digit) == n
  {
  }

  lemma {:induction false} TwoHexDigits(zeros: nat, high: byte, low: byte, h: nat, l: nat)
    requires HexIs(high, h) && HexIs(low, l)
    ensures var s := seq(zeros, i => 0x30) + [high, low];
      (forall i | 0 <= i < |s| :: IsHexDigit(s[i])) && HexValue(s) == 16 * h + l
  {
    var z := seq(zeros, i => 0x30);
    var s := z + [high, low];
    HexDigitIs(high, h);
    HexDigitIs(low, l);
    ZerosAreZero(zeros);
    assert Front(s) == z + [high] && Last(s) == low;
    assert Front(z + [high]) == z && Last(z + [high]) == high;
    assert forall i | 0 <= i < |z + [high]| :: IsHexDigit((z + [high])[i]);
  }

  lemma {:induction false} ZerosAreZero(zeros: nat)
    ensures var z: seq<byte> := seq(zeros, i => 0x30); (forall i | 0 <= i < |z| :: IsHexDigit(z[i])) && HexValue(z) == 0
  {
    if zeros > 0 {
      var z: seq<byte> := seq(zeros, i => 0x30);
      assert Front(z) == seq(zeros - 1, i => 0x30) && Last(z) == 0x30;
      ZerosAreZero(zeros - 1);
    }
  }

  /** "0x" or "0X" and the two digits of a byte in either case, after any zeros, name that byte unless it is
      printable. */
  lemma {:induction false} HexSpec(marker: byte, zeros: nat, high: byte, low: byte, h: nat, l: nat)
    requires (marker == 'x' as int || marker == 'X' as int) && HexIs(high, h) && HexIs(low, l)
    ensures var b: byte := 16 * h + l;
      ParsePrefixKey([0x30, marker] + (seq(zeros, i => 0x30) + [high, low])) ==
      if 0x20 <= b < 0x7f then None else Some(b)
  {
    var digits := seq(zeros, i => 0x30) + [high, low];
    var spec := [0x30, marker] + digits;
    TwoHexDigits(zeros, high, low, h, l);
    assert spec[2..] == digits;
  }

  /** The digit of no value. */
  ghost predicate NoHex(digit: byte) {
    forall n: nat :: !HexIs(digit, n)
  }

  lemma NoHexDigit(digit: byte)
    ensures NoHex(digit) <==> !IsHexDigit(digit)
  {
    if IsHexDigit(digit) {
      assert HexIs(digit, HexDigit(digit));
    }
  }

  /** "0x" or "0X" with no digit, with a byte that is no hexadecimal digit, or with a number above 255 names
      nothing. */
  lemma BadHexSpec(marker: byte, digits: seq<byte>)
    requires marker == 'x' as int || marker == 'X' as int
    requires (forall i | 0 <= i < |digits| :: IsHexDigit(digits[i])) ==> digits == [] || HexValue(digits) > 255
    ensures ParsePrefixKey([0x30, marker] + digits) == None
    ensures (forall i | 0 <= i < |digits| :: IsHexDigit(digits[i])) <==> forall i | 0 <= i < |digits| :: !NoHex(digits[i])
  {
    assert ([0x30, marker] + digits)[2..] == digits;
    forall i | 0 <= i < |digits| ensures NoHex(digits[i]) <==> !IsHexDigit(digits[i]) {
      NoHexDigit(digits[i]);
    }
  }

  /** Any other text of two bytes or more names nothing. */
  lemma OtherSpec(spec: seq<byte>)
    requires |spec| >= 2
    requires !(|spec| == 3 && (spec[0] == 'C' as int || spec[0] == 'c' as int) && spec[1] == '-' as int)
    requires !(|spec| == 2 && spec[0] == '^' as int)
    requires !(spec[0] == '0' as int && (spec[1] == 'x' as int || spec[1] == 'X' as int))
    ensures ParsePrefixKey(spec) == None
  {
  }

  // ---------------------------------------------------------------- how input splits into keys

  /** ESC and a byte other than '[' are one key; a lone ESC at the end is one. */
  lemma EscapeKey(x: byte, rest: seq<byte>)
    requires x != 0x5b
    ensures NextKey([0x1b, x] + rest) == Plain([0x1b, x]) && NextKey([0x1b]) == Plain([0x1b])
  {
    var s := [0x1b, x] + rest;
    assert s[0] == 0x1b && s[1] == x && s[..2] == [0x1b, x];
  }

  /** A control sequence up to its first final byte is one key, and no report unless it ends in 'u'. */
  lemma SequenceKey(params: seq<byte>, final: byte, rest: seq<byte>)
    requires 0x40 <= final <= 0x7e && forall i | 0 <= i < |params| :: !(0x40 <= params[i] <= 0x7e)
    ensures var raw, k := [0x1b, 0x5b] + params + [final], NextKey([0x1b, 0x5b] + params + [final] + rest);
      k.raw == raw && (k.csiU <==> final == 'u' as int) && (final != 'u' as int ==> k == Plain(raw))
  {
    var s, j := [0x1b, 0x5b] + params + [final] + rest, 2 + |params|;
    assert s[0] == 0x1b && s[1] == 0x5b && s[j] == final;
    assert forall k | 2 <= k < j :: s[k] == params[k - 2];
    FinalAtIs(s, 2, j);
    assert s[..j + 1] == [0x1b, 0x5b] + params + [final];
  }

  /** A control sequence cut off by the end of the input is one key. */
  lemma UnfinishedKey(params: seq<byte>)
    requires forall i | 0 <= i < |params| :: !(0x40 <= params[i] <= 0x7e)
    ensures NextKey([0x1b, 0x5b] + params) == Plain([0x1b, 0x5b] + params)
  {
    var s := [0x1b, 0x5b] + params;
    assert forall k | 2 <= k < |s| :: s[k] == params[k - 2];
    NoFinal(s, 2);
  }

  lemma {:induction false} NoFinal(s: seq<byte>, i: nat)
    requires i <= |s| && forall k | i <= k < |s| :: !IsFinal(s[k])
    ensures FinalAt(s, i) == None
    decreases |s| - i
  {
    if i < |s| {
      NoFinal(s, i + 1);
    }
  }

  /** Any number is read modulo 2^64; anything with a byte that is no digit, and nothing at all, is 0. */
  lemma NumbersRead(n: nat, junk: seq<byte>)
    ensures ParseUint(Decimal(n)) == n % 0x1_0000_0000_0000_0000 && ParseUint([]) == 0
    ensures (exists i :: 0 <= i < |junk| && !(0x30 <= junk[i] <= 0x39)) ==> ParseUint(junk) == 0
  {
    DecimalValue(n);
  }

  lemma ThreeGroups(first: seq<byte>, second: seq<byte>, text: seq<byte>, n: Numbers)
    requires ReadsPair(first, n.cp, n.altCp) && ReadsPair(second, n.mod, n.event)
    ensures ParseCsiU(first + [SEMICOLON] + (second + [SEMICOLON] + text)) == n
  {
    FieldThen(first, SEMICOLON, second + [SEMICOLON] + text);
    FieldThen(second, SEMICOLON, text);
  }

  lemma TextParams(w: Written, text: seq<byte>)
    requires w.mods.Some?
    ensures ParseCsiU(ReportParams(w) + [SEMICOLON] + text) == Meaning(w)
  {
    var first, second := Group(w.cp, w.altCp), Group(w.mods.value.mod, w.mods.value.event);
    PairRoundTrip(w.cp, w.altCp);
    PairRoundTrip(w.mods.value.mod, w.mods.value.event);
    ThreeGroups(first, second, text, Meaning(w));
    Regrouped(first, second, text);
  }

  lemma Regrouped(first: seq<byte>, second: seq<byte>, text: seq<byte>)
    ensures first + ([SEMICOLON] + second) + [SEMICOLON] + text == first + [SEMICOLON] + (second + [SEMICOLON] + text)
  {
  }

  lemma TextNotFinal(w: Written, text: seq<byte>)
    requires forall i | 0 <= i < |text| :: !IsFinal(text[i])
    ensures var params := ReportParams(w) + [SEMICOLON] + text; forall i | 0 <= i < |params| :: !IsFinal(params[i])
  {
    ParamsRoundTrip(w);
  }

  /** What follows the second ';' in a report does not matter. */
  lemma TextIgnored(w: Written, text: seq<byte>, rest: seq<byte>)
    requires w.mods.Some? && forall i | 0 <= i < |text| :: !(0x40 <= text[i] <= 0x7e)
    ensures var k, n := NextKey([0x1b, 0x5b] + (ReportParams(w) + [0x3b] + text) + [0x75] + rest), Meaning(w);
      k.csiU && k.cp == n.cp && k.altCp == n.altCp && k.mod == n.mod && k.event == n.event
  {
    TextParams(w, text);
    TextNotFinal(w, text);
    ReadReport(ReportParams(w) + [SEMICOLON] + text, rest);
  }
}
