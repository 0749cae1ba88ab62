/** The detach-chord state machine over key events, and the prefix keys it may be given. */
module ChordFsm {
  import opened Bytes
  import opened KeyEvents

  const CARET: byte := 0x5e

  // ---------------------------------------------------------------- classification

  /** Kitty encodes modifiers as 1 + bitmask; ctrl is bit 2. */
  predicate HasCtrl(mod: u64) {
    mod != 0 && (mod - 1) / 4 % 2 == 1
  }

  predicate IsPress(ev: KeyEvent) {
    !ev.csiU || ev.event == 0 || ev.event == 1
  }

  predicate IsRepeatOrRelease(ev: KeyEvent) {
    ev.csiU && (ev.event == 2 || ev.event == 3)
  }

  /** The code points that ctrl turns into the prefix byte. */
  function PrefixCodepoints(prefix: byte): set<nat> {
    if 0x01 <= prefix <= 0x1a then {0x60 + prefix, 0x40 + prefix}
    else if prefix == 0x00 then {0x40, 0x32, 0x20}
    else if prefix == 0x1c then {0x5c}
    else if prefix == 0x1d then {0x5d}
    else if prefix == 0x1e then {0x5e, 0x36}
    else if prefix == 0x1f then {0x5f, 0x2d}
    else {}
  }

  /** One of the two code points is wanted. */
  predicate Reports(ev: KeyEvent, wanted: set<nat>) {
    ev.cp in wanted || (ev.altCp != 0 && ev.altCp in wanted)
  }

  predicate IsPrefixKey(prefix: byte, ev: KeyEvent) {
    if !ev.csiU then ev.raw == [prefix]
    else IsPress(ev) && HasCtrl(ev.mod) && Reports(ev, PrefixCodepoints(prefix))
  }

  datatype Chord = NoChord | DetachChord | LiteralChord | SuspendChord | CloneChord

  function MatchChord(ev: KeyEvent): Chord {
    if !ev.csiU then
      if ev.raw == [0x2e] then DetachChord
      else if ev.raw == [CARET] then LiteralChord
      else if ev.raw == [0x1a] then SuspendChord
      else if ev.raw == [0x63] then CloneChord
      else NoChord
    else if !IsPress(ev) then NoChord
    else if Reports(ev, {46}) && !HasCtrl(ev.mod) then DetachChord
    else if Reports(ev, {94, 54}) && HasCtrl(ev.mod) then LiteralChord
    else if Reports(ev, {122, 90}) && HasCtrl(ev.mod) then SuspendChord
    else if Reports(ev, {99, 67}) && !HasCtrl(ev.mod) then CloneChord
    else NoChord
  }

  // ---------------------------------------------------------------- the machine

  datatype Act = Forward(bytes: seq<byte>) | Literal | Detach | Suspend | Clone

  /** What one key leads to: actions, whether the prefix is pending, and whether the machine stops. */
  datatype Reaction = Reaction(acts: seq<Act>, after: bool, stop: bool)

  function React(prefix: byte, after: bool, ev: KeyEvent): Reaction {
    if !after then
      if IsPrefixKey(prefix, ev) then Reaction([], true, false) else Reaction([Forward(ev.raw)], false, false)
    else if IsRepeatOrRelease(ev) then Reaction([], true, false)
    else
      match MatchChord(ev)
      case DetachChord => Reaction([Detach], false, true)
      case LiteralChord => Reaction([Literal], false, false)
      case SuspendChord => Reaction([Suspend], false, false)
      case CloneChord => Reaction([Clone], false, false)
      case NoChord => Reaction([], false, false)
  }

  /** The actions for a list of keys; `after` says that the prefix was just pressed. */
  function Fsm(prefix: byte, after: bool, ks: seq<KeyEvent>): seq<Act>
    decreases |ks|
  {
    if ks == [] then []
    else
      var r := React(prefix, after, ks[0]);
      if r.stop then r.acts else r.acts + Fsm(prefix, r.after, ks[1..])
  }

  /** The bytes that reach the session; the literal chord sends the prefix byte. */
  function Sent(prefix: byte, acts: seq<Act>): seq<byte> {
    if acts == [] then []
    else
      (match acts[0]
       case Forward(bytes) => bytes
       case Literal => [prefix]
       case _ => [])
      + Sent(prefix, acts[1..])
  }

  /** What typing `s` delivers. */
  function Typed(prefix: byte, s: seq<byte>): seq<byte> {
    Sent(prefix, Fsm(prefix, false, Keys(s)))
  }

  // ---------------------------------------------------------------- forwarding is exact

  ghost predicate NoPrefixPress(prefix: byte, ks: seq<KeyEvent>) {
    forall k | k in ks :: !IsPrefixKey(prefix, k)
  }

  lemma {:induction false} ForwardsAll(prefix: byte, ks: seq<KeyEvent>)
    requires NoPrefixPress(prefix, ks)
    ensures Sent(prefix, Fsm(prefix, false, ks)) == Raw(ks)
  {
    if ks != [] {
      assert ks[0] in ks;
      ForwardsAll(prefix, ks[1..]);
    }
  }

  lemma {:induction false} SentAppend(prefix: byte, a: seq<Act>, b: seq<Act>)
    ensures Sent(prefix, a + b) == Sent(prefix, a) + Sent(prefix, b)
  {
    if a == [] {
      assert a + b == b;
    } else {
      assert (a + b)[1..] == a[1..] + b;
      SentAppend(prefix, a[1..], b);
    }
  }

  lemma ReactShort(prefix: byte, after: bool, ev: KeyEvent)
    requires ev.raw != []
    ensures |Sent(prefix, React(prefix, after, ev).acts)| <= |ev.raw|
    ensures !after && IsPrefixKey(prefix, ev) ==> Sent(prefix, React(prefix, after, ev).acts) == []
  {
    var acts := React(prefix, after, ev).acts;
    assert acts == [] || acts[1..] == [];
  }

  /** Nothing is made up: never more bytes than were typed, and fewer once a prefix is pressed. */
  lemma {:induction false} NeverMore(prefix: byte, after: bool, ks: seq<KeyEvent>)
    requires forall k | k in ks :: k.raw != []
    ensures |Sent(prefix, Fsm(prefix, after, ks))| <= |Raw(ks)|
    ensures !after && !NoPrefixPress(prefix, ks) ==> |Sent(prefix, Fsm(prefix, after, ks))| < |Raw(ks)|
    decreases |ks|
  {
    if ks != [] {
      var ev, rest := ks[0], ks[1..];
      var r := React(prefix, after, ev);
      assert ev in ks;
      ReactShort(prefix, after, ev);
      NeverMore(prefix, r.after, rest);
      SentAppend(prefix, r.acts, Fsm(prefix, r.after, rest));
      if NoPrefixPress(prefix, rest) && !IsPrefixKey(prefix, ev) {
        assert NoPrefixPress(prefix, ks);
      }
    }
  }

  /** Input is forwarded unchanged if and only if the prefix is never pressed in it. */
  lemma UnchangedIffNoPrefix(prefix: byte, s: seq<byte>)
    ensures Typed(prefix, s) == s <==> NoPrefixPress(prefix, Keys(s))
  {
    KeysPartition(s);
    KeysNotEmpty(s);
    NeverMore(prefix, false, Keys(s));
    if NoPrefixPress(prefix, Keys(s)) {
      ForwardsAll(prefix, Keys(s));
    }
  }

  // ---------------------------------------------------------------- accepted prefixes

  predicate IsHexDigit(b: byte) {
    0x30 <= b <= 0x39 || 0x61 <= b <= 0x66 || 0x41 <= b <= 0x46
  }

  function HexDigit(b: byte): nat
    requires IsHexDigit(b)
  {
    if b <= 0x39 then b - 0x30 else if b >= 0x61 then b - 0x61 + 10 else b - 0x41 + 10
  }

  function HexValue(s: seq<byte>): nat
    requires forall i | 0 <= i < |s| :: IsHexDigit(s[i])
  {
    if s == [] then 0 else 16 * HexValue(Front(s)) + HexDigit(Last(s))
  }

  /** An unsigned hexadecimal number of at most 8 bits, leading zeros allowed. */
  function ParseHexByte(s: seq<byte>): Option<byte> {
    if s != [] && (forall i | 0 <= i < |s| :: IsHexDigit(s[i])) && HexValue(s) < 0x100 then Some(HexValue(s)) else None
  }

  predicate Printable(b: byte) {
    0x20 <= b < 0x7f
  }

  function ControlOf(letter: byte): Option<byte> {
    if 0x61 <= letter <= 0x7a then Some(letter - 0x60)
    else if 0x41 <= letter <= 0x5a then Some(letter - 0x40)
    else if letter == 0x5c then Some(0x1c)
    else if letter == 0x5d then Some(0x1d)
    else if letter == CARET then Some(0x1e)
    else if letter == 0x5f then Some(0x1f)
    else if letter == 0x40 then Some(0x00)
    else if letter == 0x3f then Some(0x7f)
    else None
  }

  /** "C-x", "^x", "0xNN", or one literal byte; printable bytes are rejected. */
  function ParsePrefixKey(spec: seq<byte>): Option<byte> {
    if |spec| == 3 && spec[0] in {0x43, 0x63} && spec[1] == 0x2d then ControlOf(spec[2])
    else if |spec| == 2 && spec[0] == CARET then ControlOf(spec[1])
    else if |spec| >= 2 && spec[0] == 0x30 && spec[1] in {0x78, 0x58} then
      match ParseHexByte(spec[2..])
      case Some(b) => if Printable(b) then None else Some(b)
      case None => None
    else if |spec| == 1 && !Printable(spec[0]) then Some(spec[0])
    else None
  }

  /** Exactly the bytes outside printable ASCII can be chosen as prefix. */
  lemma AcceptedIffNotPrintable(b: byte)
    ensures (exists spec :: ParsePrefixKey(spec) == Some(b)) <==> !Printable(b)
  {
    if !Printable(b) {
      assert ParsePrefixKey([b]) == Some(b);
    }
  }

  /** No accepted prefix swallows typing: printable ASCII is forwarded unchanged under every one. */
  lemma PrintableForwarded(spec: seq<byte>, s: seq<byte>)
    requires ParsePrefixKey(spec).Some? && forall i | 0 <= i < |s| :: Printable(s[i])
    ensures !Printable(ParsePrefixKey(spec).value) && Typed(ParsePrefixKey(spec).value, s) == s
  {
    var prefix := ParsePrefixKey(spec).value;
    SingleKeys(s);
    forall k | k in Keys(s) ensures !IsPrefixKey(prefix, k) {
      var i :| 0 <= i < |s| && k == Plain([s[i]]);
      assert s[i] != prefix;
    }
    UnchangedIffNoPrefix(prefix, s);
  }

  // ---------------------------------------------------------------- typing the prefix itself

  /** Send each prefix byte as prefix, '^'. */
  function Quote(prefix: byte, s: seq<byte>): seq<byte> {
    if s == [] then [] else (if s[0] == prefix then [prefix, CARET] else [s[0]]) + Quote(prefix, s[1..])
  }

  lemma KeysCons(b: byte, s: seq<byte>)
    requires b != ESC
    ensures Keys([b] + s) == [Plain([b])] + Keys(s)
  {
    assert ([b] + s)[..1] == [b] && ([b] + s)[1..] == s;
  }

  /** For any ESC-free string and any accepted prefix other than ESC, the quoted string delivers exactly it. */
  lemma {:induction false} QuoteDelivers(prefix: byte, s: seq<byte>)
    requires prefix != ESC && !Printable(prefix) && ESC !in s
    ensures Typed(prefix, Quote(prefix, s)) == s
  {
    if s != [] {
      var rest := Quote(prefix, s[1..]);
      QuoteDelivers(prefix, s[1..]);
      if s[0] == prefix {
        assert [prefix, CARET] + rest == [prefix] + ([CARET] + rest);
        KeysCons(prefix, [CARET] + rest);
        KeysCons(CARET, rest);
        ChordStep(prefix, Keys(rest));
      } else {
        KeysCons(s[0], rest);
        PlainStep(prefix, s[0], Keys(rest));
      }
    }
  }

  lemma ChordStep(prefix: byte, ks: seq<KeyEvent>)
    ensures Sent(prefix, Fsm(prefix, false, [Plain([prefix])] + ([Plain([CARET])] + ks))) ==
      [prefix] + Sent(prefix, Fsm(prefix, false, ks))
  {
    var tail := [Plain([CARET])] + ks;
    assert ([Plain([prefix])] + tail)[1..] == tail && tail[1..] == ks;
    assert Fsm(prefix, true, tail) == [Literal] + Fsm(prefix, false, ks);
    SwallowStep(prefix, Plain([prefix]), tail);
  }

  lemma PlainStep(prefix: byte, b: byte, ks: seq<KeyEvent>)
    requires b != prefix
    ensures Sent(prefix, Fsm(prefix, false, [Plain([b])] + ks)) == [b] + Sent(prefix, Fsm(prefix, false, ks))
  {
    assert ([Plain([b])] + ks)[1..] == ks;
  }

  // ---------------------------------------------------------------- kitty reports of the prefix

  /** For every prefix: a printed report, with any fields left out, of a code point or alternate code point
      that ctrl turns into the prefix, pressed with ctrl, is acted on exactly like the raw prefix byte, whatever
      follows. */
  lemma {:induction false} ReportActsLikePrefix(prefix: byte, w: Written, rest: seq<byte>)
    requires Reports(ReportKey(w), PrefixCodepoints(prefix))
    requires HasCtrl(ReportKey(w).mod) && ReportKey(w).event <= 1
    ensures Fsm(prefix, false, Keys(Report(w) + rest)) == Fsm(prefix, false, Keys([prefix] + rest))
  {
    ReportRoundTrip(w, rest);
    assert PrefixCodepoints(ESC) == {};
    ActsLikePrefix(prefix, Report(w), rest, ReportKey(w));
  }

  /** Any key that counts as a prefix press leaves the machine where the raw prefix byte does. */
  lemma {:induction false} ActsLikePrefix(prefix: byte, raw: seq<byte>, rest: seq<byte>, k: KeyEvent)
    requires prefix != ESC && IsPrefixKey(prefix, k)
    requires raw != [] && k.raw == raw && NextKey(raw + rest) == k
    ensures Fsm(prefix, false, Keys(raw + rest)) == Fsm(prefix, false, Keys([prefix] + rest))
  {
    KeyThen(raw, rest, k);
    KeysCons(prefix, rest);
    SwallowStep(prefix, k, Keys(rest));
    SwallowStep(prefix, Plain([prefix]), Keys(rest));
  }

  lemma KeyThen(raw: seq<byte>, rest: seq<byte>, k: KeyEvent)
    requires raw != [] && k.raw == raw && NextKey(raw + rest) == k
    ensures Keys(raw + rest) == [k] + Keys(rest)
  {
    assert (raw + rest)[|raw|..] == rest;
  }

  lemma SwallowStep(prefix: byte, k: KeyEvent, ks: seq<KeyEvent>)
    requires IsPrefixKey(prefix, k)
    ensures Fsm(prefix, false, [k] + ks) == Fsm(prefix, true, ks)
  {
    assert ([k] + ks)[1..] == ks && [] + Fsm(prefix, true, ks) == Fsm(prefix, true, ks);
  }

  // ---------------------------------------------------------------- the loop

  lemma {:induction false} FsmCons(prefix: byte, after: bool, ev: KeyEvent, ks: seq<KeyEvent>, acts: seq<Act>)
    ensures var r := React(prefix, after, ev);
      acts + Fsm(prefix, after, [ev] + ks) ==
      if r.stop then acts + r.acts else acts + r.acts + Fsm(prefix, r.after, ks)
  {
    assert ([ev] + ks)[1..] == ks;
  }

  lemma {:induction false} FsmStep(prefix: byte, after: bool, left: seq<byte>, acts: seq<Act>)
    requires left != []
    ensures var ev := NextKey(left);
      var r, rest := React(prefix, after, ev), left[|ev.raw|..];
      acts + Fsm(prefix, after, Keys(left)) ==
      if r.stop then acts + r.acts else acts + r.acts + Fsm(prefix, r.after, Keys(rest))
  {
    var ev := NextKey(left);
    FsmCons(prefix, after, ev, Keys(left[|ev.raw|..]), acts);
  }

  /** Pull keys off the input and act on them until it ends or the user detaches. */
  method RunChordFSM(prefix: byte, input: seq<byte>) returns (acts: seq<Act>)
    ensures acts == Fsm(prefix, false, Keys(input))
  {
    acts := [];
    var after, left := false, input;
    while true
      invariant acts + Fsm(prefix, after, Keys(left)) == Fsm(prefix, false, Keys(input))
      decreases |left|
    {
      var ok, ev, rest := ReadKeyEvent(left);
      if !ok {
        assert acts + [] == acts;
        return;
      }
      FsmStep(prefix, after, left, acts);
      var more, after', stop := OnKey(prefix, after, ev);
      acts, after, left := acts + more, after', rest;
      if stop {
        return;
      }
    }
  }

  /** One turn of the machine. */
  method OnKey(prefix: byte, after: bool, ev: KeyEvent) returns (acts: seq<Act>, after': bool, stop: bool)
    ensures Reaction(acts, after', stop) == React(prefix, after, ev)
  {
    if !after {
      if IsPrefixKey(prefix, ev) {
        return [], true, false;
      }
      return [Forward(ev.raw)], false, false;
    }
    if IsRepeatOrRelease(ev) {
      return [], true, false;
    }
    match MatchChord(ev)
    case DetachChord => return [Detach], false, true;
    case LiteralChord => return [Literal], false, false;
    case SuspendChord => return [Suspend], false, false;
    case CloneChord => return [Clone], false, false;
    case NoChord => return [], false, false;
  }
}
