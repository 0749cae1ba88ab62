/** The key-event lexer of the attach client: single bytes, escape sequences, and kitty `CSI u` reports. */
module KeyEvents {
  import opened Bytes

  const COLON: byte := 0x3a
  const LOWER_U: byte := 0x75

  datatype KeyEvent = KeyEvent(raw: seq<byte>, csiU: bool, cp: u64, altCp: u64, mod: u64, event: u64)

  function Plain(raw: seq<byte>): KeyEvent {
    KeyEvent(raw, false, 0, 0, 0, 0)
  }

  // ---------------------------------------------------------------- numbers

  /** The number a string of digits spells, unbounded. */
  function Value(s: seq<byte>): nat
    requires AllDigits(s)
  {
    if s == [] then 0 else 10 * Value(Front(s)) + (Last(s) - 0x30)
  }

  /** The lexer's numbers: a 64-bit wrap-around, and 0 for anything with a non-digit. */
  function ParseUint(s: seq<byte>): u64 {
    if AllDigits(s) then U64(Value(s)) else 0
  }

  /** Decimal print. */
  function Decimal(n: nat): seq<byte> {
    if n < 10 then [0x30 + n] else Decimal(n / 10) + [0x30 + n % 10]
  }

  lemma {:induction false} DecimalValue(n: nat)
    ensures AllDigits(Decimal(n)) && Value(Decimal(n)) == n
  {
    if n < 10 {
      assert Front(Decimal(n)) == [];
    } else {
      DecimalValue(n / 10);
      assert Front(Decimal(n)) == Decimal(n / 10);
    }
  }

  /** Printing and parsing a 64-bit number is the identity. */
  lemma DecimalRoundTrip(n: u64)
    ensures ParseUint(Decimal(n)) == n && AllDigits(Decimal(n))
  {
    DecimalValue(n);
  }

  // ---------------------------------------------------------------- one key

  datatype Numbers = Numbers(cp: u64, altCp: u64, mod: u64, event: u64)

  /** The first and second ':' field of a group; a missing second field is 0. */
  function Pair(group: seq<byte>): (u64, u64) {
    var sub := Fields(group, COLON);
    (ParseUint(sub[0]), if |sub| >= 2 then ParseUint(sub[1]) else 0)
  }

  /** `<cp>[:<altCp>][;<mod>[:<event>][;...]]` */
  function ParseCsiU(params: seq<byte>): Numbers {
    var groups := Fields(params, SEMICOLON);
    var first := Pair(groups[0]);
    var second := if |groups| >= 2 then Pair(groups[1]) else (0, 0);
    Numbers(first.0, first.1, second.0, second.1)
  }

  /** The first final byte at or after `i`. */
  function FinalAt(s: seq<byte>, i: nat): (j: Option<nat>)
    requires i <= |s|
    ensures j.Some? ==> i <= j.value < |s|
    decreases |s| - i
  {
    if i == |s| then None else if IsFinal(s[i]) then Some(i) else FinalAt(s, i + 1)
  }

  /** The first key of a non-empty input; an input that ends inside a sequence is one key. */
  function NextKey(s: seq<byte>): (k: KeyEvent)
    requires s != []
    ensures 0 < |k.raw| <= |s| && k.raw == s[..|k.raw|]
  {
    if s[0] != ESC then Plain(s[..1])
    else if |s| == 1 then Plain(s)
    else if s[1] != LBRACKET then Plain(s[..2])
    else
      match FinalAt(s, 2)
      case None => Plain(s)
      case Some(j) =>
        if s[j] == LOWER_U then
          var n := ParseCsiU(s[2..j]);
          KeyEvent(s[..j + 1], true, n.cp, n.altCp, n.mod, n.event)
        else Plain(s[..j + 1])
  }

  function Keys(s: seq<byte>): seq<KeyEvent>
    decreases |s|
  {
    if s == [] then [] else [NextKey(s)] + Keys(s[|NextKey(s).raw|..])
  }

  function Raw(ks: seq<KeyEvent>): seq<byte> {
    if ks == [] then [] else ks[0].raw + Raw(ks[1..])
  }

  lemma {:induction false} RawStep(s: seq<byte>)
    requires s != []
    ensures Raw(Keys(s)) == NextKey(s).raw + Raw(Keys(s[|NextKey(s).raw|..]))
  {
    RawCons(NextKey(s), Keys(s[|NextKey(s).raw|..]));
  }

  lemma {:induction false} RawCons(k: KeyEvent, ks: seq<KeyEvent>)
    ensures Raw([k] + ks) == k.raw + Raw(ks)
  {
  }

  lemma Rejoin(s: seq<byte>, n: nat)
    requires n <= |s|
    ensures s[..n] + s[n..] == s
  {
  }

  /** Keys partition the input: their raw bytes concatenate back to it. */
  lemma {:induction false} KeysPartition(s: seq<byte>)
    ensures Raw(Keys(s)) == s
    decreases |s|
  {
    if s != [] {
      var n := |NextKey(s).raw|;
      KeysPartition(s[n..]);
      RawStep(s);
      Rejoin(s, n);
    }
  }

  lemma {:induction false} KeysNotEmpty(s: seq<byte>)
    ensures forall k | k in Keys(s) :: k.raw != []
    decreases |s|
  {
    if s != [] {
      KeysNotEmpty(s[|NextKey(s).raw|..]);
    }
  }

  /** Without ESC every byte is a key of its own. */
  lemma {:induction false} SingleKeys(s: seq<byte>)
    requires ESC !in s
    ensures Keys(s) == seq(|s|, i requires 0 <= i < |s| => Plain([s[i]]))
  {
    if s != [] {
      assert s[..1] == [s[0]];
      SingleKeys(s[1..]);
    }
  }

  // ---------------------------------------------------------------- CSI u print and parse

  /** A report as a terminal writes it: the alternate code point, the modifiers and the event may be left out. */
  datatype Written = Written(cp: u64, altCp: Option<u64>, mods: Option<Mods>)

  datatype Mods = Mods(mod: u64, event: Option<u64>)

  function OrZero(n: Option<u64>): u64 {
    if n.Some? then n.value else 0
  }

  /** What the report says; what is left out is 0. */
  function Meaning(w: Written): Numbers {
    Numbers(w.cp, OrZero(w.altCp), if w.mods.Some? then w.mods.value.mod else 0,
            if w.mods.Some? then OrZero(w.mods.value.event) else 0)
  }

  /** `ESC [ cp[:altCp][;mod[:event]] u` in decimal. */
  function Report(w: Written): seq<byte> {
    [ESC, LBRACKET] + ReportParams(w) + [LOWER_U]
  }

  function ReportParams(w: Written): seq<byte> {
    Group(w.cp, w.altCp) + if w.mods.Some? then [SEMICOLON] + Group(w.mods.value.mod, w.mods.value.event) else []
  }

  function Group(a: u64, b: Option<u64>): seq<byte> {
    Decimal(a) + if b.Some? then [COLON] + Decimal(b.value) else []
  }

  /** A group without separators or final bytes that reads as these two numbers. */
  ghost predicate ReadsPair(group: seq<byte>, a: u64, b: u64) {
    Pair(group) == (a, b) && SEMICOLON !in group && forall i | 0 <= i < |group| :: !IsFinal(group[i])
  }

  lemma PairRoundTrip(a: u64, b: Option<u64>)
    ensures ReadsPair(Group(a, b), a, OrZero(b))
  {
    DecimalRoundTrip(a);
    if b.Some? {
      DecimalRoundTrip(b.value);
      assert Group(a, b) == Decimal(a) + [COLON] + Decimal(b.value);
      FieldThen(Decimal(a), COLON, Decimal(b.value));
      FieldAlone(Decimal(b.value), COLON);
    } else {
      assert Group(a, b) == Decimal(a);
      FieldAlone(Decimal(a), COLON);
    }
  }

  lemma TwoGroups(first: seq<byte>, second: seq<byte>, n: Numbers)
    requires ReadsPair(first, n.cp, n.altCp) && ReadsPair(second, n.mod, n.event)
    ensures var params := first + ([SEMICOLON] + second);
      ParseCsiU(params) == n && forall i | 0 <= i < |params| :: !IsFinal(params[i])
  {
    JoinedGroups(first, second);
    assert first + ([SEMICOLON] + second) == first + [SEMICOLON] + second;
  }

  lemma OneGroup(first: seq<byte>, n: Numbers)
    requires ReadsPair(first, n.cp, n.altCp) && n.mod == n.event == 0
    ensures ParseCsiU(first) == n
  {
    FieldAlone(first, SEMICOLON);
  }

  lemma ParamsRoundTrip(w: Written)
    ensures ParseCsiU(ReportParams(w)) == Meaning(w)
    ensures forall i | 0 <= i < |ReportParams(w)| :: !IsFinal(ReportParams(w)[i])
  {
    var first := Group(w.cp, w.altCp);
    PairRoundTrip(w.cp, w.altCp);
    if w.mods.Some? {
      var mods := w.mods.value;
      PairRoundTrip(mods.mod, mods.event);
      TwoGroups(first, Group(mods.mod, mods.event), Meaning(w));
    } else {
      OneGroup(first, Meaning(w));
      assert first + [] == first;
    }
  }

  lemma JoinedGroups(first: seq<byte>, second: seq<byte>)
    requires SEMICOLON !in first && SEMICOLON !in second
    requires forall i | 0 <= i < |first| :: !IsFinal(first[i])
    requires forall i | 0 <= i < |second| :: !IsFinal(second[i])
    ensures Fields(first + [SEMICOLON] + second, SEMICOLON) == [first, second]
    ensures forall i | 0 <= i < |first + [SEMICOLON] + second| :: !IsFinal((first + [SEMICOLON] + second)[i])
  {
    FieldThen(first, SEMICOLON, second);
    FieldAlone(second, SEMICOLON);
  }

  lemma {:induction false} FinalAtIs(s: seq<byte>, i: nat, j: nat)
    requires i <= j < |s| && IsFinal(s[j]) && forall k | i <= k < j :: !IsFinal(s[k])
    ensures FinalAt(s, i) == Some(j)
    decreases j - i
  {
    if i < j {
      FinalAtIs(s, i + 1, j);
    }
  }

  function ReportKey(w: Written): KeyEvent {
    var n := Meaning(w);
    KeyEvent(Report(w), true, n.cp, n.altCp, n.mod, n.event)
  }

  /** For all 64-bit numbers, written in full or with fields left out: reading a printed report consumes
      exactly its bytes and returns the same numbers, whatever follows. */
  lemma ReportRoundTrip(w: Written, rest: seq<byte>)
    ensures NextKey(Report(w) + rest) == ReportKey(w)
  {
    ParamsRoundTrip(w);
    ReadReport(ReportParams(w), rest);
  }

  lemma ReadReport(params: seq<byte>, rest: seq<byte>)
    requires forall i | 0 <= i < |params| :: !IsFinal(params[i])
    ensures var report, n := [ESC, LBRACKET] + params + [LOWER_U], ParseCsiU(params);
      NextKey(report + rest) == KeyEvent(report, true, n.cp, n.altCp, n.mod, n.event)
  {
    var s, j := [ESC, LBRACKET] + params + [LOWER_U] + rest, 2 + |params|;
    assert s[0] == ESC && s[1] == LBRACKET && s[j] == LOWER_U;
    assert forall k | 2 <= k < j :: s[k] == params[k - 2];
    FinalAtIs(s, 2, j);
    assert s[2..j] == params && s[..j + 1] == [ESC, LBRACKET] + params + [LOWER_U];
  }

  // ---------------------------------------------------------------- the loops

  lemma NextField(b: seq<byte>, sep: byte, start: nat, i: nat, out: seq<seq<byte>>)
    requires start <= i < |b| && b[i] == sep && forall k | start <= k < i :: b[k] != sep
    ensures out + Fields(b[start..], sep) == out + [b[start..i]] + Fields(b[i + 1..], sep)
  {
    assert b[start..] == b[start..i] + [sep] + b[i + 1..];
    FieldThen(b[start..i], sep, b[i + 1..]);
  }

  method SplitByte(b: seq<byte>, sep: byte) returns (out: seq<seq<byte>>)
    ensures out == Fields(b, sep)
  {
    out := [];
    var start := 0;
    for i := 0 to |b|
      invariant 0 <= start <= i
      invariant forall k | start <= k < i :: b[k] != sep
      invariant out + Fields(b[start..], sep) == Fields(b, sep)
    {
      if b[i] == sep {
        NextField(b, sep, start, i, out);
        out := out + [b[start..i]];
        start := i + 1;
      }
    }
    FieldAlone(b[start..], sep);
    out := out + [b[start..]];
  }

  lemma WrapDigit(x: nat, d: nat)
    ensures U64(10 * U64(x) + d) == U64(10 * x + d)
  {
    var q := x / 0x1_0000_0000_0000_0000;
    assert 10 * x + d == (10 * U64(x) + d) + (10 * q) * 0x1_0000_0000_0000_0000;
  }

  method ParseDigits(b: seq<byte>) returns (n: u64)
    ensures n == ParseUint(b)
  {
    n := 0;
    for i := 0 to |b|
      invariant AllDigits(b[..i]) && n == U64(Value(b[..i]))
    {
      if b[i] < 0x30 || b[i] > 0x39 {
        assert !AllDigits(b);
        return 0;
      }
      assert Front(b[..i + 1]) == b[..i];
      WrapDigit(Value(b[..i]), b[i] - 0x30);
      n := U64(n * 10 + (b[i] - 0x30));
    }
    assert b[..|b|] == b;
  }

  /** Read bytes off the input until one key is assembled. */
  method ReadKeyEvent(input: seq<byte>) returns (ok: bool, ev: KeyEvent, rest: seq<byte>)
    ensures ok <==> input != []
    ensures ok ==> ev == NextKey(input) && rest == input[|ev.raw|..]
  {
    if |input| == 0 {
      return false, Plain([]), [];
    }
    var b := input[0];
    if b != ESC {
      assert input[..1] == [b];
      return true, Plain([b]), input[1..];
    }
    if |input| == 1 {
      assert input == [ESC];
      return true, Plain([ESC]), [];
    }
    var b2 := input[1];
    if b2 != LBRACKET {
      assert input[..2] == [ESC, b2];
      return true, Plain([ESC, b2]), input[2..];
    }
    var n := 2;
    while n < |input| && !IsFinal(input[n])
      invariant 2 <= n <= |input|
      invariant FinalAt(input, 2) == FinalAt(input, n)
    {
      n := n + 1;
    }
    if n == |input| {
      return true, Plain(input), [];
    }
    var raw := input[..n + 1];
    if input[n] == LOWER_U {
      var params := input[2..n];
      var nums := ReadParams(params);
      return true, KeyEvent(raw, true, nums.cp, nums.altCp, nums.mod, nums.event), input[n + 1..];
    }
    return true, Plain(raw), input[n + 1..];
  }

  method ReadParams(params: seq<byte>) returns (n: Numbers)
    ensures n == ParseCsiU(params)
  {
    var groups := SplitByte(params, SEMICOLON);
    var cp, altCp := ReadPair(groups[0]);
    var mod: u64, event: u64 := 0, 0;
    if |groups| >= 2 {
      mod, event := ReadPair(groups[1]);
    }
    n := Numbers(cp, altCp, mod, event);
  }

  method ReadPair(group: seq<byte>) returns (a: u64, b: u64)
    ensures (a, b) == Pair(group)
  {
    var sub := SplitByte(group, COLON);
    a := ParseDigits(sub[0]);
    b := 0;
    if |sub| >= 2 {
      b := ParseDigits(sub[1]);
    }
  }
}
