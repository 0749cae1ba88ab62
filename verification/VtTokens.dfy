/** A whole-string reading of terminal output as control sequences (section 5.4 of ECMA-48) and control
    strings (section 5.6 of ECMA-48), independent of any streaming state machine. */
module VtTokens {
  import opened Bytes

  const ENQ: byte := 0x05
  const BEL: byte := 0x07
  const CSI8: byte := 0x9b
  const ST8: byte := 0x9c
  const OSC8: byte := 0x9d
  const RBRACKET: byte := 0x5d
  const BACKSLASH: byte := 0x5c
  const QUESTION: byte := 0x3f

  /** A control sequence longer than this is given up, and likewise a control string. */
  const CSI_LIMIT: nat := 256
  const OSC_LIMIT: nat := 1024

  /** `Overrun` is a sequence given up: too long, or a control string broken off by a stray ESC. */
  datatype Kind = PlainByte | EscPair | CsiSeq | OscString | Overrun

  datatype Token = Token(kind: Kind, bytes: seq<byte>)

  /** Where a control sequence ends: its first final byte, or the byte that makes it too long. */
  function CsiEnd(s: seq<byte>, i: nat): (j: Option<nat>)
    requires i <= |s|
    ensures j.Some? ==> i <= j.value < |s|
    decreases |s| - i
  {
    if i == |s| then None else if IsFinal(s[i]) || i >= CSI_LIMIT then Some(i) else CsiEnd(s, i + 1)
  }

  /** Where a control string ends: its first BEL, ST or ESC, or the byte that makes it too long. */
  function OscEnd(s: seq<byte>, i: nat): (j: Option<nat>)
    requires i <= |s|
    ensures j.Some? ==> i <= j.value < |s|
    decreases |s| - i
  {
    if i == |s| then None
    else if s[i] in {BEL, ST8, ESC} || i >= OSC_LIMIT then Some(i) else OscEnd(s, i + 1)
  }

  function CsiToken(s: seq<byte>, i: nat): Option<Token>
    requires i <= |s|
  {
    match CsiEnd(s, i)
    case None => None
    case Some(j) => Some(Token(if IsFinal(s[j]) then CsiSeq else Overrun, s[..j + 1]))
  }

  function OscToken(s: seq<byte>, i: nat): Option<Token>
    requires i <= |s|
  {
    match OscEnd(s, i)
    case None => None
    case Some(j) =>
      if s[j] == ESC then
        if j + 1 == |s| then None
        else if s[j + 1] == BACKSLASH then Some(Token(OscString, s[..j + 2]))
        else Some(Token(Overrun, s[..j]))
      else Some(Token(if s[j] in {BEL, ST8} then OscString else Overrun, s[..j + 1]))
  }

  /** The first token of a non-empty string, or None while it is still incomplete. With `osc` false,
      control strings are not recognised. */
  function FirstToken(s: seq<byte>, osc: bool): (t: Option<Token>)
    requires s != []
    ensures t.Some? ==> 0 < |t.value.bytes| <= |s| && t.value.bytes == s[..|t.value.bytes|]
  {
    if s[0] == ESC then
      if |s| == 1 then None
      else if s[1] == LBRACKET then CsiToken(s, 2)
      else if osc && s[1] == RBRACKET then OscToken(s, 2)
      else Some(Token(EscPair, s[..2]))
    else if s[0] == CSI8 then CsiToken(s, 1)
    else if osc && s[0] == OSC8 then OscToken(s, 1)
    else Some(Token(PlainByte, s[..1]))
  }

  /** The complete tokens of a string, in order. */
  function Tokens(s: seq<byte>, osc: bool): seq<Token>
    decreases |s|
  {
    if s == [] then []
    else
      match FirstToken(s, osc)
      case None => []
      case Some(t) => [t] + Tokens(s[|t.bytes|..], osc)
  }

  /** The incomplete token at the end of a string. */
  function Rest(s: seq<byte>, osc: bool): seq<byte>
    decreases |s|
  {
    if s == [] then []
    else
      match FirstToken(s, osc)
      case None => s
      case Some(t) => Rest(s[|t.bytes|..], osc)
  }

  function Spell(ts: seq<Token>): seq<byte> {
    if ts == [] then [] else ts[0].bytes + Spell(ts[1..])
  }

  lemma {:induction false} SpellStep(s: seq<byte>, t: Token, more: seq<byte>, osc: bool)
    requires s != [] && FirstToken(s, osc) == Some(t) && s[|t.bytes|..] == more
    ensures Spell(Tokens(s, osc)) + Rest(s, osc) == t.bytes + (Spell(Tokens(more, osc)) + Rest(more, osc))
  {
    assert Tokens(s, osc)[1..] == Tokens(more, osc);
  }

  /** Tokens and the incomplete rest spell the string back. */
  lemma {:induction false} TokensSpell(s: seq<byte>, osc: bool)
    ensures Spell(Tokens(s, osc)) + Rest(s, osc) == s
    decreases |s|
  {
    if s != [] && FirstToken(s, osc).Some? {
      var t := FirstToken(s, osc).value;
      TokensSpell(s[|t.bytes|..], osc);
      SpellStep(s, t, s[|t.bytes|..], osc);
    }
  }

  /** A string that is one whole token in itself. */
  predicate IsToken(s: seq<byte>, osc: bool, kind: Kind) {
    s != [] && FirstToken(s, osc) == Some(Token(kind, s))
  }

  lemma {:induction false} CsiEndAt(s: seq<byte>, i: nat, j: nat)
    requires i <= j < |s| && IsFinal(s[j]) && j <= CSI_LIMIT
    requires forall k | i <= k < j :: !IsFinal(s[k])
    ensures CsiEnd(s, i) == Some(j)
    decreases j - i
  {
    if i < j {
      CsiEndAt(s, i + 1, j);
    }
  }

  lemma {:induction false} OscEndAt(s: seq<byte>, i: nat, j: nat)
    requires i <= j < |s| && s[j] in {BEL, ST8, ESC} && j <= OSC_LIMIT
    requires forall k | i <= k < j :: s[k] !in {BEL, ST8, ESC}
    ensures OscEnd(s, i) == Some(j)
    decreases j - i
  {
    if i < j {
      OscEndAt(s, i + 1, j);
    }
  }

  predicate CsiIntroducer(s: seq<byte>) {
    s == [ESC, LBRACKET] || s == [CSI8]
  }

  predicate OscIntroducer(s: seq<byte>) {
    s == [ESC, RBRACKET] || s == [OSC8]
  }

  predicate OscTerminator(s: seq<byte>) {
    s == [BEL] || s == [ST8] || s == [ESC, BACKSLASH]
  }

  /** Without its introducer, a control sequence. */
  function StripCsiIntroducer(buf: seq<byte>): seq<byte> {
    if |buf| >= 2 && buf[0] == ESC && buf[1] == LBRACKET then buf[2..]
    else if |buf| >= 1 && buf[0] == CSI8 then buf[1..]
    else buf
  }

  /** Introducer, parameters free of final bytes, final byte: one control sequence. */
  lemma CsiIsToken(intro: seq<byte>, params: seq<byte>, final: byte, osc: bool)
    requires CsiIntroducer(intro) && |intro| + |params| <= CSI_LIMIT && IsFinal(final)
    requires forall i | 0 <= i < |params| :: !IsFinal(params[i])
    ensures IsToken(intro + params + [final], osc, CsiSeq)
    ensures StripCsiIntroducer(intro + params + [final]) == params + [final]
  {
    var s, j := intro + params + [final], |intro| + |params|;
    assert s[0] == intro[0] && (|intro| == 2 ==> s[1] == intro[1]) && s[j] == final;
    assert forall k | |intro| <= k < j :: s[k] == params[k - |intro|];
    CsiEndAt(s, |intro|, j);
    assert s[..j + 1] == s && s[|intro|..] == params + [final];
  }

  /** Introducer, body free of terminators, terminator: one control string. */
  lemma OscIsToken(intro: seq<byte>, body: seq<byte>, term: seq<byte>)
    requires OscIntroducer(intro) && OscTerminator(term) && |intro| + |body| <= OSC_LIMIT
    requires forall i | 0 <= i < |body| :: body[i] !in {BEL, ST8, ESC}
    ensures IsToken(intro + body + term, true, OscString)
  {
    var s, j := intro + body + term, |intro| + |body|;
    assert s[0] == intro[0] && (|intro| == 2 ==> s[1] == intro[1]);
    assert s[j] == term[0] && (|term| == 2 ==> s[j + 1] == term[1]);
    assert forall k | |intro| <= k < j :: s[k] == body[k - |intro|];
    OscEndAt(s, |intro|, j);
    assert s[..j + |term|] == s;
  }

  // ---------------------------------------------------------------- the same reading, one byte at a time

  datatype Mode = Normal | Esc | Csi | Osc | OscEsc

  /** What a streaming reader remembers: its mode and the bytes of the sequence it is in. */
  datatype Lexer = Lexer(mode: Mode, pending: seq<byte>)

  datatype Lexed = Lexed(st: Lexer, tokens: seq<Token>)

  const GROUND: Lexer := Lexer(Normal, [])

  /** One byte: the tokens it completes. */
  function Push(st: Lexer, b: byte, osc: bool): Lexed
    decreases st.mode == OscEsc
  {
    var p := st.pending + [b];
    match st.mode
    case Normal =>
      if b == ESC then Lexed(Lexer(Esc, [b]), [])
      else if b == CSI8 then Lexed(Lexer(Csi, [b]), [])
      else if osc && b == OSC8 then Lexed(Lexer(Osc, [b]), [])
      else Lexed(GROUND, [Token(PlainByte, [b])])
    case Esc =>
      if b == LBRACKET then Lexed(Lexer(Csi, p), [])
      else if osc && b == RBRACKET then Lexed(Lexer(Osc, p), [])
      else Lexed(GROUND, [Token(EscPair, p)])
    case Csi =>
      if IsFinal(b) then Lexed(GROUND, [Token(CsiSeq, p)])
      else if |p| > CSI_LIMIT then Lexed(GROUND, [Token(Overrun, p)])
      else Lexed(Lexer(Csi, p), [])
    case Osc =>
      if b == BEL || b == ST8 then Lexed(GROUND, [Token(OscString, p)])
      else if b == ESC then Lexed(Lexer(OscEsc, st.pending), [])
      else if |p| > OSC_LIMIT then Lexed(GROUND, [Token(Overrun, p)])
      else Lexed(Lexer(Osc, p), [])
    case OscEsc =>
      if b == BACKSLASH then Lexed(GROUND, [Token(OscString, st.pending + [ESC, b])])
      else
        var again := Push(Lexer(Esc, [ESC]), b, osc);
        Lexed(again.st, [Token(Overrun, st.pending)] + again.tokens)
  }

  function Lex(st: Lexer, s: seq<byte>, osc: bool): Lexed
    decreases |s|
  {
    if s == [] then Lexed(st, [])
    else
      var one := Push(st, s[0], osc);
      var more := Lex(one.st, s[1..], osc);
      Lexed(more.st, one.tokens + more.tokens)
  }

  lemma {:induction false} LexAppend(st: Lexer, a: seq<byte>, b: seq<byte>, osc: bool)
    ensures Lex(st, a + b, osc) ==
      Lexed(Lex(Lex(st, a, osc).st, b, osc).st, Lex(st, a, osc).tokens + Lex(Lex(st, a, osc).st, b, osc).tokens)
    decreases |a|
  {
    if a == [] {
      assert a + b == b;
    } else {
      assert (a + b)[1..] == a[1..] + b;
      LexAppend(Push(st, a[0], osc).st, a[1..], b, osc);
    }
  }

  /** The bytes a streaming reader is holding back. */
  function InFlight(st: Lexer): seq<byte> {
    if st.mode == OscEsc then st.pending + [ESC] else st.pending
  }

  /** Reading `s` with `p` already pending consumes the first token of `p + s`. */
  ghost predicate Consumes(st: Lexer, p: seq<byte>, s: seq<byte>, osc: bool, t: Option<Token>) {
    var l := Lex(st, s, osc);
    match t
    case None => l.tokens == [] && InFlight(l.st) == p + s
    case Some(tok) =>
      |tok.bytes| <= |p + s| &&
      var after := Lex(GROUND, (p + s)[|tok.bytes|..], osc);
      l == Lexed(after.st, [tok] + after.tokens)
  }

  /** One byte completed the token. */
  lemma ConsumesNow(st: Lexer, p: seq<byte>, s: seq<byte>, osc: bool, tok: Token)
    requires s != [] && Push(st, s[0], osc) == Lexed(GROUND, [tok]) && tok.bytes == p + [s[0]]
    ensures Consumes(st, p, s, osc, Some(tok))
  {
    assert (p + s)[|tok.bytes|..] == s[1..];
  }

  /** One byte moved on without completing anything. */
  lemma ConsumesLater(st: Lexer, st': Lexer, p: seq<byte>, s: seq<byte>, osc: bool, t: Option<Token>)
    requires s != [] && Push(st, s[0], osc) == Lexed(st', [])
    requires Consumes(st', p + [s[0]], s[1..], osc, t)
    ensures Consumes(st, p, s, osc, t)
  {
    assert p + [s[0]] + s[1..] == p + s;
    assert Lex(st, s, osc) == Lex(st', s[1..], osc);
  }

  lemma CsiTokenNow(p: seq<byte>, s: seq<byte>)
    requires 1 <= |p| <= CSI_LIMIT && s != [] && (IsFinal(s[0]) || |p| == CSI_LIMIT)
    ensures CsiToken(p + s, |p|) == Some(Token(if IsFinal(s[0]) then CsiSeq else Overrun, p + [s[0]]))
  {
    assert (p + s)[..|p| + 1] == p + [s[0]];
  }

  lemma CsiTokenLater(p: seq<byte>, s: seq<byte>)
    requires 1 <= |p| < CSI_LIMIT && s != [] && !IsFinal(s[0])
    ensures CsiToken(p + s, |p|) == CsiToken(p + [s[0]] + s[1..], |p| + 1)
  {
    assert p + [s[0]] + s[1..] == p + s;
  }

  lemma {:induction false} CsiConsumes(p: seq<byte>, s: seq<byte>, osc: bool)
    requires 1 <= |p| <= CSI_LIMIT
    ensures Consumes(Lexer(Csi, p), p, s, osc, CsiToken(p + s, |p|))
    decreases |s|
  {
    if s != [] {
      var p' := p + [s[0]];
      if IsFinal(s[0]) || |p| == CSI_LIMIT {
        CsiTokenNow(p, s);
        ConsumesNow(Lexer(Csi, p), p, s, osc, Token(if IsFinal(s[0]) then CsiSeq else Overrun, p'));
      } else {
        CsiTokenLater(p, s);
        CsiConsumes(p', s[1..], osc);
        ConsumesLater(Lexer(Csi, p), Lexer(Csi, p'), p, s, osc, CsiToken(p + s, |p|));
      }
    }
  }

  lemma OscTokenNow(p: seq<byte>, s: seq<byte>)
    requires 1 <= |p| <= OSC_LIMIT && s != [] && s[0] != ESC && (s[0] in {BEL, ST8} || |p| == OSC_LIMIT)
    ensures OscToken(p + s, |p|) == Some(Token(if s[0] in {BEL, ST8} then OscString else Overrun, p + [s[0]]))
  {
    assert (p + s)[..|p| + 1] == p + [s[0]];
  }

  lemma OscTokenLater(p: seq<byte>, s: seq<byte>)
    requires 1 <= |p| < OSC_LIMIT && s != [] && s[0] !in {BEL, ST8, ESC}
    ensures OscToken(p + s, |p|) == OscToken(p + [s[0]] + s[1..], |p| + 1)
  {
    assert p + [s[0]] + s[1..] == p + s;
  }

  lemma {:induction false} OscConsumes(p: seq<byte>, s: seq<byte>)
    requires 1 <= |p| <= OSC_LIMIT
    ensures Consumes(Lexer(Osc, p), p, s, true, OscToken(p + s, |p|))
    decreases |s|
  {
    if s != [] {
      var p' := p + [s[0]];
      if s[0] == ESC {
        OscEscConsumes(p, s);
      } else if s[0] in {BEL, ST8} || |p| == OSC_LIMIT {
        OscTokenNow(p, s);
        ConsumesNow(Lexer(Osc, p), p, s, true, Token(if s[0] in {BEL, ST8} then OscString else Overrun, p'));
      } else {
        OscTokenLater(p, s);
        OscConsumes(p', s[1..]);
        ConsumesLater(Lexer(Osc, p), Lexer(Osc, p'), p, s, true, OscToken(p + s, |p|));
      }
    }
  }

  lemma OscTerminated(p: seq<byte>, s: seq<byte>)
    requires 1 <= |p| <= OSC_LIMIT && |s| > 1 && s[0] == ESC && s[1] == BACKSLASH
    ensures Consumes(Lexer(OscEsc, p), p + [ESC], s[1..], true, Some(Token(OscString, p + [ESC, BACKSLASH])))
  {
    assert p + [ESC] + s[1..] == p + [ESC, BACKSLASH] + s[2..];
    assert s[1..][1..] == s[2..];
  }

  lemma {:induction false} StartsOver(p: seq<byte>, s: seq<byte>)
    requires s != [] && s[0] != BACKSLASH
    ensures var again := Lex(Lexer(Esc, [ESC]), s, true);
      Lex(Lexer(OscEsc, p), s, true) == Lexed(again.st, [Token(Overrun, p)] + again.tokens)
  {
    var one := Push(Lexer(Esc, [ESC]), s[0], true);
    var more := Lex(one.st, s[1..], true);
    assert [Token(Overrun, p)] + one.tokens + more.tokens == [Token(Overrun, p)] + (one.tokens + more.tokens);
  }

  lemma {:induction false} EscStarts(s: seq<byte>)
    requires s != [] && s[0] == ESC
    ensures Lex(GROUND, s, true) == Lex(Lexer(Esc, [ESC]), s[1..], true)
  {
  }

  lemma {:induction false} OscBrokenOff(p: seq<byte>, s: seq<byte>)
    requires 1 <= |p| <= OSC_LIMIT && |s| > 1 && s[0] == ESC && s[1] != BACKSLASH
    ensures Consumes(Lexer(OscEsc, p), p + [ESC], s[1..], true, Some(Token(Overrun, p)))
  {
    assert p + [ESC] + s[1..] == p + s && (p + s)[|p|..] == s;
    StartsOver(p, s[1..]);
    EscStarts(s);
  }

  /** A control string meets ESC: its terminator, or a stray ESC that starts over. */
  lemma OscEscConsumes(p: seq<byte>, s: seq<byte>)
    requires 1 <= |p| <= OSC_LIMIT && s != [] && s[0] == ESC
    ensures Consumes(Lexer(Osc, p), p, s, true, OscToken(p + s, |p|))
  {
    var w := p + s;
    assert OscEnd(w, |p|) == Some(|p|) && w[..|p|] == p;
    if |s| > 1 {
      assert w[|p| + 1] == s[1];
      if s[1] == BACKSLASH {
        assert w[..|p| + 2] == p + [ESC, BACKSLASH];
        OscTerminated(p, s);
      } else {
        OscBrokenOff(p, s);
      }
    }
    ConsumesLater(Lexer(Osc, p), Lexer(OscEsc, p), p, s, true, OscToken(w, |p|));
  }

  /** From the ground state the streaming reader consumes exactly the first token. */
  lemma FirstConsumed(s: seq<byte>, osc: bool)
    requires s != []
    ensures Consumes(GROUND, [], s, osc, FirstToken(s, osc))
  {
    assert [] + s == s && [] + [s[0]] == [s[0]] && [s[0]] + s[1..] == s;
    if s[0] == ESC {
      if |s| > 1 {
        EscConsumes(s[1..], osc);
        ConsumesLater(GROUND, Lexer(Esc, [ESC]), [], s, osc, FirstToken(s, osc));
      }
    } else if s[0] == CSI8 {
      CsiConsumes([CSI8], s[1..], osc);
      ConsumesLater(GROUND, Lexer(Csi, [CSI8]), [], s, osc, FirstToken(s, osc));
    } else if osc && s[0] == OSC8 {
      OscConsumes([OSC8], s[1..]);
      ConsumesLater(GROUND, Lexer(Osc, [OSC8]), [], s, osc, FirstToken(s, osc));
    } else {
      ConsumesNow(GROUND, [], s, osc, Token(PlainByte, [s[0]]));
    }
  }

  lemma EscConsumes(s: seq<byte>, osc: bool)
    requires s != []
    ensures Consumes(Lexer(Esc, [ESC]), [ESC], s, osc, FirstToken([ESC] + s, osc))
  {
    var st, p, t := Lexer(Esc, [ESC]), [ESC, s[0]], FirstToken([ESC] + s, osc);
    assert p + s[1..] == [ESC] + s && [ESC] + [s[0]] == p && ([ESC] + s)[..2] == p;
    if s[0] == LBRACKET {
      CsiConsumes(p, s[1..], osc);
      ConsumesLater(st, Lexer(Csi, p), [ESC], s, osc, t);
    } else if osc && s[0] == RBRACKET {
      OscConsumes(p, s[1..]);
      ConsumesLater(st, Lexer(Osc, p), [ESC], s, osc, t);
    } else {
      ConsumesNow(st, [ESC], s, osc, Token(EscPair, p));
    }
  }

  /** Streaming refines the whole-string reading: the same complete tokens, and what is held back is
      exactly the incomplete rest. */
  lemma {:induction false} LexRefines(s: seq<byte>, osc: bool)
    ensures Lex(GROUND, s, osc).tokens == Tokens(s, osc)
    ensures InFlight(Lex(GROUND, s, osc).st) == Rest(s, osc)
    decreases |s|
  {
    if s != [] {
      FirstConsumed(s, osc);
      assert [] + s == s;
      match FirstToken(s, osc)
      case None =>
      case Some(t) => LexRefines(s[|t.bytes|..], osc);
    }
  }

  /** What the buffer may hold in each mode. */
  predicate Bounded(st: Lexer) {
    match st.mode
    case Normal => st.pending == []
    case Esc => st.pending == [ESC]
    case Csi => 1 <= |st.pending| <= CSI_LIMIT
    case Osc => 1 <= |st.pending| <= OSC_LIMIT
    case OscEsc => 1 <= |st.pending| <= OSC_LIMIT
  }

  lemma PushBounded(st: Lexer, b: byte, osc: bool)
    requires Bounded(st)
    ensures Bounded(Push(st, b, osc).st)
    decreases st.mode == OscEsc
  {
    if st.mode == OscEsc {
      PushBounded(Lexer(Esc, [ESC]), b, osc);
    }
  }

  /** Memory is bounded after any input. */
  lemma {:induction false} BoundedMemory(st: Lexer, s: seq<byte>, osc: bool)
    requires Bounded(st)
    ensures Bounded(Lex(st, s, osc).st)
    decreases |s|
  {
    if s != [] {
      PushBounded(st, s[0], osc);
      BoundedMemory(Push(st, s[0], osc).st, s[1..], osc);
    }
  }

  lemma LexOneToken(s: seq<byte>, osc: bool, kind: Kind)
    requires IsToken(s, osc, kind)
    ensures Lex(GROUND, s, osc) == Lexed(GROUND, [Token(kind, s)])
  {
    FirstConsumed(s, osc);
    assert [] + s == s && s[|s|..] == [];
  }
}
