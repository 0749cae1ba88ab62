/** The primary-screen filter that feeds the mirror terminal, and its refinement of the token reading. */
module PrimaryFilter {
  import opened Bytes
  import opened VtTokens

  // ---------------------------------------------------------------- alternate-screen switches

  /** "47", "1047", "1049" */
  predicate IsAltMode(field: seq<byte>) {
    || field == [0x34, 0x37]
    || field == [0x31, 0x30, 0x34, 0x37]
    || field == [0x31, 0x30, 0x34, 0x39]
  }

  predicate AnyAltMode(fields: seq<seq<byte>>) {
    fields != [] && (IsAltMode(fields[0]) || AnyAltMode(fields[1..]))
  }

  /** Some ';'-separated parameter is an alternate-screen mode. */
  predicate HasAltMode(params: seq<byte>) {
    AnyAltMode(Fields(params, SEMICOLON))
  }

  /** The direction of a private mode set ('h') or reset ('l') that names an alternate-screen mode. */
  function SwitchOf(buf: seq<byte>): Option<bool> {
    var body := StripCsiIntroducer(buf);
    if |body| >= 3 && Last(body) in {0x68, 0x6c} && body[0] == QUESTION && HasAltMode(body[1..|body| - 1])
    then Some(Last(body) == 0x68) else None
  }

  function Switch(t: Token): Option<bool> {
    if t.kind == CsiSeq then SwitchOf(t.bytes) else None
  }

  // ---------------------------------------------------------------- what the mirror is fed

  /** A token with its effect on the screen in use. */
  datatype Piece = Piece(bytes: seq<byte>, switch: Option<bool>)

  function PieceOf(t: Token): Piece {
    Piece(t.bytes, Switch(t))
  }

  function Pieces(ts: seq<Token>): seq<Piece> {
    seq(|ts|, i requires 0 <= i < |ts| => PieceOf(ts[i]))
  }

  /** The direction of the last switch, or where things stood before. */
  function AltAfter(ps: seq<Piece>, alt: bool): bool {
    if ps == [] then alt
    else
      match Last(ps).switch
      case Some(enter) => enter
      case None => AltAfter(Front(ps), alt)
  }

  /** Every piece that is not a switch and was not seen on the alternate screen. */
  function Mirror(ps: seq<Piece>, alt: bool): seq<byte> {
    if ps == [] then []
    else Mirror(Front(ps), alt) + MirrorOne(Last(ps), AltAfter(Front(ps), alt))
  }

  function MirrorOne(p: Piece, alt: bool): seq<byte> {
    if p.switch.Some? || alt then [] else p.bytes
  }

  lemma {:induction false} AltAppend(a: seq<Piece>, b: seq<Piece>, alt: bool)
    ensures AltAfter(a + b, alt) == AltAfter(b, AltAfter(a, alt))
    decreases |b|
  {
    if b == [] {
      assert a + b == a;
    } else {
      AltAppend(a, Front(b), alt);
      assert Front(a + b) == a + Front(b) && Last(a + b) == Last(b);
    }
  }

  lemma {:induction false} MirrorAppend(a: seq<Piece>, b: seq<Piece>, alt: bool)
    ensures Mirror(a + b, alt) == Mirror(a, alt) + Mirror(b, AltAfter(a, alt))
    decreases |b|
  {
    if b == [] {
      assert a + b == a;
    } else {
      MirrorAppend(a, Front(b), alt);
      AltAppend(a, Front(b), alt);
      assert Front(a + b) == a + Front(b) && Last(a + b) == Last(b);
    }
  }

  lemma PiecesAppend(a: seq<Token>, b: seq<Token>)
    ensures Pieces(a + b) == Pieces(a) + Pieces(b)
  {
  }

  datatype State = State(inAlt: bool, lexer: Lexer)

  datatype Fed = Fed(st: State, out: seq<byte>)

  const FRESH: State := State(false, GROUND)

  function Run(st: State, s: seq<byte>): Fed {
    var l := Lex(st.lexer, s, false);
    Fed(State(AltAfter(Pieces(l.tokens), st.inAlt), l.st), Mirror(Pieces(l.tokens), st.inAlt))
  }

  lemma RunAppend(st: State, a: seq<byte>, b: seq<byte>)
    ensures Run(st, a + b) == Fed(Run(Run(st, a).st, b).st, Run(st, a).out + Run(Run(st, a).st, b).out)
  {
    LexAppend(st.lexer, a, b, false);
    var ta, tb := Lex(st.lexer, a, false).tokens, Lex(Run(st, a).st.lexer, b, false).tokens;
    PiecesAppend(ta, tb);
    AltAppend(Pieces(ta), Pieces(tb), st.inAlt);
    MirrorAppend(Pieces(ta), Pieces(tb), st.inAlt);
  }

  /** The bytes fed to the mirror for a list of chunks. */
  function FilterChunks(st: State, chunks: seq<seq<byte>>): seq<seq<byte>>
    decreases |chunks|
  {
    if chunks == [] then []
    else [Run(st, chunks[0]).out] + FilterChunks(Run(st, chunks[0]).st, chunks[1..])
  }

  lemma {:induction false} ChunkingIrrelevant(st: State, chunks: seq<seq<byte>>)
    ensures Concat(FilterChunks(st, chunks)) == Run(st, Concat(chunks)).out
    decreases |chunks|
  {
    if chunks != [] {
      RunAppend(st, chunks[0], Concat(chunks[1..]));
      ChunkingIrrelevant(Run(st, chunks[0]).st, chunks[1..]);
    }
  }

  /** For every input in any chunking: the mirror gets exactly the non-switch tokens of the whole input seen
      off the alternate screen, and the filter knows which screen the last complete switch selected. */
  lemma StreamingRefines(chunks: seq<seq<byte>>)
    ensures var s := Concat(chunks);
      && Concat(FilterChunks(FRESH, chunks)) == Mirror(Pieces(Tokens(s, false)), false)
      && Run(FRESH, s).st.inAlt == AltAfter(Pieces(Tokens(s, false)), false)
      && InFlight(Run(FRESH, s).st.lexer) == Rest(s, false)
  {
    ChunkingIrrelevant(FRESH, chunks);
    LexRefines(Concat(chunks), false);
  }

  // ---------------------------------------------------------------- cutting out an alternate-screen episode

  /** A string that is one switch in the given direction. */
  predicate IsSwitch(s: seq<byte>, enter: bool) {
    IsToken(s, false, CsiSeq) && SwitchOf(s) == Some(enter)
  }

  /** Complete tokens only, none of them a switch. */
  ghost predicate SwitchFree(s: seq<byte>) {
    Rest(s, false) == [] && forall t | t in Tokens(s, false) :: Switch(t) == None
  }

  lemma {:induction false} SilentInAlt(ps: seq<Piece>)
    requires forall p | p in ps :: p.switch == None
    ensures AltAfter(ps, true) && Mirror(ps, true) == []
  {
    if ps != [] {
      SilentInAlt(Front(ps));
    }
  }

  lemma GroundAfter(s: seq<byte>)
    requires Rest(s, false) == []
    ensures Lex(GROUND, s, false).st == GROUND
  {
    LexRefines(s, false);
    BoundedMemory(GROUND, s, false);
    NothingInFlight(Lex(GROUND, s, false).st);
  }

  lemma NothingInFlight(st: Lexer)
    requires Bounded(st) && InFlight(st) == []
    ensures st == GROUND
  {
  }

  lemma SilentRuns(mid: seq<byte>)
    requires SwitchFree(mid)
    ensures Run(State(true, GROUND), mid) == Fed(State(true, GROUND), [])
  {
    GroundAfter(mid);
    LexRefines(mid, false);
    SilentInAlt(Pieces(Tokens(mid, false)));
  }

  /** Running two strings one after the other. */
  lemma RunThen(st: State, a: seq<byte>, b: seq<byte>, ra: Fed, rb: Fed)
    requires Run(st, a) == ra && Run(ra.st, b) == rb
    ensures Run(st, a + b) == Fed(rb.st, ra.out + rb.out)
  {
    RunAppend(st, a, b);
  }

  lemma SwitchRuns(alt: bool, s: seq<byte>, enter: bool)
    requires IsSwitch(s, enter)
    ensures Run(State(alt, GROUND), s) == Fed(State(enter, GROUND), [])
  {
    LexOneToken(s, false, CsiSeq);
    MirrorSingle(Token(CsiSeq, s), alt);
  }

  /** Entering the alternate screen, anything complete without a switch, and leaving it again feeds the
      mirror nothing and changes nothing. */
  lemma EpisodeRuns(enter: seq<byte>, mid: seq<byte>, exit: seq<byte>)
    requires IsSwitch(enter, true) && SwitchFree(mid) && IsSwitch(exit, false)
    ensures Run(FRESH, enter + mid + exit) == Fed(FRESH, [])
  {
    var alt := Fed(State(true, GROUND), []);
    SwitchRuns(false, enter, true);
    SilentRuns(mid);
    SwitchRuns(true, exit, false);
    RunThen(FRESH, enter, mid, alt, alt);
    RunThen(FRESH, enter + mid, exit, alt, Fed(FRESH, []));
  }

  /** Cutting a whole alternate-screen episode out of the stream leaves the mirror's input unchanged. */
  lemma AltEpisodeInvisible(before: seq<byte>, enter: seq<byte>, mid: seq<byte>, exit: seq<byte>, after: seq<byte>)
    requires Run(FRESH, before).st == FRESH
    requires IsSwitch(enter, true) && SwitchFree(mid) && IsSwitch(exit, false)
    ensures Run(FRESH, before + (enter + mid + exit) + after) == Run(FRESH, before + after)
  {
    EpisodeRuns(enter, mid, exit);
    CutSilence(before, enter + mid + exit, after, Run(FRESH, before), Run(FRESH, after));
  }

  lemma CutSilence(before: seq<byte>, silent: seq<byte>, after: seq<byte>, rb: Fed, ra: Fed)
    requires Run(FRESH, before) == rb && rb.st == FRESH && Run(FRESH, after) == ra
    requires Run(FRESH, silent) == Fed(FRESH, [])
    ensures Run(FRESH, before + silent + after) == Run(FRESH, before + after)
  {
    RunThen(FRESH, before, silent, rb, Fed(FRESH, []));
    RunThen(FRESH, before + silent, after, Fed(FRESH, rb.out), ra);
    RunThen(FRESH, before, after, rb, ra);
  }

  /** The plain forms are switches: either introducer, "?", one of the three modes, 'h' or 'l'. */
  lemma PlainSwitch(intro: seq<byte>, mode: seq<byte>, enter: bool)
    requires CsiIntroducer(intro) && IsAltMode(mode)
    ensures IsSwitch(intro + ([QUESTION] + mode) + [if enter then 0x68 else 0x6c], enter)
  {
    var final: byte := if enter then 0x68 else 0x6c;
    CsiIsToken(intro, [QUESTION] + mode, final, false);
    SwitchBody(mode, final);
  }

  lemma SwitchBody(mode: seq<byte>, final: byte)
    requires IsAltMode(mode)
    ensures var body := [QUESTION] + mode + [final];
      |body| >= 3 && Last(body) == final && body[0] == QUESTION && HasAltMode(body[1..|body| - 1])
  {
    var body := [QUESTION] + mode + [final];
    assert body[1..|body| - 1] == mode == mode[..|mode|];
    AltModeStep(mode, |mode|);
  }

  // ---------------------------------------------------------------- which sequences are switches, written out

  /** "?" and parameters between whose separators stands 47, 1047 or 1049. */
  ghost predicate NamesAltScreen(params: seq<byte>) {
    && params != [] && params[0] == 0x3f
    && (Between(params[1..], Ascii("47"), 0x3b) || Between(params[1..], Ascii("1047"), 0x3b)
        || Between(params[1..], Ascii("1049"), 0x3b))
  }

  lemma {:induction false} AnyAltModeIs(fields: seq<seq<byte>>)
    ensures AnyAltMode(fields) <==> exists f :: f in fields && IsAltMode(f)
  {
    if fields != [] {
      AnyAltModeIs(fields[1..]);
      assert forall f :: f in fields <==> f == fields[0] || f in fields[1..];
    }
  }

  lemma HasAltModeIs(params: seq<byte>)
    ensures HasAltMode(params) <==>
      Between(params, Ascii("47"), 0x3b) || Between(params, Ascii("1047"), 0x3b) || Between(params, Ascii("1049"), 0x3b)
  {
    assert Ascii("47") == [0x34, 0x37] && Ascii("1047") == [0x31, 0x30, 0x34, 0x37];
    assert Ascii("1049") == [0x31, 0x30, 0x34, 0x39];
    AnyAltModeIs(Fields(params, SEMICOLON));
    FieldIffBetween(params, [0x34, 0x37], SEMICOLON);
    FieldIffBetween(params, [0x31, 0x30, 0x34, 0x37], SEMICOLON);
    FieldIffBetween(params, [0x31, 0x30, 0x34, 0x39], SEMICOLON);
  }

  lemma NoModeNoSwitch()
    ensures !Between([], Ascii("47"), 0x3b) && !Between([], Ascii("1047"), 0x3b) && !Between([], Ascii("1049"), 0x3b)
  {
    AltModeStep([], 0);
    HasAltModeIs([]);
  }

  lemma SwitchOfIs(intro: seq<byte>, params: seq<byte>, final: byte)
    requires StripCsiIntroducer(intro + params + [final]) == params + [final]
    ensures SwitchOf(intro + params + [final]) ==
      if (final == 0x68 || final == 0x6c) && NamesAltScreen(params) then Some(final == 0x68) else None
  {
    var body := params + [final];
    NoModeNoSwitch();
    if params != [] {
      assert body[0] == params[0] && body[1..|body| - 1] == params[1..];
      HasAltModeIs(params[1..]);
      assert |params| == 1 ==> params[1..] == [];
    }
  }

  /** For every control sequence in either introducer form, on either screen: it switches if and only if it sets
      or resets a private mode 47, 1047 or 1049 among its parameters, and then feeds the mirror nothing; any
      other sequence is fed byte for byte on the primary screen, and not at all on the alternate one. */
  lemma SwitchIff(alt: bool, intro: seq<byte>, params: seq<byte>, final: byte)
    requires intro == [0x1b, 0x5b] || intro == [0x9b]
    requires |intro| + |params| <= 256 && 0x40 <= final <= 0x7e
    requires forall i | 0 <= i < |params| :: !(0x40 <= params[i] <= 0x7e)
    ensures Run(State(alt, GROUND), intro + params + [final]) ==
      if NamesAltScreen(params) && final == 0x68 then Fed(State(true, GROUND), [])
      else if NamesAltScreen(params) && final == 0x6c then Fed(State(false, GROUND), [])
      else Fed(State(alt, GROUND), if alt then [] else intro + params + [final])
  {
    var s := intro + params + [final];
    CsiIsToken(intro, params, final, false);
    LexOneToken(s, false, CsiSeq);
    SwitchOfIs(intro, params, final);
    MirrorSingle(Token(CsiSeq, s), alt);
  }

  lemma {:induction false} PrimaryPasses(ts: seq<Token>)
    requires forall t | t in ts :: Switch(t) == None
    ensures Mirror(Pieces(ts), false) == Spell(ts) && !AltAfter(Pieces(ts), false)
  {
    if ts != [] {
      assert [ts[0]] + ts[1..] == ts;
      PrimaryPasses(ts[1..]);
      PiecesAppend([ts[0]], ts[1..]);
      MirrorSingle(ts[0], false);
      MirrorAppend(Pieces([ts[0]]), Pieces(ts[1..]), false);
      AltAppend(Pieces([ts[0]]), Pieces(ts[1..]), false);
    }
  }

  /** Complete output without a switch reaches the mirror of a primary screen unchanged. */
  lemma SwitchFreePasses(s: seq<byte>)
    requires SwitchFree(s)
    ensures Run(FRESH, s) == Fed(FRESH, s)
  {
    GroundAfter(s);
    LexRefines(s, false);
    TokensSpell(s, false);
    PrimaryPasses(Tokens(s, false));
    assert Spell(Tokens(s, false)) + [] == Spell(Tokens(s, false));
  }

  // ---------------------------------------------------------------- the filter as an object

  /** Walk the ';'-separated parameters, shrinking what is left. */
  method CsiAltScreenMode(buf: seq<byte>) returns (altMode: bool, enter: bool)
    ensures SwitchOf(buf) == if altMode then Some(enter) else None
  {
    var body := StripCsiIntroducer(buf);
    if |body| < 3 {
      return false, false;
    }
    var final := body[|body| - 1];
    if (final != 0x68 && final != 0x6c) || body[0] != QUESTION {
      return false, false;
    }
    altMode := FindAltMode(body[1..|body| - 1]);
    enter := altMode && final == 0x68;
  }

  lemma OneField(field: seq<byte>)
    ensures AnyAltMode([field]) <==> IsAltMode(field)
  {
    assert [field][1..] == [];
  }

  lemma AltModeStep(params: seq<byte>, next: nat)
    requires next <= |params| && (forall k | 0 <= k < next :: params[k] != SEMICOLON)
    requires next < |params| ==> params[next] == SEMICOLON
    ensures HasAltMode(params) <==>
      IsAltMode(params[..next]) || (next < |params| && HasAltMode(params[next + 1..]))
  {
    assert FieldEnd(params, SEMICOLON, 0) == next;
    if next == |params| {
      assert params[..next] == params && Fields(params, SEMICOLON) == [params];
      OneField(params);
    } else {
      assert Fields(params, SEMICOLON)[1..] == Fields(params[next + 1..], SEMICOLON);
    }
  }

  method FindAltMode(given: seq<byte>) returns (found: bool)
    ensures found <==> HasAltMode(given)
  {
    var params := given;
    AltModeStep([], 0);
    while |params| > 0
      invariant HasAltMode(given) <==> HasAltMode(params)
      decreases |params|
    {
      var next := 0;
      while next < |params| && params[next] != SEMICOLON
        invariant 0 <= next <= |params|
        invariant forall k | 0 <= k < next :: params[k] != SEMICOLON
      {
        next := next + 1;
      }
      AltModeStep(params, next);
      if IsAltMode(params[..next]) {
        return true;
      }
      if next == |params| {
        return false;
      }
      params := params[next + 1..];
    }
    return false;
  }

  /** A run after one more byte. */
  function Next(r: Fed, b: byte): Fed {
    var one := Push(r.st.lexer, b, false);
    Fed(State(AltAfter(Pieces(one.tokens), r.st.inAlt), one.st), r.out + Mirror(Pieces(one.tokens), r.st.inAlt))
  }

  lemma {:induction false} RunOne(st: State, b: byte)
    ensures Next(Fed(st, []), b) == Run(st, [b])
  {
    var one := Push(st.lexer, b, false);
    assert one.tokens + [] == one.tokens;
    assert Lex(st.lexer, [b], false) == one;
    assert [] + Mirror(Pieces(one.tokens), st.inAlt) == Mirror(Pieces(one.tokens), st.inAlt);
  }

  lemma NextAfter(r: Fed, b: byte)
    ensures Next(r, b) == Fed(Next(Fed(r.st, []), b).st, r.out + Next(Fed(r.st, []), b).out)
  {
    var shown := Mirror(Pieces(Push(r.st.lexer, b, false).tokens), r.st.inAlt);
    assert [] + shown == shown;
  }

  lemma {:induction false} RunSnoc(st: State, s: seq<byte>, b: byte, r: Fed)
    requires Run(st, s) == r
    ensures Run(st, s + [b]) == Next(r, b)
  {
    RunThen(st, s, [b], r, Run(r.st, [b]));
    RunOne(r.st, b);
    NextAfter(r, b);
  }

  lemma OneMore(input: seq<byte>, i: nat)
    requires i < |input|
    ensures input[..i] + [input[i]] == input[..i + 1]
  {
  }

  lemma MirrorSingle(t: Token, alt: bool)
    ensures Mirror(Pieces([t]), alt) == if Switch(t).Some? || alt then [] else t.bytes
    ensures AltAfter(Pieces([t]), alt) == if Switch(t).Some? then Switch(t).value else alt
  {
    assert Pieces([t]) == [PieceOf(t)] && Front([PieceOf(t)]) == [];
  }

  class VtPrimaryScreenFilter {
    var inAlt: bool
    var state: Mode
    var pending: seq<byte>

    ghost function View(): State
      reads this
    {
      State(inAlt, Lexer(state, pending))
    }

    /** The modes this filter uses: it has no control-string states. */
    ghost predicate Valid()
      reads this
    {
      state in {Normal, Esc, Csi} && Bounded(Lexer(state, pending))
    }

    constructor ()
      ensures Valid() && View() == FRESH
    {
      inAlt, state, pending := false, Normal, [];
    }

    method Filter(input: seq<byte>) returns (out: seq<byte>)
      requires Valid()
      modifies this
      ensures Valid() && Run(old(View()), input) == Fed(View(), out)
    {
      out := [];
      for i := 0 to |input|
        invariant Valid() && Run(old(View()), input[..i]) == Fed(View(), out)
      {
        RunSnoc(old(View()), input[..i], input[i], Fed(View(), out));
        OneMore(input, i);
        out := Feed(input[i], out);
      }
      assert input[..|input|] == input;
    }

    method Feed(b: byte, out: seq<byte>) returns (out': seq<byte>)
      requires Valid()
      modifies this
      ensures Valid()
      ensures Fed(View(), out') == Next(Fed(old(View()), out), b)
    {
      match state
      case Normal =>
        if b == ESC {
          state, pending := Esc, [b];
          return out;
        } else if b == CSI8 {
          state, pending := Csi, [b];
          return out;
        }
        MirrorSingle(Token(PlainByte, [b]), inAlt);
        out' := if inAlt then out else out + [b];
      case Esc =>
        pending := pending + [b];
        if b == LBRACKET {
          state := Csi;
          return out;
        }
        MirrorSingle(Token(EscPair, pending), inAlt);
        out' := if inAlt then out else out + pending;
        state, pending := Normal, [];
      case Csi =>
        pending := pending + [b];
        if IsFinal(b) {
          MirrorSingle(Token(CsiSeq, pending), inAlt);
          var altMode, enter := CsiAltScreenMode(pending);
          if altMode {
            out', inAlt := out, enter;
          } else {
            out' := if inAlt then out else out + pending;
          }
          state, pending := Normal, [];
        } else if |pending| > CSI_LIMIT {
          MirrorSingle(Token(Overrun, pending), inAlt);
          out' := if inAlt then out else out + pending;
          state, pending := Normal, [];
        } else {
          out' := out;
        }
    }
  }
}
