/** The streaming terminal-query stripper, and its refinement of the whole-string token reading. */
module QueryStripper {
  import opened Bytes
  import opened VtTokens

  // ---------------------------------------------------------------- which sequences are queries

  /** "", "0", "?", ">", "=" */
  predicate ParamsAreDA(p: seq<byte>) {
    p in {[], [0x30], [QUESTION], [0x3e], [0x3d]}
  }

  /** "5", "6", and "?" followed by a number */
  predicate ParamsAreDSR(p: seq<byte>) {
    p in {[0x35], [0x36]} || (|p| >= 2 && p[0] == QUESTION && AllDigits(p[1..]))
  }

  /** "14", "16", "18", "19" */
  predicate ParamsAreSizeQuery(p: seq<byte>) {
    p in {[0x31, 0x34], [0x31, 0x36], [0x31, 0x38], [0x31, 0x39]}
  }

  /** "?", a number, "$" */
  predicate ParamsAreDECRQM(p: seq<byte>) {
    |p| >= 3 && p[0] == QUESTION && p[|p| - 1] == 0x24 && AllDigits(p[1..|p| - 1])
  }

  /** The verdict on a control sequence from its parameters and its final byte. */
  predicate CsiVerdict(params: seq<byte>, final: byte) {
    if final == 0x63 then ParamsAreDA(params)
    else if final == 0x6e then ParamsAreDSR(params)
    else if final == 0x71 then params == [0x3e]
    else if final == 0x74 then ParamsAreSizeQuery(params)
    else if final == 0x70 then ParamsAreDECRQM(params)
    else final == 0x75 && params == [QUESTION]
  }

  predicate IsCsiQuery(buf: seq<byte>) {
    var body := StripCsiIntroducer(buf);
    body != [] && CsiVerdict(Front(body), Last(body))
  }

  function StripOscIntroducer(buf: seq<byte>): seq<byte> {
    if |buf| >= 2 && buf[0] == ESC && buf[1] == RBRACKET then buf[2..]
    else if |buf| >= 1 && buf[0] == OSC8 then buf[1..]
    else buf
  }

  function StripOscTerminator(buf: seq<byte>): seq<byte> {
    var n := |buf|;
    if n == 0 then buf
    else if buf[n - 1] in {BEL, ST8} then buf[..n - 1]
    else if n >= 2 && buf[n - 2] == ESC && buf[n - 1] == BACKSLASH then buf[..n - 2]
    else buf
  }

  /** A colour query: the selector is 4, 10, 11 or 12 and some later field is exactly "?". */
  predicate OscVerdict(body: seq<byte>) {
    var fields := Fields(body, SEMICOLON);
    fields[0] in {[0x34], [0x31, 0x30], [0x31, 0x31], [0x31, 0x32]} && [QUESTION] in fields[1..]
  }

  predicate IsOscQuery(buf: seq<byte>) {
    OscVerdict(StripOscTerminator(StripOscIntroducer(buf)))
  }

  // ---------------------------------------------------------------- what each token becomes

  /** ENQ and queries vanish, ESC ENQ loses its ENQ, everything else passes unchanged. */
  function Render(t: Token): seq<byte> {
    match t.kind
    case PlainByte => if t.bytes == [ENQ] then [] else t.bytes
    case EscPair => if t.bytes == [ESC, ENQ] then [ESC] else t.bytes
    case CsiSeq => if IsCsiQuery(t.bytes) then [] else t.bytes
    case OscString => if IsOscQuery(t.bytes) then [] else t.bytes
    case Overrun => t.bytes
  }

  function RenderAll(ts: seq<Token>): seq<byte> {
    if ts == [] then [] else Render(ts[0]) + RenderAll(ts[1..])
  }

  lemma {:induction false} RenderAppend(a: seq<Token>, b: seq<Token>)
    ensures RenderAll(a + b) == RenderAll(a) + RenderAll(b)
  {
    if a == [] {
      assert a + b == b;
    } else {
      assert (a + b)[1..] == a[1..] + b;
      RenderAppend(a[1..], b);
    }
  }

  // ---------------------------------------------------------------- the streaming filter

  datatype Fed = Fed(st: Lexer, out: seq<byte>)

  /** The filter on one chunk: the tokens the chunk completes, rendered. */
  function Run(st: Lexer, s: seq<byte>): Fed {
    var l := Lex(st, s, true);
    Fed(l.st, RenderAll(l.tokens))
  }

  lemma RunAppend(st: Lexer, a: seq<byte>, b: seq<byte>)
    ensures Run(st, a + b) == Fed(Run(Run(st, a).st, b).st, Run(st, a).out + Run(Run(st, a).st, b).out)
  {
    LexAppend(st, a, b, true);
    RenderAppend(Lex(st, a, true).tokens, Lex(Lex(st, a, true).st, b, true).tokens);
  }

  /** Running two strings one after the other. */
  lemma RunThen(st: Lexer, a: seq<byte>, b: seq<byte>, ra: Fed, rb: Fed)
    requires Run(st, a) == ra && Run(ra.st, b) == rb
    ensures Run(st, a + b) == Fed(rb.st, ra.out + rb.out)
  {
    RunAppend(st, a, b);
  }

  /** The outputs of a list of chunks, one per chunk. */
  function FilterChunks(st: Lexer, chunks: seq<seq<byte>>): seq<seq<byte>>
    decreases |chunks|
  {
    if chunks == [] then []
    else [Run(st, chunks[0]).out] + FilterChunks(Run(st, chunks[0]).st, chunks[1..])
  }

  /** Cutting the input into chunks does not change the bytes that pass. */
  lemma {:induction false} ChunkingIrrelevant(st: Lexer, chunks: seq<seq<byte>>)
    ensures Concat(FilterChunks(st, chunks)) == Run(st, Concat(chunks)).out
    decreases |chunks|
  {
    if chunks != [] {
      RunAppend(st, chunks[0], Concat(chunks[1..]));
      ChunkingIrrelevant(Run(st, chunks[0]).st, chunks[1..]);
    }
  }

  /** For every input and every way of cutting it: the concatenated outputs are the rendered tokens of the
      whole input. */
  lemma StreamingRefines(chunks: seq<seq<byte>>)
    ensures Concat(FilterChunks(GROUND, chunks)) == RenderAll(Tokens(Concat(chunks), true))
  {
    ChunkingIrrelevant(GROUND, chunks);
    LexRefines(Concat(chunks), true);
  }

  // ---------------------------------------------------------------- conservation

  /** What passes of a piece is the piece, nothing (an ENQ or a query), or the ESC of an ESC ENQ. */
  ghost predicate PassedOrDropped(t: Token) {
    || Render(t) == t.bytes
    || (Render(t) == [] && (t.bytes == [ENQ] || IsCsiQuery(t.bytes) || IsOscQuery(t.bytes)))
    || (Render(t) == [ESC] && t.bytes == [ESC, ENQ])
  }

  lemma OnlyQueriesDropped(t: Token)
    ensures PassedOrDropped(t)
  {
  }

  /** After any input: the input is its pieces in order followed by the bytes in flight, the output is those
      pieces with only ENQs and queries removed, and the bytes in flight are bounded. */
  lemma Conservation(s: seq<byte>)
    ensures var ts, st := Tokens(s, true), Run(GROUND, s).st;
      && Spell(ts) + InFlight(st) == s && Run(GROUND, s).out == RenderAll(ts)
      && (forall t | t in ts :: PassedOrDropped(t))
      && Bounded(st)
  {
    LexRefines(s, true);
    TokensSpell(s, true);
    BoundedMemory(GROUND, s, true);
    forall t | t in Tokens(s, true) ensures PassedOrDropped(t) {
      OnlyQueriesDropped(t);
    }
  }

  // ---------------------------------------------------------------- exact, form-independent verdicts

  lemma OscBody(intro: seq<byte>, body: seq<byte>, term: seq<byte>)
    requires OscIntroducer(intro) && OscTerminator(term)
    ensures StripOscTerminator(StripOscIntroducer(intro + body + term)) == body
  {
    var s, t := intro + body + term, body + term;
    assert s[0] == intro[0] && (|intro| == 2 ==> s[1] == intro[1]);
    assert StripOscIntroducer(s) == s[|intro|..] == t;
    assert t[|t| - 1] == Last(term) && (|term| == 2 ==> t[|t| - 2] == term[0]);
    assert StripOscTerminator(t) == t[..|t| - |term|] == body;
  }

  /** A control string is dropped exactly when its body is a colour query, whichever introducer and
      terminator it uses; otherwise it passes byte for byte. */
  lemma OscFormIndependent(intro: seq<byte>, body: seq<byte>, term: seq<byte>)
    requires OscIntroducer(intro) && OscTerminator(term) && |intro| + |body| <= OSC_LIMIT
    requires forall i | 0 <= i < |body| :: body[i] !in {BEL, ST8, ESC}
    ensures Run(GROUND, intro + body + term) == Fed(GROUND, if OscVerdict(body) then [] else intro + body + term)
  {
    var s := intro + body + term;
    OscIsToken(intro, body, term);
    LexOneToken(s, true, OscString);
    OscBody(intro, body, term);
    RenderOne(Token(OscString, s));
  }

  lemma RenderOne(t: Token)
    ensures RenderAll([t]) == Render(t)
  {
  }

  /** The verdict on a control sequence depends on its parameters and final byte only, not on its
      introducer; a sequence that is not a query passes byte for byte. */
  lemma CsiFormIndependent(intro: seq<byte>, params: seq<byte>, final: byte)
    requires CsiIntroducer(intro) && |intro| + |params| <= CSI_LIMIT && IsFinal(final)
    requires forall i | 0 <= i < |params| :: !IsFinal(params[i])
    ensures Run(GROUND, intro + params + [final]) ==
      Fed(GROUND, if CsiVerdict(params, final) then [] else intro + params + [final])
  {
    var s := intro + params + [final];
    CsiIsToken(intro, params, final, true);
    LexOneToken(s, true, CsiSeq);
    RenderOne(Token(CsiSeq, s));
    assert Front(params + [final]) == params;
  }

  // ---------------------------------------------------------------- the scanning loops

  lemma {:induction false} FirstField(s: seq<byte>, j: nat)
    requires j <= |s| && (forall k | 0 <= k < j :: s[k] != SEMICOLON) && (j < |s| ==> s[j] == SEMICOLON)
    ensures Fields(s, SEMICOLON) == if j == |s| then [s] else [s[..j]] + Fields(s[j + 1..], SEMICOLON)
  {
    assert FieldEnd(s, SEMICOLON, 0) == j;
  }

  ghost predicate AsksFrom(payload: seq<byte>, start: nat)
    requires start <= |payload|
  {
    [QUESTION] in Fields(payload[start..], SEMICOLON)
  }

  lemma NextSegment(payload: seq<byte>, start: nat, i: nat)
    requires start <= i <= |payload| && (forall k | start <= k < i :: payload[k] != SEMICOLON)
    requires i < |payload| ==> payload[i] == SEMICOLON
    ensures AsksFrom(payload, start) <==>
      payload[start..i] == [QUESTION] || (i < |payload| && AsksFrom(payload, i + 1))
  {
    var s, j := payload[start..], i - start;
    FirstField(s, j);
    assert s[..j] == payload[start..i];
    if i < |payload| {
      assert s[j + 1..] == payload[i + 1..];
    } else {
      assert payload[start..i] == s;
    }
  }

  /** Walk the segments of a payload looking for one that is exactly "?". */
  method OscPayloadIsQuery(payload: seq<byte>) returns (r: bool)
    ensures r <==> [QUESTION] in Fields(payload, SEMICOLON)
  {
    assert payload[0..] == payload;
    if |payload| == 0 {
      return false;
    }
    var start, i := 0, 0;
    while i <= |payload|
      invariant 0 <= start <= i <= |payload| + 1
      invariant i == |payload| + 1 ==> !AsksFrom(payload, 0)
      invariant i <= |payload| ==> forall k | start <= k < i :: payload[k] != SEMICOLON
      invariant i <= |payload| ==> (AsksFrom(payload, 0) <==> AsksFrom(payload, start))
    {
      if i == |payload| || payload[i] == SEMICOLON {
        NextSegment(payload, start, i);
        var seg := payload[start..i];
        if |seg| == 1 && seg[0] == QUESTION {
          return true;
        }
        start := i + 1;
      }
      i := i + 1;
    }
    return false;
  }

  /** Split off the selector at the first ';' and judge the payload after it. */
  method JudgeOsc(buf: seq<byte>) returns (r: bool)
    ensures r == IsOscQuery(buf)
  {
    var body := StripOscTerminator(StripOscIntroducer(buf));
    var semi := 0;
    while semi < |body| && body[semi] != SEMICOLON
      invariant 0 <= semi <= |body|
      invariant forall k | 0 <= k < semi :: body[k] != SEMICOLON
    {
      semi := semi + 1;
    }
    FirstField(body, semi);
    if semi == |body| {
      return false;
    }
    var ps, payload := body[..semi], body[semi + 1..];
    assert Fields(body, SEMICOLON)[1..] == Fields(payload, SEMICOLON);
    if ps in {[0x31, 0x30], [0x31, 0x31], [0x31, 0x32], [0x34]} {
      r := OscPayloadIsQuery(payload);
    } else {
      r := false;
    }
  }

  // ---------------------------------------------------------------- the stripper as an object

  lemma RunSnoc(st: Lexer, s: seq<byte>, b: byte)
    ensures var r, one := Run(st, s), Push(Run(st, s).st, b, true);
      Run(st, s + [b]) == Fed(one.st, r.out + RenderAll(one.tokens))
  {
    RunAppend(st, s, [b]);
    var one := Push(Run(st, s).st, b, true);
    assert one.tokens + [] == one.tokens;
    assert Lex(Run(st, s).st, [b], true) == one;
  }

  class VtQueryStripper {
    var state: Mode
    var pending: seq<byte>

    ghost function View(): Lexer
      reads this
    {
      Lexer(state, pending)
    }

    constructor ()
      ensures View() == GROUND
    {
      state, pending := Normal, [];
    }

    method Filter(input: seq<byte>) returns (out: seq<byte>)
      requires Bounded(View())
      modifies this
      ensures Bounded(View()) && Run(old(View()), input) == Fed(View(), out)
    {
      out := [];
      for i := 0 to |input|
        invariant Bounded(View()) && Run(old(View()), input[..i]) == Fed(View(), out)
      {
        RunSnoc(old(View()), input[..i], input[i]);
        assert input[..i] + [input[i]] == input[..i + 1];
        out := Feed(input[i], out);
      }
      assert input[..|input|] == input;
    }

    /** One byte; the bytes that pass are appended to `out`. */
    method Feed(b: byte, out: seq<byte>) returns (out': seq<byte>)
      requires Bounded(View())
      modifies this
      ensures Bounded(View())
      ensures View() == Push(old(View()), b, true).st
      ensures out' == out + RenderAll(Push(old(View()), b, true).tokens)
      decreases state == OscEsc
    {
      PushBounded(View(), b, true);
      match state
      case Normal =>
        RenderOne(Token(PlainByte, [b]));
        if b == ENQ {
          return out;
        } else if b == ESC {
          state, pending := Esc, [b];
          return out;
        } else if b == CSI8 {
          state, pending := Csi, [b];
          return out;
        } else if b == OSC8 {
          state, pending := Osc, [b];
          return out;
        }
        return out + [b];
      case Esc =>
        out' := FeedEsc(b, out);
      case Csi =>
        out' := FeedCsi(b, out);
      case Osc =>
        out' := FeedOsc(b, out);
      case OscEsc =>
        if b == BACKSLASH {
          out' := FinishOsc([ESC, BACKSLASH], out);
        } else {
          ghost var given := pending;
          out' := out + pending;
          state, pending := Normal, [];
          out' := Feed(ESC, out');
          out' := Feed(b, out');
          RenderAppend([Token(Overrun, given)], Push(Lexer(Esc, [ESC]), b, true).tokens);
          RenderOne(Token(Overrun, given));
        }
    }

    method FeedEsc(b: byte, out: seq<byte>) returns (out': seq<byte>)
      requires state == Esc && Bounded(View())
      modifies this
      ensures View() == Push(old(View()), b, true).st
      ensures out' == out + RenderAll(Push(old(View()), b, true).tokens)
    {
      pending := pending + [b];
      assert pending == [ESC, b] && out + [] == out;
      RenderOne(Token(EscPair, pending));
      if b == LBRACKET {
        state := Csi;
        return out;
      } else if b == RBRACKET {
        state := Osc;
        return out;
      } else if b == ENQ {
        state, pending := Normal, [];
        return out + [ESC];
      }
      out' := out + pending;
      state, pending := Normal, [];
    }

    method FeedCsi(b: byte, out: seq<byte>) returns (out': seq<byte>)
      requires state == Csi
      modifies this
      ensures View() == Push(old(View()), b, true).st
      ensures out' == out + RenderAll(Push(old(View()), b, true).tokens)
    {
      pending := pending + [b];
      if IsFinal(b) {
        RenderOne(Token(CsiSeq, pending));
        out' := if IsCsiQuery(pending) then out else out + pending;
        state, pending := Normal, [];
      } else if |pending| > CSI_LIMIT {
        RenderOne(Token(Overrun, pending));
        out' := out + pending;
        state, pending := Normal, [];
      } else {
        out' := out;
      }
    }

    method FeedOsc(b: byte, out: seq<byte>) returns (out': seq<byte>)
      requires state == Osc
      modifies this
      ensures View() == Push(old(View()), b, true).st
      ensures out' == out + RenderAll(Push(old(View()), b, true).tokens)
    {
      if b == BEL || b == ST8 {
        out' := FinishOsc([b], out);
      } else if b == ESC {
        state := OscEsc;
        out' := out;
      } else {
        pending := pending + [b];
        if |pending| > OSC_LIMIT {
          RenderOne(Token(Overrun, pending));
          out' := out + pending;
          state, pending := Normal, [];
        } else {
          out' := out;
        }
      }
    }

    /** A terminator arrived: drop a query, pass anything else. */
    method FinishOsc(terminator: seq<byte>, out: seq<byte>) returns (out': seq<byte>)
      modifies this
      ensures View() == GROUND
      ensures out' == out + RenderAll([Token(OscString, old(pending) + terminator)])
    {
      pending := pending + terminator;
      RenderOne(Token(OscString, pending));
      var drop := JudgeOsc(pending);
      out' := if drop then out else out + pending;
      state, pending := Normal, [];
    }
  }
}
