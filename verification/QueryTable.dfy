/** The queries that the stripper drops, written out as texts, and the verdict of the stripper on every control
    sequence and control string against them. */
module QueryTable {
  import opened Bytes
  import opened VtTokens
  import opened QueryStripper

  // ---------------------------------------------------------------- control sequences

  predicate Number(p: seq<byte>) {
    p != [] && forall i | 0 <= i < |p| :: 0x30 <= p[i] <= 0x39
  }

  predicate DeviceAttributes(body: seq<byte>) {
    body == Ascii("c") || body == Ascii("0c") || body == Ascii("?c") || body == Ascii(">c") || body == Ascii("=c")
  }

  predicate SizeQuery(body: seq<byte>) {
    body == Ascii("14t") || body == Ascii("16t") || body == Ascii("18t") || body == Ascii("19t")
  }

  /** Status, cursor position, terminal version, keyboard. */
  predicate ShortQuery(body: seq<byte>) {
    body == Ascii("5n") || body == Ascii("6n") || body == Ascii(">q") || body == Ascii("?u")
  }

  predicate FixedQuery(body: seq<byte>) {
    DeviceAttributes(body) || SizeQuery(body) || ShortQuery(body)
  }

  /** Private status reports and mode requests, for every number. */
  ghost predicate NumberedQuery(body: seq<byte>) {
    exists n :: Number(n) && (body == Ascii("?") + n + Ascii("n") || body == Ascii("?") + n + Ascii("$p"))
  }

  ghost predicate IsQuery(body: seq<byte>) {
    FixedQuery(body) || NumberedQuery(body)
  }

  /** A body against a text of one, two or three characters. */
  lemma Text1(params: seq<byte>, final: byte, t: string)
    requires |t| == 1
    ensures params + [final] == Ascii(t) <==> params == [] && final == t[0] as int % 0x100
  {
    if params + [final] == Ascii(t) {
      assert |params + [final]| == 1 && (params + [final])[0] == Ascii(t)[0];
    }
  }

  lemma Text2(params: seq<byte>, final: byte, t: string)
    requires |t| == 2
    ensures params + [final] == Ascii(t) <==> params == [t[0] as int % 0x100] && final == t[1] as int % 0x100
  {
    if params + [final] == Ascii(t) {
      var body := params + [final];
      assert |body| == 2 && body[0] == Ascii(t)[0] && body[1] == Ascii(t)[1];
    }
  }

  lemma Text3(params: seq<byte>, final: byte, t: string)
    requires |t| == 3
    ensures params + [final] == Ascii(t) <==>
      params == [t[0] as int % 0x100, t[1] as int % 0x100] && final == t[2] as int % 0x100
  {
    if params + [final] == Ascii(t) {
      var body := params + [final];
      assert |body| == 3 && body[0] == Ascii(t)[0] && body[1] == Ascii(t)[1] && body[2] == Ascii(t)[2];
    }
  }

  /** The fixed part of the verdict. */
  predicate FixedVerdict(p: seq<byte>, final: byte) {
    || (final == 0x63 && (p == [] || p == [0x30] || p == [QUESTION] || p == [0x3e] || p == [0x3d]))
    || (final == 0x74 && (p == [0x31, 0x34] || p == [0x31, 0x36] || p == [0x31, 0x38] || p == [0x31, 0x39]))
    || (final == 0x6e && (p == [0x35] || p == [0x36])) || (final == 0x71 && p == [0x3e])
    || (final == 0x75 && p == [QUESTION])
  }

  lemma AttributesAre(p: seq<byte>, final: byte)
    ensures DeviceAttributes(p + [final]) <==>
      final == 0x63 && (p == [] || p == [0x30] || p == [QUESTION] || p == [0x3e] || p == [0x3d])
  {
    Text1(p, final, "c");
    Text2(p, final, "0c");
    Text2(p, final, "?c");
    Text2(p, final, ">c");
    Text2(p, final, "=c");
  }

  lemma SizesAre(p: seq<byte>, final: byte)
    ensures SizeQuery(p + [final]) <==>
      final == 0x74 && (p == [0x31, 0x34] || p == [0x31, 0x36] || p == [0x31, 0x38] || p == [0x31, 0x39])
  {
    Text3(p, final, "14t");
    Text3(p, final, "16t");
    Text3(p, final, "18t");
    Text3(p, final, "19t");
  }

  lemma ShortAre(p: seq<byte>, final: byte)
    ensures ShortQuery(p + [final]) <==>
      || (final == 0x6e && (p == [0x35] || p == [0x36])) || (final == 0x71 && p == [0x3e])
      || (final == 0x75 && p == [QUESTION])
  {
    Text2(p, final, "5n");
    Text2(p, final, "6n");
    Text2(p, final, ">q");
    Text2(p, final, "?u");
  }

  lemma FixedIs(params: seq<byte>, final: byte)
    ensures FixedQuery(params + [final]) <==> FixedVerdict(params, final)
  {
    AttributesAre(params, final);
    SizesAre(params, final);
    ShortAre(params, final);
  }

  predicate NumberedVerdict(p: seq<byte>, final: byte) {
    || (final == 0x6e && |p| >= 2 && p[0] == QUESTION && Number(p[1..]))
    || (final == 0x70 && |p| >= 3 && p[0] == QUESTION && Last(p) == 0x24 && Number(p[1..|p| - 1]))
  }

  lemma NumberedIs(params: seq<byte>, final: byte)
    ensures NumberedQuery(params + [final]) <==> NumberedVerdict(params, final)
  {
    var body := params + [final];
    if NumberedVerdict(params, final) {
      NumberedHolds(params, final);
    }
    if n :| Number(n) && (body == Ascii("?") + n + Ascii("n") || body == Ascii("?") + n + Ascii("$p")) {
      NumberedMeans(params, final, n);
    }
  }

  lemma NumberedHolds(params: seq<byte>, final: byte)
    requires NumberedVerdict(params, final)
    ensures NumberedQuery(params + [final])
  {
    assert Ascii("?") == [0x3f] && Ascii("n") == [0x6e] && Ascii("$p") == [0x24, 0x70];
    if final == 0x6e {
      var n := params[1..];
      assert params + [final] == Ascii("?") + n + Ascii("n");
    } else {
      var n := params[1..|params| - 1];
      assert params + [final] == Ascii("?") + n + Ascii("$p");
    }
  }

  lemma NumberedMeans(params: seq<byte>, final: byte, n: seq<byte>)
    requires Number(n)
    requires params + [final] == Ascii("?") + n + Ascii("n") || params + [final] == Ascii("?") + n + Ascii("$p")
    ensures NumberedVerdict(params, final)
  {
    assert Ascii("?") == [0x3f] && Ascii("n") == [0x6e] && Ascii("$p") == [0x24, 0x70];
    var body := params + [final];
    assert params == body[..|body| - 1] && final == body[|body| - 1];
    if body == Ascii("?") + n + Ascii("n") {
      assert params == [0x3f] + n;
      assert params[1..] == n;
    } else {
      assert params == [0x3f] + n + [0x24];
      assert params[1..|params| - 1] == n;
    }
  }

  lemma VerdictIs(params: seq<byte>, final: byte)
    ensures CsiVerdict(params, final) <==> FixedVerdict(params, final) || NumberedVerdict(params, final)
  {
  }

  /** For every control sequence in either introducer form: exactly the queries of the table are dropped, and
      every other sequence passes byte for byte. */
  lemma CsiDroppedIff(intro: seq<byte>, params: seq<byte>, final: byte)
    requires intro == [0x1b, 0x5b] || intro == [0x9b]
    requires |intro| + |params| <= 256 && 0x40 <= final <= 0x7e
    requires forall i | 0 <= i < |params| :: !(0x40 <= params[i] <= 0x7e)
    ensures Run(GROUND, intro + params + [final]) ==
      Fed(GROUND, if IsQuery(params + [final]) then [] else intro + params + [final])
  {
    CsiFormIndependent(intro, params, final);
    VerdictIs(params, final);
    FixedIs(params, final);
    NumberedIs(params, final);
  }

  // ---------------------------------------------------------------- control strings

  /** A colour selector, a ';', and "?" between separators of what follows. */
  ghost predicate ColourQuery(body: seq<byte>) {
    exists selector, payload ::
      && (selector == Ascii("4") || selector == Ascii("10") || selector == Ascii("11") || selector == Ascii("12"))
      && body == selector + Ascii(";") + payload && Between(payload, Ascii("?"), 0x3b)
  }

  predicate Selector(p: seq<byte>) {
    p == Ascii("4") || p == Ascii("10") || p == Ascii("11") || p == Ascii("12")
  }

  lemma SelectorIs(p: seq<byte>)
    ensures Selector(p) <==> p in {[0x34], [0x31, 0x30], [0x31, 0x31], [0x31, 0x32]}
    ensures Selector(p) ==> SEMICOLON !in p
  {
    assert Ascii("4") == [0x34] && Ascii("10") == [0x31, 0x30];
    assert Ascii("11") == [0x31, 0x31] && Ascii("12") == [0x31, 0x32];
  }

  lemma ColourMeans(body: seq<byte>, selector: seq<byte>, payload: seq<byte>)
    requires Selector(selector) && body == selector + Ascii(";") + payload && Between(payload, Ascii("?"), 0x3b)
    ensures OscVerdict(body)
  {
    assert Ascii(";") == [SEMICOLON] && Ascii("?") == [QUESTION];
    SelectorIs(selector);
    FieldThen(selector, SEMICOLON, payload);
    FieldIffBetween(payload, [QUESTION], SEMICOLON);
    assert Fields(body, SEMICOLON)[1..] == Fields(payload, SEMICOLON);
  }

  lemma ColourHolds(body: seq<byte>)
    requires OscVerdict(body)
    ensures ColourQuery(body)
  {
    assert Ascii(";") == [SEMICOLON] && Ascii("?") == [QUESTION];
    var j := FieldEnd(body, SEMICOLON, 0);
    FirstField(body, j);
    var selector, payload := body[..j], body[j + 1..];
    SelectorIs(selector);
    assert body == selector + Ascii(";") + payload;
    assert Fields(body, SEMICOLON)[1..] == Fields(payload, SEMICOLON);
    FieldIffBetween(payload, [QUESTION], SEMICOLON);
  }

  lemma OscVerdictIs(body: seq<byte>)
    ensures OscVerdict(body) <==> ColourQuery(body)
  {
    if OscVerdict(body) {
      ColourHolds(body);
    }
    if selector, payload :|
      Selector(selector) && body == selector + Ascii(";") + payload && Between(payload, Ascii("?"), 0x3b) {
      ColourMeans(body, selector, payload);
    }
  }

  /** For every control string of at most 1024 bytes before its terminator, in all six forms: exactly the colour
      queries are dropped, and every other string passes byte for byte. */
  lemma OscDroppedIff(intro: seq<byte>, body: seq<byte>, term: seq<byte>)
    requires (intro == [0x1b, 0x5d] || intro == [0x9d]) && (term == [0x07] || term == [0x9c] || term == [0x1b, 0x5c])
    requires |intro| + |body| <= 1024 && forall i | 0 <= i < |body| :: body[i] != 0x07 && body[i] != 0x9c && body[i] != 0x1b
    ensures Run(GROUND, intro + body + term) == Fed(GROUND, if ColourQuery(body) then [] else intro + body + term)
  {
    OscFormIndependent(intro, body, term);
    OscVerdictIs(body);
  }

  // ---------------------------------------------------------------- everything else

  /** A single byte that starts nothing passes, unless it is ENQ. */
  lemma ByteRuns(b: byte)
    requires b != 0x1b && b != 0x9b && b != 0x9d
    ensures Run(GROUND, [b]) == Fed(GROUND, if b == 0x05 then [] else [b])
  {
    assert [b][..1] == [b];
    LexOneToken([b], true, PlainByte);
    RenderOne(Token(PlainByte, [b]));
  }

  /** ESC and a byte that opens nothing pass; ENQ loses its own byte only. */
  lemma EscapeRuns(b: byte)
    requires b != 0x5b && b != 0x5d
    ensures Run(GROUND, [0x1b, b]) == Fed(GROUND, if b == 0x05 then [0x1b] else [0x1b, b])
  {
    var s := [0x1b, b];
    assert s[..2] == s;
    LexOneToken(s, true, EscPair);
    RenderOne(Token(EscPair, s));
  }

  /** A control sequence is held up to its 256th byte, and the 257th lets it go as it is. */
  lemma CsiCutOff(intro: seq<byte>, body: seq<byte>, b: byte)
    requires (intro == [0x1b, 0x5b] || intro == [0x9b]) && |intro| + |body| == 256
    requires forall i | 0 <= i < |body| :: !(0x40 <= body[i] <= 0x7e)
    requires !(0x40 <= b <= 0x7e)
    ensures Run(GROUND, intro + body) == Fed(Lexer(Csi, intro + body), [])
    ensures Run(GROUND, intro + body + [b]) == Fed(GROUND, intro + body + [b])
  {
    HeldCsi(intro, body);
    RunSnoc(GROUND, intro + body, b);
    RenderOne(Token(Overrun, intro + body + [b]));
    assert [] + (intro + body + [b]) == intro + body + [b];
  }

  lemma {:induction false} HeldCsi(intro: seq<byte>, body: seq<byte>)
    requires CsiIntroducer(intro) && |intro| + |body| <= CSI_LIMIT
    requires forall i | 0 <= i < |body| :: !IsFinal(body[i])
    ensures Run(GROUND, intro + body) == Fed(Lexer(Csi, intro + body), [])
    decreases |body|
  {
    if body == [] {
      assert intro + body == intro;
      Opened(intro, Csi);
    } else {
      HeldCsi(intro, Front(body));
      assert intro + body == intro + Front(body) + [Last(body)];
      RunSnoc(GROUND, intro + Front(body), Last(body));
    }
  }

  /** A control string is held up to its 1024th byte, and the 1025th lets it go as it is. */
  lemma OscCutOff(intro: seq<byte>, body: seq<byte>, b: byte)
    requires (intro == [0x1b, 0x5d] || intro == [0x9d]) && |intro| + |body| == 1024
    requires forall i | 0 <= i < |body| :: body[i] != 0x07 && body[i] != 0x9c && body[i] != 0x1b
    requires b != 0x07 && b != 0x9c && b != 0x1b
    ensures Run(GROUND, intro + body) == Fed(Lexer(Osc, intro + body), [])
    ensures Run(GROUND, intro + body + [b]) == Fed(GROUND, intro + body + [b])
  {
    HeldOsc(intro, body);
    RunSnoc(GROUND, intro + body, b);
    RenderOne(Token(Overrun, intro + body + [b]));
    assert [] + (intro + body + [b]) == intro + body + [b];
  }

  lemma {:induction false} HeldOsc(intro: seq<byte>, body: seq<byte>)
    requires OscIntroducer(intro) && |intro| + |body| <= OSC_LIMIT
    requires forall i | 0 <= i < |body| :: body[i] !in {BEL, ST8, ESC}
    ensures Run(GROUND, intro + body) == Fed(Lexer(Osc, intro + body), [])
    decreases |body|
  {
    if body == [] {
      assert intro + body == intro;
      Opened(intro, Osc);
    } else {
      HeldOsc(intro, Front(body));
      assert intro + body == intro + Front(body) + [Last(body)];
      RunSnoc(GROUND, intro + Front(body), Last(body));
    }
  }

  lemma {:induction false} Opened(intro: seq<byte>, mode: Mode)
    requires (mode == Csi && CsiIntroducer(intro)) || (mode == Osc && OscIntroducer(intro))
    ensures Run(GROUND, intro) == Fed(Lexer(mode, intro), [])
  {
    RunSnoc(GROUND, [], intro[0]);
    assert [] + [intro[0]] == [intro[0]];
    if |intro| == 2 {
      RunSnoc(GROUND, [intro[0]], intro[1]);
      assert [intro[0]] + [intro[1]] == intro;
    } else {
      assert [intro[0]] == intro;
    }
  }
}
