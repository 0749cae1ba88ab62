/** The stripper's output read again: exactly when it reads back as the pieces that passed, and how pieces fuse
    into a new query when it does not. */
module StrippedOutput {
  import opened Bytes
  import opened VtTokens
  import opened QueryStripper

  // ---------------------------------------------------------------- reading is local

  lemma {:induction false} CsiEndOnPrefix(a: seq<byte>, b: seq<byte>, i: nat)
    requires a <= b && i <= |a|
    ensures CsiEnd(a, i) == if CsiEnd(b, i).Some? && CsiEnd(b, i).value < |a| then CsiEnd(b, i) else None
    decreases |a| - i
  {
    if i < |a| && !IsFinal(a[i]) && i < CSI_LIMIT {
      CsiEndOnPrefix(a, b, i + 1);
    }
  }

  lemma {:induction false} OscEndOnPrefix(a: seq<byte>, b: seq<byte>, i: nat)
    requires a <= b && i <= |a|
    ensures OscEnd(a, i) == if OscEnd(b, i).Some? && OscEnd(b, i).value < |a| then OscEnd(b, i) else None
    decreases |a| - i
  {
    if i < |a| && a[i] !in {BEL, ST8, ESC} && i < OSC_LIMIT {
      OscEndOnPrefix(a, b, i + 1);
    }
  }

  lemma CsiTokenMonotone(a: seq<byte>, b: seq<byte>, i: nat)
    requires a <= b && i <= |a| && CsiToken(a, i).Some?
    ensures CsiToken(b, i) == CsiToken(a, i)
  {
    CsiEndOnPrefix(a, b, i);
    assert b[..CsiEnd(a, i).value + 1] == a[..CsiEnd(a, i).value + 1];
  }

  lemma OscTokenMonotone(a: seq<byte>, b: seq<byte>, i: nat)
    requires a <= b && i <= |a| && OscToken(a, i).Some?
    ensures OscToken(b, i) == OscToken(a, i)
  {
    OscEndOnPrefix(a, b, i);
    var j := OscEnd(a, i).value;
    assert b[..j] == a[..j] && b[..j + 1] == a[..j + 1] && (j + 2 <= |a| ==> b[..j + 2] == a[..j + 2]);
  }

  /** A token complete in a string stays the first token whatever follows. */
  lemma FirstMonotone(a: seq<byte>, rest: seq<byte>)
    requires a != [] && FirstToken(a, true).Some?
    ensures FirstToken(a + rest, true) == FirstToken(a, true)
  {
    var b := a + rest;
    if a[0] == ESC {
      assert b[1] == a[1] && b[..2] == a[..2];
      if a[1] == LBRACKET {
        CsiTokenMonotone(a, b, 2);
      } else if a[1] == RBRACKET {
        OscTokenMonotone(a, b, 2);
      }
    } else if a[0] == CSI8 {
      CsiTokenMonotone(a, b, 1);
    } else if a[0] == OSC8 {
      OscTokenMonotone(a, b, 1);
    } else {
      assert b[..1] == a[..1];
    }
  }

  /** A control string not yet terminated. */
  ghost predicate OpenOsc(p: seq<byte>) {
    || (|p| >= 1 && p[0] == OSC8 && OscEnd(p, 1) == None)
    || (|p| >= 2 && p[0] == ESC && p[1] == RBRACKET && OscEnd(p, 2) == None)
  }

  /** A token read from its own bytes. */
  predicate Whole(t: Token) {
    t.bytes != [] && FirstToken(t.bytes, true) == Some(t)
  }

  /** A token whose own bytes are incomplete: a control string broken off by a stray ESC. */
  predicate Broken(t: Token) {
    t.bytes != [] && FirstToken(t.bytes, true) == None
  }

  /** Every token of a string is either whole, or a control string broken off. */
  ghost predicate Genuine(t: Token) {
    Whole(t) || (t.kind == Overrun && OpenOsc(t.bytes))
  }

  lemma OpenOscIsBroken(p: seq<byte>)
    requires OpenOsc(p)
    ensures Broken(Token(Overrun, p))
  {
  }

  lemma CsiTokenWhole(s: seq<byte>, i: nat)
    requires i <= |s| && CsiToken(s, i).Some?
    ensures CsiToken(CsiToken(s, i).value.bytes, i) == CsiToken(s, i)
  {
    var j := CsiEnd(s, i).value;
    CsiEndOnPrefix(s[..j + 1], s, i);
    assert s[..j + 1][..j + 1] == s[..j + 1];
  }

  lemma OscTokenGenuine(s: seq<byte>, i: nat)
    requires i <= |s| && OscToken(s, i).Some?
    ensures var t := OscToken(s, i).value;
      && i <= |t.bytes| && t.bytes <= s
      && (OscToken(t.bytes, i) == Some(t) || (t.kind == Overrun && OscEnd(t.bytes, i) == None))
  {
    var j := OscEnd(s, i).value;
    var p := OscToken(s, i).value.bytes;
    OscEndOnPrefix(p, s, i);
    assert p[..|p|] == p;
  }

  lemma FirstGenuine(s: seq<byte>)
    requires s != [] && FirstToken(s, true).Some?
    ensures Genuine(FirstToken(s, true).value)
  {
    var p := FirstToken(s, true).value.bytes;
    assert p[0] == s[0] && (|p| > 1 ==> p[1] == s[1]);
    if s[0] == ESC {
      if s[1] == LBRACKET {
        CsiTokenWhole(s, 2);
      } else if s[1] == RBRACKET {
        OscTokenGenuine(s, 2);
      } else {
        assert p[..2] == p;
      }
    } else if s[0] == CSI8 {
      CsiTokenWhole(s, 1);
    } else if s[0] == OSC8 {
      OscTokenGenuine(s, 1);
    } else {
      assert p[..1] == p;
    }
  }

  lemma {:induction false} TokensGenuine(s: seq<byte>)
    ensures forall t | t in Tokens(s, true) :: Genuine(t)
    decreases |s|
  {
    if s != [] && FirstToken(s, true).Some? {
      FirstGenuine(s);
      TokensGenuine(s[|FirstToken(s, true).value.bytes|..]);
    }
  }

  lemma {:induction false} OscEndNone(p: seq<byte>, i: nat)
    requires i <= |p| && OscEnd(p, i) == None
    ensures forall k | i <= k < |p| :: p[k] !in {BEL, ST8, ESC}
    ensures i <= OSC_LIMIT ==> |p| <= OSC_LIMIT
    decreases |p| - i
  {
    if i < |p| {
      OscEndNone(p, i + 1);
    }
  }

  /** Starts with ESC, but not with the string terminator ESC \. */
  predicate StartsEscape(s: seq<byte>) {
    |s| >= 2 && s[0] == ESC && s[1] != BACKSLASH
  }

  /** An open control string is broken off exactly by what starts a new escape sequence. */
  lemma BrokenOffIff(p: seq<byte>, rest: seq<byte>)
    requires OpenOsc(p)
    ensures FirstToken(p + rest, true) == Some(Token(Overrun, p)) <==> StartsEscape(rest)
  {
    var s, i := p + rest, if p[0] == ESC then 2 else 1;
    assert s[0] == p[0] && (|p| > 1 ==> s[1] == p[1]);
    OscEndNone(p, i);
    OscEndOnPrefix(p, s, i);
    assert rest != [] ==> s[|p|] == rest[0];
    if rest != [] && rest[0] == ESC {
      OscEndAt(s, i, |p|);
      assert |rest| > 1 ==> s[|p| + 1] == rest[1];
      assert s[..|p|] == p;
    }
  }

  // ---------------------------------------------------------------- the pieces that pass

  /** The tokens of which something passes. */
  function Kept(ts: seq<Token>): seq<Token> {
    if ts == [] then [] else (if Render(ts[0]) == [] then [] else [ts[0]]) + Kept(ts[1..])
  }

  /** All but a broken token at the very end. */
  function Complete(ks: seq<Token>): seq<Token> {
    if ks == [] || (|ks| == 1 && Broken(ks[0])) then [] else [ks[0]] + Complete(ks[1..])
  }

  /** The bytes of a broken token at the very end. */
  function Trailing(ks: seq<Token>): seq<byte> {
    if ks != [] && Broken(Last(ks)) then Last(ks).bytes else []
  }

  /** No kept piece can fuse with the next: none is an ESC that has lost its ENQ, and every control string
      broken off is last, or followed by a kept piece that starts a new escape sequence. */
  predicate Unfused(ks: seq<Token>) {
    forall i | 0 <= i < |ks| ::
      ks[i].bytes != [ESC, ENQ] && (Broken(ks[i]) && i + 1 < |ks| ==> StartsEscape(ks[i + 1].bytes))
  }

  lemma UnfusedCons(ks: seq<Token>)
    requires ks != []
    ensures Unfused(ks) <==>
      && ks[0].bytes != [ESC, ENQ] && (Broken(ks[0]) && |ks| > 1 ==> StartsEscape(ks[1].bytes))
      && Unfused(ks[1..])
  {
    var more := ks[1..];
    assert forall i | 0 <= i < |more| :: more[i] == ks[i + 1];
    if Unfused(more) {
      forall i | 1 <= i < |ks|
        ensures ks[i].bytes != [ESC, ENQ] && (Broken(ks[i]) && i + 1 < |ks| ==> StartsEscape(ks[i + 1].bytes))
      {
        assert more[i - 1] == ks[i] && (i + 1 < |ks| ==> more[i] == ks[i + 1]);
      }
    }
    if Unfused(ks) {
      forall i | 0 <= i < |more|
        ensures more[i].bytes != [ESC, ENQ] && (Broken(more[i]) && i + 1 < |more| ==> StartsEscape(more[i + 1].bytes))
      {
        assert more[i] == ks[i + 1] && (i + 1 < |more| ==> more[i + 1] == ks[i + 2]);
      }
    }
  }

  /** What passes of a kept token. */
  function Passed(k: Token): seq<byte> {
    if k.bytes == [ESC, ENQ] then [ESC] else k.bytes
  }

  function PassedAll(ks: seq<Token>): seq<byte> {
    if ks == [] then [] else Passed(ks[0]) + PassedAll(ks[1..])
  }

  lemma RenderIsPassed(k: Token)
    requires Genuine(k)
    ensures Render(k) == [] || Render(k) == Passed(k)
    ensures k.bytes == [ENQ] ==> Render(k) == []
  {
    OnlyQueriesDropped(k);
  }

  /** A list of tokens as they are kept from some input. */
  ghost predicate Pieces(ks: seq<Token>) {
    forall k | k in ks :: Genuine(k) && k.bytes != [ENQ]
  }

  lemma KeptStep(t: Token, more: seq<Token>)
    requires Genuine(t) && Pieces(more)
    ensures var ks := (if Render(t) == [] then [] else [t]) + more;
      Pieces(ks) && PassedAll(ks) == Render(t) + PassedAll(more)
  {
    RenderIsPassed(t);
    assert ([t] + more)[1..] == more && [] + more == more;
  }

  lemma {:induction false} RenderKept(ts: seq<Token>)
    requires forall t | t in ts :: Genuine(t)
    ensures RenderAll(ts) == PassedAll(Kept(ts)) && Pieces(Kept(ts))
  {
    if ts != [] {
      RenderKept(ts[1..]);
      KeptStep(ts[0], Kept(ts[1..]));
    }
  }

  lemma {:induction false} KeptPasses(ts: seq<Token>)
    ensures forall k | k in Kept(ts) :: Render(k) != []
  {
    if ts != [] {
      KeptPasses(ts[1..]);
    }
  }

  lemma FirstByte(k: Token)
    requires Genuine(k)
    ensures k.bytes != [] && (|k.bytes| == 1 ==> k.bytes[0] != ESC) && (k.bytes[0] == ENQ ==> k.bytes == [ENQ])
  {
  }

  /** What the output of a non-empty list starts with. */
  lemma Head(ks: seq<Token>)
    requires Pieces(ks) && ks != []
    ensures var out := PassedAll(ks);
      && out != [] && out[0] != ENQ
      && (ks[0].bytes != [ESC, ENQ] ==> (StartsEscape(out) <==> StartsEscape(ks[0].bytes)))
  {
    assert ks[0] in ks;
    FirstByte(ks[0]);
  }

  lemma LostEnq(k: Token, rest: seq<byte>)
    requires Genuine(k) && k.bytes == [ESC, ENQ] && (rest == [] || rest[0] != ENQ)
    ensures !Broken(k) && FirstToken([ESC] + rest, true) != Some(k)
  {
    var s := [ESC] + rest;
    assert |s| >= 2 ==> s[..2][1] == s[1] == rest[0];
  }

  lemma WholeOrBroken(k: Token, rest: seq<byte>)
    requires Genuine(k)
    ensures !Broken(k) ==> FirstToken(k.bytes + rest, true) == Some(k)
    ensures Broken(k) ==> (FirstToken(k.bytes + rest, true) == Some(k) <==> StartsEscape(rest))
  {
    if Whole(k) {
      FirstMonotone(k.bytes, rest);
    } else {
      BrokenOffIff(k.bytes, rest);
      OpenOscIsBroken(k.bytes);
    }
  }

  /** Reading the output: when its first token is the first kept piece. */
  lemma FirstReadsBack(ks: seq<Token>)
    requires Pieces(ks) && ks != []
    ensures var k, out, rest := ks[0], PassedAll(ks), PassedAll(ks[1..]);
      && out != [] && k.bytes != []
      && (k.bytes == [ESC, ENQ] ==> !Broken(k) && FirstToken(out, true) != Some(k))
      && (k.bytes != [ESC, ENQ] ==> out == k.bytes + rest)
      && (k.bytes != [ESC, ENQ] && !Broken(k) ==> FirstToken(out, true) == Some(k))
      && (k.bytes != [ESC, ENQ] && Broken(k) ==> (FirstToken(out, true) == Some(k) <==> StartsEscape(rest)))
  {
    var k, rest := ks[0], PassedAll(ks[1..]);
    assert k in ks;
    FirstByte(k);
    if k.bytes == [ESC, ENQ] {
      if ks[1..] != [] {
        Head(ks[1..]);
      }
      LostEnq(k, rest);
    } else {
      WholeOrBroken(k, rest);
    }
  }

  /** A list is unfused when its first piece reads back and the others are unfused. */
  lemma UnfusedStep(ks: seq<Token>)
    requires Pieces(ks) && ks != [] && (|ks| > 1 || !Broken(ks[0]))
    ensures PassedAll(ks) != [] && ks[0].bytes != []
    ensures Unfused(ks) <==> FirstToken(PassedAll(ks), true) == Some(ks[0]) && Unfused(ks[1..])
    ensures Unfused(ks) ==> PassedAll(ks) == ks[0].bytes + PassedAll(ks[1..])
    ensures FirstToken(PassedAll(ks), true) == Some(ks[0]) ==> PassedAll(ks) == ks[0].bytes + PassedAll(ks[1..])
  {
    FirstReadsBack(ks);
    UnfusedCons(ks);
    if |ks| > 1 {
      Head(ks[1..]);
      UnfusedCons(ks[1..]);
    }
  }

  lemma BrokenAlone(k: Token)
    requires Pieces([k]) && Broken(k)
    ensures PassedAll([k]) == k.bytes && Unfused([k])
    ensures Tokens(k.bytes, true) == [] == Complete([k]) && Rest(k.bytes, true) == k.bytes == Trailing([k])
  {
    assert k in [k];
  }

  /** The output of a list of pieces reads back as those pieces if and only if none can fuse. */
  lemma {:induction false} PiecesReadBack(ks: seq<Token>)
    requires Pieces(ks)
    ensures Tokens(PassedAll(ks), true) == Complete(ks) <==> Unfused(ks)
    ensures Unfused(ks) ==> Rest(PassedAll(ks), true) == Trailing(ks)
    decreases |ks|
  {
    if |ks| == 1 && Broken(ks[0]) {
      assert ks == [ks[0]];
      BrokenAlone(ks[0]);
    } else if ks != [] {
      UnfusedStep(ks);
      PiecesReadBack(ks[1..]);
      if FirstToken(PassedAll(ks), true) == Some(ks[0]) {
        ReadsOn(ks);
      } else {
        NotFirst(ks);
      }
    }
  }

  lemma {:induction false} NotFirst(ks: seq<Token>)
    requires ks != [] && PassedAll(ks) != [] && (|ks| > 1 || !Broken(ks[0]))
    requires FirstToken(PassedAll(ks), true) != Some(ks[0])
    ensures Tokens(PassedAll(ks), true) != Complete(ks)
  {
    assert Complete(ks)[0] == ks[0];
  }

  /** After the first piece, reading goes on with the others. */
  lemma {:induction false} ReadsOn(ks: seq<Token>)
    requires ks != [] && ks[0].bytes != []
    requires var k, out := ks[0], PassedAll(ks);
      out == k.bytes + PassedAll(ks[1..]) && out != [] && FirstToken(out, true) == Some(k) && (|ks| == 1 ==> !Broken(k))
    ensures var out, more, rest := PassedAll(ks), ks[1..], PassedAll(ks[1..]);
      && (Tokens(out, true) == Complete(ks) <==> Tokens(rest, true) == Complete(more))
      && Rest(out, true) == Rest(rest, true) && Trailing(ks) == Trailing(more)
  {
    TokensStep(ks[0], PassedAll(ks[1..]));
    SameTail(ks[0], Tokens(PassedAll(ks[1..]), true), Complete(ks[1..]));
    TrailingStep(ks);
  }

  lemma {:induction false} TrailingStep(ks: seq<Token>)
    requires ks != [] && (|ks| == 1 ==> !Broken(ks[0]))
    ensures Trailing(ks) == Trailing(ks[1..])
  {
    assert ks[1..] != [] ==> Last(ks[1..]) == Last(ks);
  }

  lemma {:induction false} TokensStep(k: Token, rest: seq<byte>)
    requires k.bytes != [] && FirstToken(k.bytes + rest, true) == Some(k)
    ensures Tokens(k.bytes + rest, true) == [k] + Tokens(rest, true)
    ensures Rest(k.bytes + rest, true) == Rest(rest, true)
  {
    assert (k.bytes + rest)[|k.bytes|..] == rest;
  }

  lemma SameTail(k: Token, a: seq<Token>, b: seq<Token>)
    ensures [k] + a == [k] + b <==> a == b
  {
    assert ([k] + a)[1..] == a && ([k] + b)[1..] == b;
  }

  /** For every input: the output read again is exactly the kept pieces, up to a control string still open at
      its end, if and only if no kept piece can fuse with the next. */
  lemma ReadsBackIff(s: seq<byte>)
    ensures var ks, out := Kept(Tokens(s, true)), Run(GROUND, s).out;
      && (Tokens(out, true) == Complete(ks) <==> Unfused(ks))
      && (Unfused(ks) ==> Rest(out, true) == Trailing(ks))
  {
    LexRefines(s, true);
    TokensGenuine(s);
    RenderKept(Tokens(s, true));
    PiecesReadBack(Kept(Tokens(s, true)));
  }

  lemma {:induction false} CompleteSubset(ks: seq<Token>)
    ensures forall k | k in Complete(ks) :: k in ks
  {
    if ks != [] {
      CompleteSubset(ks[1..]);
    }
  }

  lemma {:induction false} RenderUnchanged(ts: seq<Token>)
    requires forall t | t in ts :: Render(t) == t.bytes
    ensures RenderAll(ts) == Spell(ts)
  {
    if ts != [] {
      RenderUnchanged(ts[1..]);
    }
  }

  /** Then no token of the output is an ENQ or a query, and stripping the output again passes all of it. */
  lemma CleanWhenUnfused(s: seq<byte>)
    requires Unfused(Kept(Tokens(s, true)))
    ensures var out := Run(GROUND, s).out;
      && (forall t | t in Tokens(out, true) :: Render(t) == t.bytes != [])
      && Run(GROUND, out).out + InFlight(Run(GROUND, out).st) == out
  {
    var ks, out := Kept(Tokens(s, true)), Run(GROUND, s).out;
    ReadsBackIff(s);
    TokensGenuine(s);
    RenderKept(Tokens(s, true));
    KeptPasses(Tokens(s, true));
    CompleteSubset(ks);
    forall t | t in Tokens(out, true) ensures Render(t) == t.bytes != [] {
      var i :| 0 <= i < |ks| && ks[i] == t;
      RenderIsPassed(ks[i]);
    }
    RenderUnchanged(Tokens(out, true));
    TokensSpell(out, true);
    LexRefines(out, true);
  }

  // ---------------------------------------------------------------- from the first fused piece on

  /** The piece fuses with what follows: it is an ESC that has lost its ENQ, or a control string broken off that
      the following output does not break off again. */
  predicate FusesAt(ks: seq<Token>, i: nat)
    requires i < |ks|
  {
    || ks[i].bytes == [ESC, ENQ]
    || (Broken(ks[i]) && i + 1 < |ks| && !StartsEscape(PassedAll(ks[i + 1..])))
  }

  ghost predicate FirstFused(ks: seq<Token>, n: nat) {
    n < |ks| && FusesAt(ks, n) && forall i | 0 <= i < n :: !FusesAt(ks, i)
  }

  lemma FusesLater(ks: seq<Token>, i: nat)
    requires i + 1 < |ks|
    ensures FusesAt(ks[1..], i) <==> FusesAt(ks, i + 1)
  {
    assert ks[1..][i] == ks[i + 1] && (i + 2 < |ks| ==> ks[1..][i + 1..] == ks[i + 2..]);
  }

  lemma {:induction false} ReadsStep(ks: seq<Token>)
    requires Pieces(ks) && |ks| > 1 && !FusesAt(ks, 0)
    ensures Tokens(PassedAll(ks), true) == [ks[0]] + Tokens(PassedAll(ks[1..]), true)
  {
    FirstReadsBack(ks);
    TokensStep(ks[0], PassedAll(ks[1..]));
  }

  lemma NoneFusesLater(ks: seq<Token>, n: nat)
    requires 0 < n < |ks| && forall i | 0 <= i < n :: !FusesAt(ks, i)
    ensures forall i | 0 <= i < n - 1 :: !FusesAt(ks[1..], i)
  {
    forall i | 0 <= i < n - 1 ensures !FusesAt(ks[1..], i) {
      FusesLater(ks, i);
    }
  }

  lemma Resplit(ks: seq<Token>, n: nat)
    requires 0 < n < |ks|
    ensures ks[1..][n - 1..] == ks[n..] && [ks[0]] + ks[1..][..n - 1] == ks[..n]
  {
  }

  /** Up to a piece, if none before it fuses, the output reads back piece by piece. */
  lemma {:induction false} ReadsUpTo(ks: seq<Token>, n: nat)
    requires Pieces(ks) && n < |ks| && forall i | 0 <= i < n :: !FusesAt(ks, i)
    ensures Tokens(PassedAll(ks), true) == ks[..n] + Tokens(PassedAll(ks[n..]), true)
    decreases n
  {
    if n == 0 {
      assert ks[0..] == ks && ks[..0] == [];
    } else {
      NoneFusesLater(ks, n);
      ReadsUpTo(ks[1..], n - 1);
      ReadsStep(ks);
      Resplit(ks, n);
      Prepend(ks[0], Tokens(PassedAll(ks), true), Tokens(PassedAll(ks[1..]), true), ks[1..][..n - 1],
              Tokens(PassedAll(ks[n..]), true));
    }
  }

  lemma Prepend(k: Token, all: seq<Token>, more: seq<Token>, front: seq<Token>, tail: seq<Token>)
    requires all == [k] + more && more == front + tail
    ensures all == [k] + front + tail
  {
  }

  lemma TailPieces(ks: seq<Token>, i: nat)
    requires Pieces(ks) && i < |ks|
    ensures Pieces(ks[i..]) && ks[i..][0] == ks[i]
  {
  }

  /** Pieces are unfused exactly if none fuses. */
  lemma UnfusedIffNoneFuses(ks: seq<Token>)
    requires Pieces(ks)
    ensures Unfused(ks) <==> forall i | 0 <= i < |ks| :: !FusesAt(ks, i)
  {
    forall j | 1 <= j < |ks| && ks[j].bytes != [ESC, ENQ]
      ensures StartsEscape(PassedAll(ks[j..])) <==> StartsEscape(ks[j].bytes)
    {
      TailPieces(ks, j);
      Head(ks[j..]);
    }
    if Unfused(ks) {
      forall i | 0 <= i < |ks| ensures !FusesAt(ks, i) {
        assert i + 1 < |ks| ==> ks[i + 1].bytes != [ESC, ENQ];
      }
    } else {
      var i :| 0 <= i < |ks| &&
        !(ks[i].bytes != [ESC, ENQ] && (Broken(ks[i]) && i + 1 < |ks| ==> StartsEscape(ks[i + 1].bytes)));
      if i + 1 < |ks| && ks[i + 1].bytes == [ESC, ENQ] {
        assert FusesAt(ks, i + 1);
      } else {
        assert FusesAt(ks, i);
      }
    }
  }

  /** Read again, the string holds an ENQ or a query. */
  ghost predicate HoldsQuery(out: seq<byte>) {
    exists t :: t in Tokens(out, true) && Render(t) != t.bytes
  }

  lemma {:induction false} FirstOf(ks: seq<Token>, n: nat) returns (m: nat)
    requires n < |ks| && FusesAt(ks, n)
    ensures FirstFused(ks, m)
    decreases n
  {
    if i :| 0 <= i < n && FusesAt(ks, i) {
      m := FirstOf(ks, i);
    } else {
      m := n;
    }
  }

  lemma {:induction false} KeptPieces(s: seq<byte>)
    ensures var ks := Kept(Tokens(s, true));
      Pieces(ks) && Run(GROUND, s).out == PassedAll(ks) && forall k | k in ks :: Render(k) == Passed(k)
  {
    LexRefines(s, true);
    TokensGenuine(s);
    RenderKept(Tokens(s, true));
    KeptPasses(Tokens(s, true));
    forall k | k in Kept(Tokens(s, true)) ensures Render(k) == Passed(k) {
      RenderIsPassed(k);
    }
  }

  lemma {:induction false} TailDecides(ks: seq<Token>, n: nat)
    requires Pieces(ks) && FirstFused(ks, n) && forall k | k in ks :: Render(k) == Passed(k)
    ensures Tokens(PassedAll(ks), true) == ks[..n] + Tokens(PassedAll(ks[n..]), true)
    ensures HoldsQuery(PassedAll(ks)) <==> HoldsQuery(PassedAll(ks[n..]))
  {
    ReadsUpTo(ks, n);
    forall t | t in ks[..n] ensures Render(t) == t.bytes {
      var i :| 0 <= i < n && ks[i] == t;
      assert !FusesAt(ks, i);
    }
  }

  /** For every input: the output read again is the kept pieces before the first fused one, and then whatever the
      rest of the output reads as; it holds an ENQ or a query if and only if some piece fuses and the output from
      the first such piece on holds one. */
  lemma {:induction false} QueryIffFusedTail(s: seq<byte>)
    ensures var ks, out := Kept(Tokens(s, true)), Run(GROUND, s).out;
      && (forall n: nat | FirstFused(ks, n) :: Tokens(out, true) == ks[..n] + Tokens(PassedAll(ks[n..]), true))
      && (HoldsQuery(out) <==> exists n: nat :: FirstFused(ks, n) && HoldsQuery(PassedAll(ks[n..])))
  {
    var ks, out := Kept(Tokens(s, true)), Run(GROUND, s).out;
    KeptPieces(s);
    UnfusedIffNoneFuses(ks);
    forall n: nat | FirstFused(ks, n)
      ensures Tokens(out, true) == ks[..n] + Tokens(PassedAll(ks[n..]), true)
      ensures HoldsQuery(out) <==> HoldsQuery(PassedAll(ks[n..]))
    {
      TailDecides(ks, n);
    }
    if Unfused(ks) {
      CleanWhenUnfused(s);
    } else {
      var i :| 0 <= i < |ks| && FusesAt(ks, i);
      var n := FirstOf(ks, i);
    }
  }

  // ---------------------------------------------------------------- how pieces fuse into a query

  predicate PlainText(p: seq<byte>) {
    forall i | 0 <= i < |p| :: p[i] !in {ENQ, ESC, CSI8, OSC8}
  }

  lemma {:induction false} PlainPasses(p: seq<byte>)
    requires PlainText(p)
    ensures Run(GROUND, p) == Fed(GROUND, p)
  {
    if p != [] {
      PlainPasses(Front(p));
      RunSnoc(GROUND, Front(p), Last(p));
      RenderOne(Token(PlainByte, [Last(p)]));
      assert p == Front(p) + [Last(p)];
    }
  }

  /** The parameters of a query are plain text without final bytes. */
  lemma QueryIsPlain(params: seq<byte>, final: byte)
    requires CsiVerdict(params, final)
    ensures IsFinal(final) && PlainText(params + [final])
    ensures forall i | 0 <= i < |params| :: !IsFinal(params[i])
  {
    var n := |params|;
    assert forall i | 0 <= i < n :: params[i] in {0x24, 0x3d, 0x3e, QUESTION} || IsDigit(params[i]) by {
      if ParamsAreDSR(params) && n >= 2 && params[0] == QUESTION {
        assert forall i | 1 <= i < n :: params[i] == params[1..][i - 1];
      }
      if ParamsAreDECRQM(params) {
        assert forall i | 1 <= i < n - 1 :: params[i] == params[1..n - 1][i - 1];
      }
    }
    assert forall i | 0 <= i < n + 1 :: (params + [final])[i] == if i < n then params[i] else final;
  }

  /** A query of either introducer form is dropped from the ground state. */
  lemma QueryDropped(params: seq<byte>, final: byte)
    requires CsiVerdict(params, final) && 2 + |params| <= CSI_LIMIT
    ensures Run(GROUND, [ESC, LBRACKET] + params + [final]) == Fed(GROUND, [])
  {
    QueryIsPlain(params, final);
    CsiFormIndependent([ESC, LBRACKET], params, final);
  }

  lemma EscEnqRuns()
    ensures Run(GROUND, [ESC, ENQ]) == Fed(GROUND, [ESC])
  {
    var t := Token(EscPair, [ESC, ENQ]);
    assert IsToken([ESC, ENQ], true, EscPair) by { assert [ESC, ENQ][..2] == [ESC, ENQ]; }
    LexOneToken([ESC, ENQ], true, EscPair);
    RenderOne(t);
  }

  /** An ESC that has lost its ENQ turns plain text into a query, for every query. */
  lemma FusedByEnq(params: seq<byte>, final: byte)
    requires CsiVerdict(params, final) && 2 + |params| <= CSI_LIMIT
    ensures var query := [ESC, LBRACKET] + params + [final];
      && Run(GROUND, [ESC, ENQ, LBRACKET] + params + [final]) == Fed(GROUND, query)
      && Run(GROUND, query) == Fed(GROUND, [])
  {
    var text := [LBRACKET] + (params + [final]);
    QueryIsPlain(params, final);
    assert PlainText(text);
    PlainPasses(text);
    EscEnqRuns();
    RunThen(GROUND, [ESC, ENQ], text, Fed(GROUND, [ESC]), Fed(GROUND, text));
    assert [ESC, ENQ] + text == [ESC, ENQ, LBRACKET] + params + [final];
    assert [ESC] + text == [ESC, LBRACKET] + params + [final];
    QueryDropped(params, final);
  }

  lemma TerminatorPasses(term: seq<byte>)
    requires OscTerminator(term)
    ensures Run(GROUND, term) == Fed(GROUND, term)
  {
    if |term| == 1 {
      PlainPasses(term);
    } else {
      assert term[..2] == term;
      LexOneToken(term, true, EscPair);
      RenderOne(Token(EscPair, term));
    }
  }

  /** A control string broken off passes as it is, and reading goes on after it. */
  lemma {:induction false} BrokenPasses(p: seq<byte>, rest: seq<byte>, r: Fed)
    requires OpenOsc(p) && StartsEscape(rest) && Run(GROUND, rest) == r
    ensures Run(GROUND, p + rest) == Fed(r.st, p + r.out)
  {
    BrokenLexed(p, rest);
    RenderAppend([Token(Overrun, p)], Lex(GROUND, rest, true).tokens);
    RenderOne(Token(Overrun, p));
  }

  lemma {:induction false} BrokenLexed(p: seq<byte>, rest: seq<byte>)
    requires OpenOsc(p) && StartsEscape(rest)
    ensures var l := Lex(GROUND, rest, true);
      Lex(GROUND, p + rest, true) == Lexed(l.st, [Token(Overrun, p)] + l.tokens)
  {
    BrokenOffIff(p, rest);
    FirstConsumed(p + rest, true);
    assert [] + (p + rest) == p + rest && (p + rest)[|p|..] == rest;
  }

  lemma OpenOscIs(intro: seq<byte>, a: seq<byte>)
    requires OscIntroducer(intro) && |intro| + |a| <= OSC_LIMIT
    requires forall i | 0 <= i < |a| :: a[i] !in {BEL, ST8, ESC}
    ensures OpenOsc(intro + a)
  {
    var p, s := intro + a, intro + a + [BEL];
    assert forall k | |intro| <= k < |p| :: s[k] == a[k - |intro|];
    OscEndAt(s, |intro|, |p|);
    OscEndOnPrefix(p, s, |intro|);
  }

  /** Text in two halves without control characters or string terminators. */
  predicate BodyText(p: seq<byte>) {
    PlainText(p) && BEL !in p && ST8 !in p
  }

  /** A query inside a control string breaks it off and is dropped, and the text after it completes the
      string: a colour query cut in two by any other query comes out whole. */
  lemma FusedByQuery(intro: seq<byte>, a: seq<byte>, params: seq<byte>, final: byte, b: seq<byte>, term: seq<byte>)
    requires OscIntroducer(intro) && OscTerminator(term) && OscVerdict(a + b) && |intro| + |a + b| <= OSC_LIMIT
    requires CsiVerdict(params, final) && 2 + |params| <= CSI_LIMIT && BodyText(a) && BodyText(b)
    ensures var query := [ESC, LBRACKET] + params + [final];
      && Run(GROUND, intro + a + (query + (b + term))) == Fed(GROUND, intro + (a + b) + term)
      && Run(GROUND, intro + (a + b) + term) == Fed(GROUND, [])
  {
    var query := [ESC, LBRACKET] + params + [final];
    QueryDropped(params, final);
    CompletedBy(intro, a, query, b, term);
    assert forall i | 0 <= i < |a + b| :: (a + b)[i] in a || (a + b)[i] in b;
    OscFormIndependent(intro, a + b, term);
  }

  lemma CompletedBy(intro: seq<byte>, a: seq<byte>, query: seq<byte>, b: seq<byte>, term: seq<byte>)
    requires OscIntroducer(intro) && OscTerminator(term) && |intro| + |a| <= OSC_LIMIT && BodyText(a) && BodyText(b)
    requires StartsEscape(query) && Run(GROUND, query) == Fed(GROUND, [])
    ensures Run(GROUND, intro + a + (query + (b + term))) == Fed(GROUND, intro + (a + b) + term)
  {
    TailPasses(query, b, term);
    OpenOscIs(intro, a);
    BrokenPasses(intro + a, query + (b + term), Fed(GROUND, b + term));
    Regroup(intro, a, b, term);
  }

  lemma Regroup(intro: seq<byte>, a: seq<byte>, b: seq<byte>, term: seq<byte>)
    ensures intro + a + (b + term) == intro + (a + b) + term
  {
  }

  lemma TailPasses(query: seq<byte>, b: seq<byte>, term: seq<byte>)
    requires OscTerminator(term) && PlainText(b) && Run(GROUND, query) == Fed(GROUND, [])
    ensures Run(GROUND, query + (b + term)) == Fed(GROUND, b + term)
  {
    PlainPasses(b);
    TerminatorPasses(term);
    RunThen(GROUND, b, term, Fed(GROUND, b), Fed(GROUND, term));
    RunThen(GROUND, query, b + term, Fed(GROUND, []), Fed(GROUND, b + term));
    assert [] + (b + term) == b + term;
  }

  /** `ESC ENQ [ c` comes out as the device-attributes query `ESC [ c`. */
  lemma EnqExample(s: seq<byte>, out: seq<byte>)
    requires s == [ESC, ENQ, LBRACKET, 0x63] && out == [ESC, LBRACKET, 0x63]
    ensures Run(GROUND, s).out == out && Run(GROUND, out).out == [] && !Unfused(Kept(Tokens(s, true)))
  {
    FusedByEnq([], 0x63);
    assert s == [ESC, ENQ, LBRACKET] + [] + [0x63] && out == [ESC, LBRACKET] + [] + [0x63];
    NotClean(s);
  }

  lemma ColourQuery(a: seq<byte>, b: seq<byte>)
    requires a == [0x31, 0x31, SEMICOLON] && b == [QUESTION]
    ensures OscVerdict(a + b)
  {
    FirstField(a + b, 2);
    FirstField(b, 1);
    assert (a + b)[..2] == [0x31, 0x31] && (a + b)[3..] == b;
    assert Fields(a + b, SEMICOLON)[1..] == [b];
  }

  /** `ESC ] 11; ESC [ c ? BEL` comes out as the colour query `ESC ] 11;? BEL`. */
  lemma QueryExample(s: seq<byte>, out: seq<byte>)
    requires s == [ESC, RBRACKET, 0x31, 0x31, SEMICOLON, ESC, LBRACKET, 0x63, QUESTION, BEL]
    requires out == [ESC, RBRACKET, 0x31, 0x31, SEMICOLON, QUESTION, BEL]
    ensures Run(GROUND, s).out == out && Run(GROUND, out).out == [] && !Unfused(Kept(Tokens(s, true)))
  {
    var intro, a, b := [ESC, RBRACKET], [0x31, 0x31, SEMICOLON], [QUESTION];
    ColourQuery(a, b);
    var query := [ESC, LBRACKET] + [] + [0x63];
    assert s == intro + a + (query + (b + [BEL])) && out == intro + (a + b) + [BEL];
    assert Run(GROUND, s) == Fed(GROUND, out) && Run(GROUND, out) == Fed(GROUND, []) by {
      FusedByQuery(intro, a, [], 0x63, b, [BEL]);
    }
    NotClean(s);
  }

  lemma NotClean(s: seq<byte>)
    requires var out := Run(GROUND, s).out; out != [] && Run(GROUND, out) == Fed(GROUND, [])
    ensures !Unfused(Kept(Tokens(s, true)))
  {
    if Unfused(Kept(Tokens(s, true))) {
      CleanWhenUnfused(s);
    }
  }
}
