/** Bytes, machine integers, little-endian fields and sequence helpers shared by every component. */
module Bytes {

  type byte = b: int | 0 <= b < 0x100
  type u16 = x: int | 0 <= x < 0x1_0000
  type u32 = x: int | 0 <= x < 0x1_0000_0000
  type u64 = x: int | 0 <= x < 0x1_0000_0000_0000_0000

  const TWO63: int := 0x8000_0000_0000_0000

  const ESC: byte := 0x1b
  const LBRACKET: byte := 0x5b
  const SEMICOLON: byte := 0x3b

  /** The final byte of a control sequence (section 5.4 of ECMA-48). */
  predicate IsFinal(b: byte) {
    0x40 <= b <= 0x7e
  }

  predicate IsDigit(b: byte) {
    0x30 <= b <= 0x39
  }

  predicate AllDigits(s: seq<byte>) {
    forall i | 0 <= i < |s| :: IsDigit(s[i])
  }

  datatype Option<+T> = None | Some(value: T)

  /** Unsigned 64-bit wrap-around. */
  function U64(x: int): u64 {
    x % 0x1_0000_0000_0000_0000
  }

  /** Truncating conversion to `uint16`. */
  function U16(x: int): u16 {
    x % 0x1_0000
  }

  /** Reinterpretation of an integer modulo 2^64 as a signed 64-bit value. */
  function Int64(x: int): int {
    (x + 0x8000_0000_0000_0000) % 0x1_0000_0000_0000_0000 - 0x8000_0000_0000_0000
  }

  /** Reinterpretation of an integer modulo 2^32 as a signed 32-bit value. */
  function Int32(x: int): int {
    (x + 0x8000_0000) % 0x1_0000_0000 - 0x8000_0000
  }

  function Le16(n: u16): seq<byte> {
    [n % 0x100, n / 0x100]
  }

  function Le32(n: u32): seq<byte> {
    [n % 0x100, n / 0x100 % 0x100, n / 0x1_0000 % 0x100, n / 0x100_0000]
  }

  function Le16At(s: seq<byte>, i: nat): u16
    requires i + 2 <= |s|
  {
    s[i] as int + 0x100 * s[i + 1] as int
  }

  function Le32At(s: seq<byte>, i: nat): u32
    requires i + 4 <= |s|
  {
    s[i] as int + 0x100 * s[i + 1] as int + 0x1_0000 * s[i + 2] as int + 0x100_0000 * s[i + 3] as int
  }

  lemma Le32RoundTrip(s: seq<byte>, i: nat, n: u32)
    requires i + 4 <= |s|
    requires s[i..i + 4] == Le32(n)
    ensures Le32At(s, i) == n
  {
    var le := s[i..i + 4];
    assert s[i] == le[0] && s[i + 1] == le[1] && s[i + 2] == le[2] && s[i + 3] == le[3];
    assert s[i] == n % 0x100 && s[i + 1] == n / 0x100 % 0x100;
    assert s[i + 2] == n / 0x1_0000 % 0x100 && s[i + 3] == n / 0x100_0000;
    assert n / 0x1_0000 == n / 0x100 / 0x100 && n / 0x100_0000 == n / 0x1_0000 / 0x100;
  }

  /** All the pieces, end to end. */
  function Concat<T>(pieces: seq<seq<T>>): seq<T> {
    if pieces == [] then [] else pieces[0] + Concat(pieces[1..])
  }

  lemma {:induction false} ConcatAppend<T>(a: seq<seq<T>>, b: seq<seq<T>>)
    ensures Concat(a + b) == Concat(a) + Concat(b)
  {
    if a == [] {
      assert a + b == b;
    } else {
      assert (a + b)[1..] == a[1..] + b;
      ConcatAppend(a[1..], b);
    }
  }

  lemma ConcatSnoc<T>(a: seq<seq<T>>, x: seq<T>)
    ensures Concat(a + [x]) == Concat(a) + x
  {
    ConcatAppend(a, [x]);
    assert Concat([x]) == x + Concat([x][1..]) == x;
  }

  /** `small` is obtained from `big` by deleting elements. */
  ghost predicate Subsequence<T>(small: seq<T>, big: seq<T>) {
    if small == [] then true
    else if big == [] then false
    else if Last(small) == Last(big) && Subsequence(Front(small), Front(big)) then true
    else Subsequence(small, Front(big))
  }

  /** Where each element of `small` stands in `big`. */
  ghost predicate Picks<T>(small: seq<T>, big: seq<T>, at: seq<nat>) {
    && |at| == |small| && (forall i | 0 <= i < |at| :: at[i] < |big| && small[i] == big[at[i]])
    && (forall i, j | 0 <= i < j < |at| :: at[i] < at[j])
  }

  lemma {:induction false} SubsequencePicks<T>(small: seq<T>, big: seq<T>) returns (at: seq<nat>)
    requires Subsequence(small, big)
    ensures Picks(small, big, at)
    decreases |big|
  {
    if small == [] {
      at := [];
    } else if Last(small) == Last(big) && Subsequence(Front(small), Front(big)) {
      var before := SubsequencePicks(Front(small), Front(big));
      at := before + [|big| - 1];
    } else {
      at := SubsequencePicks(small, Front(big));
    }
  }

  function Last<T>(s: seq<T>): T
    requires s != []
  {
    s[|s| - 1]
  }

  function Front<T>(s: seq<T>): seq<T>
    requires s != []
  {
    s[..|s| - 1]
  }

  /** The index of the first `sep` at or after `i`, or the end of `s`. */
  function FieldEnd(s: seq<byte>, sep: byte, i: nat): (j: nat)
    requires i <= |s|
    ensures i <= j <= |s|
    ensures forall k | i <= k < j :: s[k] != sep
    ensures j < |s| ==> s[j] == sep
    decreases |s| - i
  {
    if i == |s| || s[i] == sep then i else FieldEnd(s, sep, i + 1)
  }

  /** The fields of `s` between separators; one more field than separators. */
  function Fields(s: seq<byte>, sep: byte): (fs: seq<seq<byte>>)
    ensures |fs| >= 1
    decreases |s|
  {
    var j := FieldEnd(s, sep, 0);
    if j == |s| then [s] else [s[..j]] + Fields(s[j + 1..], sep)
  }

  lemma FieldAlone(a: seq<byte>, sep: byte)
    requires sep !in a
    ensures Fields(a, sep) == [a]
  {
    assert FieldEnd(a, sep, 0) == |a|;
  }

  lemma FieldThen(a: seq<byte>, sep: byte, rest: seq<byte>)
    requires sep !in a
    ensures Fields(a + [sep] + rest, sep) == [a] + Fields(rest, sep)
  {
    var s := a + [sep] + rest;
    assert s[|a|] == sep && forall k | 0 <= k < |a| :: s[k] == a[k];
    assert FieldEnd(s, sep, 0) == |a|;
    assert s[..|a|] == a && s[|a| + 1..] == rest;
  }

  /** `f` stands in `s` with a separator or an end of `s` on either side. */
  ghost predicate Between(s: seq<byte>, f: seq<byte>, sep: byte) {
    exists a, b :: Parts(s, a, f, b, sep)
  }

  ghost predicate Parts(s: seq<byte>, a: seq<byte>, f: seq<byte>, b: seq<byte>, sep: byte) {
    s == a + f + b && (a == [] || Last(a) == sep) && (b == [] || b[0] == sep)
  }

  /** The fields of a string are exactly what stands between its separators. */
  lemma {:induction false} FieldIffBetween(s: seq<byte>, f: seq<byte>, sep: byte)
    requires sep !in f
    ensures f in Fields(s, sep) <==> Between(s, f, sep)
    decreases |s|
  {
    var j := FieldEnd(s, sep, 0);
    if f in Fields(s, sep) {
      FieldIsBetween(s, f, sep, j);
    }
    if a, b :| Parts(s, a, f, b, sep) {
      BetweenIsField(s, a, f, b, sep);
    }
  }

  lemma PartsLater(s: seq<byte>, k: nat, a: seq<byte>, f: seq<byte>, b: seq<byte>, sep: byte)
    requires 0 < k <= |s| && s[k - 1] == sep && Parts(s[k..], a, f, b, sep)
    ensures Parts(s, s[..k] + a, f, b, sep)
  {
    assert s == s[..k] + s[k..];
    assert s[..k] + (a + f + b) == s[..k] + a + f + b;
  }

  lemma {:induction false} FieldIsBetween(s: seq<byte>, f: seq<byte>, sep: byte, j: nat)
    requires sep !in f && f in Fields(s, sep) && j == FieldEnd(s, sep, 0)
    ensures Between(s, f, sep)
    decreases |s|, 0
  {
    if j == |s| {
      assert s == [] + f + [];
      assert Parts(s, [], f, [], sep);
    } else if f == s[..j] {
      assert s == [] + f + s[j..];
      assert Parts(s, [], f, s[j..], sep);
    } else {
      var rest := s[j + 1..];
      FieldIffBetween(rest, f, sep);
      var a, b :| Parts(rest, a, f, b, sep);
      PartsLater(s, j + 1, a, f, b, sep);
    }
  }

  lemma {:induction false} FieldFirst(s: seq<byte>, f: seq<byte>, b: seq<byte>, sep: byte)
    requires sep !in f && s == f + b && (b == [] || b[0] == sep)
    ensures f in Fields(s, sep)
  {
    if b == [] {
      assert s == f;
      FieldAlone(f, sep);
    } else {
      assert s == f + [sep] + b[1..];
      FieldThen(f, sep, b[1..]);
    }
  }

  lemma PartsEarlier(s: seq<byte>, k: nat, a: seq<byte>, f: seq<byte>, b: seq<byte>, sep: byte)
    requires k <= |a| && Parts(s, a, f, b, sep)
    ensures Parts(s[k..], a[k..], f, b, sep)
  {
    assert s[k..] == a[k..] + f + b;
  }

  lemma {:induction false} BetweenIsField(s: seq<byte>, a: seq<byte>, f: seq<byte>, b: seq<byte>, sep: byte)
    requires sep !in f && Parts(s, a, f, b, sep)
    ensures f in Fields(s, sep)
    decreases |s|, 0
  {
    if a == [] {
      assert s == f + b;
      FieldFirst(s, f, b, sep);
    } else {
      var j := FieldEnd(s, sep, 0);
      assert s[|a| - 1] == sep;
      PartsEarlier(s, j + 1, a, f, b, sep);
      BetweenIsField(s[j + 1..], a[j + 1..], f, b, sep);
    }
  }

  /** A text of single-byte characters as bytes. */
  function Ascii(text: string): seq<byte> {
    seq(|text|, i requires 0 <= i < |text| => text[i] as int % 0x100)
  }
}
