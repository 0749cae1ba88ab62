/** The attach protocol's frames on the wire: a type byte, a little-endian 32-bit length, the payload. */
module AttachWire {
  import opened Bytes

  datatype Frame = Frame(typ: byte, payload: seq<byte>)

  /** 16 MiB. */
  const MAX_PAYLOAD: nat := 0x100_0000

  /** `Eof`: nothing at all could be read; `UnexpectedEof`: some but not all of what was asked for. */
  datatype Error = Eof | UnexpectedEof | TooLong

  predicate Sendable(f: Frame) {
    |f.payload| <= MAX_PAYLOAD
  }

  function Header(typ: byte, n: u32): seq<byte> {
    [typ] + Le32(n)
  }

  function Encode(f: Frame): (s: seq<byte>)
    requires Sendable(f)
    ensures |s| == 5 + |f.payload|
  {
    Header(f.typ, |f.payload|) + f.payload
  }

  function EncodeAll(fs: seq<Frame>): seq<byte>
    requires forall f | f in fs :: Sendable(f)
  {
    if fs == [] then [] else Encode(fs[0]) + EncodeAll(fs[1..])
  }

  // ---------------------------------------------------------------- reading

  datatype Outcome = Got(frame: Frame, len: nat) | Failed(error: Error)

  /** The first frame of a stream, or why there is none. */
  function ReadOne(s: seq<byte>): (r: Outcome)
    ensures r.Got? ==> Sendable(r.frame) && r.len == 5 + |r.frame.payload| <= |s|
  {
    if |s| < 5 then Failed(if s == [] then Eof else UnexpectedEof)
    else
      var n := Le32At(s, 1);
      if n > MAX_PAYLOAD then Failed(TooLong)
      else if |s| - 5 < n then Failed(if |s| == 5 then Eof else UnexpectedEof)
      else Got(Frame(s[0], s[5..5 + n]), 5 + n)
  }

  datatype Session = Session(frames: seq<Frame>, error: Error)

  /** Read until the first error; every finite stream ends in one. */
  function ReadAll(s: seq<byte>): (r: Session)
    ensures forall f | f in r.frames :: Sendable(f)
    decreases |s|
  {
    match ReadOne(s)
    case Failed(e) => Session([], e)
    case Got(f, n) =>
      var more := ReadAll(s[n..]);
      Session([f] + more.frames, more.error)
  }

  // ---------------------------------------------------------------- round trip

  lemma HeaderReads(s: seq<byte>, typ: byte, n: u32)
    requires |s| >= 5 && s[..5] == Header(typ, n)
    ensures s[0] == typ && Le32At(s, 1) == n
  {
    assert s[0] == s[..5][0];
    assert s[1..5] == s[..5][1..] == Le32(n);
    Le32RoundTrip(s, 1, n);
  }

  lemma Le32Unique(s: seq<byte>, i: nat)
    requires i + 4 <= |s|
    ensures Le32(Le32At(s, i)) == s[i..i + 4]
  {
    var a: int, b: int, c: int, d: int := s[i], s[i + 1], s[i + 2], s[i + 3];
    var n: int := Le32At(s, i);
    var n1, n2 := b + 0x100 * c + 0x1_0000 * d, c + 0x100 * d;
    assert n == a + 0x100 * n1 && n1 == b + 0x100 * n2;
    assert n % 0x100 == a && n / 0x100 == n1;
    assert n1 % 0x100 == b && n / 0x1_0000 == n2;
    assert n2 % 0x100 == c && n / 0x100_0000 == d;
  }

  lemma ReadsEncoded(f: Frame, rest: seq<byte>)
    requires Sendable(f)
    ensures ReadOne(Encode(f) + rest) == Got(f, |Encode(f)|)
  {
    var s := Encode(f) + rest;
    assert s[..5] == Header(f.typ, |f.payload|);
    HeaderReads(s, f.typ, |f.payload|);
    assert s[5..5 + |f.payload|] == f.payload;
  }

  /** What was read is what a writer would have written. */
  lemma EncodesRead(s: seq<byte>)
    requires ReadOne(s).Got?
    ensures Encode(ReadOne(s).frame) == s[..ReadOne(s).len]
  {
    Le32Unique(s, 1);
    var n := |ReadOne(s).frame.payload|;
    assert s[..5 + n] == [s[0]] + s[1..5] + s[5..5 + n];
  }

  /** Whatever follows it, the piece is read as this frame. */
  ghost predicate ReadsAs(piece: seq<byte>, f: Frame) {
    forall rest: seq<byte> :: ReadOne(piece + rest) == Got(f, |piece|)
  }

  lemma {:induction false} ReadAllCons(first: seq<byte>, more: seq<byte>, f: Frame, r: Session)
    requires ReadsAs(first, f) && ReadAll(more) == r
    ensures ReadAll(first + more) == Session([f] + r.frames, r.error)
  {
    assert (first + more)[|first|..] == more;
  }

  lemma {:induction false} ReadPieces(pieces: seq<seq<byte>>, fs: seq<Frame>)
    requires |pieces| == |fs| && forall i | 0 <= i < |fs| :: ReadsAs(pieces[i], fs[i])
    ensures ReadAll(Concat(pieces)) == Session(fs, Eof)
    decreases |fs|
  {
    if fs != [] {
      ReadPieces(pieces[1..], fs[1..]);
      ReadAllCons(pieces[0], Concat(pieces[1..]), fs[0], Session(fs[1..], Eof));
    }
  }

  lemma {:induction false} EncodedPieces(fs: seq<Frame>) returns (pieces: seq<seq<byte>>)
    requires forall f | f in fs :: Sendable(f)
    ensures |pieces| == |fs| && Concat(pieces) == EncodeAll(fs)
    ensures forall i | 0 <= i < |fs| :: ReadsAs(pieces[i], fs[i])
  {
    if fs == [] {
      pieces := [];
    } else {
      var more := EncodedPieces(fs[1..]);
      forall rest: seq<byte> ensures ReadOne(Encode(fs[0]) + rest) == Got(fs[0], |Encode(fs[0])|) {
        ReadsEncoded(fs[0], rest);
      }
      pieces := [Encode(fs[0])] + more;
    }
  }

  /** Every list of frames is read back, and then the end of the stream. */
  lemma RoundTrip(fs: seq<Frame>)
    requires forall f | f in fs :: Sendable(f)
    ensures ReadAll(EncodeAll(fs)) == Session(fs, Eof)
  {
    var pieces := EncodedPieces(fs);
    ReadPieces(pieces, fs);
  }

  /** The bytes after the frames read. */
  function Leftover(s: seq<byte>): seq<byte>
    decreases |s|
  {
    match ReadOne(s)
    case Failed(_) => s
    case Got(_, n) => Leftover(s[n..])
  }

  /** Reading never invents or reorders: any stream is the encoding of the frames read and a leftover that
      holds no frame. */
  lemma {:induction false} StreamIsFrames(s: seq<byte>)
    ensures s == EncodeAll(ReadAll(s).frames) + Leftover(s)
    ensures ReadOne(Leftover(s)) == Failed(ReadAll(s).error)
    decreases |s|
  {
    if ReadOne(s).Got? {
      var n := ReadOne(s).len;
      EncodesRead(s);
      StreamIsFrames(s[n..]);
      assert s == s[..n] + s[n..];
      assert ReadAll(s).frames[1..] == ReadAll(s[n..]).frames;
    }
  }

  // ---------------------------------------------------------------- a connection cut anywhere

  lemma ReadOneOnPrefix(s: seq<byte>, n: nat)
    requires n <= |s| && ReadOne(s[..n]).Got?
    ensures ReadOne(s) == ReadOne(s[..n])
  {
  }

  lemma {:induction false} PrefixReads(s: seq<byte>, n: nat)
    requires n <= |s|
    ensures ReadAll(s[..n]).frames <= ReadAll(s).frames
    decreases |s|
  {
    if ReadOne(s[..n]).Got? {
      ReadOneOnPrefix(s, n);
      var k := ReadOne(s).len;
      assert s[..n][k..] == s[k..][..n - k];
      PrefixReads(s[k..], n - k);
    }
  }

  /** Cutting a written stream at any byte gives a prefix of the frames, and then an error that says the
      stream ended. */
  lemma CutStream(fs: seq<Frame>, n: nat)
    requires (forall f | f in fs :: Sendable(f)) && n <= |EncodeAll(fs)|
    ensures var r := ReadAll(EncodeAll(fs)[..n]); r.frames <= fs && r.error != TooLong
  {
    RoundTrip(fs);
    PrefixReads(EncodeAll(fs), n);
    CutNotTooLong(EncodeAll(fs), n);
  }

  lemma {:induction false} CutNotTooLong(s: seq<byte>, n: nat)
    requires n <= |s| && ReadAll(s).error != TooLong
    ensures ReadAll(s[..n]).error != TooLong
    decreases |s|
  {
    if ReadOne(s[..n]).Got? {
      ReadOneOnPrefix(s, n);
      var k := ReadOne(s).len;
      assert s[..n][k..] == s[k..][..n - k];
      CutNotTooLong(s[k..], n - k);
    }
  }

  lemma FiveBytes(s: seq<byte>, typ: byte, n: u32)
    requires |s| == 5
    ensures s == Header(typ, n) <==> s[0] == typ && Le32At(s, 1) == n
  {
    assert s[..5] == s;
    Le32Unique(s, 1);
    if s == Header(typ, n) {
      HeaderReads(s, typ, n);
    }
  }

  /** Exactly when the end of the stream looks clean: at a frame boundary, or right after the header of a
      frame with a payload. */
  lemma {:induction false} CleanEndIff(s: seq<byte>)
    ensures ReadAll(s).error == Eof <==>
      || Leftover(s) == []
      || exists typ: byte, n: u32 :: 0 < n <= MAX_PAYLOAD && Leftover(s) == Header(typ, n)
  {
    StreamIsFrames(s);
    CleanLeftover(Leftover(s));
  }

  lemma CleanLeftover(s: seq<byte>)
    ensures ReadOne(s) == Failed(Eof) <==>
      s == [] || exists typ: byte, n: u32 :: 0 < n <= MAX_PAYLOAD && s == Header(typ, n)
  {
    if |s| == 5 {
      forall typ: byte, n: u32 ensures s == Header(typ, n) <==> s[0] == typ && Le32At(s, 1) == n {
        FiveBytes(s, typ, n);
      }
      assert s == Header(s[0], Le32At(s, 1));
    }
  }

  /** A frame with a payload whose payload never arrives still ends in a clean end of stream. */
  lemma HeaderThenClose(typ: byte, n: u32)
    requires 0 < n <= MAX_PAYLOAD
    ensures ReadAll(Header(typ, n)) == Session([], Eof)
  {
    var s := Header(typ, n);
    assert s[..5] == s;
    HeaderReads(s, typ, n);
  }

  // ---------------------------------------------------------------- frames byte by byte

  /** Type, length least significant byte first, payload. */
  lemma FrameOnWire(typ: byte, payload: seq<byte>)
    requires |payload| <= 16_777_216
    ensures var n := |payload|;
      Sendable(Frame(typ, payload)) && Encode(Frame(typ, payload)) ==
        [typ, n % 256, n / 256 % 256, n / 65_536 % 256, n / 16_777_216] + payload
  {
    var n: u32 := |payload|;
    assert Header(typ, n) == [typ, n % 256, n / 256 % 256, n / 65_536 % 256, n / 16_777_216];
  }

  /** A header is refused exactly if its length exceeds 2^24. */
  lemma TooLongIff(s: seq<byte>)
    requires |s| >= 5
    ensures ReadOne(s) == Failed(TooLong) <==>
      s[1] as int + 256 * s[2] as int + 65_536 * s[3] as int + 16_777_216 * s[4] as int > 16_777_216
  {
  }

  // ---------------------------------------------------------------- a stream as an object

  /** A byte stream: bytes written and not yet read. */
  class Stream {
    var bytes: seq<byte>

    constructor ()
      ensures bytes == []
    {
      bytes := [];
    }

    /** Fill `buf`, or consume everything and say how it ended. */
    method ReadFull(buf: array<byte>) returns (error: Option<Error>)
      modifies this, buf
      ensures var n := buf.Length; if n <= |old(bytes)|
        then error == None && buf[..] == old(bytes)[..n] && bytes == old(bytes)[n..]
        else error == Some(if old(bytes) == [] then Eof else UnexpectedEof) && bytes == []
    {
      var n := buf.Length;
      if n > |bytes| {
        error := Some(if bytes == [] then Eof else UnexpectedEof);
        bytes := [];
        return;
      }
      for i := 0 to n
        modifies buf
        invariant buf[..i] == bytes[..i]
      {
        buf[i] := bytes[i];
      }
      assert buf[..n] == buf[..];
      bytes := bytes[n..];
      error := None;
    }

    method Write(p: seq<byte>)
      modifies this
      ensures bytes == old(bytes) + p
    {
      bytes := bytes + p;
    }
  }

  method PutUint32(hdr: array<byte>, n: u32)
    requires hdr.Length == 5
    modifies hdr
    ensures hdr[..] == [old(hdr[0])] + Le32(n)
  {
    hdr[1], hdr[2], hdr[3], hdr[4] := n % 0x100, n / 0x100 % 0x100, n / 0x1_0000 % 0x100, n / 0x100_0000;
  }

  /** An oversized payload is refused and nothing is written. */
  method WriteFrame(w: Stream, typ: byte, payload: seq<byte>) returns (ok: bool)
    modifies w
    ensures ok <==> |payload| <= 16_777_216
    ensures w.bytes == old(w.bytes) + if ok then Encode(Frame(typ, payload)) else []
  {
    if |payload| > MAX_PAYLOAD {
      return false;
    }
    var hdr := new byte[5];
    hdr[0] := typ;
    PutUint32(hdr, |payload|);
    w.Write(hdr[..]);
    if |payload| > 0 {
      w.Write(payload);
    }
    return true;
  }

  /** One frame off the stream; on success exactly its bytes are consumed. */
  method ReadFrame(r: Stream) returns (outcome: Outcome)
    modifies r
    ensures outcome == ReadOne(old(r.bytes))
    ensures outcome.Got? ==> r.bytes == old(r.bytes)[outcome.len..]
  {
    var hdr := new byte[5];
    var error := r.ReadFull(hdr);
    if error.Some? {
      return Failed(error.value);
    }
    assert forall i | 0 <= i < 5 :: hdr[i] == hdr[..][i] == old(r.bytes)[i];
    var n := Le32At(hdr[..], 1);
    if n > MAX_PAYLOAD {
      return Failed(TooLong);
    }
    if n == 0 {
      return Got(Frame(hdr[0], []), 5);
    }
    var payload := new byte[n];
    error := r.ReadFull(payload);
    if error.Some? {
      return Failed(error.value);
    }
    assert old(r.bytes)[5..][..n] == old(r.bytes)[5..5 + n];
    assert old(r.bytes)[5..][n..] == old(r.bytes)[5 + n..];
    return Got(Frame(hdr[0], payload[..]), 5 + n);
  }

  /** The reading loop of either end: frames until the first error. */
  method ReadFrames(r: Stream) returns (session: Session)
    modifies r
    ensures session == ReadAll(old(r.bytes))
  {
    var frames: seq<Frame> := [];
    var outcome := ReadFrame(r);
    ghost var last := old(r.bytes);
    while outcome.Got?
      invariant outcome == ReadOne(last)
      invariant outcome.Got? ==> r.bytes == last[outcome.len..]
      invariant ReadAll(old(r.bytes)) == Session(frames + ReadAll(last).frames, ReadAll(last).error)
      decreases |last|
    {
      frames := frames + [outcome.frame];
      last := r.bytes;
      outcome := ReadFrame(r);
    }
    session := Session(frames, outcome.error);
  }
}
