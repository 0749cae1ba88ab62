/** The `hootty.log v1` format byte by byte: what the recorder's frames and preamble are on disk, and what the
    decoder makes of any bytes that look like a frame or a preamble. */
module LogBytes {
  import opened Bytes
  import opened HootLog
  import R = Recording

  // ---------------------------------------------------------------- what is written

  /** Type 1, delta and length least significant byte first, the chunk. */
  lemma OutputOnDisk(delta: u16, data: Chunk)
    ensures Encode(OutputFrame(delta, data)) ==
      [1, delta % 256, delta / 256, |data| % 256, |data| / 256] + data
  {
    var r := OutputFrame(delta, data);
    assert [r.Typ()] + Le16(delta) + Le16(|data|) == [1, delta % 256, delta / 256, |data| % 256, |data| / 256];
  }

  /** Type 2 and four bytes: columns, then rows. */
  lemma ResizeOnDisk(delta: u16, cols: u16, rows: u16)
    ensures Encode(ResizeFrame(delta, cols, rows)) ==
      [2, delta % 256, delta / 256, 4, 0, cols % 256, cols / 256, rows % 256, rows / 256]
  {
    var r := ResizeFrame(delta, cols, rows);
    assert r.Payload() == [cols % 256, cols / 256, rows % 256, rows / 256];
  }

  /** Type 3, no delta, and four bytes of milliseconds. */
  lemma SpacerOnDisk(advance: u32)
    ensures Encode(SpacerFrame(advance)) ==
      [3, 0, 0, 4, 0, advance % 256, advance / 256 % 256, advance / 65_536 % 256, advance / 16_777_216]
  {
    var r := SpacerFrame(advance);
    assert r.Payload() == Le32(advance);
  }

  lemma PreambleOnDisk()
    ensures PREAMBLE == Ascii("# hootty.log v1\n\n")
  {
    var text := Ascii("# hootty.log v1\n\n");
    assert |PREAMBLE| == 17 == |text|;
    assert forall i | 0 <= i < 17 :: PREAMBLE[i] == text[i];
  }

  // ---------------------------------------------------------------- what is read

  /** Any frame but a spacer, whatever its type, is returned as it stands. */
  lemma ReadsAnyFrame(typ: byte, delta: u16, payload: Chunk, tail: seq<byte>)
    requires typ != 3
    ensures NextRaw([typ, delta % 256, delta / 256, |payload| % 256, |payload| / 256] + payload + tail) ==
      Hit(Gapped(typ, delta, payload), tail)
  {
    HeaderIs(typ, delta, |payload|);
    HeaderOf(typ, delta, payload, tail);
  }

  lemma HeaderIs(typ: byte, delta: u16, n: u16)
    ensures [typ] + Le16(delta) + Le16(n) == [typ, delta % 256, delta / 256, n % 256, n / 256]
  {
  }

  /** A spacer adds its milliseconds to the next frame; its own delta is ignored. */
  lemma ReadsAnySpacer(delta: u16, advance: u32, tail: seq<byte>)
    ensures NextRaw([3, delta % 256, delta / 256, 4, 0] +
        [advance % 256, advance / 256 % 256, advance / 65_536 % 256, advance / 16_777_216] + tail) ==
      match NextRaw(tail)
      case Hit(g, rest) => Hit(Gapped(g.typ, advance + g.gap, g.payload), rest)
      case Miss(stop) => Miss(stop)
  {
    var s := [3, delta % 256, delta / 256, 4, 0] + Le32(advance) + tail;
    HeaderIs(3, delta, 4);
    HeaderOf(3, delta, Le32(advance), tail);
    Le32RoundTrip(s, 5, advance);
  }

  /** A complete spacer of any other length is an error. */
  lemma RefusesSpacer(delta: u16, payload: Chunk, tail: seq<byte>)
    requires |payload| != 4
    ensures NextRaw([3, delta % 256, delta / 256, |payload| % 256, |payload| / 256] + payload + tail) ==
      Miss(BadSpacer(|payload|))
  {
    HeaderIs(3, delta, |payload|);
    HeaderOf(3, delta, payload, tail);
  }

  /** Anything shorter than its header says ends the file. */
  lemma EndsShort(s: seq<byte>)
    requires |s| < 5 || |s| < 5 + s[3] as int + 256 * s[4] as int
    ensures NextRaw(s) == Miss(Eof)
  {
  }

  // ---------------------------------------------------------------- preambles

  /** The second of two newlines in a row. */
  predicate Blank(s: seq<byte>, k: nat) {
    1 <= k < |s| && s[k] == 0x0a && s[k - 1] == 0x0a
  }

  /** The first two newlines in a row end at `n`. */
  ghost predicate BlankAt(s: seq<byte>, n: nat) {
    2 <= n <= |s| && Blank(s, n - 1) && forall k: nat | k < n - 1 :: !Blank(s, k)
  }

  lemma {:induction false} NoBlankUpTo(s: seq<byte>, i: nat)
    requires i <= |s| && forall k: nat | i <= k <= 4096 :: !Blank(s, k)
    ensures BlankLine(s, i) == None
    decreases |s| - i
  {
    if i < |s| && i <= 4096 {
      assert !Blank(s, i);
      NoBlankUpTo(s, i + 1);
    }
  }

  lemma {:induction false} BlankLineIs(s: seq<byte>, n: nat)
    requires BlankAt(s, n)
    ensures BlankLine(s, 0) == if n <= 4097 then Some(n) else None
  {
    if n <= 4097 {
      forall k | 1 <= k < n - 1 ensures s[k] != NEWLINE || s[k - 1] != NEWLINE {
        assert !Blank(s, k);
      }
      BlankLineAt(s, 0, n - 1);
    } else {
      NoBlankUpTo(s, 0);
    }
  }

  /** Exactly which files are accepted: a blank line ends within 4097 bytes, and the first line is the magic
      text. The frames are what follows the blank line. */
  lemma BodyIff(file: seq<byte>, n: nat)
    requires BlankAt(file, n)
    ensures Body(file) ==
      if n <= 4097 && n >= 16 && file[..16] == Ascii("# hootty.log v1\n") then Some(file[n..]) else None
    ensures Body(file) == None ==> Decode(file) == Decoded([], BadMagic)
  {
    BlankLineIs(file, n);
    if n <= 4097 {
      MagicIs(file[..n]);
      assert n >= 16 ==> file[..n][..16] == file[..16];
    }
  }

  lemma MagicIs(buf: seq<byte>)
    ensures MagicOk(buf) <==> |buf| >= 16 && buf[..16] == Ascii("# hootty.log v1\n")
  {
    var text := Ascii("# hootty.log v1\n");
    assert |MAGIC| == 15 && text == MAGIC + [0x0a];
    if |buf| >= 16 {
      assert buf[..16] == buf[..15] + [buf[15]];
      assert buf[..16] == text ==> buf[..16][..15] == text[..15] && buf[..16][15] == text[15];
      assert text[..15] == MAGIC;
    }
  }

  /** A file without a blank line is refused. */
  lemma NoBlankLine(file: seq<byte>)
    requires forall k: nat :: !Blank(file, k)
    ensures Body(file) == None && Decode(file) == Decoded([], BadMagic)
  {
    NoBlankUpTo(file, 0);
  }

  // ---------------------------------------------------------------- how much the recorder writes

  /** One frame for a bucket of up to 65535 bytes, and one for every further 65535 or part of them. */
  lemma {:induction false} ChunksCount(log: seq<RawFrame>, delta: u16, buf: seq<byte>)
    ensures |R.Chunks(log, delta, buf)| - |log| == if |buf| == 0 then 1 else (|buf| + 65_534) / 65_535
    decreases |buf|
  {
    if |buf| > 65_535 {
      ChunksCount(log + [OutputFrame(delta, buf[..65_535])], 0, buf[65_535..]);
      assert (|buf| + 65_534) / 65_535 == (|buf| - 65_535 + 65_534) / 65_535 + 1;
    }
  }

  /** A write in the window of the held bucket writes nothing to the file, and is held with it. */
  lemma SameWindowHeld(st: R.State, data: seq<byte>, now: u64)
    requires st.open && st.has && data != []
    requires st.bucket == if now - now % 33 < st.last then st.last else now - now % 33
    ensures R.DoWrite(st, data, now) == st.(buf := st.buf + data)
  {
    assert now / 33 * 33 == now - now % 33;
  }

  /** A write in another window first writes out the held bucket, and nothing else. */
  lemma NewWindowFlushes(st: R.State, data: seq<byte>, now: u64)
    requires st.open && st.has && data != [] && Total(st.log) == st.last <= st.bucket
    requires st.bucket != if now - now % 33 < st.last then st.last else now - now % 33
    ensures var st' := R.DoWrite(st, data, now);
      R.Shown(st'.log) == R.Shown(st.log) + R.BytesAt(st.buf, Ns(st.bucket)) && st'.buf == data && st'.has
  {
    assert now / 33 * 33 == now - now % 33;
    R.FlushSpec(st);
    assert [] + data == data;
    assert R.Shown(R.Flush(st).log) + [] == R.Shown(R.Flush(st).log);
  }
}
