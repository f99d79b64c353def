/**
 * The byte-level parts of the macOS exporter (platform/osx/export/export.cpp):
 * the PackBits-style run-length encoder for the 24-bit channels of an Apple
 * icon family ("icns") file, the icon file framing, the Info.plist
 * placeholder substitution, the Unix mode stored in the zip external
 * attributes, and the template check of `can_export`.
 */
module OsxExport {
  import opened Wrappers
  import opened Bytes
  import Text

  // ---------------------------------------------------------------- channels

  /** Channel `ch` of `n` RGBA pixels: every fourth byte, starting at `ch`. */
  function Channel(source: seq<byte>, ch: nat, n: nat): (c: seq<byte>)
    requires ch < 4 && 4 * n <= |source|
    ensures |c| == n && forall k :: 0 <= k < n ==> c[k] == source[4 * k + ch]
  {
    seq(n, k requires 0 <= k < n => source[4 * k + ch])
  }

  function Repeat(x: byte, m: nat): (r: seq<byte>)
    ensures |r| == m && forall k :: 0 <= k < m ==> r[k] == x
  {
    seq(m, _ => x)
  }

  // ---------------------------------------------------------------- decoding

  /**
   * The icon-family run-length format: a header byte `h` below 0x80 is
   * followed by `h + 1` literal bytes; a header of 0x80 or more is followed
   * by one byte repeated `h - 0x80 + 3` times.
   */
  function Decode(e: seq<byte>): (r: Option<seq<byte>>)
    decreases |e|
  {
    if e == [] then Some([])
    else if e[0] < 0x80 then
      var n := e[0] as int + 1;
      if |e| < 1 + n then None
      else match Decode(e[1 + n..])
        case None => None
        case Some(rest) => Some(e[1..1 + n] + rest)
    else if |e| < 2 then None
    else match Decode(e[2..])
      case None => None
      case Some(rest) => Some(Repeat(e[1], e[0] as int - 0x80 + 3) + rest)
  }

  // ---------------------------------------------------------------- encoding

  /** The encoder as written (`AsWritten`) and with its run limit corrected (`Corrected`). */
  datatype Variant = AsWritten | Corrected

  /** A pending literal block: its length less one, then its bytes; nothing when empty. */
  function Literal(buf: seq<byte>): (r: seq<byte>)
    requires |buf| <= 128
  {
    if buf == [] then [] else [|buf| - 1] + buf
  }

  /** The furthest offset the run scan at `i` may look at. */
  function Lim(n: nat, i: nat, v: Variant): (lim: nat)
    requires i + 2 < n
    ensures 2 <= lim && i + lim < n
    ensures v == AsWritten ==> lim <= 130
    ensures v == Corrected ==> lim <= 129
  {
    var cap := if v == AsWritten then 130 else 129;
    if i + cap >= n then n - i - 1 else cap
  }

  /** The header written when the scan reaches `lim` without a differing byte. */
  function HitHeader(lim: nat, v: Variant): (h: byte)
    requires 2 <= lim && (v == AsWritten ==> lim <= 130) && (v == Corrected ==> lim <= 129)
  {
    if v == AsWritten then lim - 3 + 0x80 else lim + 1 - 3 + 0x80
  }

  /** The first offset in `[j, lim]` whose byte differs from `c[i]`, or `lim + 1`. */
  function RunEnd(c: seq<byte>, i: nat, j: nat, lim: nat): (r: nat)
    requires i + lim < |c| && 1 <= j <= lim + 1
    ensures j <= r <= lim + 1
    ensures r <= lim ==> c[i + r] != c[i]
    decreases lim + 1 - j
  {
    if j > lim then j
    else if c[i + j] != c[i] then j
    else RunEnd(c, i, j + 1, lim)
  }

  /** One pass of the encoder loop: the bytes it writes, the next position and the pending literal bytes. */
  datatype StepOut = StepOut(emitted: seq<byte>, next: nat, pending: seq<byte>)

  /** The loop body of `_rgba8_to_packbits_encode` at position `i` with the literal bytes `buf` pending. */
  function Step(c: seq<byte>, i: nat, buf: seq<byte>, v: Variant): (r: StepOut)
    requires i < |c| && |buf| < 128
    ensures i < r.next <= |c| && |r.pending| < 128 && (r.next == |c| ==> r.pending == [])
  {
    if i + 2 < |c| && c[i + 1] == c[i] && c[i + 2] == c[i] then
      var lim := Lim(|c|, i, v);
      var j := RunEnd(c, i, 3, lim);
      if j <= lim then StepOut(Literal(buf) + [j - 3 + 0x80, c[i]], i + j, [])
      else StepOut(Literal(buf) + [HitHeader(lim, v), c[i]], i + lim + 1, [])
    else if i + 2 < |c| && |buf| < 127 then StepOut([], i + 1, buf + [c[i]])
    else StepOut(Literal(buf + [c[i]]), i + 1, [])
  }

  /** How many bytes the corrected encoder's run at `i` covers. */
  function RunLen(c: seq<byte>, i: nat): (m: nat)
    requires i + 2 < |c|
    ensures 3 <= m <= 130 && i + m <= |c|
  {
    var lim := Lim(|c|, i, Corrected);
    var j := RunEnd(c, i, 3, lim);
    if j <= lim then j else lim + 1
  }

  /** What the encoder emits from position `i` of channel `c` onwards, with the literal bytes `buf` pending. */
  function EncodeFrom(c: seq<byte>, i: nat, buf: seq<byte>, v: Variant): seq<byte>
    requires i <= |c| && |buf| < 128
    decreases |c| - i
  {
    if i == |c| then Literal(buf)
    else
      var st := Step(c, i, buf, v);
      st.emitted + EncodeFrom(c, st.next, st.pending, v)
  }

  function Encode(c: seq<byte>, v: Variant): seq<byte>
  {
    EncodeFrom(c, 0, [], v)
  }

  lemma DecodeLiteral(buf: seq<byte>, rest: seq<byte>)
    requires |buf| <= 128
    ensures Decode(Literal(buf) + rest) == (match Decode(rest) case None => None case Some(r) => Some(buf + r))
  {
    if buf != [] {
      var e := Literal(buf) + rest;
      assert e[1 + |buf|..] == rest && e[1..1 + |buf|] == buf;
    } else {
      assert Literal(buf) + rest == rest;
      match Decode(rest) {
        case None =>
        case Some(r) => assert buf + r == r;
      }
    }
  }

  lemma DecodeRun(x: byte, m: nat, rest: seq<byte>)
    requires 3 <= m <= 130
    ensures Decode([m - 3 + 0x80, x] + rest) == (match Decode(rest) case None => None case Some(r) => Some(Repeat(x, m) + r))
  {
    var e: seq<byte> := [m - 3 + 0x80, x] + rest;
    assert e[2..] == rest;
  }

  /** Every byte of a run the encoder emits equals the run's first byte. */
  lemma RunIsRepeat(c: seq<byte>, i: nat, m: nat)
    requires i + m <= |c| && 3 <= m
    requires c[i + 1] == c[i] && c[i + 2] == c[i]
    requires forall p :: i + 3 <= p < i + m ==> c[p] == c[i]
    ensures c[i..i + m] == Repeat(c[i], m)
  {
    var t := c[i..i + m];
    forall k | 0 <= k < m ensures t[k] == c[i] {
      assert t[k] == c[i + k];
      if k >= 3 {
        assert i + 3 <= i + k < i + m;
      }
    }
  }

  /** Decoding a pending literal, a run of `m` copies of `c[i]` and a tail that decodes to what follows the run. */
  lemma RunCaseRoundTrip(c: seq<byte>, i: nat, buf: seq<byte>, m: nat, tail: seq<byte>)
    requires |buf| < 128 && 3 <= m <= 130 && i + m <= |c|
    requires c[i..i + m] == Repeat(c[i], m)
    requires Decode(tail) == Some(c[i + m..])
    ensures Decode(Literal(buf) + ([m - 3 + 0x80, c[i]] + tail)) == Some(buf + c[i..])
  {
    var run: seq<byte> := [m - 3 + 0x80, c[i]] + tail;
    assert Decode(run) == Some(c[i..]) by {
      DecodeRun(c[i], m, tail);
      assert c[i..] == c[i..i + m] + c[i + m..];
    }
    DecodeLiteral(buf, run);
  }

  /** Decoding a literal block that ends with `c[i]` and a tail that decodes to what follows `i`. */
  lemma FlushCaseRoundTrip(c: seq<byte>, i: nat, buf: seq<byte>, tail: seq<byte>)
    requires |buf| < 128 && i < |c|
    requires Decode(tail) == Some(c[i + 1..])
    ensures Decode(Literal(buf + [c[i]]) + tail) == Some(buf + c[i..])
  {
    DecodeLiteral(buf + [c[i]], tail);
    assert c[i..] == [c[i]] + c[i + 1..];
    assert buf + [c[i]] + c[i + 1..] == buf + c[i..];
  }

  /** The corrected encoder loses nothing: decoding its output gives back the pending bytes and the rest of the channel. */
  lemma {:induction false} EncodeFromRoundTrip(c: seq<byte>, i: nat, buf: seq<byte>)
    requires i <= |c| && |buf| < 128
    ensures Decode(EncodeFrom(c, i, buf, Corrected)) == Some(buf + c[i..])
    decreases |c| - i
  {
    if i == |c| {
      DecodeLiteral(buf, []);
      assert Literal(buf) + [] == Literal(buf);
      assert buf + [] == buf && c[i..] == [];
    } else {
      var st := Step(c, i, buf, Corrected);
      var tail := EncodeFrom(c, st.next, st.pending, Corrected);
      EncodeFromRoundTrip(c, st.next, st.pending);
      StepRoundTrip(c, i, buf, tail);
    }
  }

  /** One step's output followed by a tail that decodes to what the step leaves decodes to what the step started from. */
  lemma StepRoundTrip(c: seq<byte>, i: nat, buf: seq<byte>, tail: seq<byte>)
    requires i < |c| && |buf| < 128
    requires Decode(tail) == Some(Step(c, i, buf, Corrected).pending + c[Step(c, i, buf, Corrected).next..])
    ensures Decode(Step(c, i, buf, Corrected).emitted + tail) == Some(buf + c[i..])
  {
    if i + 2 < |c| && c[i + 1] == c[i] && c[i + 2] == c[i] {
      StepRunCase(c, i, buf, tail);
    } else if i + 2 < |c| && |buf| < 127 {
      StepPendRoundTrip(c, i, buf, tail);
    } else {
      StepFlushRoundTrip(c, i, buf, tail);
    }
  }

  /** In the corrected encoder a run's header always announces the bytes it covers. */
  lemma RunStep(c: seq<byte>, i: nat, buf: seq<byte>)
    requires i + 2 < |c| && c[i + 1] == c[i] && c[i + 2] == c[i] && |buf| < 128
    ensures Step(c, i, buf, Corrected) == StepOut(Literal(buf) + [RunLen(c, i) - 3 + 0x80, c[i]], i + RunLen(c, i), [])
  {
  }

  /** The bytes a run covers all equal its first. */
  lemma RunLenRepeat(c: seq<byte>, i: nat)
    requires i + 2 < |c| && c[i + 1] == c[i] && c[i + 2] == c[i]
    ensures c[i..i + RunLen(c, i)] == Repeat(c[i], RunLen(c, i))
  {
    var lim := Lim(|c|, i, Corrected);
    RunEndSame(c, i, 3, lim);
    RunIsRepeat(c, i, RunLen(c, i));
  }

  /** Every byte the scan passes over equals the run's first byte. */
  lemma {:induction false} RunEndSame(c: seq<byte>, i: nat, j: nat, lim: nat)
    requires i + lim < |c| && 1 <= j <= lim + 1
    ensures forall p :: i + j <= p < i + RunEnd(c, i, j, lim) ==> c[p] == c[i]
    decreases lim + 1 - j
  {
    if j <= lim && c[i + j] == c[i] {
      RunEndSame(c, i, j + 1, lim);
    }
  }

  lemma StepRunCase(c: seq<byte>, i: nat, buf: seq<byte>, tail: seq<byte>)
    requires i + 2 < |c| && c[i + 1] == c[i] && c[i + 2] == c[i] && |buf| < 128
    requires Decode(tail) == Some(Step(c, i, buf, Corrected).pending + c[Step(c, i, buf, Corrected).next..])
    ensures Decode(Step(c, i, buf, Corrected).emitted + tail) == Some(buf + c[i..])
  {
    RunStep(c, i, buf);
    var m := RunLen(c, i);
    assert [] + c[i + m..] == c[i + m..];
    StepRunRoundTrip(c, i, buf, tail);
  }

  lemma StepRunRoundTrip(c: seq<byte>, i: nat, buf: seq<byte>, tail: seq<byte>)
    requires i + 2 < |c| && c[i + 1] == c[i] && c[i + 2] == c[i] && |buf| < 128
    requires Decode(tail) == Some(c[i + RunLen(c, i)..])
    ensures Decode(Literal(buf) + [RunLen(c, i) - 3 + 0x80, c[i]] + tail) == Some(buf + c[i..])
  {
    var m := RunLen(c, i);
    var h: byte := m - 3 + 0x80;
    RunLenRepeat(c, i);
    RunCaseRoundTrip(c, i, buf, m, tail);
    Assoc(Literal(buf), [h, c[i]], tail);
  }

  lemma StepPendRoundTrip(c: seq<byte>, i: nat, buf: seq<byte>, tail: seq<byte>)
    requires i + 2 < |c| && !(c[i + 1] == c[i] && c[i + 2] == c[i]) && |buf| < 127
    requires Decode(tail) == Some(Step(c, i, buf, Corrected).pending + c[Step(c, i, buf, Corrected).next..])
    ensures Decode(Step(c, i, buf, Corrected).emitted + tail) == Some(buf + c[i..])
  {
    assert c[i..] == [c[i]] + c[i + 1..];
    assert buf + [c[i]] + c[i + 1..] == buf + c[i..];
    assert Step(c, i, buf, Corrected).emitted + tail == tail;
  }

  lemma StepFlushRoundTrip(c: seq<byte>, i: nat, buf: seq<byte>, tail: seq<byte>)
    requires i < |c| && |buf| < 128
    requires !(i + 2 < |c| && c[i + 1] == c[i] && c[i + 2] == c[i]) && !(i + 2 < |c| && |buf| < 127)
    requires Decode(tail) == Some(Step(c, i, buf, Corrected).pending + c[Step(c, i, buf, Corrected).next..])
    ensures Decode(Step(c, i, buf, Corrected).emitted + tail) == Some(buf + c[i..])
  {
    assert [] + c[i + 1..] == c[i + 1..];
    FlushCaseRoundTrip(c, i, buf, tail);
  }

  lemma EncodeRoundTrip(c: seq<byte>)
    ensures Decode(Encode(c, Corrected)) == Some(c)
  {
    EncodeFromRoundTrip(c, 0, []);
    assert [] + c[0..] == c;
  }

  /** A channel of four equal bytes (a 2x2 icon of one colour) decodes to three bytes as written. */
  lemma AsWrittenDropsByte()
    ensures Encode([7, 7, 7, 7], AsWritten) == [0x80, 7]
    ensures Decode(Encode([7, 7, 7, 7], AsWritten)) == Some([7, 7, 7])
  {
    var c: seq<byte> := [7, 7, 7, 7];
    assert Step(c, 0, [], AsWritten) == StepOut([0x80, 7], 4, []) by {
      assert Lim(4, 0, AsWritten) == 3;
      assert RunEnd(c, 0, 3, 3) == 4;
    }
    assert EncodeFrom(c, 0, [], AsWritten) == [0x80, 7] + EncodeFrom(c, 4, [], AsWritten);
    assert Decode([0x80, 7]) == Some([7, 7, 7]) by {
      var e: seq<byte> := [0x80, 7];
      assert e[2..] == [];
      assert Decode(e) == Some(Repeat(7, 3) + []);
      assert Repeat(7, 3) + [] == [7, 7, 7];
    }
  }

  /** Three equal bytes at the very end get the header 0x7F, which reads back as a 128-byte literal. */
  lemma AsWrittenTailRunMisread(x: byte)
    ensures Encode([x, x, x], AsWritten) == [0x7F, x]
    ensures Decode(Encode([x, x, x], AsWritten)) == None
  {
    var c: seq<byte> := [x, x, x];
    assert Lim(3, 0, AsWritten) == 2;
    assert RunEnd(c, 0, 3, 2) == 3;
    assert Step(c, 0, [], AsWritten) == StepOut([0x7F, x], 3, []);
    assert EncodeFrom(c, 0, [], AsWritten) == [0x7F, x] + EncodeFrom(c, 3, [], AsWritten);
  }

  lemma {:induction false} RunEndFlat(c: seq<byte>, i: nat, j: nat, lim: nat)
    requires i + lim < |c| && 1 <= j <= lim + 1
    requires forall p :: i <= p < |c| ==> c[p] == c[i]
    ensures RunEnd(c, i, j, lim) == lim + 1
    decreases lim + 1 - j
  {
    if j <= lim {
      RunEndFlat(c, i, j + 1, lim);
    }
  }

  /**
   * The two encoders part only where the as-written scan reaches its limit:
   * every position that starts three equal bytes meets a differing byte
   * within the as-written limit.
   */
  ghost predicate NoRunHitsLimit(c: seq<byte>)
  {
    forall i :: 0 <= i && i + 2 < |c| && c[i + 1] == c[i] && c[i + 2] == c[i] ==> RunEnd(c, i, 3, Lim(|c|, i, AsWritten)) <= Lim(|c|, i, AsWritten)
  }

  /** Scanning one offset further changes the scan only when it ran off the end. */
  lemma {:induction false} RunEndExtend(c: seq<byte>, i: nat, j: nat, lim: nat)
    requires i + lim + 1 < |c| && 1 <= j <= lim + 1
    ensures RunEnd(c, i, j, lim) <= lim ==> RunEnd(c, i, j, lim + 1) == RunEnd(c, i, j, lim)
    ensures RunEnd(c, i, j, lim + 1) <= lim + 1 ==> RunEnd(c, i, j, lim) == RunEnd(c, i, j, lim + 1)
    decreases lim + 1 - j
  {
    if j <= lim && c[i + j] == c[i] {
      RunEndExtend(c, i, j + 1, lim);
    }
  }

  /**
   * At a run that stops before the as-written limit, the corrected scan
   * either stops at the same offset or reaches its own limit one short of it,
   * where its header announces the same length.
   */
  lemma RunScanAgrees(c: seq<byte>, i: nat)
    requires i + 2 < |c| && c[i + 1] == c[i] && c[i + 2] == c[i] && NoRunHitsLimit(c)
    ensures var la := Lim(|c|, i, AsWritten);
      var lc := Lim(|c|, i, Corrected);
      var ja := RunEnd(c, i, 3, la);
      var jc := RunEnd(c, i, 3, lc);
      ja <= la && ((jc <= lc && jc == ja) || (jc == lc + 1 && ja == lc + 1 && HitHeader(lc, Corrected) == ja - 3 + 0x80))
  {
    var la := Lim(|c|, i, AsWritten);
    var lc := Lim(|c|, i, Corrected);
    assert RunEnd(c, i, 3, la) <= la;
    if la != lc {
      assert la == 130 && lc == 129;
      RunEndExtend(c, i, 3, lc);
    }
  }

  /** Where the as-written scan stops before its limit, one pass of both encoders is the same. */
  lemma StepAgrees(c: seq<byte>, i: nat, buf: seq<byte>)
    requires i < |c| && |buf| < 128 && NoRunHitsLimit(c)
    ensures Step(c, i, buf, AsWritten) == Step(c, i, buf, Corrected)
  {
    if i + 2 < |c| && c[i + 1] == c[i] && c[i + 2] == c[i] {
      RunScanAgrees(c, i);
    }
  }

  lemma {:induction false} EncodeFromAgrees(c: seq<byte>, i: nat, buf: seq<byte>)
    requires i <= |c| && |buf| < 128 && NoRunHitsLimit(c)
    ensures EncodeFrom(c, i, buf, AsWritten) == EncodeFrom(c, i, buf, Corrected)
    decreases |c| - i
  {
    if i < |c| {
      StepAgrees(c, i, buf);
      var st := Step(c, i, buf, Corrected);
      EncodeFromAgrees(c, st.next, st.pending);
    }
  }

  /**
   * On a channel where no run reaches the as-written limit, the encoder as
   * written gives the corrected encoding, so it reads back as the channel.
   */
  lemma AsWrittenAgrees(c: seq<byte>)
    requires NoRunHitsLimit(c)
    ensures Encode(c, AsWritten) == Encode(c, Corrected)
    ensures Decode(Encode(c, AsWritten)) == Some(c)
  {
    EncodeFromAgrees(c, 0, []);
    EncodeRoundTrip(c);
  }

  /**
   * A 16x16 icon channel of one value (256 equal bytes) is encoded as two
   * runs whose headers announce 130 and 124 bytes, although 131 and 125 were
   * consumed: two bytes are lost.
   */
  lemma AsWrittenFlatIcon(x: byte)
    ensures Encode(Repeat(x, 256), AsWritten) == [0xFF, x, 0xF9, x]
    ensures Decode(Encode(Repeat(x, 256), AsWritten)) == Some(Repeat(x, 254))
  {
    var c := Repeat(x, 256);
    FlatFirstRun(x);
    FlatSecondRun(x);
    assert EncodeFrom(c, 131, [], AsWritten) == [0xF9, x] + [];
    assert Encode(c, AsWritten) == [0xFF, x] + [0xF9, x];
    DecodeFlat(x);
  }

  lemma FlatFirstRun(x: byte)
    ensures Step(Repeat(x, 256), 0, [], AsWritten) == StepOut([0xFF, x], 131, [])
  {
    RunEndFlat(Repeat(x, 256), 0, 3, 130);
  }

  lemma FlatSecondRun(x: byte)
    ensures Step(Repeat(x, 256), 131, [], AsWritten) == StepOut([0xF9, x], 256, [])
  {
    RunEndFlat(Repeat(x, 256), 131, 3, 124);
  }

  lemma DecodeFlat(x: byte)
    ensures Decode([0xFF, x, 0xF9, x]) == Some(Repeat(x, 254))
  {
    var e: seq<byte> := [0xFF, x, 0xF9, x];
    assert e[2..][2..] == [];
    assert Decode(e[2..]) == Some(Repeat(x, 124) + []);
    assert Repeat(x, 124) + [] == Repeat(x, 124);
    assert Decode(e) == Some(Repeat(x, 130) + Repeat(x, 124));
    assert Repeat(x, 130) + Repeat(x, 124) == Repeat(x, 254);
  }

  // ---------------------------------------------------------------- the encoder loop

  /** The inner scan of `_rgba8_to_packbits_encode`: the first offset up to `lim` whose byte differs. */
  method ScanRun(ch: nat, n: nat, source: seq<byte>, i: nat, lim: nat) returns (j: nat)
    requires ch < 4 && 4 * n <= |source| && i + lim < n && 3 <= lim + 1
    ensures j == RunEnd(Channel(source, ch, n), i, 3, lim)
  {
    ghost var c := Channel(source, ch, n);
    j := 3;
    while j <= lim && source[4 * (i + j) + ch] == source[4 * i + ch]
      invariant 3 <= j <= lim + 1
      invariant RunEnd(c, i, 3, lim) == RunEnd(c, i, j, lim)
    {
      j := j + 1;
    }
  }

  /**
   * `_rgba8_to_packbits_encode` with the run limit corrected: channel `ch` of
   * the `size` x `size` RGBA `source` is encoded and appended after `dest`.
   */
  method PackBitsEncode(ch: nat, size: nat, source: seq<byte>, dest: seq<byte>) returns (out: seq<byte>)
    requires ch < 4 && 4 * (size * size) <= |source|
    ensures out == dest + Encode(Channel(source, ch, size * size), Corrected)
    ensures Decode(out[|dest|..]) == Some(Channel(source, ch, size * size))
  {
    var result := EncodeChannel(ch, size * size, source);
    out := dest + result;
    assert out[|dest|..] == result;
    EncodeRoundTrip(Channel(source, ch, size * size));
  }

  /** The encoder loop over the `n` pixels of channel `ch`. */
  method EncodeChannel(ch: nat, n: nat, source: seq<byte>) returns (result: seq<byte>)
    requires ch < 4 && 4 * n <= |source|
    ensures result == Encode(Channel(source, ch, n), Corrected)
  {
    ghost var c := Channel(source, ch, n);
    result := [];
    var buf: seq<byte> := [];
    var i := 0;
    while i < n
      invariant 0 <= i <= n && |buf| < 128 && (i == n ==> buf == [])
      invariant result + EncodeFrom(c, i, buf, Corrected) == Encode(c, Corrected)
    {
      var emitted, next, pending := EncodeStep(ch, n, source, i, buf);
      assert EncodeFrom(c, i, buf, Corrected) == emitted + EncodeFrom(c, next, pending, Corrected);
      assert result + emitted + EncodeFrom(c, next, pending, Corrected) == result + EncodeFrom(c, i, buf, Corrected);
      result, i, buf := result + emitted, next, pending;
    }
    assert result + EncodeFrom(c, n, [], Corrected) == result + [];
  }

  /** One pass of the encoder loop at position `i`: a run, a byte added to the pending literal, or a flushed literal. */
  method EncodeStep(ch: nat, n: nat, source: seq<byte>, i: nat, buf: seq<byte>) returns (emitted: seq<byte>, next: nat, pending: seq<byte>)
    requires ch < 4 && 4 * n <= |source| && i < n && |buf| < 128
    ensures StepOut(emitted, next, pending) == Step(Channel(source, ch, n), i, buf, Corrected)
  {
    ghost var c := Channel(source, ch, n);
    var cur := source[4 * i + ch];
    if i < n - 2 && source[4 * (i + 1) + ch] == cur && source[4 * (i + 2) + ch] == cur {
      assert c[i + 1] == c[i] && c[i + 2] == c[i];
      emitted, next := EncodeRun(ch, n, source, i, buf);
      pending := [];
    } else {
      assert !(i + 2 < |c| && c[i + 1] == c[i] && c[i + 2] == c[i]);
      emitted, next, pending := EncodeLiteral(ch, n, source, i, buf);
    }
  }

  /** A run of at least three equal bytes at `i`: the pending literal is flushed, then the run's header and byte. */
  method EncodeRun(ch: nat, n: nat, source: seq<byte>, i: nat, buf: seq<byte>) returns (emitted: seq<byte>, next: nat)
    requires ch < 4 && 4 * n <= |source| && i + 2 < n && |buf| < 128
    requires Channel(source, ch, n)[i + 1] == Channel(source, ch, n)[i] && Channel(source, ch, n)[i + 2] == Channel(source, ch, n)[i]
    ensures StepOut(emitted, next, []) == Step(Channel(source, ch, n), i, buf, Corrected)
  {
    emitted := FlushLiteral(buf);
    var lim := if i + 129 >= n then n - i - 1 else 129;
    var j := ScanRun(ch, n, source, i, lim);
    var header: byte;
    if j <= lim {
      header, next := j - 3 + 0x80, i + j;
    } else {
      header, next := lim - 2 + 0x80, i + lim + 1;
    }
    emitted := emitted + [header, source[4 * i + ch]];
    ghost var c := Channel(source, ch, n);
    RunStep(c, i, buf);
    RunLenIs(c, i, lim, j);
  }

  lemma RunLenIs(c: seq<byte>, i: nat, lim: nat, j: nat)
    requires i + 2 < |c| && lim == Lim(|c|, i, Corrected) && j == RunEnd(c, i, 3, lim)
    ensures RunLen(c, i) == if j <= lim then j else lim + 1
  {
  }

  /** Writes out the pending literal bytes, if any. */
  method FlushLiteral(buf: seq<byte>) returns (emitted: seq<byte>)
    requires |buf| <= 128
    ensures emitted == Literal(buf)
  {
    emitted := [];
    if |buf| > 0 {
      emitted := [|buf| - 1] + buf;
    }
  }

  /** No run at `i`: the byte joins the pending literal, which is flushed at 128 bytes or near the end. */
  method EncodeLiteral(ch: nat, n: nat, source: seq<byte>, i: nat, buf: seq<byte>) returns (emitted: seq<byte>, next: nat, pending: seq<byte>)
    requires ch < 4 && 4 * n <= |source| && i < n && |buf| < 128
    requires var c := Channel(source, ch, n); !(i + 2 < n && c[i + 1] == c[i] && c[i + 2] == c[i])
    ensures StepOut(emitted, next, pending) == Step(Channel(source, ch, n), i, buf, Corrected)
  {
    ghost var c := Channel(source, ch, n);
    emitted := [];
    pending := buf + [source[4 * i + ch]];
    if i >= n - 2 || |pending| == 128 {
      emitted := FlushLiteral(pending);
      pending := [];
    }
    next := i + 1;
    LiteralStepIs(c, i, buf);
  }

  lemma RunStepIs(c: seq<byte>, i: nat, buf: seq<byte>, lim: nat, j: nat)
    requires i + 2 < |c| && c[i + 1] == c[i] && c[i + 2] == c[i] && |buf| < 128
    requires lim == Lim(|c|, i, Corrected) && j == RunEnd(c, i, 3, lim)
    ensures j <= lim ==> Step(c, i, buf, Corrected) == StepOut(Literal(buf) + [j - 3 + 0x80, c[i]], i + j, [])
    ensures j > lim ==> Step(c, i, buf, Corrected) == StepOut(Literal(buf) + [lim - 2 + 0x80, c[i]], i + lim + 1, [])
  {
  }

  lemma LiteralStepIs(c: seq<byte>, i: nat, buf: seq<byte>)
    requires i < |c| && |buf| < 128 && !(i + 2 < |c| && c[i + 1] == c[i] && c[i + 2] == c[i])
    ensures i + 2 < |c| && |buf| < 127 ==> Step(c, i, buf, Corrected) == StepOut([], i + 1, buf + [c[i]])
    ensures !(i + 2 < |c| && |buf| < 127) ==> Step(c, i, buf, Corrected) == StepOut(Literal(buf + [c[i]]), i + 1, [])
  {
  }

  /** Decoding two encodings back to back decodes each in turn. */
  lemma {:induction false} DecodeAppend(a: seq<byte>, b: seq<byte>)
    requires Decode(a).Some? && Decode(b).Some?
    ensures Decode(a + b) == Some(Decode(a).value + Decode(b).value)
    decreases |a|
  {
    if a == [] {
      assert a + b == b;
      assert [] + Decode(b).value == Decode(b).value;
    } else if a[0] < 0x80 {
      var n := a[0] as int + 1;
      var lit, rest := a[1..1 + n], a[1 + n..];
      assert a == Literal(lit) + rest;
      DecodeLiteral(lit, rest);
      DecodeAppend(rest, b);
      LiteralAppend(lit, rest, b);
    } else {
      var m := a[0] as int - 0x80 + 3;
      var rest := a[2..];
      assert a == [m - 3 + 0x80, a[1]] + rest;
      DecodeRun(a[1], m, rest);
      DecodeAppend(rest, b);
      RunAppend(a[1], m, rest, b);
    }
  }

  lemma Assoc(a: seq<byte>, b: seq<byte>, c: seq<byte>)
    ensures a + (b + c) == a + b + c
  {
  }

  lemma LiteralAppend(lit: seq<byte>, rest: seq<byte>, b: seq<byte>)
    requires 1 <= |lit| <= 128 && Decode(rest).Some? && Decode(b).Some?
    requires Decode(rest + b) == Some(Decode(rest).value + Decode(b).value)
    ensures Decode(Literal(lit) + rest + b) == Some(lit + Decode(rest).value + Decode(b).value)
  {
    var x, y := Decode(rest).value, Decode(b).value;
    Assoc(Literal(lit), rest, b);
    assert Decode(Literal(lit) + (rest + b)) == Some(lit + (x + y)) by {
      DecodeLiteral(lit, rest + b);
    }
    Assoc(lit, x, y);
  }

  lemma RunAppend(v: byte, m: nat, rest: seq<byte>, b: seq<byte>)
    requires 3 <= m <= 130 && Decode(rest).Some? && Decode(b).Some?
    requires Decode(rest + b) == Some(Decode(rest).value + Decode(b).value)
    ensures Decode([m - 3 + 0x80, v] + rest + b) == Some(Repeat(v, m) + Decode(rest).value + Decode(b).value)
  {
    var h: seq<byte> := [m - 3 + 0x80, v];
    Assoc(h, rest, b);
    DecodeRun(v, m, rest + b);
    Assoc(Repeat(v, m), Decode(rest).value, Decode(b).value);
  }

  // ---------------------------------------------------------------- icon file

  /** An entry of `icon_infos`: the type of the image, the type of its mask, whether it is stored as PNG, and its size. */
  datatype IconInfo = IconInfo(name: string, maskName: string, isPng: bool, size: nat)

  const ICON_INFOS: seq<IconInfo> := [
    IconInfo("ic10", "", true, 1024), IconInfo("ic09", "", true, 512), IconInfo("ic14", "", true, 512),
    IconInfo("ic08", "", true, 256), IconInfo("ic13", "", true, 256), IconInfo("ic07", "", true, 128),
    IconInfo("ic12", "", true, 64), IconInfo("ic11", "", true, 32),
    IconInfo("il32", "l8mk", false, 32), IconInfo("is32", "s8mk", false, 16)]

  /**
   * What the image code hands the framing for one entry: the bytes of the PNG
   * file written to the cache directory (`None` when it cannot be opened),
   * or the RGBA8 pixels of the image resized to the entry's size.
   */
  datatype Rendered = Png(file: Option<seq<byte>>) | Rgba(pixels: seq<byte>)

  /** One framed entry: a four-character type and its body. */
  datatype Entry = Entry(tag: string, body: seq<byte>)

  predicate Fits(info: IconInfo, r: Rendered)
  {
    (info.isPng <==> r.Png?) && (r.Rgba? ==> |r.pixels| == 4 * (info.size * info.size))
      && (r.Png? && r.file.Some? ==> |r.file.value| + 8 < 0x1_0000_0000)
  }

  /** The entries one `icon_infos` item contributes: a PNG entry, or the RGB run-length entry and its mask. */
  function ItemEntries(info: IconInfo, r: Rendered): (es: Option<seq<Entry>>)
    requires Fits(info, r)
  {
    match r
    case Png(None) => None
    case Png(Some(f)) => Some([Entry(info.name, f)])
    case Rgba(p) =>
      var n := info.size * info.size;
      Some([Entry(info.name, RgbBody(p, n)), Entry(info.maskName, Channel(p, 3, n))])
  }

  /** The body of a run-length entry: the red, green and blue channels, each encoded on its own. */
  function RgbBody(p: seq<byte>, n: nat): seq<byte>
    requires 4 * n <= |p|
  {
    Encode(Channel(p, 0, n), Corrected) + Encode(Channel(p, 1, n), Corrected) + Encode(Channel(p, 2, n), Corrected)
  }

  /** The entries of the first `|rs|` items, or `None` once a PNG file cannot be opened. */
  function AllEntries(infos: seq<IconInfo>, rs: seq<Rendered>): (es: Option<seq<Entry>>)
    requires |rs| <= |infos| && forall k :: 0 <= k < |rs| ==> Fits(infos[k], rs[k])
    decreases |rs|
  {
    if rs == [] then Some([])
    else
      var n := |rs| - 1;
      match AllEntries(infos, rs[..n])
      case None => None
      case Some(front) =>
        match ItemEntries(infos[n], rs[n])
        case None => None
        case Some(last) => Some(front + last)
  }

  predicate TagChars(tag: string)
  {
    |tag| == 4 && forall k :: 0 <= k < 4 ==> tag[k] as int < 256
  }

  function Tag(tag: string): (b: seq<byte>)
    requires TagChars(tag)
    ensures |b| == 4
  {
    seq(4, k requires 0 <= k < 4 => tag[k] as int)
  }

  /** An entry on disk: type, big-endian length counting the 8 header bytes, body. */
  function Framed(e: Entry): (b: seq<byte>)
    requires TagChars(e.tag) && |e.body| + 8 < 0x1_0000_0000
    ensures |b| == 8 + |e.body|
  {
    Tag(e.tag) + BigEndian32(|e.body| + 8) + e.body
  }

  predicate Frameable(es: seq<Entry>)
  {
    forall k :: 0 <= k < |es| ==> TagChars(es[k].tag) && |es[k].body| + 8 < 0x1_0000_0000
  }

  function FramedAll(es: seq<Entry>): seq<byte>
    requires Frameable(es)
  {
    if es == [] then [] else FramedAll(es[..|es| - 1]) + Framed(es[|es| - 1])
  }

  /** The icon family file: "icns", the big-endian total length, then every entry. */
  function IcnsFile(es: seq<Entry>): seq<byte>
    requires Frameable(es) && 8 + |FramedAll(es)| < 0x1_0000_0000
  {
    Tag("icns") + BigEndian32(8 + |FramedAll(es)|) + FramedAll(es)
  }

  /** Reads the entries back: type, length, and that many bytes less the header, until the end. */
  function ParseEntries(b: seq<byte>): (r: Option<seq<Entry>>)
    decreases |b|
  {
    if b == [] then Some([])
    else if |b| < 8 then None
    else
      var len := UnsignedBE(b[4..8]);
      if len < 8 || |b| < len then None
      else match ParseEntries(b[len..])
        case None => None
        case Some(rest) => Some([Entry(Chars(b[..4]), b[8..len])] + rest)
  }

  /** The whole file read back: the "icns" magic, a total length equal to the file's size, and the entries. */
  function ParseIcns(b: seq<byte>): (r: Option<seq<Entry>>)
  {
    if |b| < 8 || Chars(b[..4]) != "icns" || UnsignedBE(b[4..8]) != |b| then None
    else ParseEntries(b[8..])
  }

  function FramedFrom(es: seq<Entry>): seq<byte>
    requires Frameable(es)
  {
    if es == [] then [] else Framed(es[0]) + FramedFrom(es[1..])
  }

  lemma {:induction false} FramedAllFrom(es: seq<Entry>)
    requires Frameable(es)
    ensures FramedAll(es) == FramedFrom(es)
    decreases |es|
  {
    if es != [] {
      var n := |es| - 1;
      FramedAllFrom(es[..n]);
      FramedFromAppend(es[..n], es[n]);
      assert es[..n] + [es[n]] == es;
    }
  }

  lemma {:induction false} FramedFromAppend(es: seq<Entry>, e: Entry)
    requires Frameable(es) && TagChars(e.tag) && |e.body| + 8 < 0x1_0000_0000
    ensures Frameable(es + [e]) && FramedFrom(es + [e]) == FramedFrom(es) + Framed(e)
    decreases |es|
  {
    assert Frameable(es + [e]);
    if es == [] {
      assert FramedFrom([e]) == Framed(e) + FramedFrom([]);
    } else {
      FramedFromAppend(es[1..], e);
      assert (es + [e])[1..] == es[1..] + [e];
    }
  }

  lemma TagChars4(tag: string)
    requires TagChars(tag)
    ensures Chars(Tag(tag)) == tag
  {
  }

  lemma {:induction false} ParseFramed(es: seq<Entry>)
    requires Frameable(es)
    ensures ParseEntries(FramedFrom(es)) == Some(es)
    decreases |es|
  {
    if es != [] {
      var e := es[0];
      var b := FramedFrom(es);
      var len := |e.body| + 8;
      assert b == Framed(e) + FramedFrom(es[1..]);
      assert b[4..8] == BigEndian32(len);
      BigEndianRoundTrip(len);
      assert b[len..] == FramedFrom(es[1..]);
      assert b[..4] == Tag(e.tag);
      TagChars4(e.tag);
      assert b[8..len] == e.body;
      ParseFramed(es[1..]);
      assert [e] + es[1..] == es;
    }
  }

  /** The file `_make_icon` produces reads back as its entries. */
  lemma IcnsRoundTrip(es: seq<Entry>)
    requires Frameable(es) && 8 + |FramedAll(es)| < 0x1_0000_0000
    ensures ParseIcns(IcnsFile(es)) == Some(es)
  {
    var body := FramedAll(es);
    var b := IcnsFile(es);
    assert b == Tag("icns") + BigEndian32(8 + |body|) + body;
    IcnsHeader(body);
    FramedAllFrom(es);
    ParseFramed(es);
  }

  lemma IcnsHeader(body: seq<byte>)
    requires 8 + |body| < 0x1_0000_0000
    ensures var b := Tag("icns") + BigEndian32(8 + |body|) + body;
      |b| >= 8 && Chars(b[..4]) == "icns" && UnsignedBE(b[4..8]) == |b| && b[8..] == body
  {
    var b := Tag("icns") + BigEndian32(8 + |body|) + body;
    BigEndianRoundTrip(8 + |body|);
    assert b[..4] == Tag("icns");
    TagChars4("icns");
    assert b[4..8] == BigEndian32(8 + |body|);
  }

  /** The run-length entry of an item holds its red, green and blue channels, in that order. */
  lemma RgbEntryDecodes(info: IconInfo, p: seq<byte>)
    requires Fits(info, Rgba(p))
    ensures var n := info.size * info.size;
      Decode(ItemEntries(info, Rgba(p)).value[0].body) == Some(Channel(p, 0, n) + Channel(p, 1, n) + Channel(p, 2, n))
      && ItemEntries(info, Rgba(p)).value[1].body == Channel(p, 3, n)
  {
    var n := info.size * info.size;
    var r, g, b := Encode(Channel(p, 0, n), Corrected), Encode(Channel(p, 1, n), Corrected), Encode(Channel(p, 2, n), Corrected);
    EncodeRoundTrip(Channel(p, 0, n));
    EncodeRoundTrip(Channel(p, 1, n));
    EncodeRoundTrip(Channel(p, 2, n));
    DecodeAppend(r, g);
    DecodeAppend(r + g, b);
  }

  /** The encoder writes at most two bytes per channel byte, plus one. */
  lemma {:induction false} EncodeFromLength(c: seq<byte>, i: nat, buf: seq<byte>)
    requires i <= |c| && |buf| < 128
    ensures |EncodeFrom(c, i, buf, Corrected)| <= 2 * (|c| - i) + |buf| + 1
    decreases |c| - i
  {
    if i < |c| {
      var st := Step(c, i, buf, Corrected);
      EncodeFromLength(c, st.next, st.pending);
      if i + 2 < |c| && c[i + 1] == c[i] && c[i + 2] == c[i] {
        var lim := Lim(|c|, i, Corrected);
        RunStepIs(c, i, buf, lim, RunEnd(c, i, 3, lim));
      } else {
        LiteralStepIs(c, i, buf);
      }
    }
  }

  lemma EncodeLength(c: seq<byte>)
    ensures |Encode(c, Corrected)| <= 2 * |c| + 1
  {
    EncodeFromLength(c, 0, []);
  }

  /** A rendered image small enough that no length field of the file wraps around. */
  predicate Small(r: Rendered)
  {
    r.Png? && r.file.Some? ==> |r.file.value| < 0x400_0000
  }

  /** A table of entry types the framing can use: four Latin-1 characters each, and run-length entries of at most 1024 pixels. */
  predicate InfosOk(infos: seq<IconInfo>)
  {
    |infos| <= 10 && forall k :: 0 <= k < |infos| ==>
      TagChars(infos[k].name) && (!infos[k].isPng ==> TagChars(infos[k].maskName) && infos[k].size * infos[k].size <= 1024)
  }

  lemma IconInfosShape()
    ensures InfosOk(ICON_INFOS)
  {
  }

  lemma ItemFramedSize(info: IconInfo, r: Rendered)
    requires TagChars(info.name) && (!info.isPng ==> TagChars(info.maskName) && info.size * info.size <= 1024)
    requires Fits(info, r) && Small(r) && ItemEntries(info, r).Some?
    ensures Frameable(ItemEntries(info, r).value)
    ensures |FramedAll(ItemEntries(info, r).value)| <= 0x800_0000
  {
    if r.Rgba? {
      RgbaFramedSize(info, r.pixels);
    } else {
      var es := ItemEntries(info, r).value;
      assert es == [Entry(info.name, r.file.value)];
      assert FramedAll(es) == FramedAll([]) + Framed(es[0]);
    }
  }

  lemma RgbaFramedSize(info: IconInfo, p: seq<byte>)
    requires TagChars(info.name) && TagChars(info.maskName) && info.size * info.size <= 1024 && Fits(info, Rgba(p))
    ensures Frameable(ItemEntries(info, Rgba(p)).value)
    ensures |FramedAll(ItemEntries(info, Rgba(p)).value)| <= 0x800_0000
    ensures var n := info.size * info.size;
      |RgbBody(p, n)| + 8 < 0x1_0000_0000
      && FramedAll(ItemEntries(info, Rgba(p)).value)
        == Framed(Entry(info.name, RgbBody(p, n))) + Framed(Entry(info.maskName, Channel(p, 3, n)))
  {
    var n := info.size * info.size;
    var rgb := RgbBody(p, n);
    assert |rgb| <= 6 * n + 3 by {
      EncodeLength(Channel(p, 0, n));
      EncodeLength(Channel(p, 1, n));
      EncodeLength(Channel(p, 2, n));
    }
    var es := [Entry(info.name, rgb), Entry(info.maskName, Channel(p, 3, n))];
    assert ItemEntries(info, Rgba(p)).value == es;
    assert Frameable(es);
    assert FramedAll(es) == Framed(es[0]) + Framed(es[1]) by {
      assert es[..1] == [es[0]] && es[..1][..0] == [];
      assert FramedAll(es[..1]) == [] + Framed(es[0]);
    }
  }

  lemma {:induction false} FramedAllAppend(xs: seq<Entry>, ys: seq<Entry>)
    requires Frameable(xs) && Frameable(ys)
    ensures Frameable(xs + ys) && FramedAll(xs + ys) == FramedAll(xs) + FramedAll(ys)
    decreases |ys|
  {
    var zs := xs + ys;
    assert Frameable(zs);
    if ys == [] {
      assert zs == xs;
    } else {
      var n := |ys| - 1;
      assert zs[..|zs| - 1] == xs + ys[..n] && zs[|zs| - 1] == ys[n];
      FramedAllAppend(xs, ys[..n]);
      assert FramedAll(zs) == FramedAll(xs + ys[..n]) + Framed(ys[n]);
      Assoc(FramedAll(xs), FramedAll(ys[..n]), Framed(ys[n]));
    }
  }

  lemma {:induction false} AllFramedSize(infos: seq<IconInfo>, rs: seq<Rendered>)
    requires InfosOk(infos) && |rs| <= |infos| && forall k :: 0 <= k < |rs| ==> Fits(infos[k], rs[k]) && Small(rs[k])
    requires AllEntries(infos, rs).Some?
    ensures Frameable(AllEntries(infos, rs).value)
    ensures |FramedAll(AllEntries(infos, rs).value)| <= |rs| * 0x800_0000
    decreases |rs|
  {
    if rs != [] {
      var n := |rs| - 1;
      AllFramedSize(infos, rs[..n]);
      ItemFramedSize(infos[n], rs[n]);
      FramedAllAppend(AllEntries(infos, rs[..n]).value, ItemEntries(infos[n], rs[n]).value);
    }
  }

  predicate FileFits(es: seq<Entry>)
  {
    Frameable(es) && 8 + |FramedAll(es)| < 0x1_0000_0000
  }

  lemma {:induction false} NoneStaysNone(infos: seq<IconInfo>, rs: seq<Rendered>, k: nat, m: nat)
    requires k <= m <= |rs| <= |infos| && forall j :: 0 <= j < |rs| ==> Fits(infos[j], rs[j])
    requires AllEntries(infos, rs[..k]).None?
    ensures AllEntries(infos, rs[..m]).None?
    decreases m - k
  {
    if k < m {
      assert rs[..k + 1][..k] == rs[..k];
      NoneStaysNone(infos, rs, k + 1, m);
    }
  }

  /** Three calls of `_rgba8_to_packbits_encode`, one per colour channel. */
  method PackRgb(d: seq<byte>, size: nat, p: seq<byte>) returns (e: seq<byte>)
    requires 4 * (size * size) <= |p|
    ensures e == d + RgbBody(p, size * size)
  {
    e := PackBitsEncode(0, size, p, d);
    e := PackBitsEncode(1, size, p, e);
    e := PackBitsEncode(2, size, p, e);
    ghost var n := size * size;
    Assoc(d, Encode(Channel(p, 0, n), Corrected), Encode(Channel(p, 1, n), Corrected));
    Assoc(d, Encode(Channel(p, 0, n), Corrected) + Encode(Channel(p, 1, n), Corrected), Encode(Channel(p, 2, n), Corrected));
  }

  /** Writing the length over the eight placeholder bytes frames the body that follows them. */
  lemma PatchFrames(d: seq<byte>, tag: string, body: seq<byte>)
    requires TagChars(tag) && |body| + 8 < 0x1_0000_0000
    ensures var e := d + [0, 0, 0, 0, 0, 0, 0, 0] + body;
      e[..|d|] + Tag(tag) + BigEndian32(|e| - |d|) + e[|d| + 8..] == d + Framed(Entry(tag, body))
  {
    var e := d + [0, 0, 0, 0, 0, 0, 0, 0] + body;
    assert e[..|d|] == d && e[|d| + 8..] == body;
    Assoc(d, Tag(tag), BigEndian32(|body| + 8));
    Assoc(d, Tag(tag) + BigEndian32(|body| + 8), body);
  }

  /** The run-length branch of `_make_icon`: a placeholder header, the three channels, the header patched, then the mask entry. */
  method AppendRgbaEntries(d: seq<byte>, info: IconInfo, p: seq<byte>) returns (out: seq<byte>)
    requires TagChars(info.name) && TagChars(info.maskName) && info.size * info.size <= 1024 && Fits(info, Rgba(p))
    ensures Frameable(ItemEntries(info, Rgba(p)).value)
    ensures out == d + FramedAll(ItemEntries(info, Rgba(p)).value)
  {
    RgbaFramedSize(info, p);
    var n := info.size * info.size;
    var ofs := |d|;
    var e := d + [0, 0, 0, 0, 0, 0, 0, 0];
    e := PackRgb(e, info.size, p);
    PatchFrames(d, info.name, RgbBody(p, n));
    var len := |e| - ofs;
    e := e[..ofs] + Tag(info.name) + BigEndian32(len) + e[ofs + 8..];
    out := e + Tag(info.maskName) + BigEndian32(n + 8) + Channel(p, 3, n);
    Assoc(e, Tag(info.maskName), BigEndian32(n + 8));
    Assoc(e, Tag(info.maskName) + BigEndian32(n + 8), Channel(p, 3, n));
    Assoc(d, Framed(Entry(info.name, RgbBody(p, n))), Framed(Entry(info.maskName, Channel(p, 3, n))));
  }

  /** One `icon_infos` item of `_make_icon` whose image could be produced. */
  method AppendItem(d: seq<byte>, info: IconInfo, r: Rendered) returns (out: seq<byte>)
    requires TagChars(info.name) && (!info.isPng ==> TagChars(info.maskName) && info.size * info.size <= 1024)
    requires Fits(info, r) && Small(r) && r != Png(None)
    ensures ItemEntries(info, r).Some? && Frameable(ItemEntries(info, r).value)
    ensures out == d + FramedAll(ItemEntries(info, r).value)
  {
    if r.Png? {
      var f := r.file.value;
      out := d + Framed(Entry(info.name, f));
      assert ItemEntries(info, r).value == [Entry(info.name, f)];
      assert FramedAll([Entry(info.name, f)]) == [] + Framed(Entry(info.name, f));
    } else {
      out := AppendRgbaEntries(d, info, r.pixels);
    }
  }

  /** The entries of the first `i + 1` items are those of the first `i` followed by item `i`'s. */
  lemma AllEntriesSnoc(infos: seq<IconInfo>, rs: seq<Rendered>, i: nat, front: seq<Entry>, items: seq<Entry>)
    requires i < |rs| <= |infos| && forall k :: 0 <= k < |rs| ==> Fits(infos[k], rs[k])
    requires AllEntries(infos, rs[..i]) == Some(front) && ItemEntries(infos[i], rs[i]) == Some(items)
    ensures AllEntries(infos, rs[..i + 1]) == Some(front + items)
  {
    assert rs[..i + 1][..i] == rs[..i];
  }

  /**
   * `_make_icon`: the "icns" header, then per `icon_infos` item either its
   * PNG entry or its run-length RGB entry followed by its alpha mask, then
   * the total length patched into the header. An unreadable PNG file stops
   * with nothing produced.
   */
  method MakeIcon(rendered: seq<Rendered>) returns (data: Option<seq<byte>>)
    requires |rendered| == |ICON_INFOS|
    requires forall k :: 0 <= k < |rendered| ==> Fits(ICON_INFOS[k], rendered[k]) && Small(rendered[k])
    ensures AllEntries(ICON_INFOS, rendered).None? <==> data.None?
    ensures data.Some? ==> (FileFits(AllEntries(ICON_INFOS, rendered).value)
      && data.value == IcnsFile(AllEntries(ICON_INFOS, rendered).value))
    ensures data.Some? ==> ParseIcns(data.value) == AllEntries(ICON_INFOS, rendered)
  {
    IconInfosShape();
    data := FrameIcon(ICON_INFOS, rendered);
  }

  /** The loop of `_make_icon` over a table of entry types. */
  method FrameIcon(infos: seq<IconInfo>, rendered: seq<Rendered>) returns (data: Option<seq<byte>>)
    requires InfosOk(infos) && |rendered| == |infos|
    requires forall k :: 0 <= k < |rendered| ==> Fits(infos[k], rendered[k]) && Small(rendered[k])
    ensures AllEntries(infos, rendered).None? <==> data.None?
    ensures data.Some? ==> (FileFits(AllEntries(infos, rendered).value)
      && data.value == IcnsFile(AllEntries(infos, rendered).value))
    ensures data.Some? ==> ParseIcns(data.value) == AllEntries(infos, rendered)
  {
    ghost var header: seq<byte> := Tag("icns") + [0, 0, 0, 0];
    var d: seq<byte> := Tag("icns") + [0, 0, 0, 0];
    ghost var es: seq<Entry> := [];
    var i := 0;
    while i < |infos|
      invariant 0 <= i <= |infos|
      invariant AllEntries(infos, rendered[..i]) == Some(es)
      invariant Frameable(es) && d == header + FramedAll(es)
    {
      var info := infos[i];
      if rendered[i] == Png(None) {
        UnreadablePng(infos, rendered, i);
        return None;
      }
      d, es := FrameItem(infos, rendered, i, header, d, es);
      i := i + 1;
    }
    assert rendered[..|infos|] == rendered;
    AllFramedSize(infos, rendered);
    HeaderPatch(FramedAll(es));
    d := d[..4] + BigEndian32(|d|) + d[8..];
    data := Some(d);
    IcnsRoundTrip(es);
  }

  /** One pass of the loop of `_make_icon`: item `i`'s entries are framed after those of the items before it. */
  method FrameItem(infos: seq<IconInfo>, rendered: seq<Rendered>, i: nat, ghost header: seq<byte>, d: seq<byte>, ghost es: seq<Entry>)
      returns (d': seq<byte>, ghost es': seq<Entry>)
    requires InfosOk(infos) && i < |rendered| == |infos|
    requires forall k :: 0 <= k < |rendered| ==> Fits(infos[k], rendered[k]) && Small(rendered[k])
    requires rendered[i] != Png(None)
    requires AllEntries(infos, rendered[..i]) == Some(es) && Frameable(es) && d == header + FramedAll(es)
    ensures AllEntries(infos, rendered[..i + 1]) == Some(es') && Frameable(es') && d' == header + FramedAll(es')
  {
    var info := infos[i];
    ItemFramedSize(info, rendered[i]);
    ghost var items := ItemEntries(info, rendered[i]).value;
    d' := AppendItem(d, info, rendered[i]);
    AllEntriesSnoc(infos, rendered, i, es, items);
    FramedAllAppend(es, items);
    Assoc(header, FramedAll(es), FramedAll(items));
    es' := es + items;
  }

  /** An item whose PNG file cannot be opened leaves the whole icon without entries. */
  lemma UnreadablePng(infos: seq<IconInfo>, rs: seq<Rendered>, i: nat)
    requires i < |rs| == |infos| && forall j :: 0 <= j < |rs| ==> Fits(infos[j], rs[j])
    requires rs[i] == Png(None)
    ensures AllEntries(infos, rs).None?
  {
    assert rs[..i + 1][..i] == rs[..i];
    NoneStaysNone(infos, rs, i + 1, |rs|);
    assert rs[..|rs|] == rs;
  }

  /** Writing the total length over the placeholder after "icns" gives the file header. */
  lemma HeaderPatch(body: seq<byte>)
    requires 8 + |body| < 0x1_0000_0000
    ensures var d := Tag("icns") + [0, 0, 0, 0] + body;
      d[..4] + BigEndian32(|d|) + d[8..] == Tag("icns") + BigEndian32(8 + |body|) + body
  {
    var d := Tag("icns") + [0, 0, 0, 0] + body;
    assert d[..4] == Tag("icns") && d[8..] == body;
  }

  // ---------------------------------------------------------------- Info.plist

  /** The export preset values `_fix_plist` substitutes. */
  datatype PlistPreset = PlistPreset(info: string, identifier: string, shortVersion: string, version: string,
    signature: string, copyright: string, highRes: bool, cameraUsage: string, microphoneUsage: string)

  /** Every placeholder is non-empty, starts with '$' and holds no line break. */
  predicate Placeholders(subs: seq<(string, string)>)
  {
    forall k :: 0 <= k < |subs| ==> |subs[k].0| > 0 && subs[k].0[0] == '$' && '\n' !in subs[k].0
  }

  /** The placeholders `_fix_plist` tests, in its order, with their replacements. */
  function Substitutions(binary: string, preset: PlistPreset): (subs: seq<(string, string)>)
    ensures |subs| == 11 && Placeholders(subs)
  {
    [("$binary", binary), ("$name", binary), ("$info", preset.info), ("$identifier", preset.identifier),
     ("$short_version", preset.shortVersion), ("$version", preset.version), ("$signature", preset.signature),
     ("$copyright", preset.copyright), ("$highres", if preset.highRes then "<true/>" else "<false/>"),
     ("$camera_usage_description", preset.cameraUsage),
     ("$microphone_usage_description", preset.microphoneUsage)]
  }

  /** One line: only the first placeholder it holds, in the order given, is replaced (every occurrence of it). */
  function FixLine(line: string, subs: seq<(string, string)>): string
    requires Placeholders(subs)
  {
    if subs == [] then line
    else if Text.Find(line, subs[0].0) != -1 then Text.ReplaceAll(line, subs[0].0, subs[0].1)
    else FixLine(line, subs[1..])
  }

  function FixedLines(lines: seq<string>, subs: seq<(string, string)>): (r: seq<string>)
    requires Placeholders(subs)
    ensures |r| == |lines| && forall k :: 0 <= k < |lines| ==> r[k] == FixLine(lines[k], subs)
  {
    seq(|lines|, k requires 0 <= k < |lines| => FixLine(lines[k], subs))
  }

  /** Every line followed by "\n". */
  function Terminated(lines: seq<string>): string
  {
    if lines == [] then "" else lines[0] + "\n" + Terminated(lines[1..])
  }

  /** `_fix_plist`: the file split on "\n", each line fixed and terminated by "\n". */
  method FixPlist(plist: string, binary: string, preset: PlistPreset) returns (out: string)
    ensures out == Terminated(FixedLines(Text.Split(plist, "\n"), Substitutions(binary, preset)))
  {
    out := FixLines(plist, Substitutions(binary, preset));
  }

  /** The loop of `_fix_plist` over the lines of the file, for any placeholder table. */
  method FixLines(plist: string, subs: seq<(string, string)>) returns (out: string)
    requires Placeholders(subs)
    ensures out == Terminated(FixedLines(Text.Split(plist, "\n"), subs))
  {
    var lines := Text.Split(plist, "\n");
    ghost var fixed := FixedLines(lines, subs);
    out := "";
    var i := 0;
    while i < |lines|
      invariant 0 <= i <= |lines|
      invariant out == Terminated(fixed[..i])
    {
      TerminatedSnoc(fixed[..i], FixLine(lines[i], subs));
      assert fixed[..i + 1] == fixed[..i] + [FixLine(lines[i], subs)];
      out := out + FixLine(lines[i], subs) + "\n";
      i := i + 1;
    }
    assert fixed[..|lines|] == fixed;
  }

  lemma {:induction false} TerminatedSnoc(lines: seq<string>, x: string)
    ensures Terminated(lines + [x]) == Terminated(lines) + x + "\n"
    decreases |lines|
  {
    if lines == [] {
      assert Terminated([x]) == x + "\n" + Terminated([]);
    } else {
      assert (lines + [x])[1..] == lines[1..] + [x];
      TerminatedSnoc(lines[1..], x);
      var t := Terminated(lines[1..]);
      assert lines[0] + "\n" + (t + x + "\n") == lines[0] + "\n" + t + x + "\n";
    }
  }

  /** Terminating every line is joining the lines and one empty line with "\n". */
  lemma {:induction false} TerminatedJoin(lines: seq<string>)
    ensures Terminated(lines) == Text.Join(lines + [""], "\n")
    decreases |lines|
  {
    if lines != [] {
      assert (lines + [""])[1..] == lines[1..] + [""];
      TerminatedJoin(lines[1..]);
    }
  }

  /** A line without '$' holds no placeholder and is copied unchanged. */
  lemma {:induction false} FixLineUntouched(line: string, subs: seq<(string, string)>)
    requires Placeholders(subs) && '$' !in line
    ensures FixLine(line, subs) == line
    decreases |subs|
  {
    if subs != [] {
      var key := subs[0].0;
      assert !Text.Contains(line, key) by {
        forall i: nat | i <= |line| ensures !Text.OccursAt(line, key, i) {
          if i + |key| <= |line| {
            assert line[i..i + |key|][0] == line[i];
          }
        }
      }
      FixLineUntouched(line, subs[1..]);
    }
  }

  /** The placeholder replaced is the first in the order that the line holds; the earlier ones are not looked at again. */
  lemma {:induction false} FixLineFirst(line: string, subs: seq<(string, string)>, k: nat)
    requires Placeholders(subs) && k < |subs| && Text.Contains(line, subs[k].0)
    requires forall j :: 0 <= j < k ==> !Text.Contains(line, subs[j].0)
    ensures FixLine(line, subs) == Text.ReplaceAll(line, subs[k].0, subs[k].1)
    decreases k
  {
    if k > 0 {
      FixLineFirst(line, subs[1..], k - 1);
    }
  }

  /** A line fixed with replacements free of `c` holds `c` only if the line did, when no placeholder holds it. */
  lemma {:induction false} FixLineKeeps(line: string, subs: seq<(string, string)>, c: char)
    requires Placeholders(subs)
    requires forall k :: 0 <= k < |subs| ==> c !in subs[k].0 && c !in subs[k].1
    ensures c in FixLine(line, subs) <==> c in line
    decreases |subs|
  {
    if subs != [] {
      if Text.Find(line, subs[0].0) != -1 {
        Text.ReplaceKeepsOthers(line, subs[0].0, subs[0].1, c);
      } else {
        FixLineKeeps(line, subs[1..], c);
      }
    }
  }

  /** The pieces of a split on one character never hold that character. */
  lemma {:induction false} SplitPiecesFree(s: string, c: char)
    ensures forall k :: 0 <= k < |Text.Split(s, [c])| ==> c !in Text.Split(s, [c])[k]
    decreases |s|
  {
    var i := Text.Find(s, [c]);
    if i == -1 {
      forall j | 0 <= j < |s| ensures s[j] != c {
        assert !Text.OccursAt(s, [c], j);
        assert s[j..j + 1] == [s[j]];
      }
    } else {
      forall j | 0 <= j < i ensures s[j] != c {
        assert !Text.OccursAt(s, [c], j);
        assert s[j..j + 1] == [s[j]];
      }
      SplitPiecesFree(s[i + 1..], c);
      assert Text.Split(s, [c]) == [s[..i]] + Text.Split(s[i + 1..], [c]);
    }
  }

  /**
   * When no replacement text holds a line break, the fixed file read back
   * line by line is the fixed lines followed by the empty piece after the
   * last "\n".
   */
  lemma FixedPlistLines(plist: string, binary: string, preset: PlistPreset)
    requires forall k :: 0 <= k < 11 ==> '\n' !in Substitutions(binary, preset)[k].1
    ensures var fixed := FixedLines(Text.Split(plist, "\n"), Substitutions(binary, preset));
      Text.Split(Terminated(fixed), "\n") == fixed + [""]
  {
    var subs := Substitutions(binary, preset);
    var lines := Text.Split(plist, "\n");
    var fixed := FixedLines(lines, subs);
    SplitPiecesFree(plist, '\n');
    forall k | 0 <= k < |fixed| ensures '\n' !in fixed[k] {
      FixLineKeeps(lines[k], subs, '\n');
    }
    TerminatedJoin(fixed);
    Text.SplitJoin(fixed + [""], '\n');
  }

  // ---------------------------------------------------------------- zip attributes

  const MODE_EXECUTABLE: bv32 := 0x81ED  // 0100755: regular file, rwxr-xr-x
  const MODE_REGULAR: bv32 := 0x81A4     // 0100644: regular file, rw-r--r--

  /** `_zip_folder_recursive`: only the file named after the package inside a folder ending "MacOS" is executable. */
  function ZipMode(folder: string, file: string, pkgName: string): (mode: bv32)
    ensures mode & 0x49 != 0 <==> Text.EndsWith(folder, "MacOS") && file == pkgName
    ensures mode & 0xF000 == 0x8000 && mode & 0x1A4 == 0x1A4
  {
    if Text.EndsWith(folder, "MacOS") && file == pkgName then MODE_EXECUTABLE else MODE_REGULAR
  }

  /** The zip entry's external attributes: the Unix mode in the high half, the MS-DOS read-only bit set only for a mode without owner write. */
  function ExternalAttributes(mode: bv32): bv32
  {
    (mode << 16) | (if mode & 0x80 == 0 then 1 else 0)
  }

  /** Both modes carry owner write, so the attributes are the mode shifted into the high half with the read-only bit clear. */
  lemma ZipAttributes(folder: string, file: string, pkgName: string)
    ensures var mode := ZipMode(folder, file, pkgName);
      ExternalAttributes(mode) >> 16 == mode && ExternalAttributes(mode) & 0xFFFF == 0
  {
  }

  // ---------------------------------------------------------------- templates

  /** What `can_export` reports: the verdict, `r_missing_templates`, and `r_error` when it is written. */
  datatype TemplateCheck = TemplateCheck(valid: bool, missingTemplates: bool, error: Option<string>)

  const DEBUG_NOT_FOUND := "Custom debug template not found.\n"
  const RELEASE_NOT_FOUND := "Custom release template not found.\n"

  /**
   * `can_export`. `officialFound` and `officialError` are what looking for
   * "osx.zip" among the installed templates gave; `debugExists` and
   * `releaseExists` say whether the custom template files exist.
   */
  function CanExport(officialFound: bool, officialError: string, customDebug: string, customRelease: string,
                     debugExists: bool, releaseExists: bool): (r: TemplateCheck)
    ensures r.missingTemplates == !r.valid
    ensures r.valid <==> ((if customDebug == "" then officialFound else debugExists)
      || (if customRelease == "" then officialFound else releaseExists))
    ensures r.error.Some? <==> (officialError != "" || (customDebug != "" && !debugExists)
      || (customRelease != "" && !releaseExists))
    ensures r.error.Some? ==> r.error.value != "" && Text.StartsWith(r.error.value, officialError)
  {
    var dvalid := if customDebug != "" then debugExists else officialFound;
    var rvalid := if customRelease != "" then releaseExists else officialFound;
    var err := officialError
      + (if customDebug != "" && !debugExists then DEBUG_NOT_FOUND else "")
      + (if customRelease != "" && !releaseExists then RELEASE_NOT_FOUND else "");
    var valid := dvalid || rvalid;
    TemplateCheck(valid, !valid, if err != "" then Some(err) else None)
  }

  /** A missing custom template is reported after the official lookup's own message, debug before release. */
  lemma CanExportMessages(officialFound: bool, officialError: string, customDebug: string, customRelease: string,
                          debugExists: bool, releaseExists: bool)
    requires customDebug != "" && !debugExists && customRelease != "" && !releaseExists
    ensures CanExport(officialFound, officialError, customDebug, customRelease, debugExists, releaseExists)
      == TemplateCheck(false, true, Some(officialError + DEBUG_NOT_FOUND + RELEASE_NOT_FOUND))
  {
  }

  /** With no custom templates, exporting is possible exactly when the official template is installed. */
  lemma CanExportOfficialOnly(officialFound: bool, officialError: string)
    ensures CanExport(officialFound, officialError, "", "", false, false).valid == officialFound
  {
  }

  /** `get_binary_extensions`: "dmg" first when disk images can be made, then always "zip". */
  function BinaryExtensions(useDmg: bool): (r: seq<string>)
    ensures |r| >= 1 && r[|r| - 1] == "zip"
    ensures "dmg" in r <==> useDmg
    ensures useDmg ==> r[0] == "dmg"
  {
    if useDmg then ["dmg", "zip"] else ["zip"]
  }
}
