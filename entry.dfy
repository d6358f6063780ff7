/**
 * The log entry frame codec (log/entry.go).
 *
 * A frame is the base 32 text of a 13-byte header (flags, taint, 24-bit big-endian payload
 * length, 64-bit big-endian UnixNano time), then the payload verbatim, then a '\n' when the
 * payload does not already end with one. WriteTo builds the frame in a fresh array; ReadFrom
 * parses one frame from a reader with the semantics of Go's `bytes.Buffer`.
 */
module LogEntry {
  import opened Wrappers
  import opened Bytes
  import Base32
  import opened LogTaint
  import opened Seqs

  /** `AppendNL` (log/log.go): the flag bit saying that a forced '\n' follows the payload. */
  const AppendNL: byte := 1

  /** The raw header length `L = 1 + 1 + 3 + 8`. */
  const HeaderLen: nat := 13

  /** `EncodedLen(L)`: the base 32 text of the header is always 24 characters. */
  const EncodedHeaderLen: nat := 24

  /** One log record; `time` is the record's UnixNano instant. */
  datatype Entry = Entry(time: Int64, taint: Taint, data: seq<byte>)

  /** The empty entry `Entry{}` a reader starts from. */
  const EmptyEntry := Entry(0, Normal, [])

  // ---------------------------------------------------------------------------------------
  // The encoder

  /** The payload does not end with '\n', so the frame appends one. */
  predicate ForcedNewline(data: seq<byte>)
    requires |data| > 0
  {
    data[|data| - 1] != Newline
  }

  /** The flags byte WriteTo computes. */
  function Flags(data: seq<byte>): byte
    requires |data| > 0
  {
    if ForcedNewline(data) then BitOr(0, AppendNL) else 0
  }

  /** The raw header: each field is the low byte of a right shift, as in Go. */
  function Header(flags: byte, taint: Taint, l: nat, t: Int64): (b: seq<byte>)
    ensures |b| == HeaderLen
  {
    [ flags,
      taint,
      LowByte(Shr(l, 2)),
      LowByte(Shr(l, 1)),
      LowByte(l),
      LowByte(Shr(t, 7)),
      LowByte(Shr(t, 6)),
      LowByte(Shr(t, 5)),
      LowByte(Shr(t, 4)),
      LowByte(Shr(t, 3)),
      LowByte(Shr(t, 2)),
      LowByte(Shr(t, 1)),
      LowByte(t) ]
  }

  function EntryHeader(e: Entry): (b: seq<byte>)
    requires |e.data| > 0
    ensures |b| == HeaderLen
  {
    Header(Flags(e.data), e.taint, |e.data|, e.time)
  }

  /** The bytes `Entry.WriteTo` hands to the writer. */
  function Frame(e: Entry): seq<byte>
    requires |e.data| > 0
  {
    Base32.Encode(EntryHeader(e)) + e.data + (if ForcedNewline(e.data) then [Newline] else [])
  }

  /** The frame's layout: 24 header characters, the payload, and a final newline either way. */
  lemma FrameLayout(e: Entry)
    requires |e.data| > 0
    ensures var f := Frame(e);
      && |f| == EncodedHeaderLen + |e.data| + (if ForcedNewline(e.data) then 1 else 0)
      && f[..EncodedHeaderLen] == Base32.Encode(EntryHeader(e))
      && f[EncodedHeaderLen..EncodedHeaderLen + |e.data|] == e.data
      && f[|f| - 1] == Newline
  {
    assert Base32.EncodedLen(HeaderLen) == EncodedHeaderLen;
  }

  /** The AppendNL bit is set exactly when the payload's last byte is not '\n'. */
  lemma FlagsRecordForcedNewline(data: seq<byte>)
    requires |data| > 0
    ensures (BitAnd(Flags(data), AppendNL) != 0) <==> data[|data| - 1] != Newline
    ensures Flags(data) == 0 || Flags(data) == AppendNL
  {
  }

  /** One step of Go's shift: the value is 256 times its shift plus its low byte. */
  lemma ShrStep(x: int, k: nat)
    ensures Shr(x, k) == Shr(x, k + 1) * 256 + LowByte(Shr(x, k))
  {
  }

  lemma Telescope3(x: int, q1: int, q2: int, q3: int, r0: int, r1: int, r2: int)
    requires x == q1 * 256 + r0 && q1 == q2 * 256 + r1 && q2 == q3 * 256 + r2
    ensures r2 * 0x1_0000 + r1 * 0x100 + r0 == x - q3 * 0x100_0000
  {
  }

  /** Three shifted low bytes of l carry l modulo 2^24. */
  lemma LengthField(l: nat, lb: seq<byte>)
    requires lb == [LowByte(Shr(l, 2)), LowByte(Shr(l, 1)), LowByte(l)]
    ensures BeUint(lb) == l % 0x100_0000
  {
    BeUint3(lb);
    ShrStep(l, 0);
    ShrStep(l, 1);
    ShrStep(l, 2);
    Telescope3(l, Shr(l, 1), Shr(l, 2), Shr(l, 3), lb[2], lb[1], lb[0]);
    Mod24(l, Shr(l, 3), BeUint(lb));
  }

  lemma Mod24(x: int, q: int, r: int)
    requires x == q * 0x100_0000 + r && 0 <= r < 0x100_0000
    ensures x % 0x100_0000 == r
  {
  }

  lemma Wrap64Periodic(x: int, k: int)
    ensures Wrap64(x + k * 0x1_0000_0000_0000_0000) == Wrap64(x)
  {
  }

  lemma Wrap64Id(t: Int64)
    ensures Wrap64(t) == t
  {
  }

  lemma Telescope8(x: int, q1: int, q2: int, q3: int, q4: int, q5: int, q6: int, q7: int, q8: int,
                    r0: int, r1: int, r2: int, r3: int, r4: int, r5: int, r6: int, r7: int)
    requires x == q1 * 256 + r0 && q1 == q2 * 256 + r1 && q2 == q3 * 256 + r2
    requires q3 == q4 * 256 + r3 && q4 == q5 * 256 + r4 && q5 == q6 * 256 + r5
    requires q6 == q7 * 256 + r6 && q7 == q8 * 256 + r7
    ensures r7 * 0x100_0000_0000_0000 + r6 * 0x1_0000_0000_0000 + r5 * 0x100_0000_0000
          + r4 * 0x1_0000_0000 + r3 * 0x100_0000 + r2 * 0x1_0000 + r1 * 0x100 + r0
         == x - q8 * 0x1_0000_0000_0000_0000
  {
  }

  /** Eight shifted low bytes of t, read big-endian and wrapped to int64, give t back. */
  lemma TimeField(t: Int64, tb: seq<byte>)
    requires tb == [LowByte(Shr(t, 7)), LowByte(Shr(t, 6)), LowByte(Shr(t, 5)), LowByte(Shr(t, 4)),
                    LowByte(Shr(t, 3)), LowByte(Shr(t, 2)), LowByte(Shr(t, 1)), LowByte(t)]
    ensures Wrap64(BeUint(tb)) == t
  {
    var u := BeUint(tb);
    var s := Shr(t, 8);
    assert u == t - s * 0x1_0000_0000_0000_0000 by {
      BeUint8(tb);
      ShrStep(t, 0);
      ShrStep(t, 1);
      ShrStep(t, 2);
      ShrStep(t, 3);
      ShrStep(t, 4);
      ShrStep(t, 5);
      ShrStep(t, 6);
      ShrStep(t, 7);
      Telescope8(t, Shr(t, 1), Shr(t, 2), Shr(t, 3), Shr(t, 4), Shr(t, 5), Shr(t, 6), Shr(t, 7), s,
                 tb[7], tb[6], tb[5], tb[4], tb[3], tb[2], tb[1], tb[0]);
    }
    Wrap64Periodic(t, -s);
    Wrap64Id(t);
  }

  /** The header fields read back big-endian: taint, the length modulo 2^24, the exact time. */
  lemma HeaderFields(flags: byte, taint: Taint, l: nat, t: Int64)
    ensures var b := Header(flags, taint, l, t);
      && b[0] == flags && b[1] == taint
      && BeUint(b[2..5]) == l % 0x100_0000
      && Wrap64(BeUint(b[5..13])) == t
  {
    var b := Header(flags, taint, l, t);
    LengthField(l, b[2..5]);
    TimeField(t, b[5..13]);
  }

  /**
   * `Entry.WriteTo`'s encoding step: allocate the frame, encode the header into its prefix,
   * copy the payload after it and set the forced newline last. The source indexes the last
   * payload byte, so it needs a non-empty payload.
   */
  method EncodeFrame(e: Entry) returns (ba: array<byte>)
    requires |e.data| > 0
    ensures fresh(ba)
    ensures ba[..] == Frame(e)
  {
    var l := |e.data|;
    var t := e.time;
    var flags: byte := 0;
    var appendNL := e.data[l - 1] != Newline;
    if appendNL {
      flags := BitOr(flags, AppendNL);
    }
    var b := Header(flags, e.taint, l, t);
    var headerLen := Base32.EncodedLen(|b|);
    var baLen := headerLen + l;
    if appendNL {
      baLen := baLen + 1;
    }
    ba := new byte[baLen];
    var enc := Base32.Encode(b);
    forall i | 0 <= i < headerLen {
      ba[i] := enc[i];
    }
    forall i | 0 <= i < l {
      ba[headerLen + i] := e.data[i];
    }
    if appendNL {
      ba[baLen - 1] := Newline;
    }
    var tail := if appendNL then [Newline] else [];
    assert ba[..] == enc + e.data + tail by {
      assert |enc| == headerLen;
      forall i | 0 <= i < ba.Length ensures ba[i] == (enc + e.data + tail)[i] {
        if i < headerLen {
        } else if i < headerLen + l {
        }
      }
    }
    assert b == EntryHeader(e);
  }

  // ---------------------------------------------------------------------------------------
  // The reader

  /** What one `Read(p)` with len(p) == n does: the filled p, the count, EOF, what is left. */
  datatype Chunk = Chunk(p: seq<byte>, m: nat, eof: bool, rest: seq<byte>)

  /**
   * `bytes.Buffer.Read` into a fresh zeroed slice of n bytes: it takes min(n, available) bytes
   * and reports EOF only when the buffer is empty and n > 0.
   */
  function BufferRead(buf: seq<byte>, n: nat): (c: Chunk)
    ensures |c.p| == n && c.m <= n && c.m <= |buf|
    ensures c.eof <==> buf == [] && n > 0
    ensures c.p[..c.m] == buf[..c.m] && c.rest == buf[c.m..]
    ensures forall i :: c.m <= i < n ==> c.p[i] == 0
    ensures !c.eof ==> c.m == (if n < |buf| then n else |buf|)
  {
    if buf == [] then Chunk(Zeros(n), 0, n > 0, [])
    else
      var m := if n < |buf| then n else |buf|;
      Chunk(buf[..m] + Zeros(n - m), m, false, buf[m..])
  }

  /** A `bytes.Buffer`: the unread bytes. */
  class Buffer {
    var bytes: seq<byte>

    constructor (init: seq<byte>)
      ensures bytes == init
    {
      bytes := init;
    }

    method Write(p: seq<byte>) returns (n: int)
      modifies this
      ensures bytes == old(bytes) + p && n == |p|
    {
      bytes := bytes + p;
      n := |p|;
    }

    method Read(n: nat) returns (p: seq<byte>, m: nat, eof: bool)
      modifies this
      ensures Chunk(p, m, eof, bytes) == BufferRead(old(bytes), n)
    {
      if bytes == [] {
        p, m, eof := Zeros(n), 0, n > 0;
        return;
      }
      m := if n < |bytes| then n else |bytes|;
      p := bytes[..m] + Zeros(n - m);
      eof := false;
      bytes := bytes[m..];
    }
  }

  /** `Entry.WriteTo(w)` on a buffer: the frame is appended and its length returned. */
  method WriteTo(e: Entry, w: Buffer) returns (n: int)
    requires |e.data| > 0
    modifies w
    ensures w.bytes == old(w.bytes) + Frame(e)
    ensures n == |Frame(e)|
  {
    var ba := EncodeFrame(e);
    n := w.Write(ba[..]);
  }

  datatype ReadError = EOF

  /** The receiver after the call, the count returned, the error, and the unread bytes. */
  datatype ReadResult = ReadResult(entry: Entry, n: int, err: Option<ReadError>, rest: seq<byte>)

  /**
   * `enc.Decode(b, ba)` into the zeroed 13-byte b, its error ignored. A header that decodes
   * to at most 13 bytes fills a prefix of b; anything else leaves b zero. Go differs on two
   * kinds of header this leaves zero: 24 unpadded symbols decode to 15 bytes and Go panics
   * writing past b, and Go skips '\r' and '\n', so 16 symbols among 8 newlines fill b[0..10].
   */
  function DecodeHeader(ba: seq<byte>): (b: seq<byte>)
    ensures |b| == HeaderLen
  {
    match Base32.Decode(ba)
    case Some(d) => if |d| <= HeaderLen then d + Zeros(HeaderLen - |d|) else Zeros(HeaderLen)
    case None => Zeros(HeaderLen)
  }

  /**
   * How many payload bytes the reader asks for. The source tests `flags|AppendNL != 0`, which
   * holds for every flags byte (`literal`); the single-bit test is `flags&AppendNL != 0`.
   */
  function PayloadLen(flags: byte, l: nat, literal: bool): nat
  {
    if (if literal then BitOr(flags, AppendNL) != 0 else BitAnd(flags, AppendNL) != 0) then l + 1 else l
  }

  /**
   * What `Entry.ReadFrom` does once the header is decoded into b: set the taint and the
   * time, then read the payload from `rest`.
   */
  function ReadBody(e: Entry, b: seq<byte>, rest: seq<byte>, literal: bool): (r: ReadResult)
    requires |b| == HeaderLen
    ensures r.err.None? ==> |r.entry.data| == BeUint(b[2..5])
    ensures |r.rest| <= |rest|
  {
    var l := BeUint(b[2..5]);
    var e1 := e.(taint := b[1], time := Wrap64(BeUint(b[5..13])));
    var d := BufferRead(rest, PayloadLen(b[0], l, literal));
    if d.eof then ReadResult(e1, d.m, Some(EOF), d.rest)
    else ReadResult(e1.(data := d.p[..l]), d.m, None, d.rest)
  }

  /** `Entry.ReadFrom` on a buffer holding `input`, with either flag test. */
  function ReadWith(e: Entry, input: seq<byte>, literal: bool): (r: ReadResult)
    ensures input == [] ==> r == ReadResult(e, 0, Some(EOF), [])
    ensures r.err.None? ==> |r.rest| < |input|
    ensures |r.rest| <= |input|
  {
    var h := BufferRead(input, EncodedHeaderLen);
    if h.eof then ReadResult(e, h.m, Some(EOF), h.rest)
    else ReadBody(e, DecodeHeader(h.p), h.rest, literal)
  }

  /** The source's reader. */
  function ReadSpec(e: Entry, input: seq<byte>): ReadResult
  {
    ReadWith(e, input, true)
  }

  /** The reader with the single-bit flag test. */
  function ReadCorrected(e: Entry, input: seq<byte>): ReadResult
  {
    ReadWith(e, input, false)
  }

  lemma Wrap64ShiftIn(u: int, x: int)
    ensures Wrap64(Wrap64(u) * 256 + x) == Wrap64(u * 256 + x)
  {
    var k := (Wrap64(u) - u) / 0x1_0000_0000_0000_0000;
    assert Wrap64(u) == u + k * 0x1_0000_0000_0000_0000;
    assert Wrap64(u) * 256 + x == u * 256 + x + (256 * k) * 0x1_0000_0000_0000_0000;
    Wrap64Periodic(u * 256 + x, 256 * k);
  }

  lemma BeUintSnoc(s: seq<byte>, i: nat, j: nat)
    requires i <= j < |s|
    ensures BeUint(s[i..j + 1]) == BeUint(s[i..j]) * 256 + s[j]
  {
    assert s[i..j + 1][..j - i] == s[i..j];
  }

  /**
   * `Entry.ReadFrom(r)`: read the 24-character header and decode it; the rest of the call
   * is ReadFields.
   */
  method ReadFrom(e: Entry, r: Buffer) returns (e': Entry, n: int, err: Option<ReadError>)
    modifies r
    ensures ReadResult(e', n, err, r.bytes) == ReadSpec(e, old(r.bytes))
  {
    var ba, nr, eof := r.Read(EncodedHeaderLen);
    if eof {
      return e, nr, Some(EOF);
    }
    var b := DecodeHeader(ba);
    e', n, err := ReadFields(e, b, r);
  }

  /**
   * The rest of `Entry.ReadFrom(r)`: shift the length and the time out of the decoded
   * header, then read the payload. The receiver's taint and time are updated before the
   * payload read, its data only after a successful one.
   */
  method ReadFields(e: Entry, b: seq<byte>, r: Buffer) returns (e': Entry, n: int, err: Option<ReadError>)
    requires |b| == HeaderLen
    modifies r
    ensures ReadResult(e', n, err, r.bytes) == ReadBody(e, b, old(r.bytes), true)
  {
    var p := 0;
    var flags := b[p];
    p := p + 1;
    e' := e.(taint := b[p]);
    p := p + 1;
    // an int32 in the source; three bytes never reach its sign bit
    var l: nat := 0;
    for i := 0 to 3
      invariant p == 2 + i
      invariant l == BeUint(b[2..p])
      invariant r.bytes == old(r.bytes)
    {
      BeUintSnoc(b, 2, p);
      l := l * 256 + b[p];
      p := p + 1;
    }
    var readLen := l;
    if BitOr(flags, AppendNL) != 0 {
      readLen := readLen + 1;
    }
    // `t = t<<8 | int64(b[p])` on an int64
    var t: Int64 := 0;
    for i := 0 to 8
      invariant p == 5 + i
      invariant t == Wrap64(BeUint(b[5..p]))
      invariant r.bytes == old(r.bytes)
    {
      ghost var u := BeUint(b[5..p]);
      BeUintSnoc(b, 5, p);
      Wrap64ShiftIn(u, b[p]);
      t := Wrap64(t as int * 256 + b[p]);
      p := p + 1;
    }
    e' := e'.(time := t);
    assert readLen == PayloadLen(b[0], BeUint(b[2..5]), true);
    assert e' == e.(taint := b[1], time := Wrap64(BeUint(b[5..13])));
    var data, m, eof := r.Read(readLen);
    n := m;
    if eof {
      err := Some(EOF);
      return;
    }
    e' := e'.(data := data[..l]);
    err := None;
  }

  // ---------------------------------------------------------------------------------------
  // Round trips

  lemma DecodeEntryHeader(e: Entry)
    requires |e.data| > 0
    ensures DecodeHeader(Base32.Encode(EntryHeader(e))) == EntryHeader(e)
  {
    Base32.DecodeEncode(EntryHeader(e));
    assert EntryHeader(e) + Zeros(0) == EntryHeader(e);
  }

  /**
   * Reading a frame that WriteTo produced restores the entry when the payload is shorter
   * than 2^24. Because the source's flag test always holds, the reader asks for one byte
   * beyond the payload: that is the forced newline, or else the first byte of whatever
   * follows the frame (nothing is taken when nothing follows).
   */
  lemma ReadFrameBack(e0: Entry, e: Entry, rest: seq<byte>)
    requires 0 < |e.data| < 0x100_0000
    ensures var r := ReadSpec(e0, Frame(e) + rest);
      var takesMore := !ForcedNewline(e.data) && rest != [];
      && r.err == None
      && r.entry == e
      && r.n == |e.data| + (if ForcedNewline(e.data) || takesMore then 1 else 0)
      && r.rest == (if takesMore then rest[1..] else rest)
  {
    ReadFrameBackWith(e0, e, rest, true);
  }

  /** With the single-bit flag test every frame is read back exactly, whatever follows it. */
  lemma ReadCorrectedFrameBack(e0: Entry, e: Entry, rest: seq<byte>)
    requires 0 < |e.data| < 0x100_0000
    ensures ReadCorrected(e0, Frame(e) + rest)
         == ReadResult(e, |Frame(e)| - EncodedHeaderLen, None, rest)
  {
    ReadFrameBackWith(e0, e, rest, false);
  }

  lemma ReadWithHeader(e0: Entry, enc: seq<byte>, body: seq<byte>, literal: bool)
    requires |enc| == EncodedHeaderLen
    ensures ReadWith(e0, enc + body, literal) == ReadBody(e0, DecodeHeader(enc), body, literal)
  {
    var h := BufferRead(enc + body, EncodedHeaderLen);
    assert h.p == (enc + body)[..EncodedHeaderLen] == enc;
  }

  /** The flags byte of a frame makes the reader ask for the payload and one more byte. */
  lemma FlagsPayloadLen(data: seq<byte>, l: nat, literal: bool)
    requires |data| > 0
    ensures PayloadLen(Flags(data), l, literal) == l + (if literal || ForcedNewline(data) then 1 else 0)
  {
    assert BitOr(0, AppendNL) == 1;
    assert BitOr(1, AppendNL) == 1 by {
      assert BitOr(0, 0) == 0;
    }
    assert BitAnd(0, AppendNL) == 0;
    assert BitAnd(1, AppendNL) == 1 by {
      assert BitAnd(0, 0) == 0;
    }
  }

  /**
   * What reading a frame of e followed by rest gives: e itself, no error, and the payload
   * length plus the newline consumed, which the reader takes from rest when the literal
   * flag test asks for a newline the frame does not have.
   */
  function FrameReadBack(e: Entry, rest: seq<byte>, literal: bool): ReadResult
    requires |e.data| > 0
  {
    var takesMore := literal && !ForcedNewline(e.data) && rest != [];
    ReadResult(e, |e.data| + (if ForcedNewline(e.data) || takesMore then 1 else 0), None,
               if takesMore then rest[1..] else rest)
  }

  lemma ReadBodyFrame(e0: Entry, e: Entry, b: seq<byte>, rest: seq<byte>, literal: bool)
    requires 0 < |e.data| < 0x100_0000
    requires |b| == HeaderLen && b[0] == Flags(e.data) && b[1] == e.taint
    requires BeUint(b[2..5]) == |e.data| && Wrap64(BeUint(b[5..13])) == e.time
    ensures var tail := if ForcedNewline(e.data) then [Newline] else [];
      ReadBody(e0, b, e.data + tail + rest, literal) == FrameReadBack(e, rest, literal)
  {
    var tail := if ForcedNewline(e.data) then [Newline] else [];
    FlagsPayloadLen(e.data, |e.data|, literal);
    var d := BufferRead(e.data + tail + rest, PayloadLen(b[0], |e.data|, literal));
    assert d.p[..|e.data|] == e.data;
  }

  /** Reading a frame starts with its header: the reader decodes the 24 characters back. */
  lemma ReadFrameHeader(e0: Entry, e: Entry, rest: seq<byte>, literal: bool)
    requires |e.data| > 0
    ensures var tail := if ForcedNewline(e.data) then [Newline] else [];
      ReadWith(e0, Frame(e) + rest, literal) == ReadBody(e0, EntryHeader(e), e.data + tail + rest, literal)
  {
    var enc := Base32.Encode(EntryHeader(e));
    var tail := if ForcedNewline(e.data) then [Newline] else [];
    assert Frame(e) + rest == enc + (e.data + tail + rest);
    ReadWithHeader(e0, enc, e.data + tail + rest, literal);
    DecodeEntryHeader(e);
  }

  /** The header of an entry whose payload fits 24 bits holds its length and time. */
  lemma EntryHeaderFields(e: Entry)
    requires 0 < |e.data| < 0x100_0000
    ensures var b := EntryHeader(e);
      && |b| == HeaderLen && b[0] == Flags(e.data) && b[1] == e.taint
      && BeUint(b[2..5]) == |e.data| && Wrap64(BeUint(b[5..13])) == e.time
  {
    HeaderFields(Flags(e.data), e.taint, |e.data|, e.time);
    LengthMod(|e.data|);
  }

  lemma ReadFrameBackWith(e0: Entry, e: Entry, rest: seq<byte>, literal: bool)
    requires 0 < |e.data| < 0x100_0000
    ensures ReadWith(e0, Frame(e) + rest, literal) == FrameReadBack(e, rest, literal)
  {
    ReadFrameHeader(e0, e, rest, literal);
    EntryHeaderFields(e);
    ReadBodyFrame(e0, e, EntryHeader(e), rest, literal);
  }

  /** The frames of a sequence of entries, one after the other, as a log file holds them. */
  function Frames(es: seq<Entry>): seq<byte>
    requires NonEmptyPayloads(es)
  {
    if es == [] then [] else Frame(es[0]) + Frames(es[1..])
  }

  /** Every entry has a payload, as WriteTo needs. */
  ghost predicate NonEmptyPayloads(es: seq<Entry>)
  {
    forall i :: 0 <= i < |es| ==> |es[i].data| > 0
  }

  /** Writing one more entry appends its frame to the frames already written. */
  lemma {:induction false} FramesAppend(es: seq<Entry>, e: Entry)
    requires NonEmptyPayloads(es)
    requires |e.data| > 0
    ensures NonEmptyPayloads(es + [e])
    ensures Frames(es + [e]) == Frames(es) + Frame(e)
  {
    if es != [] {
      assert (es + [e])[1..] == es[1..] + [e];
      FramesAppend(es[1..], e);
    } else {
      assert [e][1..] == [];
    }
  }

  lemma LengthMod(l: nat)
    requires l < 0x100_0000
    ensures l % 0x100_0000 == l
  {
  }

  /** Read frames from the start of `input` until the reader reports an error. */
  function ReadAll(input: seq<byte>, literal: bool): seq<Entry>
    decreases |input|
  {
    var r := ReadWith(EmptyEntry, input, literal);
    if r.err.Some? then [] else [r.entry] + ReadAll(r.rest, literal)
  }

  lemma ReadAllCons(input: seq<byte>, literal: bool, e: Entry, n: int, rest: seq<byte>)
    requires ReadWith(EmptyEntry, input, literal) == ReadResult(e, n, None, rest)
    ensures ReadAll(input, literal) == [e] + ReadAll(rest, literal)
  {
  }

  lemma ReadAllEmpty(literal: bool)
    ensures ReadAll([], literal) == []
  {
    assert ReadWith(EmptyEntry, [], literal).err.Some?;
  }

  /** Reading a file that starts with a frame yields its entry, then what the rest yields. */
  lemma ReadAllFrameThen(e: Entry, rest: seq<byte>, literal: bool)
    requires 0 < |e.data| < 0x100_0000
    requires literal ==> ForcedNewline(e.data) || rest == []
    ensures ReadAll(Frame(e) + rest, literal) == [e] + ReadAll(rest, literal)
  {
    ReadFrameBackWith(EmptyEntry, e, rest, literal);
    var r := ReadWith(EmptyEntry, Frame(e) + rest, literal);
    ReadAllCons(Frame(e) + rest, literal, r.entry, r.n, r.rest);
  }

  /** Every payload is non-empty and fits the 24-bit length field. */
  ghost predicate Writable(es: seq<Entry>)
  {
    forall i :: 0 <= i < |es| ==> 0 < |es[i].data| < 0x100_0000
  }

  /** Every payload but possibly the last lacks a final '\n', so its frame forces one. */
  ghost predicate ForcedExceptLast(es: seq<Entry>)
    requires NonEmptyPayloads(es)
  {
    forall i :: 0 <= i < |es| - 1 ==> ForcedNewline(es[i].data)
  }

  /** Reading a file of frames yields the first entry, then what the remaining frames yield. */
  lemma ReadAllFramesCons(es: seq<Entry>, literal: bool)
    requires es != [] && Writable(es)
    requires literal ==> |es| == 1 || ForcedNewline(es[0].data)
    ensures Writable(es[1..])
    ensures ReadAll(Frames(es), literal) == [es[0]] + ReadAll(Frames(es[1..]), literal)
  {
    var rest := Frames(es[1..]);
    assert Frames(es) == Frame(es[0]) + rest;
    assert |es| == 1 ==> rest == [];
    ReadAllFrameThen(es[0], rest, literal);
  }

  /**
   * The source's reader reads back a whole file of frames, in order and leaving nothing
   * unread, when no payload but possibly the last ends with '\n'.
   */
  lemma {:induction false} ReadAllFrames(es: seq<Entry>)
    requires Writable(es)
    requires ForcedExceptLast(es)
    ensures ReadAll(Frames(es), true) == es
  {
    if es != [] {
      ReadAllFramesCons(es, true);
      ReadAllFrames(es[1..]);
      HeadTail(es);
    } else {
      ReadAllEmpty(true);
    }
  }

  /** With the single-bit flag test a file of frames reads back exactly, whatever the payloads. */
  lemma {:induction false} ReadAllCorrectedFrames(es: seq<Entry>)
    requires Writable(es)
    ensures ReadAll(Frames(es), false) == es
  {
    if es != [] {
      ReadAllFramesCons(es, false);
      ReadAllCorrectedFrames(es[1..]);
      HeadTail(es);
    } else {
      ReadAllEmpty(false);
    }
  }

  lemma EncodeHeaderBlocks(hdr: seq<byte>)
    requires |hdr| == HeaderLen
    ensures Base32.Encode(hdr)
         == Base32.EncodeBlock(hdr[..5]) + Base32.EncodeBlock(hdr[5..10]) + Base32.EncodeBlock(hdr[10..])
  {
    assert hdr[5..][..5] == hdr[5..10];
    assert hdr[5..][5..] == hdr[10..];
    assert Base32.Encode(hdr) == Base32.EncodeBlock(hdr[..5]) + Base32.Encode(hdr[5..]);
    assert Base32.Encode(hdr[5..]) == Base32.EncodeBlock(hdr[5..10]) + Base32.Encode(hdr[10..]);
    assert Base32.Encode(hdr[10..]) == Base32.EncodeBlock(hdr[10..]);
  }

  lemma GroupsShape(q0: seq<byte>, q1: seq<byte>, q2: seq<byte>)
    requires |q0| == 8 && |q1| == 8 && |q2| == 8
    requires forall i :: 0 <= i < 8 ==> q0[i] != Base32.PadChar
    requires forall i :: 0 <= i < 8 ==> q1[i] != Base32.PadChar
    requires forall i :: 0 <= i < 5 ==> q2[i] != Base32.PadChar
    requires forall i :: 5 <= i < 8 ==> q2[i] == Base32.PadChar
    ensures var enc := q0 + q1 + q2;
      && (forall i :: 0 <= i < 21 ==> enc[i] != Base32.PadChar)
      && enc[21] == Base32.PadChar && enc[22] == Base32.PadChar && enc[23] == Base32.PadChar
  {
    var enc := q0 + q1 + q2;
    forall i | 0 <= i < 21
      ensures enc[i] != Base32.PadChar
    {
      if i < 8 {
        assert enc[i] == q0[i];
      } else if i < 16 {
        assert enc[i] == q1[i - 8];
      } else {
        assert enc[i] == q2[i - 16];
      }
    }
  }

  /** The encoded header is 21 symbols and then 3 padding characters. */
  lemma EncodedHeaderGroups(hdr: seq<byte>)
    requires |hdr| == HeaderLen
    ensures var enc := Base32.Encode(hdr);
      && (forall i :: 0 <= i < 21 ==> enc[i] != Base32.PadChar)
      && enc[21] == Base32.PadChar && enc[22] == Base32.PadChar && enc[23] == Base32.PadChar
  {
    EncodeHeaderBlocks(hdr);
    Base32.EncodeBlockShape(hdr[..5]);
    Base32.EncodeBlockShape(hdr[5..10]);
    Base32.EncodeBlockShape(hdr[10..]);
    GroupsShape(Base32.EncodeBlock(hdr[..5]), Base32.EncodeBlock(hdr[5..10]), Base32.EncodeBlock(hdr[10..]));
  }

  /**
   * The source's reader loses frame alignment after a payload that ends with '\n' when
   * another frame follows: it takes the first header character of the next frame as payload,
   * so the next header it reads ends in a payload byte and does not decode. The proof goes
   * through the model's header decoding to zero (MisalignedHeader, ZeroHeaderBody); Go
   * would instead keep the first 10 decoded bytes of the shifted header, which is not modelled.
   */
  lemma LiteralReaderLosesAlignment(e1: Entry, e2: Entry)
    requires 0 < |e1.data| < 0x100_0000 && !ForcedNewline(e1.data)
    requires 0 < |e2.data| < 0x100_0000 && e2.data[0] != Base32.PadChar
    ensures ReadAll(Frames([e1, e2]), true) != [e1, e2]
  {
    var f2 := Frame(e2);
    FramesPair(e1, e2);
    FrameLayout(e2);
    var r := ReadSpec(EmptyEntry, Frame(e1) + f2);
    ReadFrameBack(EmptyEntry, e1, f2);
    ReadAllCons(Frame(e1) + f2, true, r.entry, r.n, r.rest);
    MisalignedFrame(e2);
  }

  lemma FramesPair(e1: Entry, e2: Entry)
    requires |e1.data| > 0 && |e2.data| > 0
    ensures NonEmptyPayloads([e1, e2])
    ensures Frames([e1, e2]) == Frame(e1) + Frame(e2)
  {
    assert [e1, e2][1..] == [e2];
    assert [e2][1..] == [];
    assert Frames([e2]) == Frame(e2) + Frames([]);
  }

  /** Read one byte into a frame, the reader yields no entry or an entry with no payload. */
  lemma MisalignedFrame(e: Entry)
    requires 0 < |e.data| < 0x100_0000 && e.data[0] != Base32.PadChar
    ensures ReadAll(Frame(e)[1..], true) != [e]
  {
    var f := Frame(e);
    var enc := Base32.Encode(EntryHeader(e));
    var shifted := enc[1..] + [e.data[0]];
    ShiftedFrame(e);
    EncodedHeaderGroups(EntryHeader(e));
    ReadWithHeader(EmptyEntry, shifted, f[25..], true);
    MisalignedHeader(enc, e.data[0]);
    ZeroHeaderBody(f[25..]);
    ReadAllHead(f[1..], true);
  }

  lemma ShiftedFrame(e: Entry)
    requires |e.data| > 0
    ensures var f := Frame(e);
      |f| >= 25 && f[1..] == (Base32.Encode(EntryHeader(e))[1..] + [e.data[0]]) + f[25..]
  {
    FrameLayout(e);
    var f := Frame(e);
    var enc := Base32.Encode(EntryHeader(e));
    assert f[1..25] == enc[1..] + [e.data[0]] by {
      assert f[..24] == enc;
      assert f[24] == e.data[0];
    }
    assert f[1..] == f[1..25] + f[25..];
  }

  lemma ReadAllHead(input: seq<byte>, literal: bool)
    ensures var r := ReadWith(EmptyEntry, input, literal);
      ReadAll(input, literal) != [] ==> r.err.None? && ReadAll(input, literal)[0] == r.entry
  {
  }

  /** A header shifted by one character, with a non-padding byte after it, does not decode. */
  lemma MisalignedHeader(enc: seq<byte>, c: byte)
    requires |enc| == EncodedHeaderLen && c != Base32.PadChar
    requires forall i :: 0 <= i < 21 ==> enc[i] != Base32.PadChar
    requires enc[21] == Base32.PadChar && enc[22] == Base32.PadChar
    ensures DecodeHeader(enc[1..] + [c]) == Zeros(HeaderLen)
  {
    var s := enc[1..] + [c];
    var q := s[16..24];
    assert q[7] == c;
    Base32.FirstPadIs(q, 4);
    assert Base32.DecodeBlock(q, true) == None;
    assert s[8..][8..] == q;
    assert Base32.Decode(s[8..]) == None;
    assert Base32.Decode(s) == None;
  }

  /** An all-zero header announces an empty payload. */
  lemma ZeroHeaderBody(rest: seq<byte>)
    ensures var r := ReadBody(EmptyEntry, Zeros(HeaderLen), rest, true);
      r.err.None? ==> r.entry.data == []
  {
    BeUint3(Zeros(HeaderLen)[2..5]);
  }

  lemma ReadOwnFrame(e: Entry, written: seq<byte>)
    requires 0 < |e.data| < 0x100_0000
    requires written == [] + Frame(e)
    ensures var r := ReadSpec(EmptyEntry, written);
      r.err == None && r.entry == e && r.rest == []
  {
    ReadFrameBack(EmptyEntry, e, []);
    assert written == Frame(e) + [];
  }

  /**
   * log/entry_test.go's round trip: write an entry to an empty buffer, read it into an empty
   * entry, and find the same taint, time and payload with no byte left unread.
   */
  method WriteThenRead(e: Entry) returns (read: Entry, err: Option<ReadError>, left: seq<byte>)
    requires 0 < |e.data| < 0x100_0000
    ensures err == None && read == e && left == []
  {
    var buf := new Buffer([]);
    var _ := WriteTo(e, buf);
    ghost var written := buf.bytes;
    ReadOwnFrame(e, written);
    var n;
    read, n, err := ReadFrom(EmptyEntry, buf);
    left := buf.bytes;
  }
}
