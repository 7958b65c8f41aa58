/** Frames on the wire and the incremental reader (src/network/protocol.cpp). */
module Protocol {
  import opened Text

  const MAGIC: int := 0x4C54_4C41
  const VERSION: int := 1
  const HEADER_SIZE: int := 12
  const MAX_PAYLOAD: int := 65536

  type uint16 = x: int | 0 <= x < 0x1_0000
  type uint32 = x: int | 0 <= x < 0x1_0000_0000

  datatype MessageType =
    | HELLO | AUTH_REQUEST | AUTH_RESPONSE | AUTH_OK | AUTH_FAIL | CHAT_MESSAGE | CHAT_RECEIPT
    | PING | PONG | PEER_LIST | DISCONNECT | ERROR_MSG
    | FILE_OFFER | FILE_ACCEPT | FILE_CHUNK | FILE_COMPLETE | UNKNOWN

  function TypeByte(t: MessageType): byte {
    match t
    case HELLO => 0x01 case AUTH_REQUEST => 0x02 case AUTH_RESPONSE => 0x03
    case AUTH_OK => 0x04 case AUTH_FAIL => 0x05
    case CHAT_MESSAGE => 0x10 case CHAT_RECEIPT => 0x11
    case PING => 0x20 case PONG => 0x21 case PEER_LIST => 0x30
    case DISCONNECT => 0x40 case ERROR_MSG => 0x50
    case FILE_OFFER => 0x60 case FILE_ACCEPT => 0x61 case FILE_CHUNK => 0x62 case FILE_COMPLETE => 0x63
    case UNKNOWN => 0xFF
  }

  function TypeFromByte(b: byte): (t: MessageType)
    ensures t != UNKNOWN ==> TypeByte(t) == b
  {
    match b
    case 0x01 => HELLO case 0x02 => AUTH_REQUEST case 0x03 => AUTH_RESPONSE
    case 0x04 => AUTH_OK case 0x05 => AUTH_FAIL
    case 0x10 => CHAT_MESSAGE case 0x11 => CHAT_RECEIPT
    case 0x20 => PING case 0x21 => PONG case 0x30 => PEER_LIST
    case 0x40 => DISCONNECT case 0x50 => ERROR_MSG
    case 0x60 => FILE_OFFER case 0x61 => FILE_ACCEPT case 0x62 => FILE_CHUNK case 0x63 => FILE_COMPLETE
    case _ => UNKNOWN
  }

  // ---- Header ----------------------------------------------------------------

  datatype FrameHeader = FrameHeader(
    magic: uint32, version: byte, mtype: MessageType, payloadLength: uint32, flags: uint16,
    reserved: uint16)

  function Be16(n: uint16): (b: seq<byte>) ensures |b| == 2 { [n / 256, n % 256] }

  function Be32(n: uint32): (b: seq<byte>) ensures |b| == 4 {
    Be16(n / 0x1_0000) + Be16(n % 0x1_0000)
  }

  function FromBe16(b: seq<byte>): uint16 requires |b| == 2 {
    (b[0] as int) * 256 + (b[1] as int)
  }

  function FromBe32(b: seq<byte>): uint32 requires |b| == 4 {
    FromBe16(b[..2]) * 0x1_0000 + FromBe16(b[2..])
  }

  function SerializeHeader(h: FrameHeader): (b: seq<byte>)
    ensures |b| == HEADER_SIZE
  {
    Be32(h.magic) + [h.version, TypeByte(h.mtype)] + Be32(h.payloadLength) + Be16(h.flags)
  }

  function DeserializeHeader(data: seq<byte>): Option<FrameHeader> {
    if |data| < HEADER_SIZE then None
    else
      var magic := FromBe32(data[..4]);
      if magic != MAGIC || data[4] != VERSION then None
      else Some(FrameHeader(magic, data[4], TypeFromByte(data[5]), FromBe32(data[6..10]), FromBe16(data[10..12]), 0))
  }

  lemma BigEndian16(n: uint16, b: seq<byte>)
    requires |b| == 2
    ensures FromBe16(Be16(n)) == n && Be16(FromBe16(b)) == b
  {}

  lemma BigEndian(n: uint32, b: seq<byte>)
    requires |b| == 4
    ensures FromBe32(Be32(n)) == n && Be32(FromBe32(b)) == b
  {
    hide Be16, FromBe16;
    var high, low := n / 0x1_0000, n % 0x1_0000;
    BigEndian16(high, b[..2]);
    BigEndian16(low, b[2..]);
    assert Be32(n)[..2] == Be16(high) && Be32(n)[2..] == Be16(low);
    assert b == b[..2] + b[2..];
  }

  lemma HeaderBytes(h: FrameHeader)
    ensures var b := SerializeHeader(h);
      && b[..4] == Be32(h.magic) && b[4] == h.version && b[5] == TypeByte(h.mtype)
      && b[6..10] == Be32(h.payloadLength) && b[10..12] == Be16(h.flags)
  {}

  /** A header is read back exactly when it carries the protocol's magic and version and an
      empty `reserved` field, which is never put on the wire. */
  lemma HeaderRoundTrip(h: FrameHeader)
    ensures DeserializeHeader(SerializeHeader(h)) == Some(h) <==>
      h.magic == MAGIC && h.version == VERSION && h.reserved == 0
  {
    hide SerializeHeader, Be32, FromBe32;
    HeaderBytes(h);
    BigEndian(h.magic, [0, 0, 0, 0]);
    BigEndian(h.payloadLength, [0, 0, 0, 0]);
    assert TypeFromByte(TypeByte(h.mtype)) == h.mtype;
    assert FromBe16(Be16(h.flags)) == h.flags;
  }

  /** Twelve accepted bytes are printed back exactly when their type is a known one (0xFF
      stands for itself). */
  lemma HeaderBytesRoundTrip(d: seq<byte>)
    requires |d| == HEADER_SIZE && DeserializeHeader(d).Some?
    ensures SerializeHeader(DeserializeHeader(d).value) == d <==> (TypeFromByte(d[5]) != UNKNOWN || d[5] == 0xFF)
  {
    hide SerializeHeader, Be32, FromBe32;
    var h := DeserializeHeader(d).value;
    var b := SerializeHeader(h);
    HeaderBytes(h);
    BigEndian(0, d[..4]);
    BigEndian(0, d[6..10]);
    assert Be16(FromBe16(d[10..12])) == d[10..12];
    assert d == d[..4] + [d[4], d[5]] + d[6..10] + d[10..12];
    assert b == b[..4] + [b[4], b[5]] + b[6..10] + b[10..12];
  }

  /** The source fills a twelve-byte buffer at fixed offsets. */
  method FillHeader(h: FrameHeader) returns (out: array<byte>)
    ensures fresh(out) && out[..] == SerializeHeader(h)
  {
    out := new byte[HEADER_SIZE](_ => 0);
    var netMagic, netLen, netFlags := Be32(h.magic), Be32(h.payloadLength), Be16(h.flags);
    forall i | 0 <= i < 4 { out[i] := netMagic[i]; }
    out[4] := h.version;
    out[5] := TypeByte(h.mtype);
    forall i | 0 <= i < 4 { out[6 + i] := netLen[i]; }
    forall i | 0 <= i < 2 { out[10 + i] := netFlags[i]; }
    HeaderBytes(h);
    assert out[..4] == netMagic && out[6..10] == netLen && out[10..12] == netFlags;
    assert out[..] == out[..4] + [out[4], out[5]] + out[6..10] + out[10..12];
  }

  // ---- The layout, byte by byte ----------------------------------------------

  /** The protocol's magic "LTLA" and version 1. */
  predicate Ours(d: seq<byte>)
    requires |d| >= HEADER_SIZE
  {
    d[0] == 0x4C && d[1] == 0x54 && d[2] == 0x4C && d[3] == 0x41 && d[4] == 1
  }

  function AnnouncedLength(d: seq<byte>): nat
    requires |d| >= HEADER_SIZE
  {
    (d[6] as int) * 0x100_0000 + (d[7] as int) * 0x1_0000 + (d[8] as int) * 0x100 + (d[9] as int)
  }

  /** Where each value of a header stands, most significant byte first. */
  lemma HeaderLayout(h: FrameHeader)
    ensures var b, n := SerializeHeader(h), h.payloadLength;
      && |b| == 12
      && b[0] == h.magic / 0x100_0000 && b[1] == h.magic / 0x1_0000 % 0x100
      && b[2] == h.magic / 0x100 % 0x100 && b[3] == h.magic % 0x100
      && b[4] == h.version && b[5] == TypeByte(h.mtype)
      && b[6] == n / 0x100_0000 && b[7] == n / 0x1_0000 % 0x100 && b[8] == n / 0x100 % 0x100 && b[9] == n % 0x100
      && b[10] == h.flags / 0x100 && b[11] == h.flags % 0x100
  {
    hide TypeByte;
    Be32Bytes(h.magic);
    Be32Bytes(h.payloadLength);
    hide Be32;
  }

  lemma Be32Bytes(n: uint32)
    ensures var b := Be32(n);
      b[0] == n / 0x100_0000 && b[1] == n / 0x1_0000 % 0x100 && b[2] == n / 0x100 % 0x100 && b[3] == n % 0x100
  {
    var high, low := n / 0x1_0000, n % 0x1_0000;
    assert Be32(n) == Be16(high) + Be16(low);
    hide Be32;
    Nested(n);
  }

  lemma Nested(n: nat)
    ensures n / 0x1_0000 / 0x100 == n / 0x100_0000 && n % 0x1_0000 / 0x100 == n / 0x100 % 0x100
    ensures n % 0x1_0000 % 0x100 == n % 0x100
  {
    var d, c, rest := n % 0x100, n / 0x100 % 0x100, n / 0x100 / 0x100;
    var b, a := rest % 0x100, rest / 0x100;
    assert n == 0x1_0000 * rest + (0x100 * c + d) && rest == 0x100 * a + b;
    assert n / 0x1_0000 == rest && n % 0x1_0000 == 0x100 * c + d;
    assert n == 0x100_0000 * a + (0x1_0000 * b + 0x100 * c + d);
    assert n / 0x100_0000 == a;
  }

  /** A frame of the program begins with the bytes 4C 54 4C 41 01, its type, its length and two zeros. */
  lemma FrameLayout(t: MessageType, payload: seq<byte>)
    requires |payload| < 0x1_0000_0000
    ensures var b := Serialize(CreateFrame(t, payload));
      && |b| == 12 + |payload| && Ours(b) && b[5] == TypeByte(t) && AnnouncedLength(b) == |payload|
      && b[10] == 0 && b[11] == 0 && b[12..] == payload
  {
    hide SerializeHeader, TypeByte, CreateFrame, Ours, AnnouncedLength;
    var f := CreateFrame(t, payload);
    CreatedHeader(t, payload);
    HeaderLayout(f.header);
    hide Serialize;
    SerializeIs(f);
    var h := SerializeHeader(f.header);
    assert forall i :: 0 <= i < 12 ==> Serialize(f)[i] == h[i];
    OursIs(Serialize(f), h);
    LengthBytes(|payload|, Serialize(f));
  }

  lemma CreatedHeader(t: MessageType, payload: seq<byte>)
    requires |payload| < 0x1_0000_0000
    ensures CreateFrame(t, payload) == Frame(FrameHeader(0x4C54_4C41, 1, t, |payload|, 0, 0), payload)
  {}

  lemma SerializeIs(f: Frame)
    ensures Serialize(f) == SerializeHeader(f.header) + f.payload
    ensures Serialize(f)[12..] == f.payload
  {
    hide SerializeHeader;
  }

  lemma OursIs(b: seq<byte>, h: seq<byte>)
    requires |b| >= 12 && |h| == 12 && forall i :: 0 <= i < 12 ==> b[i] == h[i]
    ensures h[0] == 0x4C && h[1] == 0x54 && h[2] == 0x4C && h[3] == 0x41 && h[4] == 1 ==> Ours(b)
  {}

  lemma LengthBytes(n: uint32, b: seq<byte>)
    requires |b| >= 12
    requires b[6] == n / 0x100_0000 && b[7] == n / 0x1_0000 % 0x100 && b[8] == n / 0x100 % 0x100 && b[9] == n % 0x100
    ensures AnnouncedLength(b) == n
  {
    var k := n / 0x100;
    assert n / 0x100_0000 == k / 0x100 / 0x100 && n / 0x1_0000 == k / 0x100;
  }

  /** What makes a header acceptable, and what is read from it. */
  lemma HeaderRead(d: seq<byte>)
    ensures DeserializeHeader(d).Some? <==> |d| >= 12 && Ours(d)
    ensures DeserializeHeader(d).Some? ==>
      var h := DeserializeHeader(d).value;
      && h.magic == 0x4C54_4C41 && h.version == 1 && h.mtype == TypeFromByte(d[5])
      && h.payloadLength == AnnouncedLength(d) && h.flags == (d[10] as int) * 0x100 + (d[11] as int) && h.reserved == 0
  {
    hide TypeFromByte;
    if |d| >= 12 {
      FromBe32Is(d[..4]);
      FromBe32Is(d[6..10]);
      hide FromBe32;
      MagicBytes(d[0], d[1], d[2], d[3]);
    }
  }

  lemma FromBe32Is(b: seq<byte>)
    requires |b| == 4
    ensures FromBe32(b) ==
      (b[0] as int) * 0x100_0000 + (b[1] as int) * 0x1_0000 + (b[2] as int) * 0x100 + (b[3] as int)
  {}

  lemma MagicBytes(a: byte, b: byte, c: byte, d: byte)
    ensures (a as int) * 0x100_0000 + (b as int) * 0x1_0000 + (c as int) * 0x100 + (d as int) == 0x4C54_4C41 <==>
      a == 0x4C && b == 0x54 && c == 0x4C && d == 0x41
  {}

  /** The codes of the types, as the protocol fixes them. */
  lemma TypeCodes(b: byte)
    ensures TypeByte(TypeFromByte(b)) == if TypeFromByte(b) == UNKNOWN then 0xFF else b
    ensures TypeFromByte(b) == UNKNOWN <==>
      b !in {1, 2, 3, 4, 5, 0x10, 0x11, 0x20, 0x21, 0x30, 0x40, 0x50, 0x60, 0x61, 0x62, 0x63}
    ensures TypeByte(HELLO) == 1 && TypeByte(AUTH_REQUEST) == 2 && TypeByte(AUTH_RESPONSE) == 3
    ensures TypeByte(AUTH_OK) == 4 && TypeByte(AUTH_FAIL) == 5
    ensures TypeByte(CHAT_MESSAGE) == 0x10 && TypeByte(CHAT_RECEIPT) == 0x11
    ensures TypeByte(PING) == 0x20 && TypeByte(PONG) == 0x21 && TypeByte(PEER_LIST) == 0x30
    ensures TypeByte(DISCONNECT) == 0x40 && TypeByte(ERROR_MSG) == 0x50
    ensures TypeByte(FILE_OFFER) == 0x60 && TypeByte(FILE_ACCEPT) == 0x61
    ensures TypeByte(FILE_CHUNK) == 0x62 && TypeByte(FILE_COMPLETE) == 0x63
  {}

  // ---- Frames ----------------------------------------------------------------

  datatype Frame = Frame(header: FrameHeader, payload: seq<byte>)

  function CreateFrame(t: MessageType, payload: seq<byte>): Frame {
    Frame(FrameHeader(MAGIC, VERSION, t, |payload| % 0x1_0000_0000, 0, 0), payload)
  }

  function Serialize(f: Frame): seq<byte> {
    SerializeHeader(f.header) + f.payload
  }

  /** The bytes of frames sent one after the other. */
  function Stream(fs: seq<Frame>): seq<byte> {
    if fs == [] then [] else Serialize(fs[0]) + Stream(fs[1..])
  }

  /** A frame made by Frame::create whose payload the receiver accepts. */
  ghost predicate Sendable(f: Frame, max: nat) {
    f == CreateFrame(f.header.mtype, f.payload) && |f.payload| <= max && |f.payload| < 0x1_0000_0000
  }

  // ---- One-shot parse --------------------------------------------------------

  /** What the reader holds between two calls. */
  datatype ReaderState =
    | ReadingHeader(buffer: seq<byte>)
    | ReadingPayload(header: FrameHeader, buffer: seq<byte>)

  datatype Error = InvalidMagicOrVersion | PayloadTooLarge

  /** The text of the exception. */
  function What(e: Error): string {
    match e
    case InvalidMagicOrVersion => "Protocol violation: invalid magic or version"
    case PayloadTooLarge => "Protocol violation: payload too large"
  }

  datatype Parsed = Parsed(frames: seq<Frame>, rest: ReaderState, error: Option<Error>)

  /** Parsing a whole byte stream at once: the valid prefix as frames, then what is left. */
  function Parse(s: seq<byte>, max: nat): (p: Parsed)
    decreases |s|
  {
    if |s| < HEADER_SIZE then Parsed([], ReadingHeader(s), None)
    else match DeserializeHeader(s[..HEADER_SIZE])
    case None => Parsed([], ReadingHeader(s), Some(InvalidMagicOrVersion))
    case Some(h) =>
      var n := HEADER_SIZE + h.payloadLength;
      if h.payloadLength > max then Parsed([], ReadingHeader(s), Some(PayloadTooLarge))
      else if |s| < n then Parsed([], ReadingPayload(h, s[HEADER_SIZE..]), None)
      else
        var r := Parse(s[n..], max);
        Parsed([Frame(h, s[HEADER_SIZE..n])] + r.frames, r.rest, r.error)
  }

  /** The same, continuing from what a reader holds. */
  function Resume(st: ReaderState, data: seq<byte>, max: nat): Parsed {
    match st
    case ReadingHeader(b) => Parse(b + data, max)
    case ReadingPayload(h, b) =>
      var t := b + data;
      if |t| < h.payloadLength then Parsed([], ReadingPayload(h, t), None)
      else
        var r := Parse(t[h.payloadLength..], max);
        Parsed([Frame(h, t[..h.payloadLength])] + r.frames, r.rest, r.error)
  }

  // ---- The reader ------------------------------------------------------------

  /** What one call of feed gives its caller: frames, or an exception that discards them. */
  datatype Outcome = Frames(frames: seq<Frame>) | Violation(error: Error)

  function FeedSpec(st: ReaderState, data: seq<byte>, max: nat): (Outcome, ReaderState) {
    var p := Resume(st, data, max);
    (if p.error.Some? then Violation(p.error.value) else Frames(p.frames), p.rest)
  }

  datatype State = READING_HEADER | READING_PAYLOAD

  const NO_HEADER := FrameHeader(MAGIC, VERSION, UNKNOWN, 0, 0, 0)

  class FrameReader {
    var state: State
    var buffer: seq<byte>
    var pendingHeader: FrameHeader
    const maxPayloadSize: nat

    ghost function Holds(): ReaderState
      reads this
    {
      if state.READING_HEADER? then ReadingHeader(buffer) else ReadingPayload(pendingHeader, buffer)
    }

    constructor (maxPayloadSize: nat := MAX_PAYLOAD)
      ensures Holds() == ReadingHeader([]) && this.maxPayloadSize == maxPayloadSize
    {
      this.maxPayloadSize := maxPayloadSize;
      state, buffer, pendingHeader := READING_HEADER, [], NO_HEADER;
    }

    method Feed(data: seq<byte>) returns (r: Outcome)
      modifies this
      ensures (r, Holds()) == FeedSpec(old(Holds()), data, maxPayloadSize)
    {
      var completeFrames := [];
      ghost var whole := Resume(Holds(), data, maxPayloadSize);
      buffer := buffer + data;
      assert buffer + [] == buffer;
      while true
        invariant var p := Resume(Holds(), [], maxPayloadSize);
          whole == Parsed(completeFrames + p.frames, p.rest, p.error)
        decreases |buffer|, if state.READING_PAYLOAD? then 1 else 0
      {
        ghost var held := buffer;
        assert held + [] == held;
        if state.READING_HEADER? {
          if |buffer| < HEADER_SIZE { break; }
          var optHdr := DeserializeHeader(buffer[..HEADER_SIZE]);
          if optHdr.None? { return Violation(InvalidMagicOrVersion); }
          pendingHeader := optHdr.value;
          if pendingHeader.payloadLength > maxPayloadSize { return Violation(PayloadTooLarge); }
          buffer := buffer[HEADER_SIZE..];
          state := READING_PAYLOAD;
          HeaderStep(held, maxPayloadSize);
        } else {
          if |buffer| < pendingHeader.payloadLength { break; }
          var f := Frame(pendingHeader, []);
          if pendingHeader.payloadLength > 0 {
            f := f.(payload := buffer[..pendingHeader.payloadLength]);
            buffer := buffer[pendingHeader.payloadLength..];
          }
          PayloadStep(pendingHeader, held, completeFrames, maxPayloadSize);
          assert f.payload == held[..pendingHeader.payloadLength];
          assert buffer == held[pendingHeader.payloadLength..];
          completeFrames := completeFrames + [f];
          state := READING_HEADER;
        }
      }
      assert completeFrames + [] == completeFrames;
      return Frames(completeFrames);
    }

    method Reset()
      modifies this
      ensures Holds() == ReadingHeader([])
    {
      buffer := [];
      state := READING_HEADER;
    }
  }

  lemma HeaderStep(b: seq<byte>, max: nat)
    requires |b| >= HEADER_SIZE && DeserializeHeader(b[..HEADER_SIZE]).Some?
    requires DeserializeHeader(b[..HEADER_SIZE]).value.payloadLength <= max
    ensures Resume(ReadingHeader(b), [], max) ==
      Resume(ReadingPayload(DeserializeHeader(b[..HEADER_SIZE]).value, b[HEADER_SIZE..]), [], max)
  {
    var h := DeserializeHeader(b[..HEADER_SIZE]).value;
    var t, n := b[HEADER_SIZE..], h.payloadLength;
    assert b + [] == b && t + [] == t;
    if n <= |t| {
      assert b[HEADER_SIZE..HEADER_SIZE + n] == t[..n] && b[HEADER_SIZE + n..] == t[n..];
    }
  }

  lemma PayloadStep(h: FrameHeader, b: seq<byte>, done: seq<Frame>, max: nat)
    requires h.payloadLength <= |b|
    ensures var p := Resume(ReadingPayload(h, b), [], max);
      var q := Resume(ReadingHeader(b[h.payloadLength..]), [], max);
      p.rest == q.rest && p.error == q.error &&
      done + p.frames == done + [Frame(h, b[..h.payloadLength])] + q.frames
  {
    var n := h.payloadLength;
    assert b + [] == b && b[n..] + [] == b[n..];
  }

  // ---- Chunking independence -------------------------------------------------

  /** Parsing in two pieces is parsing at once; after an error more bytes change nothing but
      the undigested tail. */
  lemma {:induction false} ParseAppend(a: seq<byte>, b: seq<byte>, max: nat)
    ensures var p := Parse(a, max); var q := Parse(a + b, max); var r := Resume(p.rest, b, max);
      && q.rest == r.rest && q.error == r.error
      && (p.error.None? ==> q.frames == p.frames + r.frames)
      && (p.error.Some? ==> q.frames == p.frames && q.error == p.error)
    decreases |a|
  {
    hide Parse, Resume, DeserializeHeader;
    if IsWhole(a, max) {
      var h := DeserializeHeader(a[..HEADER_SIZE]).value;
      var n := HEADER_SIZE + h.payloadLength;
      var f := Frame(h, a[HEADER_SIZE..n]);
      ParseAppend(a[n..], b, max);
      assert (a + b)[..HEADER_SIZE] == a[..HEADER_SIZE] && (a + b)[HEADER_SIZE..n] == a[HEADER_SIZE..n];
      assert (a + b)[n..] == a[n..] + b;
      ParseWhole(a, h, max);
      ParseWhole(a + b, h, max);
      var p, r := Parse(a[n..], max), Resume(Parse(a[n..], max).rest, b, max);
      assert [f] + (p.frames + r.frames) == ([f] + p.frames) + r.frames;
    } else {
      ParseAppendShort(a, b, max);
    }
  }

  /** The text starts with a complete acceptable frame. */
  predicate IsWhole(s: seq<byte>, max: nat) {
    && |s| >= HEADER_SIZE
    && DeserializeHeader(s[..HEADER_SIZE]).Some?
    && DeserializeHeader(s[..HEADER_SIZE]).value.payloadLength <= max
    && |s| >= HEADER_SIZE + DeserializeHeader(s[..HEADER_SIZE]).value.payloadLength
  }

  lemma ParseAppendShort(a: seq<byte>, b: seq<byte>, max: nat)
    requires !IsWhole(a, max)
    ensures var p := Parse(a, max); var q := Parse(a + b, max);
      p.frames == [] && (if p.error.None? then q == Resume(p.rest, b, max)
      else q == Parsed([], Resume(p.rest, b, max).rest, p.error) && Resume(p.rest, b, max).error == p.error)
  {
    hide DeserializeHeader;
    if |a| >= HEADER_SIZE {
      assert (a + b)[..HEADER_SIZE] == a[..HEADER_SIZE];
      match DeserializeHeader(a[..HEADER_SIZE])
      case None =>
      case Some(h) =>
        if h.payloadLength <= max { ParsePartial(a, b, h, max); }
    }
  }


  lemma ParseWhole(s: seq<byte>, h: FrameHeader, max: nat)
    requires |s| >= HEADER_SIZE + h.payloadLength && h.payloadLength <= max
    requires DeserializeHeader(s[..HEADER_SIZE]) == Some(h)
    ensures var n := HEADER_SIZE + h.payloadLength; var r := Parse(s[n..], max);
      Parse(s, max) == Parsed([Frame(h, s[HEADER_SIZE..n])] + r.frames, r.rest, r.error)
  {}

  lemma ParsePartial(a: seq<byte>, b: seq<byte>, h: FrameHeader, max: nat)
    requires HEADER_SIZE <= |a| < HEADER_SIZE + h.payloadLength && h.payloadLength <= max
    requires DeserializeHeader(a[..HEADER_SIZE]) == Some(h)
    ensures Parse(a, max).frames == [] && Parse(a, max).error.None?
    ensures Parse(a + b, max) == Resume(Parse(a, max).rest, b, max)
  {
    var n, s := h.payloadLength, a + b;
    var t := a[HEADER_SIZE..] + b;
    assert s[..HEADER_SIZE] == a[..HEADER_SIZE] && s[HEADER_SIZE..] == t;
    if n <= |t| {
      ParseWhole(s, h, max);
      assert s[HEADER_SIZE..HEADER_SIZE + n] == t[..n] && s[HEADER_SIZE + n..] == t[n..];
    }
  }

  function Flatten(chunks: seq<seq<byte>>): seq<byte> {
    if chunks == [] then [] else Flatten(chunks[..|chunks| - 1]) + chunks[|chunks| - 1]
  }

  /** What a fresh reader holds after it was fed these chunks. */
  function After(chunks: seq<seq<byte>>, max: nat): ReaderState {
    if chunks == [] then ReadingHeader([])
    else FeedSpec(After(chunks[..|chunks| - 1], max), chunks[|chunks| - 1], max).1
  }

  /** The frames its callers received: those of a call that throws are lost. */
  function Delivered(chunks: seq<seq<byte>>, max: nat): seq<Frame> {
    if chunks == [] then []
    else
      var k := |chunks| - 1;
      var r := FeedSpec(After(chunks[..k], max), chunks[k], max).0;
      Delivered(chunks[..k], max) + if r.Frames? then r.frames else []
  }

  function OutcomeOf(chunks: seq<seq<byte>>, k: nat, max: nat): Outcome
    requires k < |chunks|
  {
    FeedSpec(After(chunks[..k], max), chunks[k], max).0
  }

  /** The reader's state depends on the bytes only, not on how they were cut. */
  lemma {:induction false} AfterIsParse(chunks: seq<seq<byte>>, max: nat)
    ensures After(chunks, max) == Parse(Flatten(chunks), max).rest
  {
    if chunks != [] {
      var k := |chunks| - 1;
      AfterIsParse(chunks[..k], max);
      ParseAppend(Flatten(chunks[..k]), chunks[k], max);
    }
  }

  ghost predicate AllFrames(chunks: seq<seq<byte>>, max: nat) {
    forall k :: 0 <= k < |chunks| ==> OutcomeOf(chunks, k, max).Frames?
  }

  /** One more call: its outcome and what it adds to the parse. */
  lemma LastCall(chunks: seq<seq<byte>>, max: nat)
    requires |chunks| > 0
    ensures var k := |chunks| - 1; var p := Parse(Flatten(chunks[..k]), max);
      var q := Parse(Flatten(chunks), max); var r := Resume(p.rest, chunks[k], max);
      && OutcomeOf(chunks, k, max) == (if q.error.Some? then Violation(q.error.value) else Frames(r.frames))
      && (p.error.None? ==> q.frames == p.frames + r.frames)
      && (p.error.Some? ==> q.frames == p.frames && q.error == p.error)
      && Delivered(chunks, max) == Delivered(chunks[..k], max) + (if q.error.Some? then [] else r.frames)
  {
    hide Parse, Resume;
    var k := |chunks| - 1;
    AfterIsParse(chunks[..k], max);
    ParseAppend(Flatten(chunks[..k]), chunks[k], max);
  }

  /** For a well-formed stream every call succeeds and the frames handed out are those of the
      one-shot parse, however the stream was cut. */
  lemma {:induction false} ChunkingIndependence(chunks: seq<seq<byte>>, max: nat)
    requires Parse(Flatten(chunks), max).error.None?
    ensures Delivered(chunks, max) == Parse(Flatten(chunks), max).frames
    ensures AllFrames(chunks, max)
  {
    if chunks != [] {
      hide Parse, Resume, OutcomeOf;
      var k := |chunks| - 1;
      var before := chunks[..k];
      LastCall(chunks, max);
      ChunkingIndependence(before, max);
      OutcomesExtend(chunks, max);
    }
  }

  lemma OutcomesExtend(chunks: seq<seq<byte>>, max: nat)
    requires |chunks| > 0 && OutcomeOf(chunks, |chunks| - 1, max).Frames?
    requires AllFrames(chunks[..|chunks| - 1], max)
    ensures AllFrames(chunks, max)
  {
    hide OutcomeOf;
    var k := |chunks| - 1;
    forall i | 0 <= i < |chunks| ensures OutcomeOf(chunks, i, max).Frames? {
      if i < k { SameOutcome(chunks, k, i, max); }
    }
  }

  lemma SameOutcome(chunks: seq<seq<byte>>, k: nat, i: nat, max: nat)
    requires i < k <= |chunks|
    ensures OutcomeOf(chunks[..k], i, max) == OutcomeOf(chunks, i, max)
  {
    assert chunks[..k][..i] == chunks[..i];
  }

  function WireLength(fs: seq<Frame>): nat {
    if fs == [] then 0 else HEADER_SIZE + |fs[0].payload| + WireLength(fs[1..])
  }

  /** A prefix of a malformed stream is malformed exactly when it reaches the twelfth byte of
      the first bad header. */
  lemma {:induction false} ErrorPoint(a: seq<byte>, b: seq<byte>, max: nat)
    requires Parse(a + b, max).error.Some?
    ensures var q := Parse(a + b, max);
      Parse(a, max).error == if |a| >= WireLength(q.frames) + HEADER_SIZE then q.error else None
    decreases |a|
  {
    hide DeserializeHeader;
    var s := a + b;
    if IsWhole(s, max) && |a| >= HEADER_SIZE {
      assert s[..HEADER_SIZE] == a[..HEADER_SIZE];
      var h := DeserializeHeader(a[..HEADER_SIZE]).value;
      var n := HEADER_SIZE + h.payloadLength;
      ParseWhole(s, h, max);
      FirstWire(Parse(s, max).frames);
      assert Parse(s, max).frames[1..] == Parse(s[n..], max).frames;
      if n <= |a| {
        assert s[n..] == a[n..] + b;
        ParseWhole(a, h, max);
        ErrorPoint(a[n..], b, max);
      }
    } else if |a| >= HEADER_SIZE {
      assert s[..HEADER_SIZE] == a[..HEADER_SIZE];
    }
  }

  /** What is wrong with the first bad header, which stands behind the valid frames: the magic or the version, or
      else the length. */
  lemma {:induction false} ErrorKind(s: seq<byte>, max: nat)
    requires Parse(s, max).error.Some?
    ensures var p := Parse(s, max); var n := WireLength(p.frames);
      n + 12 <= |s| && p.error == BadHeader(s[n..n + 12], max)
    decreases |s|
  {
    hide Parse, DeserializeHeader, BadHeader, WireLength;
    if IsWhole(s, max) {
      var n := HEADER_SIZE + DeserializeHeader(s[..HEADER_SIZE]).value.payloadLength;
      FirstParsed(s, max);
      ErrorKind(s[n..], max);
      var m := WireLength(Parse(s[n..], max).frames);
      assert s[n..][m..m + 12] == s[n + m..n + m + 12];
    } else {
      FirstIsBad(s, max);
      assert s[..12] == s[0..0 + 12];
    }
  }

  lemma FirstParsed(s: seq<byte>, max: nat)
    requires IsWhole(s, max)
    ensures var n := HEADER_SIZE + DeserializeHeader(s[..HEADER_SIZE]).value.payloadLength;
      var p, q := Parse(s, max), Parse(s[n..], max);
      p.error == q.error && WireLength(p.frames) == n + WireLength(q.frames)
  {
    hide DeserializeHeader;
    var h := DeserializeHeader(s[..HEADER_SIZE]).value;
    var n := HEADER_SIZE + h.payloadLength;
    ParseWhole(s, h, max);
    FirstWire(Parse(s, max).frames);
    assert Parse(s, max).frames[1..] == Parse(s[n..], max).frames;
  }

  lemma FirstIsBad(s: seq<byte>, max: nat)
    requires Parse(s, max).error.Some? && !IsWhole(s, max)
    ensures |s| >= 12 && WireLength(Parse(s, max).frames) == 0 && Parse(s, max).error == BadHeader(s[..12], max)
  {
    hide DeserializeHeader, Ours, AnnouncedLength;
    if |s| >= 12 { HeaderRead(s[..12]); }
  }

  /** A header that is refused, and why; None for one that is accepted. */
  function BadHeader(d: seq<byte>, max: nat): Option<Error>
    requires |d| >= HEADER_SIZE
  {
    if !Ours(d) then Some(InvalidMagicOrVersion)
    else if AnnouncedLength(d) > max then Some(PayloadTooLarge)
    else None
  }

  lemma FirstWire(fs: seq<Frame>)
    requires fs != []
    ensures WireLength(fs) == HEADER_SIZE + |fs[0].payload| + WireLength(fs[1..])
  {}

  /** For a malformed stream the exception comes in exactly the calls from the one that
      supplies the twelfth byte of the first bad header on, always the same one. */
  lemma ViolationPoint(chunks: seq<seq<byte>>, k: nat, max: nat)
    requires k < |chunks| && Parse(Flatten(chunks), max).error.Some?
    ensures var q := Parse(Flatten(chunks), max);
      if |Flatten(chunks[..k + 1])| >= WireLength(q.frames) + HEADER_SIZE
      then OutcomeOf(chunks, k, max) == Violation(q.error.value)
      else OutcomeOf(chunks, k, max).Frames?
  {
    var upto := chunks[..k + 1];
    assert upto[..k] == chunks[..k];
    AfterIsParse(chunks[..k], max);
    ParseAppend(Flatten(chunks[..k]), chunks[k], max);
    FlattenPrefix(chunks, k + 1);
    var tail := Flatten(chunks)[|Flatten(upto)|..];
    assert Flatten(chunks) == Flatten(upto) + tail;
    ErrorPoint(Flatten(upto), tail, max);
  }

  lemma {:induction false} FlattenPrefix(chunks: seq<seq<byte>>, k: nat)
    requires k <= |chunks|
    ensures Flatten(chunks[..k]) <= Flatten(chunks)
    decreases |chunks|
  {
    if k == |chunks| {
      assert chunks[..k] == chunks;
    } else {
      var before := chunks[..|chunks| - 1];
      FlattenPrefix(before, k);
      assert before[..k] == chunks[..k];
    }
  }

  /** Then the frames handed out are those completed before the first throwing call: the
      valid prefix minus the frames that call completed. */
  lemma {:induction false} DeliveredBeforeViolation(chunks: seq<seq<byte>>, k: nat, max: nat)
    requires k < |chunks| && Parse(Flatten(chunks[..k]), max).error.None?
    requires Parse(Flatten(chunks[..k + 1]), max).error.Some?
    ensures Delivered(chunks, max) == Parse(Flatten(chunks[..k]), max).frames
    ensures Delivered(chunks, max) <= Parse(Flatten(chunks), max).frames
    decreases |chunks|
  {
    hide Parse, Resume, OutcomeOf;
    var last := |chunks| - 1;
    var before := chunks[..last];
    LastCall(chunks, max);
    if k == last {
      assert chunks[..k + 1] == chunks;
      ChunkingIndependence(before, max);
    } else {
      assert before[..k] == chunks[..k] && before[..k + 1] == chunks[..k + 1];
      DeliveredBeforeViolation(before, k, max);
      ErrorStays(before, k + 1, max);
    }
  }

  lemma ErrorStays(chunks: seq<seq<byte>>, k: nat, max: nat)
    requires k <= |chunks| && Parse(Flatten(chunks[..k]), max).error.Some?
    ensures Parse(Flatten(chunks), max).error == Parse(Flatten(chunks[..k]), max).error
  {
    hide Parse, Resume;
    var u, v := Flatten(chunks[..k]), Flatten(chunks);
    FlattenPrefix(chunks, k);
    ParseAppend(u, v[|u|..], max);
    assert v == u + v[|u|..];
  }

  // ---- Accounting ------------------------------------------------------------

  /** Every byte is in a frame, in the pending header or in the buffer; the buffer is shorter
      than what the reader waits for, and the pending length within the limit. */
  lemma {:induction false} Accounting(s: seq<byte>, max: nat)
    requires Parse(s, max).error.None?
    ensures var p := Parse(s, max);
      && (forall i :: 0 <= i < |p.frames| ==> |p.frames[i].payload| == p.frames[i].header.payloadLength)
      && match p.rest
         case ReadingHeader(b) => |s| == WireLength(p.frames) + |b| && |b| < HEADER_SIZE
         case ReadingPayload(h, b) =>
           |s| == WireLength(p.frames) + HEADER_SIZE + |b| && |b| < h.payloadLength <= max
    decreases |s|
  {
    if |s| >= HEADER_SIZE {
      var h := DeserializeHeader(s[..HEADER_SIZE]).value;
      var n := HEADER_SIZE + h.payloadLength;
      if n <= |s| {
        Accounting(s[n..], max);
        ParseWhole(s, h, max);
        assert Parse(s, max).frames[1..] == Parse(s[n..], max).frames;
      }
    }
  }

  /** Reader accounting for any sequence of successful calls. */
  lemma ReaderAccounting(chunks: seq<seq<byte>>, max: nat)
    requires AllFrames(chunks, max)
    ensures var held := After(chunks, max);
      var pending := if held.ReadingHeader? then 0 else HEADER_SIZE;
      && |Flatten(chunks)| == WireLength(Delivered(chunks, max)) + pending + |held.buffer|
      && |held.buffer| < (if held.ReadingHeader? then HEADER_SIZE else held.header.payloadLength)
      && (held.ReadingPayload? ==> held.header.payloadLength <= max)
  {
    if chunks != [] {
      LastCall(chunks, max);
      assert OutcomeOf(chunks, |chunks| - 1, max).Frames?;
    }
    assert Parse(Flatten(chunks), max).error.None?;
    ChunkingIndependence(chunks, max);
    AfterIsParse(chunks, max);
    Accounting(Flatten(chunks), max);
  }

  // ---- Sent frames are read back ---------------------------------------------

  lemma ParseOne(f: Frame, more: seq<byte>, max: nat)
    requires Sendable(f, max)
    ensures var r := Parse(more, max);
      Parse(Serialize(f) + more, max) == Parsed([f] + r.frames, r.rest, r.error)
  {
    hide SerializeHeader, DeserializeHeader;
    var s := Serialize(f) + more;
    var n := HEADER_SIZE + f.header.payloadLength;
    HeaderRoundTrip(f.header);
    assert s[..HEADER_SIZE] == SerializeHeader(f.header);
    assert s[HEADER_SIZE..n] == f.payload && s[n..] == more;
  }

  /** The bytes of sendable frames parse to exactly these frames, with nothing left. */
  lemma {:induction false} ParseStream(fs: seq<Frame>, max: nat)
    requires forall i :: 0 <= i < |fs| ==> Sendable(fs[i], max)
    ensures Parse(Stream(fs), max) == Parsed(fs, ReadingHeader([]), None)
  {
    if fs != [] {
      ParseStream(fs[1..], max);
      ParseOne(fs[0], Stream(fs[1..]), max);
      assert [fs[0]] + fs[1..] == fs;
    }
  }

  /** Whatever part of them has arrived, it parses to a prefix of them without an error. */
  lemma ParseStreamPrefix(fs: seq<Frame>, s: seq<byte>, max: nat)
    requires forall i :: 0 <= i < |fs| ==> Sendable(fs[i], max)
    requires s <= Stream(fs)
    ensures Parse(s, max).error.None? && Parse(s, max).frames <= fs
  {
    ParseStream(fs, max);
    ParseAppend(s, Stream(fs)[|s|..], max);
    assert Stream(fs) == s + Stream(fs)[|s|..];
  }

  lemma StreamFirst(f: Frame, fs: seq<Frame>)
    ensures Stream([f] + fs) == Serialize(f) + Stream(fs)
  {
    hide Serialize;
    assert ([f] + fs)[1..] == fs;
  }

  lemma {:induction false} StreamAppend(fs: seq<Frame>, f: Frame)
    ensures Stream(fs + [f]) == Stream(fs) + Serialize(f)
    decreases |fs|
  {
    hide Serialize;
    if fs == [] {
      assert fs + [f] == [f] + [];
      StreamFirst(f, []);
      assert Serialize(f) + [] == Serialize(f) == [] + Serialize(f);
    } else {
      StreamAppend(fs[1..], f);
      StreamFirst(fs[0], fs[1..] + [f]);
      assert [fs[0]] + (fs[1..] + [f]) == fs + [f];
      assert Serialize(fs[0]) + (Stream(fs[1..]) + Serialize(f)) == Serialize(fs[0]) + Stream(fs[1..]) + Serialize(f);
    }
  }
}
