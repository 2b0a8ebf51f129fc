/** The 32-byte X11 ClientMessage event in the layout `BBHII5I` (code, format,
    sequence number, window, message type, five 32-bit data words), fixed to
    little-endian byte order with no padding, and the MANAGER broadcast that
    announces the owner of the tray selection (section 2.8 of the ICCCM,
    "Manager Selections"). */
module Wire {
  import opened Results

  type Byte = x: int | 0 <= x < 0x100
  type Card16 = x: int | 0 <= x < 0x1_0000
  type Card32 = x: int | 0 <= x < 0x1_0000_0000

  /** X11 core-protocol event code of ClientMessage. */
  const ClientMessageCode: Byte := 33
  /** The `format` of a message whose data are five 32-bit words. */
  const Format32: Byte := 32
  /** The X11 `CurrentTime` timestamp. */
  const CurrentTime: Card32 := 0
  /** Size in bytes of every X11 event. */
  const EventSize := 32

  datatype ClientMessage = ClientMessage(
    code: Byte, format: Byte, sequence: Card16,
    window: Card32, msgType: Card32, data: seq<Card32>)

  /** A ClientMessage always carries exactly five data words. */
  predicate WellFormed(e: ClientMessage) {
    |e.data| == 5
  }

  function Le16(x: Card16): (b: seq<Byte>)
    ensures |b| == 2
  {
    [x % 0x100, x / 0x100]
  }

  function FromLe16(b: seq<Byte>): (x: Card16)
    requires |b| == 2
  {
    b[0] as int + 0x100 * b[1] as int
  }

  function Le32(x: Card32): (b: seq<Byte>)
    ensures |b| == 4
  {
    [x % 0x100, (x / 0x100) % 0x100, (x / 0x1_0000) % 0x100, x / 0x100_0000]
  }

  function FromLe32(b: seq<Byte>): (x: Card32)
    requires |b| == 4
  {
    b[0] as int + 0x100 * b[1] as int + 0x1_0000 * b[2] as int + 0x100_0000 * b[3] as int
  }

  lemma Le16RoundTrip(x: Card16)
    ensures FromLe16(Le16(x)) == x
  {
  }

  lemma FromLe16RoundTrip(b: seq<Byte>)
    requires |b| == 2
    ensures Le16(FromLe16(b)) == b
  {
  }

  /** Decoding the four little-endian bytes of a word gives back the word. */
  lemma Le32RoundTrip(x: Card32)
    ensures FromLe32(Le32(x)) == x
  {
    var q1 := x / 0x100;
    var q2 := q1 / 0x100;
    assert x == x % 0x100 + 0x100 * q1;
    assert q1 == q1 % 0x100 + 0x100 * q2;
    assert q2 == x / 0x1_0000;
    assert q2 / 0x100 == x / 0x100_0000;
    assert q2 == q2 % 0x100 + 0x100 * (x / 0x100_0000);
  }

  /** Splitting off a low byte: quotient and remainder by 256 are unique. */
  lemma SplitByte(a: int, low: int, high: int)
    requires 0 <= low < 0x100 && a == low + 0x100 * high
    ensures a % 0x100 == low && a / 0x100 == high
  {
  }

  /** Every four bytes are the encoding of exactly one word. */
  lemma FromLe32RoundTrip(b: seq<Byte>)
    requires |b| == 4
    ensures Le32(FromLe32(b)) == b
  {
    var x: int := FromLe32(b);
    var q2: int := b[2] as int + 0x100 * b[3] as int;
    var q1: int := b[1] as int + 0x100 * q2;
    SplitByte(x, b[0], q1);
    SplitByte(q1, b[1], q2);
    SplitByte(q2, b[2], b[3]);
    assert x / 0x1_0000 == q1 / 0x100;
    assert x / 0x100_0000 == q2 / 0x100;
  }

  /** `struct.pack('BBHII5I', ...)` with little-endian native order. */
  function Encode(e: ClientMessage): (b: seq<Byte>)
    requires WellFormed(e)
    ensures |b| == EventSize
    ensures b[0] == e.code && b[1] == e.format
  {
    [e.code, e.format] + Le16(e.sequence) + Le32(e.window) + Le32(e.msgType)
      + Le32(e.data[0]) + Le32(e.data[1]) + Le32(e.data[2]) + Le32(e.data[3]) + Le32(e.data[4])
  }

  /** The inverse of Encode: `struct.unpack('BBHII5I', b)`, failing unless `b`
      is exactly one event long. */
  function Decode(b: seq<Byte>): (r: Option<ClientMessage>)
    ensures r.Some? <==> |b| == EventSize
    ensures r.Some? ==> WellFormed(r.value)
  {
    if |b| != EventSize then None
    else Some(ClientMessage(
      b[0], b[1], FromLe16(b[2..4]), FromLe32(b[4..8]), FromLe32(b[8..12]),
      [FromLe32(b[12..16]), FromLe32(b[16..20]), FromLe32(b[20..24]),
       FromLe32(b[24..28]), FromLe32(b[28..32])]))
  }

  /** Every well-formed event survives encoding and decoding. */
  lemma DecodeEncode(e: ClientMessage)
    requires WellFormed(e)
    ensures Decode(Encode(e)) == Some(e)
  {
    var b := Encode(e);
    var p := [e.code, e.format] + Le16(e.sequence) + Le32(e.window) + Le32(e.msgType)
      + Le32(e.data[0]) + Le32(e.data[1]) + Le32(e.data[2]) + Le32(e.data[3]);
    assert |p| == 28;
    assert b == p + Le32(e.data[4]);
    assert b[28..] == Le32(e.data[4]);
    assert b[28..32] == b[28..];
    assert b[2..4] == Le16(e.sequence);
    assert b[4..8] == Le32(e.window);
    assert b[8..12] == Le32(e.msgType);
    assert b[12..16] == Le32(e.data[0]);
    assert b[16..20] == Le32(e.data[1]);
    assert b[20..24] == Le32(e.data[2]);
    assert b[24..28] == Le32(e.data[3]);
    assert b[28..32] == Le32(e.data[4]);
    Le16RoundTrip(e.sequence);
    Le32RoundTrip(e.window);
    Le32RoundTrip(e.msgType);
    Le32RoundTrip(e.data[0]);
    Le32RoundTrip(e.data[1]);
    Le32RoundTrip(e.data[2]);
    Le32RoundTrip(e.data[3]);
    Le32RoundTrip(e.data[4]);
    assert Decode(b).value.data == e.data;
  }

  /** Every 32 bytes are the encoding of the event they decode to. */
  lemma EncodeDecode(b: seq<Byte>)
    requires |b| == EventSize
    ensures Encode(Decode(b).value) == b
  {
    FromLe16RoundTrip(b[2..4]);
    FromLe32RoundTrip(b[4..8]);
    FromLe32RoundTrip(b[8..12]);
    FromLe32RoundTrip(b[12..16]);
    FromLe32RoundTrip(b[16..20]);
    FromLe32RoundTrip(b[20..24]);
    FromLe32RoundTrip(b[24..28]);
    FromLe32RoundTrip(b[28..32]);
    assert b == b[..2] + b[2..4] + b[4..8] + b[8..12] + b[12..16] + b[16..20]
      + b[20..24] + b[24..28] + b[28..32];
  }

  /** The MANAGER message sent to the root window once the tray owns its
      selection: window = root, type = MANAGER, data = [time, selection atom,
      owner window, 0, 0]. The sequence number is left 0. */
  function ManagerMessage(root: Card32, manager: Card32, time: Card32,
                          selection: Card32, owner: Card32): (e: ClientMessage)
    ensures WellFormed(e)
  {
    ClientMessage(ClientMessageCode, Format32, 0, root, manager, [time, selection, owner, 0, 0])
  }

  /** The byte layout of the MANAGER broadcast, field by field. */
  lemma ManagerBytes(root: Card32, manager: Card32, time: Card32,
                     selection: Card32, owner: Card32)
    ensures var b := Encode(ManagerMessage(root, manager, time, selection, owner));
      && |b| == 32 && b[0] == 33 && b[1] == 32 && b[2..4] == [0, 0]
      && b[4..8] == Le32(root) && b[8..12] == Le32(manager)
      && b[12..16] == Le32(time) && b[16..20] == Le32(selection)
      && b[20..24] == Le32(owner) && b[24..28] == [0, 0, 0, 0] && b[28..32] == [0, 0, 0, 0]
  {
    var b := Encode(ManagerMessage(root, manager, time, selection, owner));
    var head := [33, 32] + Le16(0) + Le32(root) + Le32(manager) + Le32(time)
      + Le32(selection) + Le32(owner);
    assert b == head + Le32(0) + Le32(0);
    assert Le32(0) == [0, 0, 0, 0];
    assert b[24..28] == Le32(0);
    assert b[28..32] == Le32(0);
  }

  /** Reads the five logical MANAGER fields back from raw bytes, failing when
      the bytes are not a MANAGER-shaped ClientMessage. */
  function DecodeManager(b: seq<Byte>): (r: Option<(Card32, Card32, Card32, Card32, Card32)>)
    ensures r.Some? ==> |b| == EventSize && b[0] == ClientMessageCode && b[1] == Format32
  {
    match Decode(b)
    case None => None
    case Some(e) =>
      if e.code == ClientMessageCode && e.format == Format32 && e.sequence == 0
         && e.data[3] == 0 && e.data[4] == 0
      then Some((e.window, e.msgType, e.data[0], e.data[1], e.data[2]))
      else None
  }

  /** Decoding a MANAGER broadcast recovers exactly the five fields it was
      built from. */
  lemma ManagerRoundTrip(root: Card32, manager: Card32, time: Card32,
                         selection: Card32, owner: Card32)
    ensures DecodeManager(Encode(ManagerMessage(root, manager, time, selection, owner)))
         == Some((root, manager, time, selection, owner))
  {
    DecodeEncode(ManagerMessage(root, manager, time, selection, owner));
  }

  /** Conversely, whatever the decoder accepts is exactly the encoding of the
      MANAGER message built from the fields it reads. */
  lemma DecodeManagerInverse(b: seq<Byte>, f: (Card32, Card32, Card32, Card32, Card32))
    requires DecodeManager(b) == Some(f)
    ensures Encode(ManagerMessage(f.0, f.1, f.2, f.3, f.4)) == b
  {
    EncodeDecode(b);
    var e := Decode(b).value;
    assert e.data == [f.2, f.3, f.4, 0, 0];
    assert e == ManagerMessage(f.0, f.1, f.2, f.3, f.4);
  }
}
