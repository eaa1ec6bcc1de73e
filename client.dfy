/**
 * The browser client of the pixel canvas (static/main.js:96-525): the
 * colour list's helpers, the data side of the canvas (its pixel list and
 * size), and the PixelClient state machine that reacts to socket events and
 * binary or JSON messages, and sends frames built with the struct codec.
 *
 * What the client sends, and the reconnects and local-storage writes it
 * asks for, are collected in an outbox of effects; the socket, timers,
 * drawing and storage themselves are not part of this model.
 */
module Client {
  import opened Wrappers
  import opened Bytes
  import opened Format
  import opened Codec
  import opened JsonValues

  // Request opcodes the client sends (static/main.js:272-280).
  const GET_CANVAS: byte := 2
  const POST_TILE: byte := 4
  const GET_COLORS: byte := 5

  // Binary response opcodes the client acts on (static/main.js:282-293).
  const RES_CANVAS: byte := 1
  const RES_TILE_UPDATE: byte := 3
  const RES_COLOR_LIST: byte := 4
  const RES_TILE_INCREMENT: byte := 6
  const RES_USER_COUNT: byte := 8

  // ---------------------------------------------------------------------------
  // Colours: rgb_to_hex and get_color (static/main.js:131-136).
  // ---------------------------------------------------------------------------

  /** The lower-case hexadecimal digit for d. */
  function HexDigit(d: nat): char
    requires d < 16
  {
    if d < 10 then ('0' as int + d) as char else ('a' as int + d - 10) as char
  }

  /** The value of a hexadecimal digit written by HexDigit. */
  function HexValue(c: char): int {
    if '0' <= c <= '9' then c as int - '0' as int else c as int - 'a' as int + 10
  }

  /** Number.prototype.toString(16) of a non-negative integer. */
  function ToHex(n: nat): (s: string)
    ensures |s| >= 1
  {
    if n < 16 then [HexDigit(n)] else ToHex(n / 16) + [HexDigit(n % 16)]
  }

  /** Two hexadecimal digits for one byte, high digit first. */
  function Hex2(x: byte): string {
    [HexDigit(x / 16), HexDigit(x % 16)]
  }

  /**
   * rgb_to_hex(r, g, b): the hexadecimal spelling of 2^24 + r·2^16 + g·2^8 + b
   * with its leading 1 dropped, after "#".
   */
  function RgbToHex(r: byte, g: byte, b: byte): string {
    "#" + ToHex(0x100_0000 + r * 0x1_0000 + g * 0x100 + b)[1..]
  }

  /** The channels a "#rrggbb" colour string denotes, as a canvas reads it. */
  function ChannelsOf(s: string): (int, int, int)
    requires |s| == 7
  {
    (HexValue(s[1]) * 16 + HexValue(s[2]),
     HexValue(s[3]) * 16 + HexValue(s[4]),
     HexValue(s[5]) * 16 + HexValue(s[6]))
  }

  /** Appending a digit to a number of at least one digit appends its spelling. */
  lemma ToHexStep(a: nat, d: nat)
    requires a >= 1 && d < 16
    ensures ToHex(a * 16 + d) == ToHex(a) + [HexDigit(d)]
  {
    assert (a * 16 + d) / 16 == a && (a * 16 + d) % 16 == d;
  }

  /** Appending a byte's two digits to a number of at least one digit. */
  lemma ToHexPair(a: nat, x: byte)
    requires a >= 1
    ensures ToHex(a * 256 + x) == ToHex(a) + Hex2(x)
  {
    ToHexStep(a, x / 16);
    ToHexStep(a * 16 + x / 16, x % 16);
    assert (a * 16 + x / 16) * 16 + x % 16 == a * 256 + x;
  }

  /** rgb_to_hex always gives "#" and exactly two digits per channel. */
  lemma RgbToHexChannels(r: byte, g: byte, b: byte)
    ensures RgbToHex(r, g, b) == "#" + Hex2(r) + Hex2(g) + Hex2(b)
  {
    var n2 := 1 * 256 + r;
    var n4 := n2 * 256 + g;
    var n6 := n4 * 256 + b;
    assert n6 == 0x100_0000 + r * 0x1_0000 + g * 0x100 + b;
    ToHexPair(1, r);
    ToHexPair(n2, g);
    ToHexPair(n4, b);
    assert ToHex(1) == "1";
    var digits := Hex2(r) + Hex2(g) + Hex2(b);
    assert ToHex(n6) == "1" + digits;
    assert ToHex(n6)[1..] == digits;
  }

  /** Reading the channels back from rgb_to_hex gives r, g and b: no two colours share a string. */
  lemma RgbToHexRoundTrip(r: byte, g: byte, b: byte)
    ensures |RgbToHex(r, g, b)| == 7
    ensures ChannelsOf(RgbToHex(r, g, b)) == (r, g, b)
  {
    RgbToHexChannels(r, g, b);
    var s := RgbToHex(r, g, b);
    assert s[1] == HexDigit(r / 16) && s[2] == HexDigit(r % 16);
    assert s[3] == HexDigit(g / 16) && s[4] == HexDigit(g % 16);
    assert s[5] == HexDigit(b / 16) && s[6] == HexDigit(b % 16);
  }

  /** One entry of ColorList.colors: a colour id and its "#rrggbb" string. */
  datatype ColorEntry = ColorEntry(id: int, color: string)

  /** colors.filter(c => c.id === id). */
  function Matching(colors: seq<ColorEntry>, id: int): (m: seq<ColorEntry>)
    ensures |m| <= |colors|
  {
    if colors == [] then []
    else if colors[0].id == id then [colors[0]] + Matching(colors[1..], id)
    else Matching(colors[1..], id)
  }

  /** get_color(id): the colour of the first matching entry; None where `[0].color` throws. */
  function GetColor(colors: seq<ColorEntry>, id: int): Option<string> {
    var m := Matching(colors, id);
    if m == [] then None else Some(m[0].color)
  }

  /**
   * get_color finds c exactly when some entry is (id, c) and no earlier
   * entry has that id.
   */
  lemma {:induction false} GetColorIsFirst(colors: seq<ColorEntry>, id: int, c: string)
    ensures GetColor(colors, id) == Some(c) <==>
      exists i :: 0 <= i < |colors| && colors[i] == ColorEntry(id, c)
                  && forall j :: 0 <= j < i ==> colors[j].id != id
  {
    if colors != [] && colors[0].id != id {
      var rest := colors[1..];
      GetColorIsFirst(rest, id, c);
      assert GetColor(colors, id) == GetColor(rest, id);
      if GetColor(colors, id) == Some(c) {
        var i :| 0 <= i < |rest| && rest[i] == ColorEntry(id, c) && forall j :: 0 <= j < i ==> rest[j].id != id;
        assert colors[i + 1] == rest[i];
        forall j | 0 <= j < i + 1 ensures colors[j].id != id {
          if j > 0 {
            assert colors[j] == rest[j - 1];
          }
        }
      }
      if exists i :: 0 <= i < |colors| && colors[i] == ColorEntry(id, c)
                     && forall j :: 0 <= j < i ==> colors[j].id != id {
        var i :| 0 <= i < |colors| && colors[i] == ColorEntry(id, c)
                 && forall j :: 0 <= j < i ==> colors[j].id != id;
        assert i > 0 && rest[i - 1] == colors[i];
        forall j | 0 <= j < i - 1 ensures rest[j].id != id {
          assert rest[j] == colors[j + 1];
        }
      }
    } else if colors != [] {
      if GetColor(colors, id) == Some(c) {
        assert colors[0] == ColorEntry(id, c);
      }
    }
  }

  /** A colour received in a RES_COLOR_LIST frame, as `{R, G, B, ID}`. */
  datatype Rgbi = Rgbi(r: byte, g: byte, b: byte, id: byte)

  /** The entry the ColorList constructor makes of a received colour (static/main.js:103-105). */
  function EntryOf(c: Rgbi): ColorEntry {
    ColorEntry(c.id, RgbToHex(c.r, c.g, c.b))
  }

  /** The ColorList constructor's loop over the received colours (static/main.js:103-105). */
  method MakeEntries(colors: seq<Rgbi>) returns (entries: seq<ColorEntry>)
    ensures |entries| == |colors|
    ensures forall i :: 0 <= i < |colors| ==> entries[i] == EntryOf(colors[i])
  {
    entries := [];
    for i := 0 to |colors|
      invariant |entries| == i
      invariant forall k :: 0 <= k < i ==> entries[k] == EntryOf(colors[k])
    {
      entries := entries + [EntryOf(colors[i])];
    }
  }

  /**
   * A colour id drawn on the canvas gets the colour of the first received
   * colour with that id.
   */
  lemma ReceivedColor(colors: seq<Rgbi>, entries: seq<ColorEntry>, i: nat)
    requires |entries| == |colors| && forall k :: 0 <= k < |colors| ==> entries[k] == EntryOf(colors[k])
    requires i < |colors| && forall j :: 0 <= j < i ==> colors[j].id != colors[i].id
    ensures GetColor(entries, colors[i].id) == Some(RgbToHex(colors[i].r, colors[i].g, colors[i].b))
  {
    GetColorIsFirst(entries, colors[i].id, RgbToHex(colors[i].r, colors[i].g, colors[i].b));
  }

  // ---------------------------------------------------------------------------
  // Frames: the structs the client unpacks and packs.
  // ---------------------------------------------------------------------------

  /** struct('BBxxI'): opcode, colour, two pad bytes, cell index. */
  function TileUpdateStruct(): (l: Layout)
    ensures WellLaid(l)
  {
    TileUpdateLayout();
    Layout(false, [Field(UInt8, 0, 1), Field(UInt8, 1, 1), Field(UInt32, 4, 4)], 8)
  }

  /** struct('BBBB'): red, green, blue, id. */
  function ColorStruct(): (l: Layout)
    ensures WellLaid(l)
  {
    ColorLayout();
    Layout(false, [Field(UInt8, 0, 1), Field(UInt8, 1, 1), Field(UInt8, 2, 1), Field(UInt8, 3, 1)], 4)
  }

  /** struct('BB'): opcode and count. */
  function CounterStruct(): (l: Layout)
    ensures WellLaid(l)
  {
    CounterLayout();
    Layout(false, [Field(UInt8, 0, 1), Field(UInt8, 1, 1)], 2)
  }

  /** struct('BxH'): opcode, a pad byte, a 16-bit count. */
  function UserCountStruct(): (l: Layout)
    ensures WellLaid(l)
  {
    UserCountLayout();
    Layout(false, [Field(UInt8, 0, 1), Field(UInt16, 2, 2)], 4)
  }

  /** struct('B37s'): opcode and user id. */
  function UserIdStruct(): (l: Layout)
    ensures WellLaid(l)
  {
    UserIdLayout();
    Layout(false, [Field(UInt8, 0, 1), Field(FixedString, 1, 37)], 38)
  }

  /** struct('B37sHHH'): opcode, user id, X, Y, colour id. */
  function PostTileStruct(): (l: Layout)
    ensures WellLaid(l)
  {
    PostTileLayout();
    Layout(false, [Field(UInt8, 0, 1), Field(FixedString, 1, 37), Field(UInt16, 38, 2), Field(UInt16, 40, 2), Field(UInt16, 42, 2)], 44)
  }

  /** A buffer at least as long as the struct unpacks from its start; a shorter one throws. */
  lemma UnpackWhole(l: Layout, buf: seq<byte>)
    requires WellLaid(l) && l.size < 0x8000_0000
    ensures |buf| >= l.size ==> Unpack(l, buf) == Ok(Decoded(l, buf))
    ensures |buf| < l.size ==> Unpack(l, buf) == Err(BufferTooSmall)
  {
    SmallOffset(0);
    assert buf[0..] == buf;
  }

  /** A big-endian unsigned byte field reads that byte. */
  lemma ReadByte(buf: seq<byte>, o: nat)
    requires o < |buf|
    ensures DecodeField(Field(UInt8, o, 1), false, buf[o..o + 1]) == VNum(buf[o])
  {
    var bs := buf[o..o + 1];
    assert bs[..0] == [];
    assert FromBigEndian(bs) == buf[o];
  }

  /** A big-endian 16-bit field reads its high byte times 256 plus its low byte. */
  lemma ReadShort(buf: seq<byte>, o: nat)
    requires o + 2 <= |buf|
    ensures DecodeField(Field(UInt16, o, 2), false, buf[o..o + 2]) == VNum(buf[o] as int * 256 + buf[o + 1])
  {
    var bs := buf[o..o + 2];
    assert bs[..1][..0] == [];
    assert FromBigEndian(bs[..1]) == buf[o];
    assert FromBigEndian(bs) == buf[o] as int * 256 + buf[o + 1];
  }

  /** Field i of a big-endian struct, an unsigned byte, reads the byte at its offset. */
  lemma DecodedByte(l: Layout, view: seq<byte>, i: nat)
    requires WellLaid(l) && !l.littleEndian && |view| >= l.size && i < |l.fields| && l.fields[i].kind == UInt8
    ensures Decoded(l, view)[i] == VNum(view[l.fields[i].offset])
  {
    var f := l.fields[i];
    ReadByte(view, f.offset);
    assert f == Field(UInt8, f.offset, 1);
  }

  /** Field i of a big-endian struct, an unsigned 16-bit number, reads its two bytes high first. */
  lemma DecodedShort(l: Layout, view: seq<byte>, i: nat)
    requires WellLaid(l) && !l.littleEndian && |view| >= l.size && i < |l.fields| && l.fields[i].kind == UInt16
    ensures Decoded(l, view)[i] == VNum(view[l.fields[i].offset] as int * 256 + view[l.fields[i].offset + 1])
  {
    var f := l.fields[i];
    ReadShort(view, f.offset);
    assert f == Field(UInt16, f.offset, 2);
  }

  /** Field i of a big-endian struct, an unsigned 32-bit number, reads its four bytes high first. */
  lemma DecodedWord(l: Layout, view: seq<byte>, i: nat)
    requires WellLaid(l) && !l.littleEndian && |view| >= l.size && i < |l.fields| && l.fields[i].kind == UInt32
    ensures Decoded(l, view)[i] == VNum(FromBigEndian(view[l.fields[i].offset .. l.fields[i].offset + 4]))
  {
  }

  /** The cell patch a RES_TILE_UPDATE frame carries. */
  datatype TileUpdate = TileUpdate(index: nat, color: byte)

  /**
   * `struct('BBxxI').unpack(m.data)` with `[_, c, i]` taken from it
   * (static/main.js:368-369): None where the unpack throws.
   */
  function TileUpdateOf(frame: seq<byte>): (u: Option<TileUpdate>)
    ensures u == if |frame| >= 8 then Some(TileUpdate(FromBigEndian(frame[4..8]), frame[1])) else None
  {
    TileUpdateUnpack(frame);
    match Unpack(TileUpdateStruct(), frame)
    case Err(_) => None
    case Ok(vs) => Some(TileUpdate(vs[2].n, vs[1].n))
  }

  lemma TileUpdateUnpack(frame: seq<byte>)
    ensures |frame| >= 8 ==> Unpack(TileUpdateStruct(), frame).Ok?
    ensures |frame| >= 8 ==> var vs := Unpack(TileUpdateStruct(), frame).value;
      |vs| == 3 && vs[1] == VNum(frame[1]) && vs[2] == VNum(FromBigEndian(frame[4..8]))
    ensures |frame| < 8 ==> Unpack(TileUpdateStruct(), frame).Err?
  {
    var l := TileUpdateStruct();
    UnpackWhole(l, frame);
    if |frame| >= 8 {
      DecodedByte(l, frame, 1);
      DecodedWord(l, frame, 2);
    }
  }

  /** `struct('BB').unpack(m.data)[1]` (static/main.js:400-401). */
  function TileIncrementOf(frame: seq<byte>): (c: Option<byte>)
    ensures c == if |frame| >= 2 then Some(frame[1]) else None
  {
    var l := CounterStruct();
    UnpackWhole(l, frame);
    match Unpack(l, frame)
    case Err(_) => None
    case Ok(vs) =>
      DecodedByte(l, frame, 1);
      Some(vs[1].n)
  }

  /** `struct('BxH').unpack(m.data)[1]` (static/main.js:410-411). */
  function UserCountOf(frame: seq<byte>): (c: Option<nat>)
    ensures c == if |frame| >= 4 then Some(frame[2] as int * 256 + frame[3]) else None
  {
    UserCountUnpack(frame);
    match Unpack(UserCountStruct(), frame)
    case Err(_) => None
    case Ok(vs) => Some(vs[1].n)
  }

  lemma UserCountUnpack(frame: seq<byte>)
    ensures |frame| >= 4 ==> Unpack(UserCountStruct(), frame).Ok?
    ensures |frame| >= 4 ==> var vs := Unpack(UserCountStruct(), frame).value;
      |vs| == 2 && vs[1] == VNum(frame[2] as int * 256 + frame[3])
    ensures |frame| < 4 ==> Unpack(UserCountStruct(), frame).Err?
  {
    var l := UserCountStruct();
    UnpackWhole(l, frame);
    if |frame| >= 4 {
      DecodedShort(l, frame, 1);
    }
  }

  /** `str.unpack(view)` as `[r, g, b, id]` for one 4-byte block (static/main.js:387-388). */
  function ColorOf(view: seq<byte>): (c: Option<Rgbi>)
    ensures c == if |view| >= 4 then Some(Rgbi(view[0], view[1], view[2], view[3])) else None
  {
    var l := ColorStruct();
    ColorUnpack(view);
    match Unpack(l, view)
    case Err(_) => None
    case Ok(vs) => Some(Rgbi(vs[0].n, vs[1].n, vs[2].n, vs[3].n))
  }

  lemma ColorUnpack(view: seq<byte>)
    ensures |view| >= 4 ==> Unpack(ColorStruct(), view) == Ok([VNum(view[0]), VNum(view[1]), VNum(view[2]), VNum(view[3])])
    ensures |view| < 4 ==> Unpack(ColorStruct(), view).Err?
  {
    var l := ColorStruct();
    UnpackWhole(l, view);
    if |view| >= 4 {
      var vs := Decoded(l, view);
      DecodedByte(l, view, 0);
      DecodedByte(l, view, 1);
      DecodedByte(l, view, 2);
      DecodedByte(l, view, 3);
      assert vs == [VNum(view[0]), VNum(view[1]), VNum(view[2]), VNum(view[3])];
    }
  }

  /**
   * The colours of a RES_COLOR_LIST frame: one per 4-byte block after the
   * opcode, or None when a short block is left over.
   */
  function ColorsOf(frame: seq<byte>): Option<seq<Rgbi>>
    requires |frame| >= 1
  {
    var n := (|frame| - 1) / 4;
    if (|frame| - 1) % 4 != 0 then None
    else Some(seq(n, i requires 0 <= i < n =>
      Rgbi(frame[4 * i + 1], frame[4 * i + 2], frame[4 * i + 3], frame[4 * i + 4])))
  }

  /**
   * The loop of static/main.js:383-390: `i < (byteLength - 1) / 4` over a real
   * quotient, each block sliced out and unpacked. A short last block makes
   * its unpack throw.
   */
  method DecodeColors(frame: seq<byte>) returns (colors: Option<seq<Rgbi>>)
    requires |frame| >= 1
    ensures colors == ColorsOf(frame)
  {
    var acc: seq<Rgbi> := [];
    var i := 0;
    while 4 * i < |frame| - 1
      invariant 4 * i <= |frame| - 1
      invariant |acc| == i
      invariant forall k :: 0 <= k < i ==>
        acc[k] == Rgbi(frame[4 * k + 1], frame[4 * k + 2], frame[4 * k + 3], frame[4 * k + 4])
      decreases |frame| - 1 - 4 * i
    {
      var view := frame[4 * i + 1 .. Min(4 * i + 5, |frame|)];
      var c := ColorOf(view);
      BlockAt(frame, i);
      if c.None? {
        ModUnique(|frame| - 1, 4, i, |frame| - 1 - 4 * i);
        return None;
      }
      acc := acc + [c.value];
      i := i + 1;
    }
    ModUnique(|frame| - 1, 4, i, 0);
    assert (|frame| - 1) / 4 == i;
    var want := seq(i, k requires 0 <= k < i =>
      Rgbi(frame[4 * k + 1], frame[4 * k + 2], frame[4 * k + 3], frame[4 * k + 4]));
    assert acc == want;
    return Some(acc);
  }

  /** Block i of a colour-list frame, as the loop slices it out, holds colour i when it is whole. */
  lemma BlockAt(frame: seq<byte>, i: nat)
    requires 4 * i < |frame| - 1
    ensures var c := ColorOf(frame[4 * i + 1 .. Min(4 * i + 5, |frame|)]);
      c == if 4 * i + 5 <= |frame| then Some(Rgbi(frame[4 * i + 1], frame[4 * i + 2], frame[4 * i + 3], frame[4 * i + 4])) else None
  {
  }

  /**
   * The value a stored user id becomes when handed to pack: JSON values as
   * such, an array or an object as an object, and a missing member as
   * undefined.
   */
  function ToValue(v: Option<Json>): Value {
    match v
    case None => VUndef
    case Some(JNull) => VNull
    case Some(JBool(b)) => VBool(b)
    case Some(JNum(n)) => VNum(n)
    case Some(JStr(s)) => VStr(s)
    case Some(_) => VObject
  }

  /** `struct('B37s').pack(op, user_id)` (static/main.js:392, 458, 490). */
  function UserIdFrame(op: byte, userId: Option<Json>): Result<seq<byte>> {
    PackResult(UserIdStruct(), [VNum(op), ToValue(userId)])
  }

  /** `struct('B37sHHH').pack(POST_TILE, user_id, x, y, c)` (static/main.js:524). */
  function TileFrame(userId: Option<Json>, x: int, y: int, c: int): Result<seq<byte>> {
    PackResult(PostTileStruct(), [VNum(POST_TILE), ToValue(userId), VNum(x), VNum(y), VNum(c)])
  }

  /** A user id cut to the 37 characters of its field. */
  function Cut(s: string): string {
    s[..Min(|s|, 37)]
  }

  /** The 37 bytes the 's' field holds for a user id: its character codes, then zeros. */
  function UserIdBytes(s: string): seq<byte> {
    Codec.Codes(Cut(s)) + Zeros(37 - |Cut(s)|)
  }

  /** The opcode field writes the opcode as it is. */
  lemma OpcodeEncodes(op: byte)
    ensures EncodeField(Field(UInt8, 0, 1), false, VNum(op)) == Ok([op])
  {
    OneByte(op, false);
  }

  /**
   * A user-id frame is 38 bytes: the opcode, then the id's codes up to 37
   * of them, then zeros.
   */
  lemma UserIdFrameBytes(op: byte, s: string)
    ensures UserIdFrame(op, Some(JStr(s))) == Ok([op] + UserIdBytes(s))
  {
    var l := UserIdStruct();
    var vals := [VNum(op), VStr(s)];
    assert UserIdFrame(op, Some(JStr(s))) == PackResult(l, vals);
    OpcodeEncodes(op);
    assert EncodeField(l.fields[1], false, vals[1]) == Ok(Codec.Codes(Cut(s)));
    PackAccepts(l, vals);
    var bytes := PackResult(l, vals).value;
    PackedWindow(l, vals, 0);
    PackedWindow(l, vals, 1);
    assert bytes[0..1] == [op];
    assert bytes[1..38] == UserIdBytes(s);
    assert bytes == bytes[0..1] + bytes[1..38];
  }

  /** A user id that is not a string (null, undefined, a number, ...) makes the pack throw. */
  lemma UserIdFrameRefused(op: byte, userId: Option<Json>)
    requires !(userId.Some? && userId.value.JStr?)
    ensures UserIdFrame(op, userId) == Err(WrongValueType)
  {
    var l := UserIdStruct();
    var vals := [VNum(op), ToValue(userId)];
    OpcodeEncodes(op);
    assert EncodeField(l.fields[1], false, vals[1]) == Err(WrongValueType);
    assert FirstRefusal(false, l.fields, vals, 1);
    PackRefusedAt(l, vals, 1);
  }

  /**
   * The tile post is 44 bytes: opcode 4, the user id's 37 bytes, then X, Y
   * and the colour id as big-endian 16-bit numbers (each modulo 2^16).
   */
  lemma TileFrameBytes(s: string, x: int, y: int, c: int)
    ensures TileFrame(Some(JStr(s)), x, y, c) ==
      Ok([POST_TILE] + UserIdBytes(s) + BigEndian(x, 2) + BigEndian(y, 2) + BigEndian(c, 2))
  {
    var l := PostTileStruct();
    var vals := [VNum(POST_TILE), VStr(s), VNum(x), VNum(y), VNum(c)];
    assert TileFrame(Some(JStr(s)), x, y, c) == PackResult(l, vals);
    TileFrameAccepted(s, x, y, c);
    var bytes := PackResult(l, vals).value;
    TileFrameWindows(s, x, y, c);
    Joined(bytes, [POST_TILE], UserIdBytes(s), BigEndian(x, 2), BigEndian(y, 2), BigEndian(c, 2));
  }

  /** 44 bytes are the concatenation of their five field windows. */
  lemma Joined(bytes: seq<byte>, a: seq<byte>, b: seq<byte>, c: seq<byte>, d: seq<byte>, e: seq<byte>)
    requires |bytes| == 44
    requires bytes[0..1] == a && bytes[1..38] == b && bytes[38..40] == c && bytes[40..42] == d && bytes[42..44] == e
    ensures bytes == a + b + c + d + e
  {
    assert bytes == bytes[0..1] + bytes[1..38] + bytes[38..40] + bytes[40..42] + bytes[42..44];
  }

  lemma TileFrameAccepted(s: string, x: int, y: int, c: int)
    ensures PackResult(PostTileStruct(), [VNum(POST_TILE), VStr(s), VNum(x), VNum(y), VNum(c)]).Ok?
  {
    var l := PostTileStruct();
    var vals := [VNum(POST_TILE), VStr(s), VNum(x), VNum(y), VNum(c)];
    OpcodeEncodes(POST_TILE);
    assert EncodeField(l.fields[1], false, vals[1]).Ok?;
    assert EncodeField(l.fields[2], false, vals[2]).Ok?;
    assert EncodeField(l.fields[3], false, vals[3]).Ok?;
    assert EncodeField(l.fields[4], false, vals[4]).Ok?;
    PackAccepts(l, vals);
  }

  lemma TileFrameWindows(s: string, x: int, y: int, c: int)
    requires PackResult(PostTileStruct(), [VNum(POST_TILE), VStr(s), VNum(x), VNum(y), VNum(c)]).Ok?
    ensures var bytes := PackResult(PostTileStruct(), [VNum(POST_TILE), VStr(s), VNum(x), VNum(y), VNum(c)]).value;
      && bytes[0..1] == [POST_TILE] && bytes[1..38] == UserIdBytes(s)
      && bytes[38..40] == BigEndian(x, 2) && bytes[40..42] == BigEndian(y, 2) && bytes[42..44] == BigEndian(c, 2)
  {
    var l := PostTileStruct();
    var vals := [VNum(POST_TILE), VStr(s), VNum(x), VNum(y), VNum(c)];
    OpcodeEncodes(POST_TILE);
    PackedWindow(l, vals, 0);
    PackedWindow(l, vals, 1);
    PackedWindow(l, vals, 2);
    PackedWindow(l, vals, 3);
    PackedWindow(l, vals, 4);
  }

  /** A tile post with a user id that is not a string is never sent: the pack throws. */
  lemma TileFrameRefused(userId: Option<Json>, x: int, y: int, c: int)
    requires !(userId.Some? && userId.value.JStr?)
    ensures TileFrame(userId, x, y, c) == Err(WrongValueType)
  {
    var l := PostTileStruct();
    var vals := [VNum(POST_TILE), ToValue(userId), VNum(x), VNum(y), VNum(c)];
    assert TileFrame(userId, x, y, c) == PackResult(l, vals);
    OpcodeEncodes(POST_TILE);
    assert EncodeField(l.fields[1], false, vals[1]) == Err(WrongValueType);
    assert FirstRefusal(false, l.fields, vals, 1);
    PackRefusedAt(l, vals, 1);
  }

  /**
   * Unpacking a tile post with the same struct gives back the opcode, the
   * user id cut or padded to 37 characters, and X, Y and the colour id
   * modulo 2^16.
   */
  lemma TileFrameDecodes(s: string, x: int, y: int, c: int)
    ensures TileFrame(Some(JStr(s)), x, y, c).Ok?
    ensures var frame := TileFrame(Some(JStr(s)), x, y, c).value;
      Unpack(PostTileStruct(), frame) == Ok([VNum(POST_TILE), VStr(Narrow(Cut(s)) + Nuls(37 - |Cut(s)|)),
                                              VNum(x % 0x1_0000), VNum(y % 0x1_0000), VNum(c % 0x1_0000)])
  {
    var l := PostTileStruct();
    var vals := [VNum(POST_TILE), VStr(s), VNum(x), VNum(y), VNum(c)];
    TileFrameAccepted(s, x, y, c);
    assert TileFrame(Some(JStr(s)), x, y, c) == PackResult(l, vals);
    PackThenUnpack(l, vals);
    var r := Unpack(l, PackResult(l, vals).value).value;
    EchoOpcode(0, POST_TILE);
    EchoShort(38, x);
    EchoShort(40, y);
    EchoShort(42, c);
    assert r[0] == VNum(POST_TILE);
    assert r[1] == VStr(Narrow(Cut(s)) + Nuls(37 - |Cut(s)|));
    assert r[2] == VNum(x % 0x1_0000) && r[3] == VNum(y % 0x1_0000) && r[4] == VNum(c % 0x1_0000);
    assert r == [r[0], r[1], r[2], r[3], r[4]];
  }

  /** A byte handed to an unsigned byte field comes back as it is. */
  lemma EchoOpcode(o: nat, op: byte)
    ensures Echo(Field(UInt8, o, 1), VNum(op)) == Ok(VNum(op))
  {
    ToUintInRange(op, 1);
  }

  /** A number handed to an unsigned 16-bit field comes back modulo 2^16. */
  lemma EchoShort(o: nat, n: int)
    ensures Echo(Field(UInt16, o, 2), VNum(n)) == Ok(VNum(n % 0x1_0000))
  {
    assert Pow256(2) == 0x1_0000;
  }

  // ---------------------------------------------------------------------------
  // The canvas's pixel list.
  // ---------------------------------------------------------------------------

  /** JavaScript arrays have at most 2^32 - 1 elements; 2^32 - 1 is not an index. */
  const MAX_INDEX: nat := 0xFFFF_FFFF

  /**
   * `pixels[i] = c` on a JavaScript array (static/main.js:376). An index
   * below 2^32 - 1 sets that element, first growing the array with holes
   * (None) when it lies past the end. 2^32 - 1 is not an array index: the
   * write lands on an ordinary property and the elements stay as they were.
   */
  function Patch(pixels: seq<Option<byte>>, i: nat, c: byte): seq<Option<byte>> {
    if i >= MAX_INDEX then pixels
    else if i < |pixels| then pixels[i := Some(c)]
    else pixels + seq(i - |pixels|, _ => None) + [Some(c)]
  }

  /**
   * A patch sets cell i and no other: cells that were there keep their
   * value, cells it adds before i are holes, and the length grows only to
   * reach i.
   */
  lemma PatchChangesOneCell(pixels: seq<Option<byte>>, i: nat, c: byte)
    requires i < MAX_INDEX
    ensures var r := Patch(pixels, i, c);
      && |r| == (if i < |pixels| then |pixels| else i + 1)
      && r[i] == Some(c)
      && (forall j :: 0 <= j < |pixels| && j != i ==> r[j] == pixels[j])
      && (forall j :: |pixels| <= j < |r| && j != i ==> r[j] == None)
  {
  }

  /** The cell patched last wins; patches of different cells commute. */
  lemma PatchTwice(pixels: seq<Option<byte>>, i: nat, c: byte, d: byte)
    ensures Patch(Patch(pixels, i, c), i, d) == Patch(pixels, i, d)
  {
    if i < MAX_INDEX && |pixels| <= i {
      var p := Patch(pixels, i, c);
      assert p[i := Some(d)] == pixels + seq(i - |pixels|, _ => None) + [Some(d)];
    }
  }

  /** The integer square root, as Math.sqrt gives it on a perfect square. */
  function ISqrt(n: nat): (r: nat)
    ensures r * r <= n < (r + 1) * (r + 1)
  {
    if n == 0 then 0
    else
      var r := ISqrt(n - 1);
      if (r + 1) * (r + 1) <= n then
        assert n == (r + 1) * (r + 1);
        r + 1
      else r
  }

  predicate IsSquare(n: nat) {
    ISqrt(n) * ISqrt(n) == n
  }

  /** The pixels fill stores: Array.from of the inflated bytes. */
  function Cells(data: seq<byte>): (cells: seq<Option<byte>>)
    ensures |cells| == |data|
    ensures forall i :: 0 <= i < |data| ==> cells[i] == Some(data[i])
  {
    seq(|data|, i requires 0 <= i < |data| => Some(data[i]))
  }

  /** The data side of Canvas (static/main.js:144-163, 255-270): its size, pixels and colours. */
  class Canvas {
    var size: nat
    var pixels: seq<Option<byte>>
    var colorList: Option<seq<ColorEntry>>

    /** A canvas before any frame: size 0, no pixels, no colour list yet. */
    constructor()
      ensures size == 0 && pixels == [] && colorList == None
    {
      size := 0;
      pixels := [];
      colorList := None;
    }

    /**
     * The `then` of fill (static/main.js:256-260): the grid becomes the
     * inflated bytes, and its size their square root.
     */
    method Fill(data: seq<byte>)
      requires IsSquare(|data|)
      modifies this
      ensures size * size == |data| && size == ISqrt(|data|) && pixels == Cells(data)
      ensures colorList == old(colorList)
    {
      size := ISqrt(|data|);
      pixels := Cells(data);
    }

    /** `canvas.pixels[i] = c` (static/main.js:376). */
    method SetPixel(i: nat, c: byte)
      modifies this
      ensures pixels == Patch(old(pixels), i, c)
      ensures size == old(size) && colorList == old(colorList)
    {
      pixels := Patch(pixels, i, c);
    }

    /** `canvas.color_list = new ColorList(colors)` (static/main.js:391). */
    method SetColors(colors: seq<Rgbi>)
      modifies this
      ensures colorList == Some(seq(|colors|, i requires 0 <= i < |colors| => EntryOf(colors[i])))
      ensures size == old(size) && pixels == old(pixels)
    {
      var entries := MakeEntries(colors);
      assert entries == seq(|colors|, i requires 0 <= i < |colors| => EntryOf(colors[i]));
      colorList := Some(entries);
    }
  }

  // ---------------------------------------------------------------------------
  // The client: state, effects and the transitions of each handler.
  // ---------------------------------------------------------------------------

  /** A JSON request sent as text. */
  datatype Request =
    | InitialAuthRequest           // {"requestType": "initialAuth"}
    | AuthRequest(userId: Json)    // {"requestType": "auth", "userID": userId.toString()}

  /** What a handler asks of the world outside the state. */
  datatype Effect =
    | SendText(request: Request)
    | SendBinary(bytes: seq<byte>)
    | Close                        // this.ws.close()
    | Reconnect(delay: real)       // setTimeout(connect, delay)
    | Persist(userId: Option<Json>) // localStorage.setItem("userID", ...)

  /** The client's state record (static/main.js:313-325) and the canvas's data, with the effects so far. */
  datatype ClientState = ClientState(
    userId: Option<Json>,
    remainingTiles: Option<Json>,
    maxTiles: Option<Json>,
    userCount: Option<Json>,
    disconnected: bool,
    ban: Json,
    cleanup: Json,
    tileInfo: Json,
    size: nat,
    pixels: seq<Option<byte>>,
    colorList: Option<seq<ColorEntry>>,
    selection: int,
    outbox: seq<Effect>)

  /**
   * The state the constructor sets up, from the user id found in local
   * storage (None when there is none, which getItem reports as null) and
   * the colour index stored under selected_color.
   */
  function InitialState(stored: Option<string>, selection: int): ClientState {
    ClientState(
      if stored.Some? then Some(JStr(stored.value)) else Some(JNull),
      Some(JNum(0)), Some(JNum(0)), Some(JNum(0)), false,
      JBool(false), JBool(false), JBool(false),
      0, [], None, selection, [])
  }

  /**
   * Whether `new ColorList(colors)` gets through its call of select_color
   * (static/main.js:100, 117-123): the stored index must name one of the n
   * colour squares, or reading `classList` of the missing square throws.
   */
  predicate Selectable(selection: int, n: nat) {
    0 <= selection < n
  }

  /** r keeps every effect already in s's outbox, in order, and stays disconnected once s is. */
  predicate Extends(s: ClientState, r: ClientState) {
    s.outbox <= r.outbox && (s.disconnected ==> r.disconnected)
  }

  /** s with one more effect, when the frame could be packed; a pack that throws sends nothing. */
  function SendFrame(s: ClientState, frame: Result<seq<byte>>): (r: ClientState)
    ensures Extends(s, r) {
    if frame.Ok? then s.(outbox := s.outbox + [SendBinary(frame.value)]) else s
  }

  /**
   * on_open (static/main.js:329-335): auth with the stored id, initialAuth
   * when it is null; an undefined id makes `toString` throw.
   */
  function AfterOpen(s: ClientState): (r: ClientState)
    ensures Extends(s, r) {
    match s.userId
    case None => s
    case Some(JNull) => s.(outbox := s.outbox + [SendText(InitialAuthRequest)])
    case Some(id) => s.(outbox := s.outbox + [SendText(AuthRequest(id))])
  }

  /** on_close (static/main.js:336-343), with Math.random() given as random. */
  function AfterClose(s: ClientState, random: real): (r: ClientState)
    ensures Extends(s, r)
    requires 0.0 <= random < 1.0
  {
    if s.disconnected then s else s.(outbox := s.outbox + [Reconnect(2000.0 * random)])
  }

  /**
   * The inflated canvas a RES_CANVAS frame carries is a square grid; None
   * stands for a stream that fails to inflate.
   */
  predicate SquareCanvas(frame: seq<byte>, inflate: seq<byte> -> Option<seq<byte>>) {
    frame != [] && frame[0] == RES_CANVAS && inflate(frame[1..]).Some? ==> IsSquare(|inflate(frame[1..]).value|)
  }

  /** on_binary_message (static/main.js:351-421). Opcodes other than 1, 3, 4, 6 and 8 only log. */
  function AfterBinary(s: ClientState, frame: seq<byte>, inflate: seq<byte> -> Option<seq<byte>>): (r: ClientState)
    ensures Extends(s, r)
    requires SquareCanvas(frame, inflate)
  {
    if frame == [] then s
    else if frame[0] == RES_CANVAS then AfterCanvas(s, inflate(frame[1..]))
    else if frame[0] == RES_TILE_UPDATE then AfterTileUpdate(s, frame)
    else if frame[0] == RES_COLOR_LIST then AfterColorList(s, frame)
    else if frame[0] == RES_TILE_INCREMENT then AfterTileIncrement(s, frame)
    else if frame[0] == RES_USER_COUNT then AfterUserCount(s, frame)
    else s
  }

  /** RES_CANVAS (static/main.js:356-360), given what the inflated stream resolves to. */
  function AfterCanvas(s: ClientState, data: Option<seq<byte>>): (r: ClientState)
    ensures Extends(s, r)
    requires data.Some? ==> IsSquare(|data.value|)
  {
    match data
    case None => s
    case Some(d) => s.(size := ISqrt(|d|), pixels := Cells(d))
  }

  /** RES_TILE_UPDATE (static/main.js:366-379). */
  function AfterTileUpdate(s: ClientState, frame: seq<byte>): (r: ClientState)
    ensures Extends(s, r) {
    match TileUpdateOf(frame)
    case None => s
    case Some(u) => s.(pixels := Patch(s.pixels, u.index, u.color))
  }

  /**
   * RES_COLOR_LIST (static/main.js:380-393). When the ColorList constructor
   * throws, neither the assignment nor the send that follow it happen.
   */
  function AfterColorList(s: ClientState, frame: seq<byte>): (r: ClientState)
    ensures Extends(s, r)
    requires frame != []
  {
    match ColorsOf(frame)
    case None => s
    case Some(colors) =>
      if !Selectable(s.selection, |colors|) then s
      else
        var s' := s.(colorList := Some(seq(|colors|, i requires 0 <= i < |colors| => EntryOf(colors[i]))));
        SendFrame(s', UserIdFrame(GET_CANVAS, s.userId))
  }

  /** RES_TILE_INCREMENT (static/main.js:398-404). */
  function AfterTileIncrement(s: ClientState, frame: seq<byte>): (r: ClientState)
    ensures Extends(s, r) {
    match TileIncrementOf(frame)
    case None => s
    case Some(c) => s.(remainingTiles := Some(JNum(c)))
  }

  /** RES_USER_COUNT (static/main.js:408-414). */
  function AfterUserCount(s: ClientState, frame: seq<byte>): (r: ClientState)
    ensures Extends(s, r) {
    match UserCountOf(frame)
    case None => s
    case Some(c) => s.(userCount := Some(JNum(c)))
  }

  /**
   * on_text_message (static/main.js:424-521) on the result of JSON.parse:
   * None when the parse throws. `data.rt` on null throws too. Tags other
   * than the ones below only log.
   */
  function AfterText(s: ClientState, parsed: Option<Json>): (r: ClientState)
    ensures Extends(s, r)
  {
    if parsed.None? || parsed.value.JNull? then s
    else
      var data := parsed.value;
      match TagOf(Prop(data, "rt"))
      case AuthSuccessful => AfterAuth(s, data)
      case UserCount => s.(userCount := Prop(data, "count"))
      case LevelUp => s.(maxTiles := Prop(data, "maxTiles"), remainingTiles := Prop(data, "remaining_tiles"))
      case ErrorTag => AfterError(s, data)
      case ReAuthSuccessful => AfterReAuth(s, data)
      case Kicked => s.(disconnected := true, outbox := s.outbox + [Close])
      case OtherTag => s
  }

  /** The `rt` tags the client acts on; every other value only logs. */
  datatype Tag = AuthSuccessful | UserCount | LevelUp | ErrorTag | ReAuthSuccessful | Kicked | OtherTag

  /** `switch (data.rt)`: strict equality with each case's string. */
  function TagOf(rt: Option<Json>): Tag {
    if rt == Some(JStr("authSuccessful")) then AuthSuccessful
    else if rt == Some(JStr("userCount")) then UserCount
    else if rt == Some(JStr("levelUp")) then LevelUp
    else if rt == Some(JStr("error")) then ErrorTag
    else if rt == Some(JStr("reAuthSuccessful")) then ReAuthSuccessful
    else if rt == Some(JStr("kicked")) then Kicked
    else OtherTag
  }

  /** "authSuccessful" (static/main.js:450-459). */
  function AfterAuth(s: ClientState, data: Json): (r: ClientState)
    ensures Extends(s, r) {
    var s' := s.(userId := Prop(data, "uuid"),
                 outbox := s.outbox + [Persist(Prop(data, "uuid"))],
                 maxTiles := Prop(data, "maxTiles"),
                 remainingTiles := Prop(data, "remainingTiles"));
    SendFrame(s', UserIdFrame(GET_COLORS, s'.userId))
  }

  /** "error" (static/main.js:480-487). */
  function AfterError(s: ClientState, data: Json): (r: ClientState)
    ensures Extends(s, r) {
    if Prop(data, "msg") == Some(JStr("Invalid userID"))
    then s.(outbox := s.outbox + [SendText(InitialAuthRequest)])
    else s
  }

  /** "reAuthSuccessful" (static/main.js:489-501): the send comes first, so a pack that throws changes nothing. */
  function AfterReAuth(s: ClientState, data: Json): (r: ClientState)
    ensures Extends(s, r) {
    var frame := UserIdFrame(GET_COLORS, s.userId);
    if frame.Err? then s
    else s.(outbox := s.outbox + [SendBinary(frame.value)],
            maxTiles := Prop(data, "maxTiles"),
            remainingTiles := Prop(data, "remainingTiles"),
            ban := OrFalse(Prop(data, "showBanBtn")),
            cleanup := OrFalse(Prop(data, "showCleanupBtn")),
            tileInfo := OrFalse(Prop(data, "tileInfoAvailable")))
  }

  /** send_tile(x, y, c) (static/main.js:523-525). */
  function AfterSendTile(s: ClientState, x: int, y: int, c: int): (r: ClientState)
    ensures Extends(s, r) {
    SendFrame(s, TileFrame(s.userId, x, y, c))
  }

  /** The send of a user-id frame: the 38 bytes when the id is a string, nothing when the pack throws. */
  function UserIdSend(op: byte, userId: Option<Json>): seq<Effect> {
    if userId.Some? && userId.value.JStr? then [SendBinary([op] + UserIdBytes(userId.value.s))] else []
  }

  lemma SendUserIdFrame(t: ClientState, op: byte, userId: Option<Json>)
    ensures SendFrame(t, UserIdFrame(op, userId)) == t.(outbox := t.outbox + UserIdSend(op, userId))
  {
    if userId.Some? && userId.value.JStr? {
      UserIdFrameBytes(op, userId.value.s);
    } else {
      UserIdFrameRefused(op, userId);
    }
  }

  // Properties of the handlers.

  /** s2 is s1 with effects appended and nothing else changed. */
  predicate OnlySends(s1: ClientState, s2: ClientState, effects: seq<Effect>) {
    s2 == s1.(outbox := s1.outbox + effects)
  }

  /**
   * on_open sends auth with the stored id exactly when that id is defined
   * and not null, initialAuth exactly when it is null, and nothing when it
   * is undefined.
   */
  lemma OpenChoosesAuth(s: ClientState)
    ensures s.userId == Some(JNull) ==> OnlySends(s, AfterOpen(s), [SendText(InitialAuthRequest)])
    ensures s.userId.Some? && s.userId != Some(JNull) ==> OnlySends(s, AfterOpen(s), [SendText(AuthRequest(s.userId.value))])
    ensures s.userId.None? <==> AfterOpen(s) == s
  {
    if s.userId.Some? {
      assert |AfterOpen(s).outbox| == |s.outbox| + 1;
    }
  }

  /**
   * on_close schedules one reconnect, after less than two seconds, exactly
   * when the client was not kicked; otherwise it does nothing.
   */
  lemma CloseReconnectsUnlessKicked(s: ClientState, random: real)
    requires 0.0 <= random < 1.0
    ensures !s.disconnected <==> exists d :: 0.0 <= d < 2000.0 && OnlySends(s, AfterClose(s, random), [Reconnect(d)])
    ensures s.disconnected <==> AfterClose(s, random) == s
  {
    if !s.disconnected {
      assert OnlySends(s, AfterClose(s, random), [Reconnect(2000.0 * random)]);
      assert |AfterClose(s, random).outbox| == |s.outbox| + 1;
    }
  }

  /** A text message tagged rt. */
  predicate Tagged(data: Json, rt: string) {
    Prop(data, "rt") == Some(JStr(rt))
  }

  /** After "kicked" the client closes the socket, and the close that follows schedules no reconnect. */
  lemma KickedStaysDown(s: ClientState, data: Json, random: real)
    requires Tagged(data, "kicked") && 0.0 <= random < 1.0
    ensures var k := AfterText(s, Some(data));
      k.disconnected && k.outbox == s.outbox + [Close] && AfterClose(k, random) == k
  {
  }

  /** An empty frame, or an opcode the client does not act on, changes nothing. */
  lemma UnknownOpcodeIgnored(s: ClientState, frame: seq<byte>, inflate: seq<byte> -> Option<seq<byte>>)
    requires frame == [] || frame[0] !in {RES_CANVAS, RES_TILE_UPDATE, RES_COLOR_LIST, RES_TILE_INCREMENT, RES_USER_COUNT}
    ensures AfterBinary(s, frame, inflate) == s
  {
  }

  /**
   * A tile update sets cell i (bytes 4-7, big-endian) to the colour in
   * byte 1 and changes no other cell and nothing else; a frame shorter
   * than 8 bytes changes nothing.
   */
  lemma TileUpdatePatchesOneCell(s: ClientState, frame: seq<byte>, inflate: seq<byte> -> Option<seq<byte>>)
    requires frame != [] && frame[0] == RES_TILE_UPDATE
    ensures |frame| < 8 ==> AfterBinary(s, frame, inflate) == s
    ensures |frame| >= 8 ==>
      var i, r := FromBigEndian(frame[4..8]), AfterBinary(s, frame, inflate);
      && r == s.(pixels := r.pixels)
      && (i < MAX_INDEX ==> r.pixels[i] == Some(frame[1]))
      && (forall j :: 0 <= j < |s.pixels| && j != i ==> r.pixels[j] == s.pixels[j])
      && (forall j :: |s.pixels| <= j < |r.pixels| && j != i ==> r.pixels[j] == None)
  {
    if |frame| >= 8 {
      var i := FromBigEndian(frame[4..8]);
      if i < MAX_INDEX {
        PatchChangesOneCell(s.pixels, i, frame[1]);
      }
    }
  }

  /**
   * The counters are assigned, not accumulated: a tile-increment frame sets
   * remaining_tiles to its byte 1, whatever it was before; a frame shorter
   * than 2 bytes changes nothing.
   */
  lemma TileIncrementAssigned(s: ClientState, frame: seq<byte>, inflate: seq<byte> -> Option<seq<byte>>)
    requires frame != [] && frame[0] == RES_TILE_INCREMENT
    ensures |frame| >= 2 ==> AfterBinary(s, frame, inflate) == s.(remainingTiles := Some(JNum(frame[1])))
    ensures |frame| < 2 ==> AfterBinary(s, frame, inflate) == s
  {
    assert AfterBinary(s, frame, inflate) == AfterTileIncrement(s, frame);
  }

  /** A user-count frame sets user_count to its big-endian bytes 2-3; a frame shorter than 4 bytes changes nothing. */
  lemma UserCountAssigned(s: ClientState, frame: seq<byte>, inflate: seq<byte> -> Option<seq<byte>>)
    requires frame != [] && frame[0] == RES_USER_COUNT
    ensures |frame| >= 4 ==> AfterBinary(s, frame, inflate) == s.(userCount := Some(JNum(frame[2] as int * 256 + frame[3])))
    ensures |frame| < 4 ==> AfterBinary(s, frame, inflate) == s
  {
    assert AfterBinary(s, frame, inflate) == AfterUserCount(s, frame);
  }

  /**
   * A colour-list frame of 1 + 4n bytes, with the stored selection naming
   * one of the n colours, installs them, colour i from block i, and asks
   * for the canvas with the user id when that id is a string. Any other
   * length, and a selection outside the list (always so for n = 0), change
   * nothing.
   */
  lemma ColorListInstalled(s: ClientState, frame: seq<byte>, inflate: seq<byte> -> Option<seq<byte>>)
    requires frame != [] && frame[0] == RES_COLOR_LIST
    ensures (|frame| - 1) % 4 != 0 ==> AfterBinary(s, frame, inflate) == s
    ensures (|frame| - 1) % 4 == 0 && !Selectable(s.selection, (|frame| - 1) / 4) ==> AfterBinary(s, frame, inflate) == s
    ensures |frame| == 1 ==> AfterBinary(s, frame, inflate) == s
    ensures (|frame| - 1) % 4 == 0 && Selectable(s.selection, (|frame| - 1) / 4) ==>
      var r, n := AfterBinary(s, frame, inflate), (|frame| - 1) / 4;
      && r.colorList.Some? && |r.colorList.value| == n
      && (forall i :: 0 <= i < n ==>
            r.colorList.value[i] == ColorEntry(frame[4 * i + 4], RgbToHex(frame[4 * i + 1], frame[4 * i + 2], frame[4 * i + 3])))
      && r.(colorList := s.colorList, outbox := s.outbox) == s
      && r.outbox == s.outbox + UserIdSend(GET_CANVAS, s.userId)
  {
    assert AfterBinary(s, frame, inflate) == AfterColorList(s, frame);
    if (|frame| - 1) % 4 == 0 && Selectable(s.selection, (|frame| - 1) / 4) {
      var colors := ColorsOf(frame).value;
      SendUserIdFrame(s.(colorList := Some(seq(|colors|, i requires 0 <= i < |colors| => EntryOf(colors[i])))),
                      GET_CANVAS, s.userId);
    }
  }

  /** A canvas frame replaces the pixels with the inflated bytes and sets the side of the square. */
  lemma CanvasReplaced(s: ClientState, frame: seq<byte>, inflate: seq<byte> -> Option<seq<byte>>)
    requires frame != [] && frame[0] == RES_CANVAS && SquareCanvas(frame, inflate)
    ensures inflate(frame[1..]).None? ==> AfterBinary(s, frame, inflate) == s
    ensures inflate(frame[1..]).Some? ==>
      var data, r := inflate(frame[1..]).value, AfterBinary(s, frame, inflate);
      && r.size * r.size == |data| && |r.pixels| == |data|
      && (forall i :: 0 <= i < |data| ==> r.pixels[i] == Some(data[i]))
      && r.(size := s.size, pixels := s.pixels) == s
  {
  }

  /**
   * authSuccessful adopts the uuid, stores it, and asks for the colours
   * with it; with a string uuid that request is the 38-byte frame 5 + id.
   */
  lemma AuthAdoptsUuid(s: ClientState, data: Json, u: string)
    requires Tagged(data, "authSuccessful") && Prop(data, "uuid") == Some(JStr(u))
    ensures var r := AfterText(s, Some(data));
      && r.userId == Some(JStr(u))
      && r.maxTiles == Prop(data, "maxTiles") && r.remainingTiles == Prop(data, "remainingTiles")
      && r.outbox == s.outbox + [Persist(Some(JStr(u))), SendBinary([GET_COLORS] + UserIdBytes(u))]
  {
    assert AfterText(s, Some(data)) == AfterAuth(s, data);
    UserIdFrameBytes(GET_COLORS, u);
  }

  /**
   * reAuthSuccessful first sends the colour request; when the stored id is
   * not a string that pack throws and nothing changes. Otherwise each
   * permission takes the truthiness of its flag, false when absent.
   */
  lemma ReAuthNeedsStringId(s: ClientState, data: Json)
    requires Tagged(data, "reAuthSuccessful")
    ensures !(s.userId.Some? && s.userId.value.JStr?) ==> AfterText(s, Some(data)) == s
    ensures s.userId.Some? && s.userId.value.JStr? ==>
      var r := AfterText(s, Some(data));
      && r.outbox == s.outbox + [SendBinary([GET_COLORS] + UserIdBytes(s.userId.value.s))]
      && r.userId == s.userId
      && Truthy(Some(r.ban)) == Truthy(Prop(data, "showBanBtn"))
      && Truthy(Some(r.cleanup)) == Truthy(Prop(data, "showCleanupBtn"))
      && Truthy(Some(r.tileInfo)) == Truthy(Prop(data, "tileInfoAvailable"))
  {
    assert AfterText(s, Some(data)) == AfterReAuth(s, data);
    if s.userId.Some? && s.userId.value.JStr? {
      UserIdFrameBytes(GET_COLORS, s.userId.value.s);
    } else {
      UserIdFrameRefused(GET_COLORS, s.userId);
    }
  }

  /** An "Invalid userID" error asks for a new identity and keeps the old id in the state. */
  lemma InvalidUserIdRestartsAuth(s: ClientState, data: Json)
    requires Tagged(data, "error") && Prop(data, "msg") == Some(JStr("Invalid userID"))
    ensures OnlySends(s, AfterText(s, Some(data)), [SendText(InitialAuthRequest)])
    ensures AfterText(s, Some(data)).userId == s.userId
  {
  }

  /** A message that does not parse, or parses to null, changes nothing. */
  lemma UnparsableIgnored(s: ClientState)
    ensures AfterText(s, None) == s && AfterText(s, Some(JNull)) == s
  {
  }

  /**
   * send_tile sends the 44-byte post when the id is a string, and nothing
   * when it is not (the pack throws).
   */
  lemma SendTileFrame(s: ClientState, x: int, y: int, c: int)
    ensures s.userId.Some? && s.userId.value.JStr? ==>
      OnlySends(s, AfterSendTile(s, x, y, c),
                [SendBinary([POST_TILE] + UserIdBytes(s.userId.value.s) + BigEndian(x, 2) + BigEndian(y, 2) + BigEndian(c, 2))])
    ensures !(s.userId.Some? && s.userId.value.JStr?) ==> AfterSendTile(s, x, y, c) == s
  {
    if s.userId.Some? && s.userId.value.JStr? {
      TileFrameBytes(s.userId.value.s, x, y, c);
    } else {
      TileFrameRefused(s.userId, x, y, c);
    }
  }

  /** The client (static/main.js:295-526), its state record as fields and its canvas. */
  class PixelClient {
    var userId: Option<Json>
    var remainingTiles: Option<Json>
    var maxTiles: Option<Json>
    var userCount: Option<Json>
    var disconnected: bool
    var ban: Json
    var cleanup: Json
    var tileInfo: Json
    var outbox: seq<Effect>
    const canvas: Canvas
    /** The colour index local storage holds under selected_color; the click handlers that change it are not modelled. */
    const selection: int

    /** The client's state and its canvas's data, as one record. */
    function State(): ClientState
      reads this, canvas
    {
      ClientState(userId, remainingTiles, maxTiles, userCount, disconnected, ban, cleanup, tileInfo,
                  canvas.size, canvas.pixels, canvas.colorList, selection, outbox)
    }

    /** The constructor (static/main.js:313-327), given what local storage holds. */
    constructor(stored: Option<string>, storedSelection: int)
      ensures State() == InitialState(stored, storedSelection)
      ensures fresh(canvas)
    {
      selection := storedSelection;
      userId := if stored.Some? then Some(JStr(stored.value)) else Some(JNull);
      remainingTiles := Some(JNum(0));
      maxTiles := Some(JNum(0));
      userCount := Some(JNum(0));
      disconnected := false;
      ban, cleanup, tileInfo := JBool(false), JBool(false), JBool(false);
      outbox := [];
      canvas := new Canvas();
    }

    /** Appends a send of the packed frame, unless the pack threw. */
    method Send(frame: Result<seq<byte>>)
      modifies this
      ensures State() == SendFrame(old(State()), frame)
    {
      if frame.Ok? {
        outbox := outbox + [SendBinary(frame.value)];
      }
    }

    method OnOpen()
      modifies this
      ensures State() == AfterOpen(old(State()))
    {
      if userId == Some(JNull) {
        outbox := outbox + [SendText(InitialAuthRequest)];
      } else if userId.Some? {
        outbox := outbox + [SendText(AuthRequest(userId.value))];
      }
    }

    method OnClose(random: real)
      requires 0.0 <= random < 1.0
      modifies this
      ensures State() == AfterClose(old(State()), random)
    {
      if !disconnected {
        outbox := outbox + [Reconnect(2000.0 * random)];
      }
    }

    method OnBinaryMessage(frame: seq<byte>, inflate: seq<byte> -> Option<seq<byte>>)
      requires SquareCanvas(frame, inflate)
      modifies this, canvas
      ensures State() == AfterBinary(old(State()), frame, inflate)
    {
      if frame == [] {
        return;
      }
      var op := frame[0];
      if op == RES_CANVAS {
        var data := inflate(frame[1..]);
        if data.Some? {
          canvas.Fill(data.value);
        }
      } else if op == RES_TILE_UPDATE {
        var u := TileUpdateOf(frame);
        if u.Some? {
          canvas.SetPixel(u.value.index, u.value.color);
        }
      } else if op == RES_COLOR_LIST {
        var colors := DecodeColors(frame);
        if colors.Some? && Selectable(selection, |colors.value|) {
          canvas.SetColors(colors.value);
          Send(UserIdFrame(GET_CANVAS, userId));
        }
      } else if op == RES_TILE_INCREMENT {
        var c := TileIncrementOf(frame);
        if c.Some? {
          remainingTiles := Some(JNum(c.value));
        }
      } else if op == RES_USER_COUNT {
        var c := UserCountOf(frame);
        if c.Some? {
          userCount := Some(JNum(c.value));
        }
      }
    }

    method OnTextMessage(parsed: Option<Json>)
      modifies this
      ensures State() == AfterText(old(State()), parsed)
    {
      if parsed.None? || parsed.value.JNull? {
        return;
      }
      var data := parsed.value;
      match TagOf(Prop(data, "rt")) {
        case AuthSuccessful =>
          OnAuthSuccessful(data);
        case UserCount =>
          userCount := Prop(data, "count");
        case LevelUp =>
          maxTiles := Prop(data, "maxTiles");
          remainingTiles := Prop(data, "remaining_tiles");
        case ErrorTag =>
          if Prop(data, "msg") == Some(JStr("Invalid userID")) {
            outbox := outbox + [SendText(InitialAuthRequest)];
          }
        case ReAuthSuccessful =>
          OnReAuthSuccessful(data);
        case Kicked =>
          disconnected := true;
          outbox := outbox + [Close];
        case OtherTag =>
      }
    }

    /** The "authSuccessful" case of on_text_message. */
    method OnAuthSuccessful(data: Json)
      modifies this
      ensures State() == AfterAuth(old(State()), data)
    {
      userId := Prop(data, "uuid");
      outbox := outbox + [Persist(Prop(data, "uuid"))];
      maxTiles := Prop(data, "maxTiles");
      remainingTiles := Prop(data, "remainingTiles");
      Send(UserIdFrame(GET_COLORS, userId));
    }

    /** The "reAuthSuccessful" case of on_text_message. */
    method OnReAuthSuccessful(data: Json)
      modifies this
      ensures State() == AfterReAuth(old(State()), data)
    {
      ghost var s := State();
      var frame := UserIdFrame(GET_COLORS, userId);
      if frame.Ok? {
        outbox := outbox + [SendBinary(frame.value)];
        maxTiles := Prop(data, "maxTiles");
        remainingTiles := Prop(data, "remainingTiles");
        ban := OrFalse(Prop(data, "showBanBtn"));
        cleanup := OrFalse(Prop(data, "showCleanupBtn"));
        tileInfo := OrFalse(Prop(data, "tileInfoAvailable"));
      }
      assert State() == AfterReAuth(s, data);
    }

    method SendTile(x: int, y: int, c: int)
      modifies this
      ensures State() == AfterSendTile(old(State()), x, y, c)
    {
      Send(TileFrame(userId, x, y, c));
    }
  }
}
