# nmc2 pixel canvas — a Dafny model

nmc2 is a shared pixel canvas. A C server keeps a square grid of colour ids
and a list of connected users, and answers JSON commands sent over a
WebSocket. A browser client talks to it with JSON text messages and with
binary frames. It builds and reads those frames with a vendored copy of
structjs, a small codec in the style of Python's `struct` module.

This project models three parts of that system. The client and the server
are modelled separately, not as peers: the server answers in JSON with a
`responseType` member, while the client reads an `rt` member and binary
opcodes.

- **The struct codec** (`static/main.js:1-59`), in three modules:
  - `Format` covers the format grammar, a tokenizer proved sound and
    complete against it, and the layout a format compiles to. The layout
    is given as a pure function `LayoutOf`. `Compile` is the mutating
    loop that builds it, and its result is proved equal to `LayoutOf`.
  - `Codec` holds what each field's setter writes and each getter reads.
    It has `UnpackFrom`/`Unpack`, `PackInto` (a method writing a byte
    `array` in place), `Pack` and `IterUnpack`. It proves the error
    conditions, the zero fill, that no byte outside the region is written,
    and the round trip `Unpack(Pack(v))`.
  - `Bytes` holds the byte-level arithmetic of a DataView: big- and
    little-endian encodings and ECMAScript's ToUintN/ToIntN.
- **The client** (`Client`):
  - the colour list's `rgb_to_hex` and `get_color`;
  - the data side of `Canvas` (its size, its pixel list and its colour
    list), as a class;
  - `PixelClient` as a class whose handlers update its fields. Each handler
    is proved equal to a transition function on a `ClientState` record, and
    the protocol's promises are proved as lemmas about those transitions.
  - Frames the client sends, reconnects it schedules, sockets it closes and
    ids it stores are appended to an `outbox` of effects.
- **The server** (`Server`):
  - the fixed colour table;
  - the user record authentication appends;
  - a class holding `g_canvas`, whose `tiles` array tile posts write in
    place;
  - the handlers and the `handle_command` dispatch.
- **JSON values** (`JsonValues`): JSON values after parsing, with objects
  kept as member lists. Two lookups are defined on them:
  - JavaScript's property read after `JSON.parse`, where the last
    duplicate wins;
  - cJSON's `cJSON_GetObjectItem`, where the first case-insensitive match
    wins. Keys are compared as C strings, so each ends at its first NUL.

Modelling choices:
- Numbers are unbounded integers.
- Widths and wrap-around are written out explicitly:
  - DataView's ToUint8/ToUint16/ToUint32 and ToInt8/16/32;
  - cJSON's saturating `valueint`;
  - `size_t` conversion modulo 2^64;
  - `uint32_t` arithmetic on `edge_length - 1`.
- JavaScript strings are Dafny strings, whose characters are Unicode scalar
  values. For text in the Basic Multilingual Plane that is one character per
  UTF-16 code unit, as in JavaScript. A `Uint8Array` keeps the low byte of
  each code.
- Server-side strings are the text cJSON holds. A `\u0000` escape leaves a
  NUL in it, and the C code sees only the C string before that NUL: in key
  lookups, in the `strcmp` dispatch and in the uuid copy. Lengths are
  measured in UTF-8 bytes where the C code copies bytes.

Where the code and the written description of the system differ, the model
follows the code:
- The client's "Invalid userID" error handler resends `initialAuth` but
  does not clear the stored user id (static/main.js:480-483).
- A tile update for an index past the end of `pixels` extends the list,
  as a JavaScript array assignment does, rather than being refused.
- The code checks no socket ready state before sending. The model records
  each send attempt as an effect in the outbox; what `WebSocket.send` then
  does with it is not modelled (it throws while the socket is connecting
  and discards data once it is closing or closed).

## Model

| member | source | states |
|---|---|---|
| Bytes.Zeros | static/main.js:43 | the zero fill is exactly n bytes, all 0 |
| Bytes.Reverse | static/main.js:15-21 | little-endian order is big-endian order reversed, byte for byte |
| Bytes.BigEndianRoundTrip | static/main.js:15-19 | reading back the w big-endian bytes of n gives n modulo 256^w |
| Bytes.UnsignedRoundTrip | static/main.js:14-19 | an unsigned getter reads back ToUintN of what the setter was given, in either byte order |
| Bytes.SignedRoundTrip | static/main.js:13-18 | a signed getter reads back ToIntN of what the setter was given, in either byte order |
| Bytes.ToUintInRange | static/main.js:14-19 | ToUintN leaves a value already in 0..256^w-1 unchanged |
| Bytes.ToIntInRange | static/main.js:13-18 | ToIntN leaves a value already in the signed range unchanged |
| Format.DigitRun | static/main.js:2-3 | the count prefix is the longest run of leading digits |
| Format.TokenizeSound | static/main.js:2-3 | every token list the tokenizer returns is well formed (count starts 1-9, code in `xcbB?hHiIfdsp`) and spells the input back |
| Format.TokenizeComplete | static/main.js:2-3 | every well-formed token list is tokenized back to itself, so the tokenizer accepts exactly the strings the format regex accepts |
| Format.AcceptedIffSpelled | static/main.js:2-29 | a format is accepted iff, after an optional `<`/`>`, it is a spelling of well-formed tokens; every other format is refused |
| Format.LayoutOf | static/main.js:27-33 | an accepted format yields a well-laid layout (fields valid, in order, non-overlapping, inside size) that is little-endian iff the format starts with `<`; a refused one yields InvalidFormat |
| Format.Compile | static/main.js:27-33 | the mutating compile loop returns exactly LayoutOf(format) |
| Format.PushStep | static/main.js:32 | one token's inner loop appends its count repetitions at increasing offsets and advances size by count times width |
| Format.LayoutOfTokens | static/main.js:30-33 | the layout is the fields and size built from the tokens, little-endian iff the format starts with `<` |
| Format.CountPositive | static/main.js:30 | a well-formed token's count is at least 1, defaulting to 1 when absent |
| Format.StepFieldsPacked | static/main.js:32 | one token's fields lie back to back from the running size |
| Format.FieldsWellLaid | static/main.js:10-33 | the compiled fields are valid, ordered, disjoint and end within size |
| Format.SizeIsSumOfWidths | static/main.js:10-33 | size is the sum of the emitted fields' widths plus the `x` pad bytes |
| Format.TileUpdateLayout | static/main.js:368 | `'BBxxI'` has size 8 with fields at offsets 0, 1 and 4 |
| Format.CounterLayout | static/main.js:400 | `'BB'` has size 2 with two one-byte fields |
| Format.UserCountLayout | static/main.js:410 | `'BxH'` has size 4: a byte at 0 and a 16-bit field at 2 |
| Format.ColorLayout | static/main.js:386 | `'BBBB'` has size 4 with four one-byte fields |
| Format.UserIdLayout | static/main.js:392 | `'B37s'` has size 38: a byte and a 37-byte string at 1 |
| Format.PostTileLayout | static/main.js:524 | `'B37sHHH'` has size 44 with fields at 0, 1, 38, 40 and 42 |
| Codec.Codes | static/main.js:6-7 | a string's characters stored in a Uint8Array, one low byte each |
| Codec.Latin1 | static/main.js:4-5 | String.fromCharCode of bytes gives one character per byte, with that code |
| Codec.EncodeField | static/main.js:6-24 | a setter writes at most the field's width, exactly the width for numeric fields, and fails only on a value of the wrong type or a `c` string longer than one character |
| Codec.EncodeOkIffEchoOk | static/main.js:10-24 | a setter accepts a value iff the getter has a value to give back for it |
| Codec.FieldEcho | static/main.js:4-24 | for every field kind, the getter reads back from the setter's bytes (zero padded) exactly the reference Echo of the value |
| Codec.CharEcho | static/main.js:12 | `c` reads back the character's low byte, or NUL for the empty string |
| Codec.FixedEcho | static/main.js:22 | `s` reads back the string cut to the count and padded with NULs to the count |
| Codec.PascalEcho | static/main.js:8-23 | `p` reads back the string cut to count-1 characters, through its length byte |
| Codec.BoolEcho | static/main.js:13 | `?` reads back true iff the stored byte is nonzero |
| Codec.ScalarEcho | static/main.js:13-21 | the numeric getters read back what their setters wrote |
| Codec.IntegerEcho | static/main.js:13-19 | integer codes read back ToUintN / ToIntN of the value written |
| Codec.FloatEcho | static/main.js:20-21 | `f`/`d` read back the bit pattern written, at the field's width |
| Codec.EchoFits | static/main.js:12-23 | a value that fits its field (integer in range, string short enough) reads back unchanged |
| Codec.UnpackFrom | static/main.js:34-38 | a successful unpack_from returns exactly one value per emitted field |
| Codec.UnpackFromReadsWindow | static/main.js:34-38 | unpack_from fails iff the buffer is shorter than offs+size, and otherwise decodes the size bytes at offs |
| Codec.WriteFields | static/main.js:44 | running the setters keeps the region's length |
| Codec.WriteFieldsFailure | static/main.js:44 | the setters fail iff some field's setter refuses its value, with the first refusing field's error |
| Codec.WriteFieldsUntouched | static/main.js:43-44 | a byte that no field covers keeps its value |
| Codec.WriteFieldsStops | static/main.js:44 | once a setter throws, the later setters do not run |
| Codec.WriteFieldsWindows | static/main.js:43-44 | when all setters succeed, each field's bytes hold its setter's output over the zero fill |
| Codec.PackResult | static/main.js:46-50 | a successful pack returns exactly size bytes |
| Codec.PackPadding | static/main.js:43-44 | pad bytes and bytes past a short string stay 0 after pack |
| Codec.PackedWindow | static/main.js:43-44 | each field's window of a packed buffer is its setter's bytes, zero padded |
| Codec.PackAccepts | static/main.js:39-45 | pack succeeds when every field's setter accepts its value |
| Codec.PackRefusedAt | static/main.js:44 | pack fails with the first refusing field's error |
| Codec.PackFailure | static/main.js:39-50 | fewer values than fields gives "Not enough values"; otherwise pack succeeds iff every setter accepts, and fails with the first refusal's error |
| Codec.PackThenUnpack | static/main.js:39-51 | unpack of a packed buffer succeeds and gives back Echo of every value written |
| Codec.RoundTrip | static/main.js:46-51 | for values that fit their fields, unpack(pack(values)) returns the values, extra values ignored |
| Codec.WriteBytes | static/main.js:6-7 | writing bytes into the array changes exactly those positions |
| Codec.PackInto | static/main.js:39-45 | "Not enough values" first, then the buffer error, changing nothing; otherwise the size bytes at offs become the zero-filled, written region and no byte outside it changes |
| Codec.WriteInside | static/main.js:44 | one setter writes inside the region and nowhere else |
| Codec.RunSetters | static/main.js:43-44 | the setter loop leaves the region equal to the field-by-field write of the values, stopping at the first refusal |
| Codec.Pack | static/main.js:46-50 | pack returns the packed region of a fresh zero buffer of size bytes, or the error |
| Codec.IterUnpack | static/main.js:52-56 | yields the tuples decoded at offsets 0, size, 2·size, …; all floor(length/size) of them, a trailing partial chunk ignored, for buffers below 2^31 bytes |
| JsonValues.LastValueIsLast | static/main.js:426-427 | a property read after JSON.parse finds the last member with that key |
| JsonValues.LastValueAbsent | static/main.js:426-427 | a property read is undefined iff no member has that key |
| JsonValues.NulFrom | src/main.c:166 | a C string read from index i stops at the first NUL at or after i, or at the end |
| JsonValues.CText | src/main.c:166 | the C string of a value is its longest prefix without NUL, ending where the first NUL is |
| JsonValues.CTextWithoutNul | src/main.c:166 | a value with no NUL is its own C string |
| JsonValues.MatchFromRefl | src/main.c:257-265 | from any index the case-insensitive walk matches a string with itself |
| JsonValues.SameIgnoringCaseRefl | src/main.c:257-265 | every key matches itself |
| JsonValues.MatchFromStops | src/main.c:257-265 | the walk from index i succeeds iff both strings stop (NUL or end) at the same index, agreeing up to ASCII case before it |
| JsonValues.SameIgnoringCaseIsCText | src/main.c:257-265 | two keys match iff their C strings have equal length and agree up to ASCII case, so text after a NUL is never compared |
| JsonValues.FirstValueIsFirst | src/main.c:257-265 | cJSON_GetObjectItem finds the first member whose key's C string matches ignoring case |
| JsonValues.FirstValueAt | src/main.c:257-265 | a member with no earlier key whose C string matches its own is the one found |
| JsonValues.FirstValueMissing | src/main.c:257-265 | with no key whose C string matches, the lookup finds nothing |
| JsonValues.DistinctKeysFound | src/main.c:257-265 | when no two keys match as C strings, each member is found by its own key |
| JsonValues.OrFalse | static/main.js:494-496 | a value defaulted to false is truthy exactly when the value is |
| Client.RgbToHexChannels | static/main.js:130-132 | rgb_to_hex is `#` and two lower-case hex digits per channel |
| Client.RgbToHexRoundTrip | static/main.js:130-132 | rgb_to_hex gives 7 characters from which the three channels are read back |
| Client.GetColorIsFirst | static/main.js:133-135 | get_color returns c iff the first entry with that id has colour c |
| Client.MakeEntries | static/main.js:102-104 | the colour list holds one {id, hex colour} entry per received colour, in order |
| Client.ReceivedColor | static/main.js:102-135 | get_color of a received id gives that colour's hex string |
| Client.UnpackWhole | static/main.js:51 | unpack succeeds iff the buffer holds size bytes |
| Client.DecodedByte | static/main.js:15 | a `B` field reads its byte |
| Client.DecodedShort | static/main.js:17 | a big-endian `H` field reads high byte·256 + low byte |
| Client.DecodedWord | static/main.js:19 | a big-endian `I` field reads its four bytes as a big-endian number |
| Client.TileUpdateOf | static/main.js:366-376 | a tile update frame of at least 8 bytes gives colour byte 1 and the big-endian index in bytes 4-7 |
| Client.TileUpdateUnpack | static/main.js:368-369 | unpacking `'BBxxI'` gives colour frame[1] and index bytes 4-7, and fails on a short frame |
| Client.TileIncrementOf | static/main.js:398-402 | the tile count is byte 1 of a frame of at least 2 bytes |
| Client.UserCountOf | static/main.js:408-412 | the user count is bytes 2-3, big-endian, of a frame of at least 4 bytes |
| Client.UserCountUnpack | static/main.js:410-411 | unpacking `'BxH'` gives the 16-bit count at offset 2, and fails on a short frame |
| Client.ColorOf | static/main.js:386-388 | a 4-byte block decodes to R, G, B and ID; a short block fails |
| Client.ColorUnpack | static/main.js:386-388 | unpacking `'BBBB'` gives the four bytes in order |
| Client.BlockAt | static/main.js:385-388 | block i is bytes 4i+1..4i+4 of the frame |
| Client.DecodeColors | static/main.js:382-390 | the colour loop returns exactly ColorsOf(frame): one colour per 4-byte block after byte 0, or nothing when the last block is short |
| Client.UserIdFrameBytes | static/main.js:458 | `'B37s'` with a string id is the opcode and the id's 37 bytes |
| Client.UserIdFrameRefused | static/main.js:458 | `'B37s'` with an id that is not a string throws and sends nothing |
| Client.TileFrameAccepted | static/main.js:524 | `'B37sHHH'` accepts any string id and integer x, y, c |
| Client.TileFrameWindows | static/main.js:524 | the 44-byte post frame has the opcode, the id bytes, and x, y, c big-endian in 16 bits |
| Client.TileFrameBytes | static/main.js:524 | the tile post frame is opcode 4 ++ 37 id bytes ++ x, y, c as 16-bit big-endian |
| Client.TileFrameRefused | static/main.js:524 | a tile post with a non-string id throws and sends nothing |
| Client.TileFrameDecodes | static/main.js:524 | unpacking the post frame gives back the opcode, the id NUL-padded to 37, and x, y, c modulo 2^16 |
| Client.PatchChangesOneCell | static/main.js:376 | `pixels[i] = c` sets cell i to c and changes no other cell; cells it adds before i are holes |
| Client.PatchTwice | static/main.js:376 | a second write to the same cell overrides the first |
| Client.ISqrt | static/main.js:256 | the canvas size is the integer square root of the data length |
| Client.Cells | static/main.js:259 | the pixel list is the inflated bytes, one cell each |
| Client.Canvas.constructor | static/main.js:162-164 | a new canvas has size 0, no pixels and no colour list |
| Client.Canvas.Fill | static/main.js:254-259 | fill replaces the pixels wholesale, with size² equal to the data length, and keeps the colour list |
| Client.Canvas.SetPixel | static/main.js:376 | one cell is patched; size and colour list are kept |
| Client.Canvas.SetColors | static/main.js:391 | the colour list becomes the received colours' entries; pixels and size are kept |
| Client.SendFrame | static/main.js:392 | sending keeps every earlier effect and the disconnected flag |
| Client.AfterOpen | static/main.js:329-335 | on_open keeps every earlier effect and the disconnected flag |
| Client.AfterClose | static/main.js:336-343 | on_close keeps every earlier effect and the disconnected flag |
| Client.AfterBinary | static/main.js:352-422 | no binary message drops an effect or clears disconnected |
| Client.AfterCanvas | static/main.js:358-362 | a canvas frame keeps every earlier effect |
| Client.AfterTileUpdate | static/main.js:366-379 | a tile update keeps every earlier effect |
| Client.AfterColorList | static/main.js:380-394 | a colour list keeps every earlier effect (what it installs and sends, and that it changes nothing when the ColorList constructor throws, is stated by Client.ColorListInstalled) |
| Client.AfterTileIncrement | static/main.js:398-404 | a tile increment keeps every earlier effect |
| Client.AfterUserCount | static/main.js:408-414 | a user count keeps every earlier effect |
| Client.AfterText | static/main.js:424-521 | no text message drops an effect or clears disconnected |
| Client.AfterAuth | static/main.js:450-459 | authSuccessful keeps every earlier effect |
| Client.AfterError | static/main.js:480-487 | an error message keeps every earlier effect |
| Client.AfterReAuth | static/main.js:489-503 | reAuthSuccessful keeps every earlier effect |
| Client.AfterSendTile | static/main.js:523-525 | send_tile keeps every earlier effect |
| Client.OpenChoosesAuth | static/main.js:329-335 | on_open sends initialAuth when the stored id is null, auth with the id otherwise, and does nothing (throws) when it is undefined |
| Client.CloseReconnectsUnlessKicked | static/main.js:336-343 | on_close schedules exactly one reconnect, with a delay in [0, 2000), iff the client was not disconnected; otherwise nothing changes |
| Client.KickedStaysDown | static/main.js:507-509 | kicked sets disconnected and closes the socket, and the following close schedules no reconnect |
| Client.UnknownOpcodeIgnored | static/main.js:352-422 | an empty frame or an opcode other than 1, 3, 4, 6, 8 changes no state |
| Client.TileUpdatePatchesOneCell | static/main.js:366-379 | opcode 3 sets pixels[i] to c from `'BBxxI'` and changes no other cell or field; a short frame changes nothing |
| Client.TileIncrementAssigned | static/main.js:398-404 | opcode 6 assigns (does not add) remaining tiles from byte 1 and changes nothing else |
| Client.UserCountAssigned | static/main.js:408-414 | opcode 8 assigns (does not add) the user count from bytes 2-3 and changes nothing else |
| Client.ColorListInstalled | static/main.js:380-394 | opcode 4 installs one {ID, hex} entry per 4-byte block and sends `'B37s'` GET_CANVAS with the user id, when the stored selection names one of the colours; a partial last block, an empty list (the 1-byte frame) or a selection outside the list changes nothing |
| Client.CanvasReplaced | static/main.js:358-362 | opcode 1 replaces the pixels by the inflated bytes, size² = length, and changes nothing else |
| Client.AuthAdoptsUuid | static/main.js:450-459 | authSuccessful adopts the uuid, stores it, copies max/remaining tiles and sends `'B37s'` GET_COLORS with it |
| Client.ReAuthNeedsStringId | static/main.js:489-503 | reAuthSuccessful sends GET_COLORS with the stored id and sets the three admin flags truthy iff the message's are; with no string id the pack throws and nothing changes |
| Client.InvalidUserIdRestartsAuth | static/main.js:480-487 | the "Invalid userID" error sends only initialAuth and keeps the user id |
| Client.UnparsableIgnored | static/main.js:424-427 | a message that fails to parse, or parses to null, changes nothing |
| Client.SendTileFrame | static/main.js:523-525 | send_tile sends exactly the 44-byte post frame when the id is a string, and nothing otherwise |
| Client.PixelClient.constructor | static/main.js:311-328 | the new client's state is the initial record built from the stored id and the stored colour selection |
| Client.PixelClient.Send | static/main.js:392 | a send appends the frame when the pack succeeded |
| Client.PixelClient.OnOpen | static/main.js:329-335 | the handler's new state is AfterOpen of the old |
| Client.PixelClient.OnClose | static/main.js:336-343 | the handler's new state is AfterClose of the old |
| Client.PixelClient.OnBinaryMessage | static/main.js:352-422 | the handler, writing the canvas's cells in place, leaves the state AfterBinary of the old |
| Client.PixelClient.OnTextMessage | static/main.js:424-521 | the handler's new state is AfterText of the old |
| Client.PixelClient.OnAuthSuccessful | static/main.js:450-459 | the handler's new state is AfterAuth of the old |
| Client.PixelClient.OnReAuthSuccessful | static/main.js:489-503 | the handler's new state is AfterReAuth of the old |
| Client.PixelClient.SendTile | static/main.js:523-525 | the handler's new state is AfterSendTile of the old |
| Server.ColorIdsArePermutation | src/main.c:20-40 | the table has 17 entries whose ids are distinct and are exactly 0..16 |
| Server.NewUser | src/main.c:120-133 | a new user is authenticated, not banned, with 60 remaining tiles, 250 max, regen 10, level 1, 100 to next level, progress 0 and 0 placed |
| Server.InitialAuthResponseReportsUser | src/main.c:139-149 | the initialAuth answer is tagged authSuccessful and reports the uuid and the five counters |
| Server.AuthResponseReportsUser | src/main.c:171-181 | the auth answer is tagged reAuthSuccessful, reports the five counters and has no uuid |
| Server.ColorJsonReportsColor | src/main.c:231-238 | a colour's JSON object reports R, G, B and ID |
| Server.ValueInt | src/main.c:216-217 | cJSON's valueint lies in the 32-bit int range and equals the number when it is in range |
| Server.CheckPostTile | src/main.c:206-222 | an accepted post has x and y inside the canvas and a colour id below 17 |
| Server.ChecksInOrder | src/main.c:206-222 | a post is accepted iff all eight checks pass; the values accepted are the converted X, Y and colour id; a rejection carries the message of the first failing check, all earlier checks passing |
| Server.AcceptedPostOnCanvas | src/main.c:220-224 | an accepted post's cell x + y·edge is on the canvas and its colour id is in the table |
| Server.RequestKinds | src/main.c:255-282 | no command, no string requestType, each of the five request strings compared as the C string of the requestType, and any other string each select their own branch and no other |
| Server.NulEndsRequestType | src/main.c:258-281 | a requestType of "auth\u0000x" is an auth request, and a member keyed "requestType\u0000x" is found as the requestType |
| Server.Server.constructor | src/main.c:317-321 | the canvas starts at edge 512 with all 512·512 tiles set to 3, no users and no broadcasts |
| Server.Server.HandleInitialAuth | src/main.c:120-150 | appends exactly one new user and answers authSuccessful for it |
| Server.Utf8Length | src/main.c:166 | a string's UTF-8 length lies between its length and four times it |
| Server.AsciiLength | src/main.c:166 | an ASCII string's UTF-8 length is its length |
| Server.AsciiIdKept | src/main.c:152-182 | an ASCII id of at most 36 characters and no NUL meets handle_auth's bound and is stored whole |
| Server.Server.HandleAuth | src/main.c:152-182 | appends exactly one new user whose uuid is the given id's C string, and answers reAuthSuccessful for it |
| Server.Server.GetCanvas | src/main.c:184-194 | the answer is the fullCanvas header followed by edge² tile values in index order |
| Server.Server.GetColors | src/main.c:243-253 | the answer is the colorList header followed by the 17 colours in table order |
| Server.Server.PostTile | src/main.c:206-229 | a rejected post answers the first failing check's error and writes nothing; an accepted one writes its colour to cell x + y·edge only, broadcasts the update and answers nothing; every cell stays a table colour |
| Server.Server.HandleCommand | src/main.c:255-282 | the three error answers change nothing; each request type, told apart by the C string of the requestType and looked up by C-string keys, reaches its handler with that handler's contract, an `auth` request storing the C string of its id |
| Server.ColorListCoversIds | src/main.c:243-253 | the colour list answer names each id 0..16 exactly once |

## Left out

- Floating point: `f` and `d` keep their widths, 4 and 8, but a value is given by its IEEE-754 bit pattern. Number-to-float conversion and NaN handling are not modelled.
- ToNumber of strings, arrays and objects handed to a numeric setter is not modelled. Such a value is refused with WrongValueType, where JavaScript would coerce it. Non-integer numbers are not modelled either.
- Codec.IterUnpack: requires a size above 0. For size 0 the generator never ends, and the model has no infinite sequences.
- Codec.IterUnpack: promises all floor(length/size) tuples only for buffers below 2^31 bytes. Above that, `offs|0` turns negative in unpack_from, and the model reports the failing offset instead.
- Server.Server.HandleAuth: requires the userID member to be a string whose text before its first NUL takes at most 36 UTF-8 bytes. The code reads `valuestring` without checking and copies 37 bytes from it into the uuid; a longer id leaves the uuid without a terminator. For a shorter id `memcpy` also reads past the end of the string; those bytes come after the terminator and are not modelled.
- Server.Server.HandleCommand: passes on the same precondition for `auth` commands.
- Codec.Codes: characters above U+FFFF, which `split('')` turns into two UTF-16 code units, count as one character here, and lone surrogates cannot be written at all; only Basic Multilingual Plane text is modelled as the code does it.
- Codec.EncodeField: for the same reason, a `c` value made of one character above U+FFFF is accepted here where the code throws, and the `s`/`p` cuts and the `p` length byte count characters, not code units, for text outside the Basic Multilingual Plane.
- Client.AfterCanvas: requires the inflated canvas to be a perfect square. The code accepts any length and stores the fractional `Math.sqrt` as the size; the model has no fractional size.
- Client.AfterCanvas: applies the fill when the canvas frame arrives. The code sets the pixels only when the asynchronous `decompress` resolves, so a tile update handled in between patches the old pixels and is then overwritten; the model keeps it.
- Client.AfterColorList: the stored colour selection is an integer input, fixed for the client's life. A stored value that names no colour square (not a decimal index, or out of range) is given as a negative number. The click handlers that change it, the active colour `select_color` picks and its write back to local storage are not modelled.
- Client.Canvas.Fill: requires the data length to be a perfect square. The code takes a floating-point square root without checking.
- Client.PixelClient.OnBinaryMessage: requires the same of the inflated canvas frame.
- Client.AfterBinary: requires the same of a canvas frame (SquareCanvas), since it hands that frame to Client.AfterCanvas.
- Client.CanvasReplaced: requires the same, so it says nothing about a canvas of non-square length.
- Codec.PackInto: on a `p` field given an array, the code writes the array's length mod 256 at the field's first byte and then throws, because arrays have `slice` but not `split`. The model folds arrays into one "object" value that every string setter refuses before writing, so its contract gives that byte as 0, from the zero fill. Only `pack_into` can expose this, because `pack` discards its buffer after a throw.
- `decompress` (the browser's DEFLATE stream, asynchronous) is the `inflate` parameter. A stream that fails to inflate is None.
- The reconnect delay's `Math.random()` is the `random` input in [0, 1). `setTimeout` and WebSocket construction are the Reconnect effect. Sending, closing and `localStorage.setItem` are the SendText/SendBinary, Close and Persist effects.
- The DOM and `localStorage` parts of ColorList: the colour squares, `select_color` and the selected colour.
- `draw_pixel`, the mouse, wheel and zoom handlers, and `on_click`: these are float geometry and drawing.
- `on_message`'s choice between binary and text is left out. Binary frames and text messages are handled by separate handlers.
- JSON text messages are modelled after parsing: `JSON.parse` is not modelled, and a text that fails to parse is None. `toString` of the stored user id is kept abstract in the auth request.
- Several server operations are not modelled:
  - cJSON parsing and printing;
  - `strtoumax` and `errno`, which become the `parse` parameter;
  - UUID generation, which becomes the `uuid` parameter;
  - the socket, which becomes the opaque `connection`;
  - the mongoose event handler `fn`;
  - logging.
- `broadcast` and `send_json` I/O: a broadcast payload is appended to the server's `broadcasts` list.
- The freeing of cJSON objects is not modelled.
- Server.Server.Valid: keeps edge_length below 2^16, so edge_length² does not overflow a `uint32_t` or `size_t` index.
- src/fileio.c and src/logging.c: file I/O and logging, not part of this model.
- The Python scripts under tests/ and tools/: network load and admin tools, not part of this model.
