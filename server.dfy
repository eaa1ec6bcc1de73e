/**
 * The canvas server (src/main.c): the fixed colour table, the user records
 * that authentication appends, the tile array that tile posts write in
 * place, and the JSON command dispatch. JSON values are the parsed values
 * of module JsonValues; cJSON's parsing and printing are not modelled, and
 * a command that fails to parse is None.
 */
module Server {
  import opened Wrappers
  import opened Bytes
  import opened JsonValues

  // ---------------------------------------------------------------------------
  // The colour table (src/main.c:14-40).
  // ---------------------------------------------------------------------------

  /** struct color: three 8-bit channels and a 16-bit id. */
  datatype Color = Color(red: byte, green: byte, blue: byte, id: nat)

  /** g_color_list, in table order. */
  const ColorTable: seq<Color> := [
    Color(255, 255, 255, 3), Color(221, 221, 221, 10), Color(117, 117, 117, 11), Color(0, 0, 0, 4),
    Color(219, 0, 5, 0), Color(252, 145, 199, 8), Color(142, 87, 51, 12), Color(189, 161, 113, 16),
    Color(255, 153, 51, 7), Color(255, 255, 0, 9), Color(133, 222, 53, 1), Color(24, 181, 4, 6),
    Color(0, 0, 255, 2), Color(13, 109, 187, 13), Color(26, 203, 213, 5), Color(195, 80, 222, 14),
    Color(110, 0, 108, 15)]

  /** COLOR_AMOUNT: the number of entries in the table. */
  const COLOR_AMOUNT: nat := 17

  /** For each id k, the position in the table that holds it. */
  const IdPositions: seq<nat> := [4, 10, 12, 0, 3, 14, 11, 8, 5, 9, 1, 2, 6, 13, 15, 16, 7]

  /** Some entry of the table has this id. */
  predicate IsTableId(id: nat) {
    exists i :: 0 <= i < |ColorTable| && ColorTable[i].id == id
  }

  /** Entries k.. of the table hold ids below COLOR_AMOUNT, each recorded at its entry's position. */
  predicate InverseFrom(k: nat)
    decreases |ColorTable| - k
  {
    k >= |ColorTable| ||
    (ColorTable[k].id < |IdPositions| && IdPositions[ColorTable[k].id] == k && InverseFrom(k + 1))
  }

  /** Ids k.. below COLOR_AMOUNT are held by the entry IdPositions names. */
  predicate PositionsFrom(k: nat)
    decreases COLOR_AMOUNT - k
  {
    k >= COLOR_AMOUNT ||
    (IdPositions[k] < |ColorTable| && ColorTable[IdPositions[k]].id == k && PositionsFrom(k + 1))
  }

  lemma {:induction false} InverseHolds(k: nat)
    requires InverseFrom(k)
    ensures forall i :: k <= i < |ColorTable| ==> ColorTable[i].id < |IdPositions| && IdPositions[ColorTable[i].id] == i
    decreases |ColorTable| - k
  {
    if k < |ColorTable| {
      InverseHolds(k + 1);
    }
  }

  lemma {:induction false} PositionsHold(k: nat)
    requires PositionsFrom(k)
    ensures forall id :: k <= id < COLOR_AMOUNT ==> IdPositions[id] < |ColorTable| && ColorTable[IdPositions[id]].id == id
    decreases COLOR_AMOUNT - k
  {
    if k < COLOR_AMOUNT {
      PositionsHold(k + 1);
    }
  }

  /**
   * The ids of the table are a permutation of 0 .. COLOR_AMOUNT - 1: no id
   * repeats, and an id is in the table exactly when it lies below
   * COLOR_AMOUNT. So the range check of a tile post accepts exactly the
   * table's ids.
   */
  lemma ColorIdsArePermutation()
    ensures |ColorTable| == COLOR_AMOUNT
    ensures forall i, j :: 0 <= i < j < |ColorTable| ==> ColorTable[i].id != ColorTable[j].id
    ensures forall id: nat :: IsTableId(id) <==> id < COLOR_AMOUNT
  {
    assert InverseFrom(17) && InverseFrom(16) && InverseFrom(15) && InverseFrom(14) && InverseFrom(13)
        && InverseFrom(12) && InverseFrom(11) && InverseFrom(10) && InverseFrom(9) && InverseFrom(8)
        && InverseFrom(7) && InverseFrom(6) && InverseFrom(5) && InverseFrom(4) && InverseFrom(3)
        && InverseFrom(2) && InverseFrom(1) && InverseFrom(0);
    assert PositionsFrom(17) && PositionsFrom(16) && PositionsFrom(15) && PositionsFrom(14) && PositionsFrom(13)
        && PositionsFrom(12) && PositionsFrom(11) && PositionsFrom(10) && PositionsFrom(9) && PositionsFrom(8)
        && PositionsFrom(7) && PositionsFrom(6) && PositionsFrom(5) && PositionsFrom(4) && PositionsFrom(3)
        && PositionsFrom(2) && PositionsFrom(1) && PositionsFrom(0);
    InverseHolds(0);
    PositionsHold(0);
    forall id: nat | id < COLOR_AMOUNT ensures IsTableId(id) {
      assert ColorTable[IdPositions[id]].id == id;
    }
  }

  // ---------------------------------------------------------------------------
  // Users (src/main.c:42-57).
  // ---------------------------------------------------------------------------

  /** A WebSocket connection, by identity. */
  type Socket = nat

  /** struct user. */
  datatype User = User(
    userName: string,
    uuid: string,
    socket: Socket,
    isAuthenticated: bool,
    isShadowBanned: bool,
    remainingTiles: nat,
    maxTiles: nat,
    tileRegenSeconds: nat,
    totalTilesPlaced: nat,
    tilesToNextLevel: nat,
    currentLevelProgress: nat,
    level: nat,
    lastConnectedUnix: nat)

  /** The record both authentication handlers build (src/main.c:121-133, 153-165). */
  function NewUser(uuid: string, socket: Socket): (u: User)
    ensures u.uuid == uuid && u.socket == socket && u.isAuthenticated && !u.isShadowBanned
    ensures u.remainingTiles == 60 && u.maxTiles == 250 && u.tileRegenSeconds == 10 && u.level == 1
    ensures u.tilesToNextLevel == 100 && u.currentLevelProgress == 0 && u.totalTilesPlaced == 0
  {
    User("Anonymous", uuid, socket, true, false, 60, 250, 10, 0, 100, 0, 1, 0)
  }

  // ---------------------------------------------------------------------------
  // Responses.
  // ---------------------------------------------------------------------------

  /** base_response(type): an object holding only the response type. */
  function Header(responseType: string): Json {
    JObj([Member("responseType", JStr(responseType))])
  }

  /** error_response(message) (src/main.c:113-118). */
  function ErrorResponse(message: string): Json {
    JObj([Member("responseType", JStr("error")), Member("errorMessage", JStr(message))])
  }

  /** The single-object array answering initialAuth (src/main.c:139-149). */
  function InitialAuthResponse(u: User): Json {
    JArr([JObj([Member("responseType", JStr("authSuccessful")),
                Member("uuid", JStr(u.uuid)),
                Member("remainingTiles", JNum(u.remainingTiles)),
                Member("level", JNum(u.level)),
                Member("maxTiles", JNum(u.maxTiles)),
                Member("tilesToNextLevel", JNum(u.tilesToNextLevel)),
                Member("levelProgress", JNum(u.currentLevelProgress))])])
  }

  /** The single-object array answering auth (src/main.c:172-181); it carries no uuid. */
  function AuthResponse(u: User): Json {
    JArr([JObj([Member("responseType", JStr("reAuthSuccessful")),
                Member("remainingTiles", JNum(u.remainingTiles)),
                Member("level", JNum(u.level)),
                Member("maxTiles", JNum(u.maxTiles)),
                Member("tilesToNextLevel", JNum(u.tilesToNextLevel)),
                Member("levelProgress", JNum(u.currentLevelProgress))])])
  }

  /** new_tile_update(x, y, color_id) (src/main.c:196-204). */
  function TileUpdate(x: nat, y: nat, colorId: nat): Json {
    JArr([JObj([Member("responseType", JStr("tileUpdate")),
                Member("X", JNum(x)), Member("Y", JNum(y)), Member("colorID", JNum(colorId))])])
  }

  /** color_to_json(color) (src/main.c:231-238). */
  function ColorJson(c: Color): Json {
    JObj([Member("R", JNum(c.red)), Member("G", JNum(c.green)), Member("B", JNum(c.blue)), Member("ID", JNum(c.id))])
  }

  /** The keys of the initialAuth response, in order; reAuth's are the same without "uuid". */
  const AUTH_KEYS: seq<string> := ["responseType", "uuid", "remainingTiles", "level", "maxTiles", "tilesToNextLevel", "levelProgress"]

  /** No two response keys match, so a lookup of each finds its own member. */
  lemma AuthKeysApart()
    ensures forall i, j :: 0 <= j < i < |AUTH_KEYS| ==> !SameIgnoringCase(AUTH_KEYS[j], AUTH_KEYS[i])
  {
    assert !SameIgnoringCase("responseType", "remainingTiles");
    assert !SameIgnoringCase("level", "levelProgress");
  }

  /**
   * The initialAuth response reports the user's record: a lookup of each
   * key finds the record's value, the uuid included.
   */
  lemma InitialAuthResponseReportsUser(u: User)
    ensures var r := InitialAuthResponse(u).items[0];
      && CItem(r, "responseType") == Some(JStr("authSuccessful"))
      && CItem(r, "uuid") == Some(JStr(u.uuid))
      && CItem(r, "remainingTiles") == Some(JNum(u.remainingTiles))
      && CItem(r, "level") == Some(JNum(u.level))
      && CItem(r, "maxTiles") == Some(JNum(u.maxTiles))
      && CItem(r, "tilesToNextLevel") == Some(JNum(u.tilesToNextLevel))
      && CItem(r, "levelProgress") == Some(JNum(u.currentLevelProgress))
  {
    var ms := InitialAuthResponse(u).items[0].members;
    AuthKeysApart();
    assert forall i :: 0 <= i < |ms| ==> ms[i].key == AUTH_KEYS[i];
    DistinctKeysFound(ms);
    assert ms[0].key == "responseType" && ms[1].key == "uuid" && ms[2].key == "remainingTiles" && ms[3].key == "level";
    assert ms[4].key == "maxTiles" && ms[5].key == "tilesToNextLevel" && ms[6].key == "levelProgress";
  }

  /** The auth response reports the same counters, and no uuid. */
  lemma AuthResponseReportsUser(u: User)
    ensures var r := AuthResponse(u).items[0];
      && CItem(r, "responseType") == Some(JStr("reAuthSuccessful"))
      && CItem(r, "uuid") == None
      && CItem(r, "remainingTiles") == Some(JNum(u.remainingTiles))
      && CItem(r, "level") == Some(JNum(u.level))
      && CItem(r, "maxTiles") == Some(JNum(u.maxTiles))
      && CItem(r, "tilesToNextLevel") == Some(JNum(u.tilesToNextLevel))
      && CItem(r, "levelProgress") == Some(JNum(u.currentLevelProgress))
  {
    var ms := AuthResponse(u).items[0].members;
    AuthKeysApart();
    assert forall i :: 0 <= i < |ms| ==> ms[i].key == (AUTH_KEYS[..1] + AUTH_KEYS[2..])[i];
    DistinctKeysFound(ms);
    assert ms[0].key == "responseType" && ms[1].key == "remainingTiles" && ms[2].key == "level";
    assert ms[3].key == "maxTiles" && ms[4].key == "tilesToNextLevel" && ms[5].key == "levelProgress";
    FirstValueMissing(ms, "uuid");
  }

  // ---------------------------------------------------------------------------
  // Validation of a tile post (src/main.c:206-222).
  // ---------------------------------------------------------------------------

  /** uintmax_t. */
  type uintmax = n: nat | n < 0x1_0000_0000_0000_0000

  /** What strtoumax and errno report for the colour id string: a uintmax_t, or ERANGE. */
  datatype Parsed = Converted(n: uintmax) | OutOfRange

  /** The four members a postTile command carries; None where the member is missing. */
  datatype PostTileParams = PostTileParams(userId: Option<Json>, x: Option<Json>, y: Option<Json>, colorId: Option<Json>)

  predicate IsString(v: Option<Json>) {
    v.Some? && v.value.JStr?
  }

  predicate IsNumber(v: Option<Json>) {
    v.Some? && v.value.JNum?
  }

  /** cJSON's valueint: the number saturated to the range of a 32-bit int. */
  function ValueInt(n: int): (v: int)
    ensures -0x8000_0000 <= v <= 0x7FFF_FFFF
    ensures -0x8000_0000 <= n <= 0x7FFF_FFFF ==> v == n
  {
    if n >= 0x7FFF_FFFF then 0x7FFF_FFFF else if n <= -0x8000_0000 then -0x8000_0000 else n
  }

  /** An int converted to size_t: modulo 2^64, so a negative coordinate becomes huge. */
  function ToSize(v: int): nat {
    v % 0x1_0000_0000_0000_0000
  }

  /** `edge_length - 1` in uint32_t arithmetic. */
  function LastIndex(edge: nat): nat {
    (edge - 1) % 0x1_0000_0000
  }

  /** The outcome of the checks: the first failure's message, or the values to write. */
  datatype PostCheck = Rejected(message: string) | Accepted(x: nat, y: nat, colorId: nat)

  /** The eight checks of handle_post_tile, in order (src/main.c:207-222). */
  function CheckPostTile(p: PostTileParams, edge: nat, parse: string -> Parsed): (r: PostCheck)
    ensures r.Accepted? && 0 < edge ==> r.x < edge && r.y < edge && r.colorId < COLOR_AMOUNT
  {
    if !IsString(p.userId) then Rejected("Invalid userID")
    else if !IsNumber(p.x) then Rejected("X coordinate not a number")
    else if !IsNumber(p.y) then Rejected("Y coordinate not a number")
    else if !IsString(p.colorId) then Rejected("colorID not a string")
    else if parse(p.colorId.value.s).OutOfRange? then Rejected("colorID not a valid number in a string")
    else
      var colorId := parse(p.colorId.value.s).n;
      var x := ToSize(ValueInt(p.x.value.n));
      var y := ToSize(ValueInt(p.y.value.n));
      if x > LastIndex(edge) then Rejected("Invalid X coordinate")
      else if y > LastIndex(edge) then Rejected("Invalid Y coordinate")
      else if colorId > COLOR_AMOUNT - 1 then Rejected("Invalid colorID")
      else Accepted(x, y, colorId)
  }

  /** The checks, named, as an independent table of conditions and messages. */
  datatype Check = UserIdCheck | XNumberCheck | YNumberCheck | ColorStringCheck
                 | ColorParseCheck | XRangeCheck | YRangeCheck | ColorRangeCheck

  const Order: seq<Check> := [UserIdCheck, XNumberCheck, YNumberCheck, ColorStringCheck,
                              ColorParseCheck, XRangeCheck, YRangeCheck, ColorRangeCheck]

  function Message(c: Check): string {
    match c
    case UserIdCheck => "Invalid userID"
    case XNumberCheck => "X coordinate not a number"
    case YNumberCheck => "Y coordinate not a number"
    case ColorStringCheck => "colorID not a string"
    case ColorParseCheck => "colorID not a valid number in a string"
    case XRangeCheck => "Invalid X coordinate"
    case YRangeCheck => "Invalid Y coordinate"
    case ColorRangeCheck => "Invalid colorID"
  }

  /**
   * Whether check c holds, stated on its own: a check about a value that is
   * not there to look at holds vacuously, since an earlier check fails.
   */
  predicate Passes(c: Check, p: PostTileParams, edge: nat, parse: string -> Parsed) {
    match c
    case UserIdCheck => IsString(p.userId)
    case XNumberCheck => IsNumber(p.x)
    case YNumberCheck => IsNumber(p.y)
    case ColorStringCheck => IsString(p.colorId)
    case ColorParseCheck => IsString(p.colorId) ==> parse(p.colorId.value.s).Converted?
    case XRangeCheck => IsNumber(p.x) ==> ToSize(ValueInt(p.x.value.n)) <= LastIndex(edge)
    case YRangeCheck => IsNumber(p.y) ==> ToSize(ValueInt(p.y.value.n)) <= LastIndex(edge)
    case ColorRangeCheck =>
      IsString(p.colorId) && parse(p.colorId.value.s).Converted? ==> parse(p.colorId.value.s).n <= COLOR_AMOUNT - 1
  }

  /**
   * A post is accepted exactly when every check passes, and then with the
   * converted coordinates and colour id; otherwise it is rejected with the
   * message of the first check, in source order, that fails.
   */
  lemma {:induction false} ChecksInOrder(p: PostTileParams, edge: nat, parse: string -> Parsed)
    ensures CheckPostTile(p, edge, parse).Accepted? <==> forall k :: 0 <= k < |Order| ==> Passes(Order[k], p, edge, parse)
    ensures CheckPostTile(p, edge, parse).Accepted? ==>
      CheckPostTile(p, edge, parse) == Accepted(ToSize(ValueInt(p.x.value.n)), ToSize(ValueInt(p.y.value.n)), parse(p.colorId.value.s).n)
    ensures CheckPostTile(p, edge, parse).Rejected? ==>
      exists k :: 0 <= k < |Order| && CheckPostTile(p, edge, parse).message == Message(Order[k])
                  && !Passes(Order[k], p, edge, parse)
                  && forall j :: 0 <= j < k ==> Passes(Order[j], p, edge, parse)
  {
    var r := CheckPostTile(p, edge, parse);
    var k := FirstFailure(p, edge, parse);
    if k < |Order| {
      assert !Passes(Order[k], p, edge, parse);
      assert r.Rejected? && r.message == Message(Order[k]);
    } else {
      assert r.Accepted?;
    }
  }

  /** The position in Order of the first check that fails; |Order| when none does. */
  function FirstFailure(p: PostTileParams, edge: nat, parse: string -> Parsed): (k: nat)
    ensures k <= |Order|
    ensures forall j :: 0 <= j < k ==> Passes(Order[j], p, edge, parse)
    ensures k < |Order| ==> !Passes(Order[k], p, edge, parse)
  {
    FirstFailureFrom(p, edge, parse, 0)
  }

  function FirstFailureFrom(p: PostTileParams, edge: nat, parse: string -> Parsed, from: nat): (k: nat)
    requires from <= |Order| && forall j :: 0 <= j < from ==> Passes(Order[j], p, edge, parse)
    ensures from <= k <= |Order|
    ensures forall j :: 0 <= j < k ==> Passes(Order[j], p, edge, parse)
    ensures k < |Order| ==> !Passes(Order[k], p, edge, parse)
    decreases |Order| - from
  {
    if from == |Order| || !Passes(Order[from], p, edge, parse) then from
    else FirstFailureFrom(p, edge, parse, from + 1)
  }

  /**
   * An accepted post names a cell of the canvas and a colour of the table;
   * its cell index lies inside the tile array.
   */
  lemma AcceptedPostOnCanvas(p: PostTileParams, edge: nat, parse: string -> Parsed)
    requires 0 < edge && CheckPostTile(p, edge, parse).Accepted?
    ensures var a := CheckPostTile(p, edge, parse);
      && a.x + a.y * edge < edge * edge
      && IsTableId(a.colorId)
  {
    var a := CheckPostTile(p, edge, parse);
    CellInside(a.x, a.y, edge);
    ColorIdsArePermutation();
  }

  lemma CellInside(x: nat, y: nat, edge: nat)
    requires x < edge && y < edge
    ensures x + y * edge < edge * edge
  {
    assert y * edge <= (edge - 1) * edge;
  }

  // ---------------------------------------------------------------------------
  // Dispatch (src/main.c:255-282).
  // ---------------------------------------------------------------------------

  /** Which branch handle_command takes. */
  datatype RequestKind = NoCommand | NoRequestType | InitialAuthRequest | AuthRequest
                       | GetCanvasRequest | PostTileRequest | GetColorsRequest | UnknownRequest

  /**
   * The requestType lookup and the str_eq chain. cJSON's lookup ignores the
   * case of keys, strcmp does not; both stop at the first NUL.
   */
  function RequestOf(command: Option<Json>): RequestKind {
    if command.None? then NoCommand
    else match CItem(command.value, "requestType")
      case Some(JStr(t)) => NamedRequest(CText(t))
      case _ => NoRequestType
  }

  /** The str_eq chain on the requestType's C string (src/main.c:269-281). */
  function NamedRequest(c: string): RequestKind {
    if c == "initialAuth" then InitialAuthRequest
    else if c == "auth" then AuthRequest
    else if c == "getCanvas" then GetCanvasRequest
    else if c == "postTile" then PostTileRequest
    else if c == "getColors" then GetColorsRequest
    else UnknownRequest
  }

  /** The members of a command that handle_post_tile receives. */
  function PostTileParamsOf(command: Json): PostTileParams {
    PostTileParams(CItem(command, "userID"), CItem(command, "X"), CItem(command, "Y"), CItem(command, "colorID"))
  }

  /** The number of bytes c takes in UTF-8, the encoding cJSON stores strings in. */
  function Utf8Width(c: char): nat {
    if c as int < 0x80 then 1 else if c as int < 0x800 then 2 else if c as int < 0x1_0000 then 3 else 4
  }

  /** The number of bytes the UTF-8 encoding of s takes. */
  function Utf8Length(s: string): (n: nat)
    ensures |s| <= n <= 4 * |s|
  {
    if s == [] then 0 else Utf8Width(s[0]) + Utf8Length(s[1..])
  }

  /** An ASCII string takes one byte per character. */
  lemma {:induction false} AsciiLength(s: string)
    requires forall k :: 0 <= k < |s| ==> s[k] as int < 0x80
    ensures Utf8Length(s) == |s|
  {
    if s != [] {
      AsciiLength(s[1..]);
    }
  }

  /**
   * handle_auth reads userID's string unchecked and copies 37 bytes of it
   * into the uuid field (src/main.c:166): the id must be a string whose
   * text before its terminator takes at most 36 bytes, so that the copy
   * holds the terminator.
   */
  predicate AuthableId(userId: Option<Json>) {
    IsString(userId) && Utf8Length(CText(userId.value.s)) <= 36
  }

  /** A uuid-like id, ASCII with no NUL and at most 36 characters, is accepted and kept whole. */
  lemma AsciiIdKept(s: string)
    requires |s| <= 36 && forall k :: 0 <= k < |s| ==> 0 < s[k] as int < 0x80
    ensures AuthableId(Some(JStr(s))) && CText(s) == s
  {
    CTextWithoutNul(s);
    AsciiLength(s);
  }

  /** The command has a string requestType whose C string is name. */
  predicate RequestTypeIs(command: Option<Json>, name: string) {
    command.Some? && IsString(CItem(command.value, "requestType"))
    && CText(CItem(command.value, "requestType").value.s) == name
  }

  /**
   * Each request type reaches its own handler and no other: the kinds are
   * told apart by the requestType's C string, and a command that parses to
   * something other than an object has no requestType.
   */
  lemma {:induction false} RequestKinds(command: Option<Json>)
    ensures RequestOf(command) == NoCommand <==> command.None?
    ensures command.Some? && !command.value.JObj? ==> RequestOf(command) == NoRequestType
    ensures RequestOf(command) == NoRequestType <==> command.Some? && !IsString(CItem(command.value, "requestType"))
    ensures RequestOf(command) == InitialAuthRequest <==> RequestTypeIs(command, "initialAuth")
    ensures RequestOf(command) == AuthRequest <==> RequestTypeIs(command, "auth")
    ensures RequestOf(command) == GetCanvasRequest <==> RequestTypeIs(command, "getCanvas")
    ensures RequestOf(command) == PostTileRequest <==> RequestTypeIs(command, "postTile")
    ensures RequestOf(command) == GetColorsRequest <==> RequestTypeIs(command, "getColors")
    ensures RequestOf(command) == UnknownRequest <==>
      command.Some? && IsString(CItem(command.value, "requestType"))
      && CText(CItem(command.value, "requestType").value.s) !in ["initialAuth", "auth", "getCanvas", "postTile", "getColors"]
  {
  }

  /**
   * A NUL spelled out as \u0000 ends a string for the C code: a requestType
   * of "auth\u0000x" is an auth request, and a member keyed
   * "requestType\u0000x" is the command's requestType.
   */
  lemma NulEndsRequestType()
    ensures RequestOf(Some(JObj([Member("requestType", JStr("auth\0x"))]))) == AuthRequest
    ensures CItem(JObj([Member("requestType\0x", JStr("auth"))]), "requestType") == Some(JStr("auth"))
  {
    assert CText("auth\0x") == "auth";
    assert SameIgnoringCase("requestType\0x", "requestType");
  }

  // ---------------------------------------------------------------------------
  // The server's state: g_canvas (src/main.c:66-72).
  // ---------------------------------------------------------------------------

  class Server {
    /** g_canvas.users: every user authentication has added, in order. */
    var users: seq<User>
    /** g_canvas.tiles: one colour id per cell, row after row. */
    const tiles: array<byte>
    /** g_canvas.edge_length. */
    const edgeLength: nat
    /** The payloads handed to broadcast, in order. */
    var broadcasts: seq<Json>

    /**
     * The canvas is a square of edge_length cells a side, small enough that
     * edge_length² fits a uint32_t, and every cell holds a colour id of the
     * table.
     */
    predicate Valid()
      reads this, tiles
    {
      && 0 < edgeLength < 0x1_0000
      && tiles.Length == edgeLength * edgeLength
      && forall i :: 0 <= i < tiles.Length ==> tiles[i] < COLOR_AMOUNT
    }

    /** The canvas set up in main (src/main.c:317-321): 512 by 512 cells, all of colour 3. */
    constructor()
      ensures Valid() && fresh(tiles)
      ensures edgeLength == 512 && tiles.Length == 512 * 512
      ensures forall i :: 0 <= i < tiles.Length ==> tiles[i] == 3
      ensures users == [] && broadcasts == []
    {
      var n := 512 * 512;
      var t := new byte[n];
      for i := 0 to n
        invariant forall j :: 0 <= j < i ==> t[j] == 3
      {
        t[i] := 3;
      }
      edgeLength := 512;
      tiles := t;
      users := [];
      broadcasts := [];
    }

    /** handle_initial_auth (src/main.c:120-150), with the generated uuid as a parameter. */
    method HandleInitialAuth(connection: Socket, uuid: string) returns (r: Json)
      modifies this
      ensures users == old(users) + [NewUser(uuid, connection)] && broadcasts == old(broadcasts)
      ensures r == InitialAuthResponse(NewUser(uuid, connection))
    {
      var user := NewUser(uuid, connection);
      users := users + [user];
      r := InitialAuthResponse(user);
    }

    /** handle_auth (src/main.c:152-182): the new record takes the given id's C string as its uuid. */
    method HandleAuth(userId: Option<Json>, connection: Socket) returns (r: Json)
      requires AuthableId(userId)
      modifies this
      ensures users == old(users) + [NewUser(CText(userId.value.s), connection)] && broadcasts == old(broadcasts)
      ensures r == AuthResponse(NewUser(CText(userId.value.s), connection))
    {
      var user := NewUser(CText(userId.value.s), connection);
      users := users + [user];
      r := AuthResponse(user);
    }

    /**
     * handle_get_canvas (src/main.c:184-194): the header, then the colour id
     * of every cell in index order.
     */
    method GetCanvas() returns (r: Json)
      requires Valid()
      ensures r.JArr? && |r.items| == edgeLength * edgeLength + 1
      ensures r.items[0] == Header("fullCanvas")
      ensures forall i :: 0 <= i < tiles.Length ==> r.items[i + 1] == JNum(tiles[i])
    {
      var items := [Header("fullCanvas")];
      var n := edgeLength * edgeLength;
      for i := 0 to n
        invariant |items| == i + 1 && items[0] == Header("fullCanvas")
        invariant forall j :: 0 <= j < i ==> items[j + 1] == JNum(tiles[j])
      {
        items := items + [JNum(tiles[i])];
      }
      r := JArr(items);
    }

    /**
     * handle_get_colors (src/main.c:243-253): the header, then one object
     * per table entry in table order.
     */
    method GetColors() returns (r: Json)
      ensures r.JArr? && |r.items| == COLOR_AMOUNT + 1
      ensures r.items[0] == Header("colorList")
      ensures forall i :: 0 <= i < COLOR_AMOUNT ==> r.items[i + 1] == ColorJson(ColorTable[i])
    {
      var items := [Header("colorList")];
      for i := 0 to COLOR_AMOUNT
        invariant |items| == i + 1 && items[0] == Header("colorList")
        invariant forall j :: 0 <= j < i ==> items[j + 1] == ColorJson(ColorTable[j])
      {
        items := items + [ColorJson(ColorTable[i])];
      }
      r := JArr(items);
    }

    /**
     * What a tile post leaves behind, given the outcome of its checks: a
     * rejection answers with the error and writes nothing; an acceptance
     * writes its colour id to its cell and to no other, broadcasts the
     * update, and answers nothing.
     */
    twostate predicate Posted(check: PostCheck, new r: Option<Json>)
      reads this, tiles
    {
      match check
      case Rejected(message) =>
        r == Some(ErrorResponse(message)) && broadcasts == old(broadcasts) && unchanged(tiles)
      case Accepted(x, y, colorId) =>
        && r.None?
        && broadcasts == old(broadcasts) + [TileUpdate(x, y, colorId)]
        && x + y * edgeLength < tiles.Length && tiles[x + y * edgeLength] == colorId
        && forall i :: 0 <= i < tiles.Length && i != x + y * edgeLength ==> tiles[i] == old(tiles[i])
    }

    /**
     * handle_post_tile (src/main.c:206-229), which keeps every cell a
     * colour of the table.
     */
    method PostTile(p: PostTileParams, parse: string -> Parsed) returns (r: Option<Json>)
      requires Valid()
      modifies this, tiles
      ensures Valid() && users == old(users)
      ensures Posted(CheckPostTile(p, edgeLength, parse), r)
    {
      var check := CheckPostTile(p, edgeLength, parse);
      match check
      case Rejected(message) =>
        r := Some(ErrorResponse(message));
      case Accepted(x, y, colorId) =>
        CellInside(x, y, edgeLength);
        tiles[x + y * edgeLength] := colorId;
        broadcasts := broadcasts + [TileUpdate(x, y, colorId)];
        r := None;
    }

    /**
     * handle_command (src/main.c:255-282) on the parsed command: the two
     * lookup errors, the five handlers, and "Unknown requestType".
     */
    method HandleCommand(command: Option<Json>, connection: Socket, uuid: string, parse: string -> Parsed)
      returns (r: Option<Json>)
      requires Valid()
      requires RequestOf(command) == AuthRequest ==> AuthableId(CItem(command.value, "userID"))
      modifies this, tiles
      ensures Valid()
      ensures match RequestOf(command)
        case NoCommand => r == Some(ErrorResponse("No command provided")) && unchanged(this, tiles)
        case NoRequestType => r == Some(ErrorResponse("No requestType provided")) && unchanged(this, tiles)
        case UnknownRequest => r == Some(ErrorResponse("Unknown requestType")) && unchanged(this, tiles)
        case InitialAuthRequest =>
          && r == Some(InitialAuthResponse(NewUser(uuid, connection)))
          && users == old(users) + [NewUser(uuid, connection)] && broadcasts == old(broadcasts) && unchanged(tiles)
        case AuthRequest =>
          var u := NewUser(CText(CItem(command.value, "userID").value.s), connection);
          r == Some(AuthResponse(u)) && users == old(users) + [u] && broadcasts == old(broadcasts) && unchanged(tiles)
        case GetCanvasRequest =>
          && r.Some? && r.value.JArr? && |r.value.items| == edgeLength * edgeLength + 1
          && (forall i :: 0 <= i < tiles.Length ==> r.value.items[i + 1] == JNum(tiles[i]))
          && unchanged(this, tiles)
        case GetColorsRequest =>
          && r.Some? && r.value.JArr? && |r.value.items| == COLOR_AMOUNT + 1
          && (forall i :: 0 <= i < COLOR_AMOUNT ==> r.value.items[i + 1] == ColorJson(ColorTable[i]))
          && unchanged(this, tiles)
        case PostTileRequest =>
          users == old(users) && Posted(CheckPostTile(PostTileParamsOf(command.value), edgeLength, parse), r)
    {
      match RequestOf(command)
      case NoCommand =>
        r := Some(ErrorResponse("No command provided"));
      case NoRequestType =>
        r := Some(ErrorResponse("No requestType provided"));
      case UnknownRequest =>
        r := Some(ErrorResponse("Unknown requestType"));
      case InitialAuthRequest =>
        var response := HandleInitialAuth(connection, uuid);
        r := Some(response);
      case AuthRequest =>
        var response := HandleAuth(CItem(command.value, "userID"), connection);
        r := Some(response);
      case GetCanvasRequest =>
        var response := GetCanvas();
        r := Some(response);
      case PostTileRequest =>
        r := PostTile(PostTileParamsOf(command.value), parse);
      case GetColorsRequest =>
        var response := GetColors();
        r := Some(response);
    }
  }

  /** A colour object reports the entry's channels and id under R, G, B and ID. */
  lemma ColorJsonReportsColor(c: Color)
    ensures CItem(ColorJson(c), "R") == Some(JNum(c.red)) && CItem(ColorJson(c), "G") == Some(JNum(c.green))
    ensures CItem(ColorJson(c), "B") == Some(JNum(c.blue)) && CItem(ColorJson(c), "ID") == Some(JNum(c.id))
  {
    var ms := ColorJson(c).members;
    assert !SameIgnoringCase("R", "G") by { assert Lower("R"[0]) != Lower("G"[0]); }
    assert !SameIgnoringCase("R", "B") by { assert Lower("R"[0]) != Lower("B"[0]); }
    assert !SameIgnoringCase("G", "B") by { assert Lower("G"[0]) != Lower("B"[0]); }
    FirstValueAt(ms, 0); FirstValueAt(ms, 1); FirstValueAt(ms, 2); FirstValueAt(ms, 3);
  }

  /** Some entry after the header of a colour list reports this id. */
  predicate ListsId(items: seq<Json>, id: nat) {
    exists i :: 1 <= i < |items| && CItem(items[i], "ID") == Some(JNum(id))
  }

  /**
   * The colour list a client receives names every id below COLOR_AMOUNT
   * exactly once: the ID members of the entries after the header are
   * pairwise distinct, and an id is listed exactly when it lies below
   * COLOR_AMOUNT.
   */
  lemma ColorListCoversIds(items: seq<Json>)
    requires |items| == COLOR_AMOUNT + 1
    requires forall i :: 0 <= i < COLOR_AMOUNT ==> items[i + 1] == ColorJson(ColorTable[i])
    ensures forall i, j :: 1 <= i < j < |items| ==> CItem(items[i], "ID") != CItem(items[j], "ID")
    ensures forall id: nat :: ListsId(items, id) <==> id < COLOR_AMOUNT
  {
    ColorIdsArePermutation();
    forall i | 1 <= i < |items|
      ensures CItem(items[i], "ID") == Some(JNum(ColorTable[i - 1].id))
    {
      ColorJsonReportsColor(ColorTable[i - 1]);
    }
    forall id: nat
      ensures ListsId(items, id) <==> id < COLOR_AMOUNT
    {
      if id < COLOR_AMOUNT {
        assert IsTableId(id);
        var k :| 0 <= k < |ColorTable| && ColorTable[k].id == id;
        assert CItem(items[k + 1], "ID") == Some(JNum(id));
      }
      if ListsId(items, id) {
        var i :| 1 <= i < |items| && CItem(items[i], "ID") == Some(JNum(id));
        assert ColorTable[i - 1].id == id;
      }
    }
  }
}
