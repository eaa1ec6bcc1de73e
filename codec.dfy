/**
 * The encoder and decoder of the struct codec (static/main.js:4-59): what each
 * field's getter and setter does to the bytes of a DataView, and the five
 * operations a compiled format offers, unpack_from, unpack, pack_into, pack
 * and iter_unpack.
 */
module Codec {
  import opened Wrappers
  import opened Bytes
  import opened Format

  /** A JavaScript value handed to pack or produced by unpack. */
  datatype Value =
    | VNum(n: int)         // a Number holding an integer
    | VBool(b: bool)
    | VStr(s: string)      // one char per UTF-16 code unit, true of Basic Multilingual Plane text
    | VFloat(bits: nat)    // a Number given by its IEEE-754 bit pattern at the field's width
    | VNull
    | VUndef               // undefined
    | VObject              // an array or an object

  /** What a Uint8Array stores for one character code: ToUint8 of the code. */
  function ByteOf(c: char): byte {
    (c as int) % 256
  }

  /** s.split('').map(c => c.charCodeAt(0)) stored in a Uint8Array. */
  function Codes(s: string): (bs: seq<byte>)
    ensures |bs| == |s|
    ensures forall i :: 0 <= i < |s| ==> bs[i] == ByteOf(s[i])
  {
    seq(|s|, i requires 0 <= i < |s| => ByteOf(s[i]))
  }

  /** String.fromCharCode(...bytes): one character per byte, with that code. */
  function Latin1(bs: seq<byte>): (s: string)
    ensures |s| == |bs|
    ensures forall i :: 0 <= i < |bs| ==> s[i] as int == bs[i]
  {
    seq(|bs|, i requires 0 <= i < |bs| => bs[i] as char)
  }

  /** A string after a trip through bytes: every character cut down to its low byte. */
  function Narrow(s: string): string {
    Latin1(Codes(s))
  }

  /** n NUL characters. */
  function Nuls(n: nat): (s: string)
    ensures |s| == n
  {
    Latin1(Zeros(n))
  }

  function Min(a: int, b: int): int {
    if a <= b then a else b
  }

  /**
   * The integer an integer setter starts from: ToNumber of the value, with
   * NaN (from undefined) read as 0 as ToIntN reads it. Strings, arrays and
   * objects are outside the model (None).
   */
  function IntegerOf(v: Value): Option<int> {
    match v
    case VNum(n) => Some(n)
    case VBool(b) => Some(if b then 1 else 0)
    case VNull => Some(0)
    case VUndef => Some(0)
    case _ => None
  }

  /**
   * The bytes a field's setter writes, starting at the field's offset
   * (static/main.js:6-23). A string setter writes only the characters it
   * is given, so the result may be shorter than the field; pack_into has
   * zero-filled the rest.
   */
  function EncodeField(f: Field, le: bool, v: Value): (r: Result<seq<byte>>)
    requires ValidField(f)
    ensures r.Ok? ==> |r.value| <= f.width
    ensures r.Ok? && !IsString(f.kind) && f.kind != Char ==> |r.value| == f.width
    ensures r.Err? ==> r.error == WrongValueType || (f.kind == Char && r.error == CharOverflow)
  {
    match f.kind
    case Char =>
      if !v.VStr? then Err(WrongValueType)
      else if |v.s| > 1 then Err(CharOverflow)
      else Ok(Codes(v.s))
    case FixedString =>
      if !v.VStr? then Err(WrongValueType)
      else Ok(Codes(v.s[..Min(|v.s|, f.width)]))
    case PascalString =>
      if !v.VStr? then Err(WrongValueType)
      else
        var t := v.s[..Min(|v.s|, f.width - 1)];
        Ok([|t| % 256] + Codes(t))
    case Float32 => FloatBytes(f, le, v)
    case Float64 => FloatBytes(f, le, v)
    case _ =>
      match IntegerOf(v)
      case None => Err(WrongValueType)
      case Some(n) => Ok(EncodeUnsigned(n, f.width, le))
  }

  /** setFloat32 / setFloat64 of a number given by its bit pattern. */
  function FloatBytes(f: Field, le: bool, v: Value): (r: Result<seq<byte>>)
    ensures r.Ok? ==> |r.value| == f.width
  {
    if v.VFloat? then Ok(EncodeUnsigned(v.bits, f.width, le)) else Err(WrongValueType)
  }

  /** What a field's getter reads from the field's bytes (static/main.js:4-5, 8, 12-23). */
  function DecodeField(f: Field, le: bool, bs: seq<byte>): Value
    requires ValidField(f) && |bs| == f.width
  {
    match f.kind
    case Char => VStr(Latin1(bs))
    case Bool => VBool(bs[0] != 0)
    case Float32 => VFloat(DecodeUnsigned(bs, le))
    case Float64 => VFloat(DecodeUnsigned(bs, le))
    case FixedString => VStr(Latin1(bs))
    case PascalString => VStr(Latin1(bs[1..1 + Min(bs[0], f.width - 1)]))
    case Int8 | Int16 | Int32 => VNum(Signed(DecodeUnsigned(bs, le), f.width))
    case UInt8 | UInt16 | UInt32 => VNum(DecodeUnsigned(bs, le))
  }

  /**
   * What unpack gives back for a value that pack wrote into a field: the
   * reference against which the codec's round trip is stated.
   */
  function Echo(f: Field, v: Value): Result<Value>
    requires ValidField(f)
  {
    match f.kind
    case Char =>
      if !v.VStr? then Err(WrongValueType)
      else if |v.s| > 1 then Err(CharOverflow)
      else if v.s == [] then Ok(VStr(Nuls(1)))
      else Ok(VStr(Narrow(v.s)))
    case FixedString =>
      if !v.VStr? then Err(WrongValueType)
      else
        var t := v.s[..Min(|v.s|, f.width)];
        Ok(VStr(Narrow(t) + Nuls(f.width - |t|)))
    case PascalString =>
      if !v.VStr? then Err(WrongValueType)
      else
        var t := v.s[..Min(|v.s|, f.width - 1)];
        Ok(VStr(Narrow(t[..|t| % 256])))
    case Float32 => if v.VFloat? then Ok(VFloat(ToUint(v.bits, f.width))) else Err(WrongValueType)
    case Float64 => if v.VFloat? then Ok(VFloat(ToUint(v.bits, f.width))) else Err(WrongValueType)
    case Bool =>
      if IntegerOf(v).None? then Err(WrongValueType) else Ok(VBool(ToUint(IntegerOf(v).value, 1) != 0))
    case Int8 | Int16 | Int32 =>
      if IntegerOf(v).None? then Err(WrongValueType) else Ok(VNum(ToInt(IntegerOf(v).value, f.width)))
    case UInt8 | UInt16 | UInt32 =>
      if IntegerOf(v).None? then Err(WrongValueType) else Ok(VNum(ToUint(IntegerOf(v).value, f.width)))
  }

  /** bs followed by zero bytes up to width w. */
  function Padded(bs: seq<byte>, w: nat): (p: seq<byte>)
    requires |bs| <= w
    ensures |p| == w
  {
    bs + Zeros(w - |bs|)
  }

  /** Narrowing a string that holds only byte-sized characters gives it back. */
  lemma NarrowBytes(s: string)
    requires forall i :: 0 <= i < |s| ==> s[i] as int < 256
    ensures Narrow(s) == s
  {
    var n := Narrow(s);
    forall i | 0 <= i < |s| ensures n[i] == s[i] {
      assert n[i] as int == (s[i] as int) % 256;
    }
  }

  /** Latin1 commutes with concatenation. */
  lemma Latin1Append(a: seq<byte>, b: seq<byte>)
    ensures Latin1(a + b) == Latin1(a) + Latin1(b)
  {
    var l, r := Latin1(a + b), Latin1(a) + Latin1(b);
    forall k | 0 <= k < |a + b| ensures l[k] == r[k] {
      assert l[k] as int == (a + b)[k];
      if k < |a| {
        assert r[k] as int == a[k];
      } else {
        assert r[k] as int == b[k - |a|];
      }
    }
  }

  /** One big-endian byte of n is n modulo 256. */
  lemma OneByte(n: int, le: bool)
    ensures EncodeUnsigned(n, 1, le) == [n % 256]
    ensures Pow256(1) == 256
  {
    assert BigEndian(n, 1) == BigEndian(n / 256, 0) + [n % 256];
  }

  /**
   * Decoding what a field's setter wrote, with the rest of the field left
   * at zero as pack_into leaves it, gives the field's echo of the value.
   */
  lemma FieldEcho(f: Field, le: bool, v: Value)
    requires ValidField(f) && EncodeField(f, le, v).Ok?
    ensures Echo(f, v).Ok?
    ensures DecodeField(f, le, Padded(EncodeField(f, le, v).value, f.width)) == Echo(f, v).value
  {
    match f.kind
    case Char => CharEcho(f, le, v);
    case FixedString => FixedEcho(f, le, v);
    case PascalString => PascalEcho(f, le, v);
    case Bool => BoolEcho(f, le, v);
    case Float32 => ScalarEcho(f, le, v);
    case Float64 => ScalarEcho(f, le, v);
    case _ => ScalarEcho(f, le, v);
  }

  lemma CharEcho(f: Field, le: bool, v: Value)
    requires ValidField(f) && f.kind == Char && EncodeField(f, le, v).Ok?
    ensures Echo(f, v).Ok?
    ensures DecodeField(f, le, Padded(EncodeField(f, le, v).value, f.width)) == Echo(f, v).value
  {
    var p := Padded(EncodeField(f, le, v).value, f.width);
    if v.s == [] {
      assert p == [0];
    } else {
      assert p == Codes(v.s);
    }
  }

  lemma FixedEcho(f: Field, le: bool, v: Value)
    requires ValidField(f) && f.kind == FixedString && EncodeField(f, le, v).Ok?
    ensures Echo(f, v).Ok?
    ensures DecodeField(f, le, Padded(EncodeField(f, le, v).value, f.width)) == Echo(f, v).value
  {
    var bs := EncodeField(f, le, v).value;
    Latin1Append(bs, Zeros(f.width - |bs|));
  }

  lemma PascalEcho(f: Field, le: bool, v: Value)
    requires ValidField(f) && f.kind == PascalString && EncodeField(f, le, v).Ok?
    ensures Echo(f, v).Ok?
    ensures DecodeField(f, le, Padded(EncodeField(f, le, v).value, f.width)) == Echo(f, v).value
  {
    var t := v.s[..Min(|v.s|, f.width - 1)];
    var bs := [|t| % 256] + Codes(t);
    assert EncodeField(f, le, v).value == bs;
    var p := Padded(bs, f.width);
    var k := |t| % 256;
    assert p[0] == k;
    assert Min(p[0], f.width - 1) == k;
    assert p[1..1 + k] == Codes(t[..k]);
  }

  lemma BoolEcho(f: Field, le: bool, v: Value)
    requires ValidField(f) && f.kind == Bool && EncodeField(f, le, v).Ok?
    ensures Echo(f, v).Ok?
    ensures DecodeField(f, le, Padded(EncodeField(f, le, v).value, f.width)) == Echo(f, v).value
  {
    var bs := EncodeField(f, le, v).value;
    assert Padded(bs, f.width) == bs;
    OneByte(IntegerOf(v).value, le);
  }

  lemma ScalarEcho(f: Field, le: bool, v: Value)
    requires ValidField(f) && !IsString(f.kind) && f.kind != Char && f.kind != Bool
    requires EncodeField(f, le, v).Ok?
    ensures Echo(f, v).Ok?
    ensures DecodeField(f, le, Padded(EncodeField(f, le, v).value, f.width)) == Echo(f, v).value
  {
    if f.kind == Float32 || f.kind == Float64 {
      FloatEcho(f, le, v);
    } else {
      IntegerEcho(f, le, v);
    }
  }

  lemma FloatEcho(f: Field, le: bool, v: Value)
    requires ValidField(f) && (f.kind == Float32 || f.kind == Float64)
    requires EncodeField(f, le, v).Ok?
    ensures Echo(f, v).Ok?
    ensures DecodeField(f, le, Padded(EncodeField(f, le, v).value, f.width)) == Echo(f, v).value
  {
    var bs := EncodeField(f, le, v).value;
    assert Padded(bs, f.width) == bs;
    assert bs == EncodeUnsigned(v.bits, f.width, le);
    UnsignedRoundTrip(v.bits, f.width, le);
  }

  lemma IntegerEcho(f: Field, le: bool, v: Value)
    requires ValidField(f) && !IsString(f.kind) && f.kind !in {Char, Bool, Float32, Float64}
    requires EncodeField(f, le, v).Ok?
    ensures Echo(f, v).Ok?
    ensures DecodeField(f, le, Padded(EncodeField(f, le, v).value, f.width)) == Echo(f, v).value
  {
    IntegerBytes(f, le, v);
    var n := IntegerOf(v).value;
    var bs := EncodeUnsigned(n, f.width, le);
    PaddedFull(bs, f.width);
    UnsignedRoundTrip(n, f.width, le);
    if IsSigned(f.kind) {
      assert Echo(f, v) == Ok(VNum(ToInt(n, f.width)));
    } else {
      assert Echo(f, v) == Ok(VNum(ToUint(n, f.width)));
    }
  }

  /** An integer setter writes the value's integer as width bytes. */
  lemma IntegerBytes(f: Field, le: bool, v: Value)
    requires ValidField(f) && !IsString(f.kind) && f.kind !in {Char, Bool, Float32, Float64}
    requires EncodeField(f, le, v).Ok?
    ensures IntegerOf(v).Some? && EncodeField(f, le, v).value == EncodeUnsigned(IntegerOf(v).value, f.width, le)
  {
  }

  /** A full-width byte string needs no padding. */
  lemma PaddedFull(bs: seq<byte>, w: nat)
    requires |bs| == w
    ensures Padded(bs, w) == bs
  {
    assert Zeros(0) == [];
  }

  /** The values a field gives back unchanged. */
  predicate Fits(f: Field, v: Value)
    requires ValidField(f)
  {
    match f.kind
    case Char => v.VStr? && |v.s| == 1 && v.s[0] as int < 256
    case Bool => v.VBool?
    case FixedString => v.VStr? && |v.s| == f.width && ByteSized(v.s)
    case PascalString => v.VStr? && |v.s| < f.width && |v.s| < 256 && ByteSized(v.s)
    case Float32 => v.VFloat? && v.bits < Pow256(f.width)
    case Float64 => v.VFloat? && v.bits < Pow256(f.width)
    case _ =>
      v.VNum? &&
      if IsSigned(f.kind) then -(Pow256(f.width) / 2) <= v.n < Pow256(f.width) / 2
      else 0 <= v.n < Pow256(f.width)
  }

  /** Every character of s is a single byte. */
  predicate ByteSized(s: string) {
    forall i :: 0 <= i < |s| ==> s[i] as int < 256
  }

  /**
   * A value in its field's range comes back unchanged: integers in the range
   * of their type, booleans, one-byte characters, byte strings of exactly
   * the field's count ('s') or shorter than it and than 256 ('p').
   */
  lemma EchoFits(f: Field, v: Value)
    requires ValidField(f) && Fits(f, v)
    ensures Echo(f, v) == Ok(v)
  {
    match f.kind
    case Char => NarrowBytes(v.s);
    case FixedString => EchoFitsString(f, v);
    case PascalString => EchoFitsString(f, v);
    case Float32 => ToUintInRange(v.bits, f.width);
    case Float64 => ToUintInRange(v.bits, f.width);
    case Bool =>
    case _ => EchoFitsInteger(f, v);
  }

  lemma EchoFitsString(f: Field, v: Value)
    requires ValidField(f) && IsString(f.kind) && Fits(f, v)
    ensures Echo(f, v) == Ok(v)
  {
    NarrowBytes(v.s);
    if f.kind == FixedString {
      assert v.s[..Min(|v.s|, f.width)] == v.s;
      assert Narrow(v.s) + Nuls(0) == v.s;
    } else {
      var t := v.s[..Min(|v.s|, f.width - 1)];
      assert t == v.s;
      assert |t| % 256 == |t| && t[..|t|] == t;
    }
  }

  lemma EchoFitsInteger(f: Field, v: Value)
    requires ValidField(f) && !IsString(f.kind) && f.kind !in {Char, Bool, Float32, Float64}
    requires Fits(f, v)
    ensures Echo(f, v) == Ok(v)
  {
    if IsSigned(f.kind) {
      ToIntInRange(v.n, f.width);
    } else {
      ToUintInRange(v.n, f.width);
    }
  }

  // ---------------------------------------------------------------------------
  // Whole structures: unpack_from / unpack read, pack_into / pack write.
  // ---------------------------------------------------------------------------

  /** Every field lies inside the first n bytes. */
  predicate InBounds(fields: seq<Field>, n: nat) {
    forall i :: 0 <= i < |fields| ==> fields[i].offset + fields[i].width <= n
  }

  /** Every field ends at or before offset at. */
  predicate EndsBefore(fields: seq<Field>, at: nat) {
    forall j :: 0 <= j < |fields| ==> fields[j].offset + fields[j].width <= at
  }

  /** Byte k lies in no field (it is padding, or beyond the fields). */
  predicate Untouched(fields: seq<Field>, k: int) {
    forall i :: 0 <= i < |fields| ==> !(fields[i].offset <= k < fields[i].offset + fields[i].width)
  }

  /** region with the bytes from offset at on replaced by bs. */
  function Splice(region: seq<byte>, at: nat, bs: seq<byte>): (r: seq<byte>)
    requires at + |bs| <= |region|
    ensures |r| == |region|
  {
    region[..at] + bs + region[at + |bs|..]
  }

  /** Byte k of a splice comes from bs inside the splice and from region outside it. */
  lemma SpliceAt(region: seq<byte>, at: nat, bs: seq<byte>)
    requires at + |bs| <= |region|
    ensures forall k :: 0 <= k < |region| ==>
      Splice(region, at, bs)[k] == if at <= k < at + |bs| then bs[k - at] else region[k]
  {
  }

  /** The bytes of a region after a run of setters, and the error that stopped the run, if any. */
  datatype Written = Written(bytes: seq<byte>, failure: Option<Error>)

  /**
   * fns.forEach((f, i) => f.p(v, values[i])) (static/main.js:44): the setters
   * run in field order and the first one that throws stops the run, leaving
   * what the earlier ones wrote.
   */
  function WriteFields(region: seq<byte>, le: bool, fields: seq<Field>, values: seq<Value>): (w: Written)
    requires AllValid(fields) && InBounds(fields, |region|) && |values| >= |fields|
    ensures |w.bytes| == |region|
    decreases |fields|
  {
    if fields == [] then Written(region, None)
    else
      var n := |fields| - 1;
      var w := WriteFields(region, le, fields[..n], values);
      if w.failure.Some? then w
      else
        match EncodeField(fields[n], le, values[n])
        case Err(e) => Written(w.bytes, Some(e))
        case Ok(bs) => Written(Splice(w.bytes, fields[n].offset, bs), None)
  }

  /** The size-byte region pack_into leaves: zero-filled, then the fields written. */
  function PackRegion(l: Layout, values: seq<Value>): Written
    requires WellLaid(l) && |values| >= |l.fields|
  {
    WriteFields(Zeros(l.size), l.littleEndian, l.fields, values)
  }

  /** pack(...values) (static/main.js:46-50): the bytes of a fresh buffer of size bytes, or the error thrown. */
  function PackResult(l: Layout, values: seq<Value>): (r: Result<seq<byte>>)
    requires WellLaid(l)
    ensures r.Ok? ==> |r.value| == l.size
  {
    if |values| < |l.fields| then Err(NotEnoughValues)
    else
      var w := PackRegion(l, values);
      if w.failure.Some? then Err(w.failure.value) else Ok(w.bytes)
  }

  /** The fields decoded from a DataView whose first byte is view[0] (static/main.js:37). */
  function Decoded(l: Layout, view: seq<byte>): (vs: seq<Value>)
    requires WellLaid(l) && |view| >= l.size
    ensures |vs| == |l.fields|
  {
    seq(|l.fields|, i requires 0 <= i < |l.fields| =>
      DecodeField(l.fields[i], l.littleEndian, view[l.fields[i].offset .. l.fields[i].offset + l.fields[i].width]))
  }

  /**
   * unpack_from(arrb, offs) (static/main.js:34-38). The offset goes through
   * offs|0, that is ToInt32; a negative result passes the size check only to
   * make the DataView constructor throw.
   */
  function UnpackFrom(l: Layout, buf: seq<byte>, offs: int): (r: Result<seq<Value>>)
    requires WellLaid(l)
    ensures r.Ok? ==> |r.value| == |l.fields|
  {
    var o := ToInt(offs, 4);
    if |buf| < o + l.size then Err(BufferTooSmall)
    else if o < 0 then Err(OffsetOutOfBounds)
    else Ok(Decoded(l, buf[o..]))
  }

  /** unpack(arrb) (static/main.js:51). */
  function Unpack(l: Layout, buf: seq<byte>): Result<seq<Value>>
    requires WellLaid(l)
  {
    UnpackFrom(l, buf, 0)
  }

  /** Offsets below 2^31 survive offs|0. */
  lemma SmallOffset(offs: int)
    requires 0 <= offs < 0x8000_0000
    ensures ToInt(offs, 4) == offs
  {
    assert Pow256(4) == 0x1_0000_0000 by {
      assert Pow256(1) == 256;
      assert Pow256(2) == 65536;
      assert Pow256(3) == 16777216;
    }
    ToIntInRange(offs, 4);
  }

  /**
   * unpack_from succeeds exactly when the structure fits in the buffer from
   * offset offs on, and then reads only the size bytes from offs on: any
   * two buffers that agree there give the same values.
   */
  lemma UnpackFromReadsWindow(l: Layout, buf: seq<byte>, offs: int)
    requires WellLaid(l) && 0 <= offs < 0x8000_0000
    ensures UnpackFrom(l, buf, offs).Ok? <==> offs + l.size <= |buf|
    ensures offs + l.size <= |buf| ==> UnpackFrom(l, buf, offs) == Unpack(l, buf[offs .. offs + l.size])
  {
    SmallOffset(offs);
    SmallOffset(0);
    if offs + l.size <= |buf| {
      var va, vb := buf[offs..], buf[offs .. offs + l.size][0..];
      assert va == buf[offs .. |buf|];
      assert vb == buf[offs .. offs + l.size];
      var a, b := Decoded(l, va), Decoded(l, vb);
      forall i | 0 <= i < |l.fields| ensures a[i] == b[i] {
        var f := l.fields[i];
        assert f.offset + f.width <= l.size;
        SliceOfSlice(buf, offs, |buf|, f.offset, f.offset + f.width);
        SliceOfSlice(buf, offs, offs + l.size, f.offset, f.offset + f.width);
        assert va[f.offset .. f.offset + f.width] == vb[f.offset .. f.offset + f.width];
      }
      assert a == b;
    }
  }

  /** A slice of a slice is a slice of the whole. */
  lemma SliceOfSlice(s: seq<byte>, a: nat, b: nat, c: nat, d: nat)
    requires a <= b <= |s| && c <= d <= b - a
    ensures s[a..b][c..d] == s[a + c .. a + d]
  {
    assert forall k :: 0 <= k < d - c ==> s[a..b][c..d][k] == s[a + c + k];
  }

  /**
   * A run of setters succeeds exactly when every setter accepts its value;
   * when it fails, the error is the one thrown by the first setter to refuse.
   */
  lemma {:induction false} WriteFieldsFailure(region: seq<byte>, le: bool, fields: seq<Field>, values: seq<Value>)
    requires AllValid(fields) && InBounds(fields, |region|) && |values| >= |fields|
    ensures var w := WriteFields(region, le, fields, values);
      && (w.failure.None? <==> forall i :: 0 <= i < |fields| ==> EncodeField(fields[i], le, values[i]).Ok?)
      && (w.failure.Some? ==> exists i :: 0 <= i < |fields| && FirstRefusal(le, fields, values, i)
                                          && w.failure.value == EncodeField(fields[i], le, values[i]).error)
    decreases |fields|
  {
    if fields != [] {
      var n := |fields| - 1;
      var pre := fields[..n];
      WriteFieldsFailure(region, le, pre, values);
      var w := WriteFields(region, le, pre, values);
      if w.failure.Some? {
        var i :| 0 <= i < |pre| && FirstRefusal(le, pre, values, i)
                 && w.failure.value == EncodeField(pre[i], le, values[i]).error;
        assert FirstRefusal(le, fields, values, i);
      } else if EncodeField(fields[n], le, values[n]).Err? {
        assert FirstRefusal(le, fields, values, n);
      }
    }
  }

  /** Setter i refuses its value and every earlier setter accepts its own. */
  predicate FirstRefusal(le: bool, fields: seq<Field>, values: seq<Value>, i: nat)
    requires AllValid(fields) && i < |fields| <= |values|
  {
    && EncodeField(fields[i], le, values[i]).Err?
    && forall j :: 0 <= j < i ==> EncodeField(fields[j], le, values[j]).Ok?
  }

  /** The setters write nothing outside their fields. */
  lemma {:induction false} WriteFieldsUntouched(region: seq<byte>, le: bool, fields: seq<Field>, values: seq<Value>, k: int)
    requires AllValid(fields) && InBounds(fields, |region|) && |values| >= |fields|
    requires 0 <= k < |region| && Untouched(fields, k)
    ensures WriteFields(region, le, fields, values).bytes[k] == region[k]
    decreases |fields|
  {
    if fields != [] {
      var n := |fields| - 1;
      var pre := fields[..n];
      assert Untouched(pre, k) by {
        forall j | 0 <= j < |pre| ensures !(pre[j].offset <= k < pre[j].offset + pre[j].width) {
          assert pre[j] == fields[j];
        }
      }
      WriteFieldsUntouched(region, le, pre, values, k);
      var w := WriteFields(region, le, pre, values);
      if w.failure.None? && EncodeField(fields[n], le, values[n]).Ok? {
        SpliceAt(w.bytes, fields[n].offset, EncodeField(fields[n], le, values[n]).value);
      }
    }
  }

  /** pack leaves every byte that lies in no field at zero: the padding of 'x'. */
  lemma PackPadding(l: Layout, values: seq<Value>)
    requires WellLaid(l) && PackResult(l, values).Ok?
    ensures forall k :: 0 <= k < l.size && Untouched(l.fields, k) ==> PackResult(l, values).value[k] == 0
  {
    forall k | 0 <= k < l.size && Untouched(l.fields, k) ensures PackResult(l, values).value[k] == 0 {
      WriteFieldsUntouched(Zeros(l.size), l.littleEndian, l.fields, values, k);
    }
  }

  /** Once a setter has thrown, the later fields change nothing. */
  lemma {:induction false} WriteFieldsStops(region: seq<byte>, le: bool, fields: seq<Field>, values: seq<Value>, k: nat)
    requires AllValid(fields) && InBounds(fields, |region|) && |values| >= |fields| && k <= |fields|
    requires WriteFields(region, le, fields[..k], values).failure.Some?
    ensures WriteFields(region, le, fields, values) == WriteFields(region, le, fields[..k], values)
    decreases |fields|
  {
    if k < |fields| {
      var n := |fields| - 1;
      assert fields[..n][..k] == fields[..k];
      WriteFieldsStops(region, le, fields[..n], values, k);
    } else {
      assert fields[..k] == fields;
    }
  }

  /**
   * After a successful run over packed fields, each field holds the bytes
   * its setter wrote followed by what the region held there before.
   */
  lemma {:induction false} WriteFieldsWindows(region: seq<byte>, le: bool, fields: seq<Field>, values: seq<Value>)
    requires AllValid(fields) && Packed(fields, 0, |region|) && |values| >= |fields|
    requires WriteFields(region, le, fields, values).failure.None?
    ensures forall i :: 0 <= i < |fields| ==> EncodeField(fields[i], le, values[i]).Ok?
    ensures forall i :: 0 <= i < |fields| ==> FieldHolds(WriteFields(region, le, fields, values).bytes, region, le, fields[i], values[i])
    decreases |fields|
  {
    if fields != [] {
      var n := |fields| - 1;
      var pre := fields[..n];
      PackedPrefix(fields, |region|);
      WriteFieldsLast(region, le, fields, values);
      WriteFieldsWindows(region, le, pre, values);
      forall i | 0 <= i < |fields|
        ensures EncodeField(fields[i], le, values[i]).Ok?
        ensures FieldHolds(WriteFields(region, le, fields, values).bytes, region, le, fields[i], values[i])
      {
        if i < n {
          assert pre[i] == fields[i];
          EarlierFieldHolds(region, le, fields, values, i);
        } else {
          LastFieldHolds(region, le, fields, values);
        }
      }
    }
  }

  /** The fields before the last of a packed run are packed, and all end before the last begins. */
  lemma PackedPrefix(fields: seq<Field>, size: nat)
    requires Packed(fields, 0, size) && fields != []
    ensures var n := |fields| - 1;
      && Packed(fields[..n], 0, size)
      && EndsBefore(fields[..n], fields[n].offset)
      && InBounds(fields, size)
  {
    var n := |fields| - 1;
    var pre := fields[..n];
    assert forall j :: 0 <= j < n ==> pre[j] == fields[j];
  }

  lemma EarlierFieldHolds(region: seq<byte>, le: bool, fields: seq<Field>, values: seq<Value>, i: nat)
    requires AllValid(fields) && InBounds(fields, |region|) && |values| >= |fields| && i < |fields| - 1
    requires EndsBefore(fields[..|fields| - 1], fields[|fields| - 1].offset)
    requires WriteFields(region, le, fields, values).failure.None?
    requires FieldHolds(WriteFields(region, le, fields[..|fields| - 1], values).bytes, region, le, fields[i], values[i])
    ensures FieldHolds(WriteFields(region, le, fields, values).bytes, region, le, fields[i], values[i])
  {
    var n := |fields| - 1;
    var w := WriteFields(region, le, fields[..n], values);
    var f, g := fields[n], fields[i];
    assert fields[..n][i] == g;
    WriteFieldsLast(region, le, fields, values);
    var bs := EncodeField(f, le, values[n]).value;
    SpliceKeeps(w.bytes, f.offset, bs, g.offset, g.offset + g.width);
    FieldHoldsWindow(w.bytes, WriteFields(region, le, fields, values).bytes, region, le, g, values[i]);
  }

  lemma LastFieldHolds(region: seq<byte>, le: bool, fields: seq<Field>, values: seq<Value>)
    requires AllValid(fields) && InBounds(fields, |region|) && |values| >= |fields| && fields != []
    requires EndsBefore(fields[..|fields| - 1], fields[|fields| - 1].offset)
    requires WriteFields(region, le, fields, values).failure.None?
    ensures FieldHolds(WriteFields(region, le, fields, values).bytes, region, le, fields[|fields| - 1], values[|fields| - 1])
  {
    var n := |fields| - 1;
    var w := WriteFields(region, le, fields[..n], values);
    var f := fields[n];
    WriteFieldsLast(region, le, fields, values);
    var bs := EncodeField(f, le, values[n]).value;
    PrefixSparesLast(region, le, fields, values);
    SplicedOverRegion(w.bytes, region, f.offset, bs, f.width);
  }

  /** Splicing bs at the start of a window the region still holds leaves bs, then the region's bytes. */
  lemma SplicedOverRegion(bytes: seq<byte>, region: seq<byte>, at: nat, bs: seq<byte>, w: nat)
    requires |bytes| == |region| && |bs| <= w && at + w <= |region|
    requires forall k :: at <= k < at + w ==> bytes[k] == region[k]
    ensures WindowHolds(Splice(bytes, at, bs), region, at, w, bs)
  {
    SpliceWindow(bytes, at, bs, w);
    SameSlice(bytes, region, at + |bs|, at + w);
  }

  /** The setters before the last field leave the last field's bytes as the region had them. */
  lemma PrefixSparesLast(region: seq<byte>, le: bool, fields: seq<Field>, values: seq<Value>)
    requires AllValid(fields) && InBounds(fields, |region|) && |values| >= |fields| && fields != []
    requires EndsBefore(fields[..|fields| - 1], fields[|fields| - 1].offset)
    ensures var n := |fields| - 1;
      forall k :: fields[n].offset <= k < fields[n].offset + fields[n].width ==>
        WriteFields(region, le, fields[..n], values).bytes[k] == region[k]
  {
    var n := |fields| - 1;
    var pre, f := fields[..n], fields[n];
    forall k | f.offset <= k < f.offset + f.width ensures WriteFields(region, le, pre, values).bytes[k] == region[k] {
      assert Untouched(pre, k) by {
        forall j | 0 <= j < |pre| ensures !(pre[j].offset <= k < pre[j].offset + pre[j].width) {
          assert pre[j].offset + pre[j].width <= f.offset;
        }
      }
      WriteFieldsUntouched(region, le, pre, values, k);
    }
  }

  /** A successful run ends with the last setter's bytes spliced over what the earlier setters left. */
  lemma WriteFieldsLast(region: seq<byte>, le: bool, fields: seq<Field>, values: seq<Value>)
    requires AllValid(fields) && InBounds(fields, |region|) && |values| >= |fields| && fields != []
    requires WriteFields(region, le, fields, values).failure.None?
    ensures var n := |fields| - 1;
      && WriteFields(region, le, fields[..n], values).failure.None?
      && EncodeField(fields[n], le, values[n]).Ok?
      && fields[n].offset + |EncodeField(fields[n], le, values[n]).value| <= |region|
      && WriteFields(region, le, fields, values).bytes
         == Splice(WriteFields(region, le, fields[..n], values).bytes, fields[n].offset, EncodeField(fields[n], le, values[n]).value)
  {
  }

  /** FieldHolds looks only at the field's own window of the bytes. */
  lemma FieldHoldsWindow(a: seq<byte>, b: seq<byte>, region: seq<byte>, le: bool, f: Field, v: Value)
    requires ValidField(f) && |a| == |region| && |b| == |region| && f.offset + f.width <= |region|
    requires a[f.offset .. f.offset + f.width] == b[f.offset .. f.offset + f.width]
    requires FieldHolds(a, region, le, f, v)
    ensures FieldHolds(b, region, le, f, v)
  {
  }

  /** Two sequences that agree on [lo, hi) have the same slice there. */
  lemma SameSlice(a: seq<byte>, b: seq<byte>, lo: nat, hi: nat)
    requires lo <= hi <= |a| && hi <= |b|
    requires forall k :: lo <= k < hi ==> a[k] == b[k]
    ensures a[lo..hi] == b[lo..hi]
  {
  }

  /** Splicing leaves the bytes before the splice alone. */
  lemma SpliceKeeps(bytes: seq<byte>, at: nat, bs: seq<byte>, lo: nat, hi: nat)
    requires at + |bs| <= |bytes| && lo <= hi <= at
    ensures Splice(bytes, at, bs)[lo..hi] == bytes[lo..hi]
  {
    SpliceAt(bytes, at, bs);
  }

  /** A w-byte window at the splice point holds the spliced bytes, then what was there. */
  lemma SpliceWindow(bytes: seq<byte>, at: nat, bs: seq<byte>, w: nat)
    requires |bs| <= w && at + w <= |bytes|
    ensures Splice(bytes, at, bs)[at .. at + w] == bs + bytes[at + |bs| .. at + w]
  {
    SpliceAt(bytes, at, bs);
    var l, r := Splice(bytes, at, bs)[at .. at + w], bs + bytes[at + |bs| .. at + w];
    forall k | 0 <= k < w ensures l[k] == r[k] {
    }
  }

  /** Field f of bytes holds what its setter writes for v, then what region held. */
  predicate FieldHolds(bytes: seq<byte>, region: seq<byte>, le: bool, f: Field, v: Value)
    requires ValidField(f) && |bytes| == |region| && f.offset + f.width <= |region|
  {
    EncodeField(f, le, v).Ok? && WindowHolds(bytes, region, f.offset, f.width, EncodeField(f, le, v).value)
  }

  /** The w bytes from at on are bs, then what region held there. */
  predicate WindowHolds(bytes: seq<byte>, region: seq<byte>, at: nat, w: nat, bs: seq<byte>)
    requires |bytes| == |region| && at + w <= |region| && |bs| <= w
  {
    bytes[at .. at + w] == bs + region[at + |bs| .. at + w]
  }

  /** A setter refuses a value exactly when the value has no echo. */
  lemma EncodeOkIffEchoOk(f: Field, le: bool, v: Value)
    requires ValidField(f)
    ensures EncodeField(f, le, v).Ok? <==> Echo(f, v).Ok?
  {
  }

  /**
   * Unpacking what pack produced succeeds and gives, field by field, the
   * echo of each value: integers reduced to their type's range, strings
   * cut to their field and padded or narrowed, and so on.
   */
  lemma PackThenUnpack(l: Layout, values: seq<Value>)
    requires WellLaid(l) && PackResult(l, values).Ok?
    ensures Unpack(l, PackResult(l, values).value).Ok?
    ensures forall i :: 0 <= i < |l.fields| ==>
      Echo(l.fields[i], values[i]) == Ok(Unpack(l, PackResult(l, values).value).value[i])
  {
    var bytes := PackResult(l, values).value;
    SmallOffset(0);
    assert bytes[0..] == bytes;
    var vs := Decoded(l, bytes);
    assert Unpack(l, bytes) == Ok(vs);
    forall i | 0 <= i < |l.fields| ensures Echo(l.fields[i], values[i]) == Ok(vs[i]) {
      PackedFieldDecodes(l, values, i);
    }
  }

  /** Field i of what pack wrote reads back as the echo of value i. */
  lemma PackedFieldDecodes(l: Layout, values: seq<Value>, i: nat)
    requires WellLaid(l) && PackResult(l, values).Ok? && i < |l.fields|
    ensures Echo(l.fields[i], values[i]) == Ok(Decoded(l, PackResult(l, values).value)[i])
  {
    var f := l.fields[i];
    var bytes := PackResult(l, values).value;
    PackedFieldHolds(l, values, i);
    PackedFieldEcho(l, values, i);
    assert Decoded(l, bytes)[i] == DecodeField(f, l.littleEndian, bytes[f.offset .. f.offset + f.width]);
  }

  /** Field i of pack's region holds what its setter wrote, then zeros. */
  lemma PackedFieldHolds(l: Layout, values: seq<Value>, i: nat)
    requires WellLaid(l) && PackResult(l, values).Ok? && i < |l.fields|
    ensures FieldHolds(PackRegion(l, values).bytes, Zeros(l.size), l.littleEndian, l.fields[i], values[i])
  {
    WriteFieldsWindows(Zeros(l.size), l.littleEndian, l.fields, values);
  }

  /** pack succeeds when every setter accepts its value. */
  lemma PackAccepts(l: Layout, values: seq<Value>)
    requires WellLaid(l) && |values| >= |l.fields|
    requires forall i :: 0 <= i < |l.fields| ==> EncodeField(l.fields[i], l.littleEndian, values[i]).Ok?
    ensures PackResult(l, values).Ok?
  {
    WriteFieldsFailure(Zeros(l.size), l.littleEndian, l.fields, values);
  }

  /** pack throws the error of the first setter that refuses its value. */
  lemma PackRefusedAt(l: Layout, values: seq<Value>, i: nat)
    requires WellLaid(l) && |values| >= |l.fields| && i < |l.fields|
    requires FirstRefusal(l.littleEndian, l.fields, values, i)
    ensures PackResult(l, values) == Err(EncodeField(l.fields[i], l.littleEndian, values[i]).error)
  {
    PackFailure(l, values);
    var j :| 0 <= j < |l.fields| && FirstRefusal(l.littleEndian, l.fields, values, j)
             && PackResult(l, values).error == EncodeField(l.fields[j], l.littleEndian, values[j]).error;
    assert j == i;
  }

  /** In pack's result, field i holds what its setter wrote, padded with zeros to the field's width. */
  lemma PackedWindow(l: Layout, values: seq<Value>, i: nat)
    requires WellLaid(l) && PackResult(l, values).Ok? && i < |l.fields|
    ensures EncodeField(l.fields[i], l.littleEndian, values[i]).Ok?
    ensures var f := l.fields[i];
      PackResult(l, values).value[f.offset .. f.offset + f.width] ==
        Padded(EncodeField(f, l.littleEndian, values[i]).value, f.width)
  {
    WriteFieldsWindows(Zeros(l.size), l.littleEndian, l.fields, values);
    var f := l.fields[i];
    var zs := Zeros(l.size);
    assert FieldHolds(PackRegion(l, values).bytes, zs, l.littleEndian, f, values[i]);
    var bs := EncodeField(f, l.littleEndian, values[i]).value;
    assert zs[f.offset + |bs| .. f.offset + f.width] == Zeros(f.width - |bs|);
  }

  lemma PackedFieldEcho(l: Layout, values: seq<Value>, i: nat)
    requires WellLaid(l) && PackResult(l, values).Ok? && i < |l.fields|
    requires FieldHolds(PackRegion(l, values).bytes, Zeros(l.size), l.littleEndian, l.fields[i], values[i])
    ensures var f, bytes := l.fields[i], PackResult(l, values).value;
      Echo(f, values[i]) == Ok(DecodeField(f, l.littleEndian, bytes[f.offset .. f.offset + f.width]))
  {
    var bytes := PackResult(l, values).value;
    var f := l.fields[i];
    var zs := Zeros(l.size);
    var bs := EncodeField(f, l.littleEndian, values[i]).value;
    assert zs[f.offset + |bs| .. f.offset + f.width] == Zeros(f.width - |bs|);
    assert bytes[f.offset .. f.offset + f.width] == Padded(bs, f.width);
    FieldEcho(f, l.littleEndian, values[i]);
  }

  /**
   * unpack(pack(...values)) gives the values back (extra values dropped)
   * when each lies in its field's range.
   */
  lemma RoundTrip(l: Layout, values: seq<Value>)
    requires WellLaid(l) && |values| >= |l.fields|
    requires forall i :: 0 <= i < |l.fields| ==> Fits(l.fields[i], values[i])
    ensures PackResult(l, values).Ok?
    ensures Unpack(l, PackResult(l, values).value) == Ok(values[..|l.fields|])
  {
    forall i | 0 <= i < |l.fields| ensures Echo(l.fields[i], values[i]) == Ok(values[i]) && EncodeField(l.fields[i], l.littleEndian, values[i]).Ok? {
      EchoFits(l.fields[i], values[i]);
      EncodeOkIffEchoOk(l.fields[i], l.littleEndian, values[i]);
    }
    WriteFieldsFailure(Zeros(l.size), l.littleEndian, l.fields, values);
    PackThenUnpack(l, values);
    var r := Unpack(l, PackResult(l, values).value).value;
    assert r == values[..|l.fields|];
  }

  /**
   * pack fails exactly when there are too few values or some setter refuses
   * its value, and then with the error of the first setter that refuses.
   */
  lemma PackFailure(l: Layout, values: seq<Value>)
    requires WellLaid(l)
    ensures |values| < |l.fields| ==> PackResult(l, values) == Err(NotEnoughValues)
    ensures |values| >= |l.fields| ==>
      (PackResult(l, values).Ok? <==> forall i :: 0 <= i < |l.fields| ==> EncodeField(l.fields[i], l.littleEndian, values[i]).Ok?)
    ensures |values| >= |l.fields| && PackResult(l, values).Err? ==>
      exists i :: 0 <= i < |l.fields| && FirstRefusal(l.littleEndian, l.fields, values, i)
                  && PackResult(l, values).error == EncodeField(l.fields[i], l.littleEndian, values[i]).error
  {
    if |values| >= |l.fields| {
      WriteFieldsFailure(Zeros(l.size), l.littleEndian, l.fields, values);
    }
  }

  // ---------------------------------------------------------------------------
  // The operations on ArrayBuffers.
  // ---------------------------------------------------------------------------

  /** new Uint8Array(buf, at, |bs|).set(bs): bs copied into buf from index at on. */
  method WriteBytes(buf: array<byte>, at: nat, bs: seq<byte>)
    requires at + |bs| <= buf.Length
    modifies buf
    ensures buf[..] == Splice(old(buf[..]), at, bs)
  {
    for j := 0 to |bs|
      invariant forall k :: 0 <= k < buf.Length ==>
        buf[k] == if at <= k < at + j then bs[k - at] else old(buf[k])
    {
      buf[at + j] := bs[j];
    }
    SpliceAt(old(buf[..]), at, bs);
  }

  /** One more field: the run over the first i + 1 fields extends the run over the first i. */
  lemma WriteFieldsNext(region: seq<byte>, le: bool, fields: seq<Field>, values: seq<Value>, i: nat)
    requires AllValid(fields) && InBounds(fields, |region|) && |values| >= |fields| && i < |fields|
    requires WriteFields(region, le, fields[..i], values).failure.None?
    ensures var w, r := WriteFields(region, le, fields[..i], values), EncodeField(fields[i], le, values[i]);
      && (r.Err? ==> WriteFields(region, le, fields[..i + 1], values) == Written(w.bytes, Some(r.error)))
      && (r.Ok? ==> fields[i].offset + |r.value| <= |region|
                    && WriteFields(region, le, fields[..i + 1], values) == Written(Splice(w.bytes, fields[i].offset, r.value), None))
  {
    assert fields[..i + 1][..i] == fields[..i];
  }

  /** Splicing inside the middle part of pre + mid + post splices mid. */
  lemma SpliceInside(pre: seq<byte>, mid: seq<byte>, post: seq<byte>, at: nat, bs: seq<byte>)
    requires at + |bs| <= |mid|
    ensures Splice(pre + mid + post, |pre| + at, bs) == pre + Splice(mid, at, bs) + post
  {
    SpliceAt(pre + mid + post, |pre| + at, bs);
    SpliceAt(mid, at, bs);
  }

  /**
   * pack_into(arrb, offs, ...values) (static/main.js:39-45): too few values
   * and a structure that does not fit are refused before any byte changes;
   * otherwise the size bytes from offs on are zero-filled and the setters
   * run in field order, and a setter that throws leaves what was written so
   * far. Bytes outside [offs, offs + size) never change.
   */
  method PackInto(l: Layout, buf: array<byte>, offs: int, values: seq<Value>) returns (failure: Option<Error>)
    requires WellLaid(l)
    modifies buf
    ensures |values| < |l.fields| ==> failure == Some(NotEnoughValues) && buf[..] == old(buf[..])
    ensures |values| >= |l.fields| && buf.Length < offs + l.size ==>
      failure == Some(BufferTooSmall) && buf[..] == old(buf[..])
    ensures |values| >= |l.fields| && offs + l.size <= buf.Length && offs < 0 ==>
      failure == Some(OffsetOutOfBounds) && buf[..] == old(buf[..])
    ensures |values| >= |l.fields| && 0 <= offs && offs + l.size <= buf.Length ==>
      var w := PackRegion(l, values);
      failure == w.failure && buf[..] == old(buf[..offs]) + w.bytes + old(buf[offs + l.size..])
  {
    if |values| < |l.fields| {
      return Some(NotEnoughValues);
    }
    if buf.Length < offs + l.size {
      return Some(BufferTooSmall);
    }
    if offs < 0 {
      return Some(OffsetOutOfBounds);
    }
    ghost var pre, post := buf[..offs], buf[offs + l.size..];
    assert buf[..] == pre + buf[offs .. offs + l.size] + post;
    WriteBytes(buf, offs, Zeros(l.size));
    SpliceInside(pre, old(buf[offs .. offs + l.size]), post, 0, Zeros(l.size));
    failure := RunSetters(l, buf, offs, values, pre, post);
  }

  /** Writes bs at offset at of the middle part of a buffer laid out as pre + mid + post. */
  method WriteInside(buf: array<byte>, offs: nat, ghost pre: seq<byte>, ghost mid: seq<byte>, ghost post: seq<byte>, at: nat, bs: seq<byte>)
    requires buf[..] == pre + mid + post && |pre| == offs && at + |bs| <= |mid|
    modifies buf
    ensures buf[..] == pre + Splice(mid, at, bs) + post
  {
    WriteBytes(buf, offs + at, bs);
    SpliceInside(pre, mid, post, at, bs);
  }

  /** The setters of pack_into, run over a zero-filled region (static/main.js:44). */
  method RunSetters(l: Layout, buf: array<byte>, offs: nat, values: seq<Value>, ghost pre: seq<byte>, ghost post: seq<byte>)
    returns (failure: Option<Error>)
    requires WellLaid(l) && |values| >= |l.fields| && |pre| == offs
    requires buf[..] == pre + Zeros(l.size) + post
    modifies buf
    ensures var w := PackRegion(l, values);
      failure == w.failure && buf[..] == pre + w.bytes + post
  {
    ghost var cur := Zeros(l.size);
    for i := 0 to |l.fields|
      invariant buf[..] == pre + cur + post
      invariant WriteFields(Zeros(l.size), l.littleEndian, l.fields[..i], values) == Written(cur, None)
    {
      var f := l.fields[i];
      var r := EncodeField(f, l.littleEndian, values[i]);
      WriteFieldsNext(Zeros(l.size), l.littleEndian, l.fields, values, i);
      if r.Err? {
        WriteFieldsStops(Zeros(l.size), l.littleEndian, l.fields, values, i + 1);
        return Some(r.error);
      }
      WriteInside(buf, offs, pre, cur, post, f.offset, r.value);
      cur := Splice(cur, f.offset, r.value);
    }
    assert l.fields[..|l.fields|] == l.fields;
    return None;
  }

  /** pack(...values) (static/main.js:46-50): pack_into on a fresh buffer of size bytes. */
  method Pack(l: Layout, values: seq<Value>) returns (r: Result<seq<byte>>)
    requires WellLaid(l)
    ensures r == PackResult(l, values)
  {
    var buf := new byte[l.size](_ => 0);
    var failure := PackInto(l, buf, 0, values);
    if failure.Some? {
      r := Err(failure.value);
    } else {
      r := Ok(buf[..]);
      assert buf[..] == PackRegion(l, values).bytes;
    }
  }

  /**
   * iter_unpack(arrb) (static/main.js:52-56): the tuples unpacked at offsets
   * 0, size, 2 * size, ... while a whole structure remains, a trailing partial
   * chunk ignored. An offset of 2^31 or more goes wrong in offs|0 inside
   * unpack_from; below 2 GiB every step succeeds.
   */
  method IterUnpack(l: Layout, buf: seq<byte>) returns (tuples: seq<seq<Value>>, failure: Option<Error>)
    requires WellLaid(l) && l.size > 0
    ensures forall k :: 0 <= k < |tuples| ==> UnpackFrom(l, buf, k * l.size) == Ok(tuples[k])
    ensures failure.None? ==> |tuples| == |buf| / l.size
    ensures failure.Some? ==>
      (|tuples| + 1) * l.size <= |buf| && UnpackFrom(l, buf, |tuples| * l.size) == Err(failure.value)
    ensures |buf| < 0x8000_0000 ==> failure.None?
  {
    tuples, failure := [], None;
    var offs := 0;
    while offs + l.size <= |buf|
      invariant offs == |tuples| * l.size <= |buf|
      invariant forall k :: 0 <= k < |tuples| ==> UnpackFrom(l, buf, k * l.size) == Ok(tuples[k])
      decreases |buf| - offs
    {
      if |buf| < 0x8000_0000 {
        SmallOffset(offs);
      }
      NextOffset(|tuples|, l.size);
      var r := UnpackFrom(l, buf, offs);
      if r.Err? {
        failure := Some(r.error);
        return;
      }
      tuples := tuples + [r.value];
      offs := offs + l.size;
    }
    DivBetween(|buf|, l.size, |tuples|);
  }

  lemma NextOffset(k: nat, size: nat)
    ensures (k + 1) * size == k * size + size
  {
  }

  /** q * d <= n < (q + 1) * d makes q the quotient n / d. */
  lemma DivBetween(n: nat, d: nat, q: nat)
    requires d > 0 && q * d <= n < q * d + d
    ensures n / d == q
  {
    ModUnique(n, d, q, n - q * d);
  }
}
