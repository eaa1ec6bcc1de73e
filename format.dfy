/**
 * The format compiler of the struct codec (static/main.js:1-33): a format
 * string is checked against the grammar
 *
 *     format ::= [ '<' | '>' ] token*        token ::= [ count ] code
 *     count  ::= a decimal number without a leading zero
 *     code   ::= one of  x c b B ? h H i I f d s p
 *
 * and compiled into a packed layout: the byte order, the value-producing
 * fields with their offsets and widths, and the total size in bytes.
 */
module Format {
  import opened Wrappers

  /** The type codes a token may end with. */
  const Codes: string := "xcbB?hHiIfdsp"

  predicate IsCode(c: char) {
    c in Codes
  }

  type Code = c: char | IsCode(c) witness 'x'

  predicate IsDigit(c: char) {
    '0' <= c <= '9'
  }

  /** One token of a format: the digits of its count (empty when omitted) and its type code. */
  datatype Token = Token(digits: string, code: Code)

  /** A token the grammar admits: its count is made of digits and does not start with 0. */
  predicate WellFormed(t: Token) {
    && (forall i :: 0 <= i < |t.digits| ==> IsDigit(t.digits[i]))
    && (t.digits != [] ==> t.digits[0] != '0')
  }

  predicate AllWellFormed(ts: seq<Token>) {
    forall i :: 0 <= i < |ts| ==> WellFormed(ts[i])
  }

  /** The text of a token sequence: each token's digits followed by its code. */
  function Spell(ts: seq<Token>): string {
    if ts == [] then [] else ts[0].digits + [ts[0].code] + Spell(ts[1..])
  }

  /** The length of the run of decimal digits that s starts with. */
  function DigitRun(s: string): (k: nat)
    ensures k <= |s|
    ensures forall i :: 0 <= i < k ==> IsDigit(s[i])
    ensures k < |s| ==> !IsDigit(s[k])
  {
    if s == [] || !IsDigit(s[0]) then 0 else 1 + DigitRun(s[1..])
  }

  /**
   * The tokens of a format body, or None when the body is not a sequence of
   * tokens. The count is the longest digit run, as the greedy regular
   * expression of static/main.js:2-3 reads it.
   */
  function Tokenize(s: string): Option<seq<Token>>
    decreases |s|
  {
    if s == [] then Some([])
    else
      var k := DigitRun(s);
      if k < |s| && IsCode(s[k]) && (k == 0 || s[0] != '0') then
        match Tokenize(s[k + 1..])
        case None => None
        case Some(rest) => Some([Token(s[..k], s[k])] + rest)
      else None
  }

  /** The value of a decimal digit (0 for any other character). */
  function DigitValue(c: char): nat {
    if IsDigit(c) then c as int - '0' as int else 0
  }

  /** The number a run of decimal digits spells, as parseInt(ds, 10) reads it. */
  function DecimalValue(ds: string): nat {
    if ds == [] then 0 else DecimalValue(ds[..|ds| - 1]) * 10 + DigitValue(ds[|ds| - 1])
  }

  /** The count of a token: its number, or 1 when it has none. */
  function Count(t: Token): nat {
    if t.digits == [] then 1 else DecimalValue(t.digits)
  }

  /** What a field holds and how it is encoded. */
  datatype Kind =
    | Char | Bool | Int8 | UInt8 | Int16 | UInt16 | Int32 | UInt32 | Float32 | Float64
    | FixedString | PascalString

  predicate IsString(k: Kind) {
    k == FixedString || k == PascalString
  }

  predicate IsSigned(k: Kind) {
    k == Int8 || k == Int16 || k == Int32
  }

  /** The byte width of one scalar field of kind k. */
  function ScalarWidth(k: Kind): nat
    requires !IsString(k)
  {
    match k
    case Char => 1
    case Bool => 1
    case Int8 => 1
    case UInt8 => 1
    case Int16 => 2
    case UInt16 => 2
    case Int32 => 4
    case UInt32 => 4
    case Float32 => 4
    case Float64 => 8
  }

  /**
   * What one token contributes: `reps` repetitions of a `width`-byte slot,
   * each of them a field of kind `kind` unless `kind` is None (padding).
   */
  datatype Step = Step(reps: nat, width: nat, kind: Option<Kind>)

  /** The table of static/main.js:10-24 applied to a code and its count. */
  function Plan(code: Code, count: nat): Step {
    match code
    case 'x' => Step(1, count, None)
    case 'c' => Step(count, 1, Some(Char))
    case '?' => Step(count, 1, Some(Bool))
    case 'b' => Step(count, 1, Some(Int8))
    case 'B' => Step(count, 1, Some(UInt8))
    case 'h' => Step(count, 2, Some(Int16))
    case 'H' => Step(count, 2, Some(UInt16))
    case 'i' => Step(count, 4, Some(Int32))
    case 'I' => Step(count, 4, Some(UInt32))
    case 'f' => Step(count, 4, Some(Float32))
    case 'd' => Step(count, 8, Some(Float64))
    case 's' => Step(1, count, Some(FixedString))
    case _ => Step(1, count, Some(PascalString))
  }

  function StepOf(t: Token): Step {
    Plan(t.code, Count(t))
  }

  /** One value-producing field of a layout. */
  datatype Field = Field(kind: Kind, offset: nat, width: nat)

  /** A compiled format: byte order, fields in declaration order, total size. */
  datatype Layout = Layout(littleEndian: bool, fields: seq<Field>, size: nat)

  /** The errors the struct codec raises. */
  datatype Error =
    | InvalidFormat     // "Invalid format string"
    | NotEnoughValues   // "Not enough values for structure"
    | BufferTooSmall    // "Structure larger than remaining buffer"
    | WrongValueType    // a value of the wrong kind for its field (a TypeError in the source)
    | CharOverflow      // a 'c' value of more than one character (a RangeError in the source)
    | OffsetOutOfBounds // a negative start offset (a RangeError of the DataView constructor)

  datatype Result<T> = Ok(value: T) | Err(error: Error)

  /** The first n fields of a step placed from offset base on. */
  function StepFields(s: Step, base: nat, n: nat): seq<Field> {
    if s.kind.None? then [] else seq(n, j requires 0 <= j < n => Field(s.kind.value, base + j * s.width, s.width))
  }

  /** Adding one repetition to a step adds its field (if any) at the end. */
  lemma StepFieldsSnoc(s: Step, base: nat, n: nat)
    ensures StepFields(s, base, n + 1)
      == StepFields(s, base, n) + (if s.kind.Some? then [Field(s.kind.value, base + n * s.width, s.width)] else [])
  {
  }

  /** The total size of the tokens: the widths of all their slots, padding included. */
  function SizeOf(ts: seq<Token>): nat {
    if ts == [] then 0
    else
      var s := StepOf(ts[|ts| - 1]);
      SizeOf(ts[..|ts| - 1]) + s.reps * s.width
  }

  /** The fields of the tokens, in declaration order. */
  function FieldsOf(ts: seq<Token>): seq<Field> {
    if ts == [] then []
    else
      var s := StepOf(ts[|ts| - 1]);
      FieldsOf(ts[..|ts| - 1]) + StepFields(s, SizeOf(ts[..|ts| - 1]), s.reps)
  }

  /** The format without its byte-order marker. */
  function Body(format: string): string {
    if |format| > 0 && (format[0] == '<' || format[0] == '>') then format[1..] else format
  }

  /** Little-endian only when the format starts with '<' (static/main.js:30). */
  predicate IsLittleEndian(format: string) {
    |format| > 0 && format[0] == '<'
  }

  /** A field whose width fits its kind. */
  predicate ValidField(f: Field) {
    if IsString(f.kind) then f.width >= 1 else f.width == ScalarWidth(f.kind)
  }

  /** Fields in increasing, non-overlapping order inside [lo, hi). */
  predicate Packed(fields: seq<Field>, lo: nat, hi: nat) {
    && (forall i :: 0 <= i < |fields| ==> lo <= fields[i].offset && fields[i].offset + fields[i].width <= hi)
    && (forall i, j :: 0 <= i < j < |fields| ==> fields[i].offset + fields[i].width <= fields[j].offset)
  }

  /** What every compiled layout satisfies. */
  predicate WellLaid(l: Layout) {
    AllValid(l.fields) && Packed(l.fields, 0, l.size)
  }

  predicate AllValid(fields: seq<Field>) {
    forall i :: 0 <= i < |fields| ==> ValidField(fields[i])
  }

  /** The layout of a format, or InvalidFormat. */
  function LayoutOf(format: string): (r: Result<Layout>)
    ensures r.Ok? ==> WellLaid(r.value) && r.value.littleEndian == IsLittleEndian(format)
    ensures r.Err? ==> r.error == InvalidFormat
  {
    match Tokenize(Body(format))
    case None => Err(InvalidFormat)
    case Some(ts) =>
      TokenizeSound(Body(format));
      FieldsWellLaid(ts);
      Ok(Layout(IsLittleEndian(format), FieldsOf(ts), SizeOf(ts)))
  }

  /**
   * struct(format) of static/main.js:27-33: checks the format, then walks its
   * tokens, pushing one field per repetition and growing the size by the
   * slot width each time.
   */
  method Compile(format: string) returns (r: Result<Layout>)
    ensures r == LayoutOf(format)
  {
    var tokens := Tokenize(Body(format));
    if tokens.None? {
      assert LayoutOf(format) == Err(InvalidFormat);
      return Err(InvalidFormat);
    }
    var ts := tokens.value;
    var fields: seq<Field> := [];
    var size: nat := 0;
    for t := 0 to |ts|
      invariant fields == FieldsOf(ts[..t])
      invariant size == SizeOf(ts[..t])
    {
      PrefixSnoc(ts, t);
      fields, size := PushStep(StepOf(ts[t]), fields, size);
    }
    assert ts[..|ts|] == ts;
    LayoutOfTokens(format, ts);
    return Ok(Layout(IsLittleEndian(format), fields, size));
  }

  /** One token's repetitions: a field pushed per repetition (none for padding), the size grown by the width each time. */
  method PushStep(step: Step, fields: seq<Field>, size: nat) returns (fields': seq<Field>, size': nat)
    ensures fields' == fields + StepFields(step, size, step.reps)
    ensures size' == size + step.reps * step.width
  {
    fields', size' := fields, size;
    for i := 0 to step.reps
      invariant fields' == fields + StepFields(step, size, i)
      invariant size' == size + i * step.width
    {
      StepFieldsSnoc(step, size, i);
      if step.kind.Some? {
        fields' := fields' + [Field(step.kind.value, size', step.width)];
      }
      size' := size' + step.width;
      MulSucc(i, step.width);
    }
  }

  /** The layout of an accepted format is the layout of its tokens. */
  lemma LayoutOfTokens(format: string, ts: seq<Token>)
    requires Tokenize(Body(format)) == Some(ts)
    ensures LayoutOf(format) == Ok(Layout(IsLittleEndian(format), FieldsOf(ts), SizeOf(ts)))
  {
  }

  lemma MulSucc(i: nat, w: nat)
    ensures (i + 1) * w == i * w + w
  {
  }

  /** Extending a token prefix by one token appends that token's step. */
  lemma PrefixSnoc(ts: seq<Token>, t: nat)
    requires t < |ts|
    ensures var s := StepOf(ts[t]);
      && SizeOf(ts[..t + 1]) == SizeOf(ts[..t]) + s.reps * s.width
      && FieldsOf(ts[..t + 1]) == FieldsOf(ts[..t]) + StepFields(s, SizeOf(ts[..t]), s.reps)
  {
    assert ts[..t + 1][..t] == ts[..t];
  }

  // ---------------------------------------------------------------------------
  // The grammar: Tokenize accepts exactly the spellings of well-formed tokens.
  // ---------------------------------------------------------------------------

  lemma CodeIsNotDigit(c: char)
    requires IsCode(c)
    ensures !IsDigit(c)
  {
  }

  /** The digit run of a count followed by a code is the count. */
  lemma {:induction false} DigitRunOfToken(ds: string, c: char, rest: string)
    requires forall i :: 0 <= i < |ds| ==> IsDigit(ds[i])
    requires IsCode(c)
    ensures DigitRun(ds + [c] + rest) == |ds|
  {
    if ds == [] {
      CodeIsNotDigit(c);
    } else {
      assert (ds + [c] + rest)[1..] == ds[1..] + [c] + rest;
      DigitRunOfToken(ds[1..], c, rest);
    }
  }

  /** Whatever Tokenize returns is well formed and spells its input back. */
  lemma {:induction false} TokenizeSound(s: string)
    ensures Tokenize(s).Some? ==> AllWellFormed(Tokenize(s).value) && Spell(Tokenize(s).value) == s
    decreases |s|
  {
    if s != [] && Tokenize(s).Some? {
      var k := DigitRun(s);
      TokenizeFirst(s);
      var tail := s[k + 1..];
      TokenizeSound(tail);
      var t, rest := Token(s[..k], s[k]), Tokenize(tail).value;
      SpellCons(t, rest);
      SplitAt(s, k);
      AllWellFormedCons(t, rest);
    }
  }

  /** An accepted non-empty string starts with a well-formed token, and the rest is accepted. */
  lemma TokenizeFirst(s: string)
    requires s != [] && Tokenize(s).Some?
    ensures var k := DigitRun(s);
      && k < |s| && WellFormed(Token(s[..k], s[k])) && Tokenize(s[k + 1..]).Some?
      && Tokenize(s).value == [Token(s[..k], s[k])] + Tokenize(s[k + 1..]).value
  {
  }

  lemma SpellCons(t: Token, rest: seq<Token>)
    ensures Spell([t] + rest) == t.digits + [t.code] + Spell(rest)
  {
    assert ([t] + rest)[1..] == rest;
  }

  lemma SplitAt(s: string, k: nat)
    requires k < |s|
    ensures s == s[..k] + [s[k]] + s[k + 1..]
  {
  }

  /** A well-formed token followed by well-formed tokens. */
  lemma AllWellFormedCons(t: Token, rest: seq<Token>)
    requires WellFormed(t) && AllWellFormed(rest)
    ensures AllWellFormed([t] + rest)
  {
    forall i | 0 <= i < |[t] + rest| ensures WellFormed(([t] + rest)[i]) {
      if i > 0 {
        assert ([t] + rest)[i] == rest[i - 1];
      }
    }
  }

  /** Every spelling of well-formed tokens is accepted, and read back as those tokens. */
  lemma {:induction false} TokenizeComplete(ts: seq<Token>)
    requires AllWellFormed(ts)
    ensures Tokenize(Spell(ts)) == Some(ts)
  {
    if ts != [] {
      var t := ts[0];
      var rest := Spell(ts[1..]);
      var s := Spell(ts);
      assert s == t.digits + [t.code] + rest;
      DigitRunOfToken(t.digits, t.code, rest);
      assert s[..|t.digits|] == t.digits;
      assert s[|t.digits|] == t.code;
      assert s[|t.digits| + 1..] == rest;
      assert AllWellFormed(ts[1..]) by {
        forall i | 0 <= i < |ts| - 1 ensures WellFormed(ts[1..][i]) {
          assert ts[1..][i] == ts[i + 1];
        }
      }
      TokenizeComplete(ts[1..]);
      assert [ts[0]] + ts[1..] == ts;
    }
  }

  /** A format is accepted exactly when its body spells well-formed tokens. */
  lemma AcceptedIffSpelled(format: string, ts: seq<Token>)
    ensures (AllWellFormed(ts) && Body(format) == Spell(ts)) ==> LayoutOf(format).Ok?
    ensures LayoutOf(format).Ok? ==> Spell(Tokenize(Body(format)).value) == Body(format)
  {
    TokenizeSound(Body(format));
    if AllWellFormed(ts) && Body(format) == Spell(ts) {
      TokenizeComplete(ts);
    }
  }

  // ---------------------------------------------------------------------------
  // Layout properties.
  // ---------------------------------------------------------------------------

  /** A well-formed count is at least 1. */
  lemma {:induction false} DecimalValuePositive(ds: string)
    requires ds != [] && ds[0] != '0'
    requires forall i :: 0 <= i < |ds| ==> IsDigit(ds[i])
    ensures DecimalValue(ds) >= 1
  {
    if |ds| > 1 {
      DecimalValuePositive(ds[..|ds| - 1]);
    }
  }

  lemma CountPositive(t: Token)
    requires WellFormed(t)
    ensures Count(t) >= 1
  {
    if t.digits != [] {
      DecimalValuePositive(t.digits);
    }
  }

  lemma MulMono(a: nat, b: nat, w: nat)
    requires a <= b
    ensures a * w <= b * w
  {
    assert b * w == a * w + (b - a) * w;
  }

  /** The fields of one step lie in order inside [base, base + reps * width). */
  lemma StepFieldsPacked(s: Step, base: nat)
    requires s.kind.Some? ==> s.width >= 1
    ensures Packed(StepFields(s, base, s.reps), base, base + s.reps * s.width)
  {
    var fs := StepFields(s, base, s.reps);
    forall i | 0 <= i < |fs|
      ensures base <= fs[i].offset && fs[i].offset + fs[i].width <= base + s.reps * s.width
    {
      MulMono(i + 1, s.reps, s.width);
    }
    forall i, j | 0 <= i < j < |fs|
      ensures fs[i].offset + fs[i].width <= fs[j].offset
    {
      MulMono(i + 1, j, s.width);
    }
  }

  /** The fields of a step are valid for their kind when the token is well formed. */
  lemma StepFieldsValid(t: Token, base: nat)
    requires WellFormed(t)
    ensures var s := StepOf(t);
      (s.kind.Some? ==> s.width >= 1)
      && AllValid(StepFields(s, base, s.reps))
  {
    CountPositive(t);
  }

  /** Compiled fields are valid, in order, non-overlapping and inside [0, size). */
  lemma {:induction false} FieldsWellLaid(ts: seq<Token>)
    requires AllWellFormed(ts)
    ensures WellLaid(Layout(false, FieldsOf(ts), SizeOf(ts)))
  {
    if ts != [] {
      var pre := ts[..|ts| - 1];
      var t := ts[|ts| - 1];
      var s := StepOf(t);
      var base := SizeOf(pre);
      AllWellFormedSplit(ts);
      FieldsWellLaid(pre);
      assert WellFormed(t);
      var a, b := FieldsOf(pre), StepFields(s, base, s.reps);
      assert FieldsOf(ts) == a + b && SizeOf(ts) == base + s.reps * s.width;
      StepFieldsValid(t, base);
      StepFieldsPacked(s, base);
      var hi := SizeOf(ts);
      MulMono(0, s.reps, s.width);
      assert Packed(a, 0, base);
      assert Packed(b, base, hi);
      PackedAppend(a, b, base, hi);
      AllValidAppend(a, b);
      assert WellLaid(Layout(false, a + b, SizeOf(ts)));
    }
  }

  /** Valid fields followed by valid fields are valid. */
  lemma AllValidAppend(a: seq<Field>, b: seq<Field>)
    requires AllValid(a) && AllValid(b)
    ensures AllValid(a + b)
  {
    forall i | 0 <= i < |a + b| ensures ValidField((a + b)[i]) {
      if i >= |a| {
        assert (a + b)[i] == b[i - |a|];
      }
    }
  }

  /** The tokens before the last of well-formed tokens, and the last, are well formed. */
  lemma AllWellFormedSplit(ts: seq<Token>)
    requires ts != [] && AllWellFormed(ts)
    ensures AllWellFormed(ts[..|ts| - 1]) && WellFormed(ts[|ts| - 1])
  {
    var pre := ts[..|ts| - 1];
    forall i | 0 <= i < |pre| ensures WellFormed(pre[i]) {
      assert pre[i] == ts[i];
    }
  }

  /** Fields packed in [0, mid) followed by fields packed in [mid, hi) are packed in [0, hi). */
  lemma PackedAppend(a: seq<Field>, b: seq<Field>, mid: nat, hi: nat)
    requires mid <= hi && Packed(a, 0, mid) && Packed(b, mid, hi)
    ensures Packed(a + b, 0, hi)
  {
    forall i | 0 <= i < |a + b|
      ensures (a + b)[i].offset + (a + b)[i].width <= hi
    {
      if i >= |a| {
        assert (a + b)[i] == b[i - |a|];
      }
    }
    forall i, j | 0 <= i < j < |a + b|
      ensures (a + b)[i].offset + (a + b)[i].width <= (a + b)[j].offset
    {
      if j < |a| {
      } else if i < |a| {
        assert (a + b)[j] == b[j - |a|];
      } else {
        assert (a + b)[i] == b[i - |a|] && (a + b)[j] == b[j - |a|];
      }
    }
  }

  /** The sum of the widths of some fields. */
  function SumWidths(fs: seq<Field>): nat {
    if fs == [] then 0 else SumWidths(fs[..|fs| - 1]) + fs[|fs| - 1].width
  }

  /** The bytes of padding ('x') among the tokens. */
  function PadBytes(ts: seq<Token>): nat {
    if ts == [] then 0
    else
      var s := StepOf(ts[|ts| - 1]);
      PadBytes(ts[..|ts| - 1]) + (if s.kind.None? then s.reps * s.width else 0)
  }

  lemma {:induction false} SumWidthsAppend(a: seq<Field>, b: seq<Field>)
    ensures SumWidths(a + b) == SumWidths(a) + SumWidths(b)
    decreases |b|
  {
    if b == [] {
      assert a + b == a;
    } else {
      assert (a + b)[..|a + b| - 1] == a + b[..|b| - 1];
      SumWidthsAppend(a, b[..|b| - 1]);
    }
  }

  lemma {:induction false} StepFieldsWidths(s: Step, base: nat, n: nat)
    requires s.kind.Some?
    ensures SumWidths(StepFields(s, base, n)) == n * s.width
  {
    if n > 0 {
      assert StepFields(s, base, n)[..n - 1] == StepFields(s, base, n - 1);
      StepFieldsWidths(s, base, n - 1);
    }
  }

  /** The size is the sum of the field widths plus the padding bytes. */
  lemma {:induction false} SizeIsSumOfWidths(ts: seq<Token>)
    ensures SizeOf(ts) == SumWidths(FieldsOf(ts)) + PadBytes(ts)
  {
    if ts != [] {
      var pre := ts[..|ts| - 1];
      var s := StepOf(ts[|ts| - 1]);
      SizeIsSumOfWidths(pre);
      SumWidthsAppend(FieldsOf(pre), StepFields(s, SizeOf(pre), s.reps));
      if s.kind.Some? {
        StepFieldsWidths(s, SizeOf(pre), s.reps);
      }
    }
  }

  /** Appending a token to a token sequence appends that token's step. */
  lemma FieldsOfSnoc(pre: seq<Token>, t: Token)
    ensures SizeOf(pre + [t]) == SizeOf(pre) + StepOf(t).reps * StepOf(t).width
    ensures FieldsOf(pre + [t]) == FieldsOf(pre) + StepFields(StepOf(t), SizeOf(pre), StepOf(t).reps)
  {
    assert (pre + [t])[..|pre|] == pre;
  }

  /** A padding token adds bytes to the size and no field. */
  lemma PadSnoc(pre: seq<Token>, t: Token)
    requires StepOf(t).kind.None?
    ensures SizeOf(pre + [t]) == SizeOf(pre) + StepOf(t).reps * StepOf(t).width
    ensures FieldsOf(pre + [t]) == FieldsOf(pre)
  {
    FieldsOfSnoc(pre, t);
    assert FieldsOf(pre) + [] == FieldsOf(pre);
  }

  /** Appending a token that lays out one field of kind k and width w, at the current size. */
  lemma SnocOne(pre: seq<Token>, t: Token, fs: seq<Field>, size: nat, k: Kind, w: nat)
    requires FieldsOf(pre) == fs && SizeOf(pre) == size && StepOf(t) == Step(1, w, Some(k))
    ensures FieldsOf(pre + [t]) == fs + [Field(k, size, w)] && SizeOf(pre + [t]) == size + w
  {
    FieldsOfSnoc(pre, t);
    assert StepFields(StepOf(t), size, 1) == [Field(k, size, w)];
  }

  /** Appending a padding token of n bytes. */
  lemma SnocPad(pre: seq<Token>, t: Token, fs: seq<Field>, size: nat, n: nat)
    requires FieldsOf(pre) == fs && SizeOf(pre) == size && StepOf(t) == Step(n, 1, None)
    ensures FieldsOf(pre + [t]) == fs && SizeOf(pre + [t]) == size + n
  {
    PadSnoc(pre, t);
  }

  /** The tokens of the tile-update frame. */
  lemma TileUpdateTokens()
    ensures Tokenize("BBxxI") == Some([Token("", 'B'), Token("", 'B'), Token("", 'x'), Token("", 'x'), Token("", 'I')])
  {
    var tb, tx, ti := Token("", 'B'), Token("", 'x'), Token("", 'I');
    var ts := [tb, tb, tx, tx, ti];
    assert Spell(ts[4..]) == "I";
    assert Spell(ts[3..]) == "xI";
    assert Spell(ts[2..]) == "xxI";
    assert Spell(ts[1..]) == "BxxI";
    assert Spell(ts) == "BBxxI";
    TokenizeComplete(ts);
  }

  lemma TileUpdateFields(tb: Token, tx: Token, ti: Token)
    requires tb == Token("", 'B') && tx == Token("", 'x') && ti == Token("", 'I')
    ensures FieldsOf([tb, tb, tx, tx, ti]) == [Field(UInt8, 0, 1), Field(UInt8, 1, 1), Field(UInt32, 4, 4)]
    ensures SizeOf([tb, tb, tx, tx, ti]) == 8
  {
    assert StepOf(tb) == Step(1, 1, Some(UInt8));
    assert StepOf(tx) == Step(1, 1, None);
    assert StepOf(ti) == Step(1, 4, Some(UInt32));
    var f0, f1, f4 := Field(UInt8, 0, 1), Field(UInt8, 1, 1), Field(UInt32, 4, 4);
    var s1 := [] + [tb];
    SnocOne([], tb, [], 0, UInt8, 1);
    var s2 := s1 + [tb];
    SnocOne(s1, tb, [f0], 1, UInt8, 1);
    var s3 := s2 + [tx];
    SnocPad(s2, tx, [f0, f1], 2, 1);
    var s4 := s3 + [tx];
    SnocPad(s3, tx, [f0, f1], 3, 1);
    SnocOne(s4, ti, [f0, f1], 4, UInt32, 4);
    assert s4 + [ti] == [tb, tb, tx, tx, ti];
  }

  /** The layout of the tile-update frame: opcode, color, two pad bytes, a 32-bit cell index. */
  lemma TileUpdateLayout()
    ensures LayoutOf("BBxxI") == Ok(Layout(false, [Field(UInt8, 0, 1), Field(UInt8, 1, 1), Field(UInt32, 4, 4)], 8))
  {
    TileUpdateTokens();
    TileUpdateFields(Token("", 'B'), Token("", 'x'), Token("", 'I'));
  }

  /** The count of the 's' token of the client's user-id frames. */
  lemma ThirtySeven()
    ensures WellFormed(Token("37", 's')) && Count(Token("37", 's')) == 37
  {
    assert "37"[..1] == "3";
    assert DecimalValue("3") == 3;
  }

  /** The layout of the tile-increment frame: opcode and count. */
  lemma CounterLayout()
    ensures LayoutOf("BB") == Ok(Layout(false, [Field(UInt8, 0, 1), Field(UInt8, 1, 1)], 2))
  {
    var tb := Token("", 'B');
    var ts := [tb, tb];
    assert Spell(ts[1..]) == "B";
    assert Spell(ts) == "BB";
    TokenizeComplete(ts);
    CounterFields(tb);
  }

  lemma CounterFields(tb: Token)
    requires tb == Token("", 'B')
    ensures FieldsOf([tb, tb]) == [Field(UInt8, 0, 1), Field(UInt8, 1, 1)] && SizeOf([tb, tb]) == 2
  {
    assert StepOf(tb) == Step(1, 1, Some(UInt8));
    var s1 := [] + [tb];
    SnocOne([], tb, [], 0, UInt8, 1);
    SnocOne(s1, tb, [Field(UInt8, 0, 1)], 1, UInt8, 1);
    assert s1 + [tb] == [tb, tb];
  }

  /** The layout of the user-count frame: opcode, a pad byte, a 16-bit count. */
  lemma UserCountLayout()
    ensures LayoutOf("BxH") == Ok(Layout(false, [Field(UInt8, 0, 1), Field(UInt16, 2, 2)], 4))
  {
    var tb, tx, th := Token("", 'B'), Token("", 'x'), Token("", 'H');
    var ts := [tb, tx, th];
    assert Spell(ts[2..]) == "H";
    assert Spell(ts[1..]) == "xH";
    assert Spell(ts) == "BxH";
    TokenizeComplete(ts);
    UserCountFields(tb, tx, th);
  }

  lemma UserCountFields(tb: Token, tx: Token, th: Token)
    requires tb == Token("", 'B') && tx == Token("", 'x') && th == Token("", 'H')
    ensures FieldsOf([tb, tx, th]) == [Field(UInt8, 0, 1), Field(UInt16, 2, 2)] && SizeOf([tb, tx, th]) == 4
  {
    assert StepOf(tb) == Step(1, 1, Some(UInt8));
    assert StepOf(tx) == Step(1, 1, None);
    assert StepOf(th) == Step(1, 2, Some(UInt16));
    var s1 := [] + [tb];
    SnocOne([], tb, [], 0, UInt8, 1);
    var s2 := s1 + [tx];
    SnocPad(s1, tx, [Field(UInt8, 0, 1)], 1, 1);
    SnocOne(s2, th, [Field(UInt8, 0, 1)], 2, UInt16, 2);
    assert s2 + [th] == [tb, tx, th];
  }

  /** The layout of one color record: four unsigned bytes. */
  lemma ColorLayout()
    ensures LayoutOf("BBBB") == Ok(Layout(false, [Field(UInt8, 0, 1), Field(UInt8, 1, 1), Field(UInt8, 2, 1), Field(UInt8, 3, 1)], 4))
  {
    var tb := Token("", 'B');
    var ts := [tb, tb, tb, tb];
    assert Spell(ts[3..]) == "B";
    assert Spell(ts[2..]) == "BB";
    assert Spell(ts[1..]) == "BBB";
    assert Spell(ts) == "BBBB";
    TokenizeComplete(ts);
    ColorFields(tb);
  }

  lemma ColorFields(tb: Token)
    requires tb == Token("", 'B')
    ensures FieldsOf([tb, tb, tb, tb]) == [Field(UInt8, 0, 1), Field(UInt8, 1, 1), Field(UInt8, 2, 1), Field(UInt8, 3, 1)]
    ensures SizeOf([tb, tb, tb, tb]) == 4
  {
    assert StepOf(tb) == Step(1, 1, Some(UInt8));
    var f0, f1, f2 := Field(UInt8, 0, 1), Field(UInt8, 1, 1), Field(UInt8, 2, 1);
    var s1 := [] + [tb];
    SnocOne([], tb, [], 0, UInt8, 1);
    var s2 := s1 + [tb];
    SnocOne(s1, tb, [f0], 1, UInt8, 1);
    var s3 := s2 + [tb];
    SnocOne(s2, tb, [f0, f1], 2, UInt8, 1);
    SnocOne(s3, tb, [f0, f1, f2], 3, UInt8, 1);
    assert s3 + [tb] == [tb, tb, tb, tb];
  }

  /** The layout of a request carrying the user id: opcode and a 37-byte string. */
  lemma UserIdLayout()
    ensures LayoutOf("B37s") == Ok(Layout(false, [Field(UInt8, 0, 1), Field(FixedString, 1, 37)], 38))
  {
    var tb, ts37 := Token("", 'B'), Token("37", 's');
    ThirtySeven();
    var ts := [tb, ts37];
    assert Spell(ts[1..]) == "37s";
    assert Spell(ts) == "B37s";
    TokenizeComplete(ts);
    UserIdFields(tb, ts37);
  }

  lemma UserIdFields(tb: Token, ts37: Token)
    requires tb == Token("", 'B') && ts37 == Token("37", 's')
    ensures FieldsOf([tb, ts37]) == [Field(UInt8, 0, 1), Field(FixedString, 1, 37)] && SizeOf([tb, ts37]) == 38
  {
    ThirtySeven();
    assert StepOf(tb) == Step(1, 1, Some(UInt8));
    assert StepOf(ts37) == Step(1, 37, Some(FixedString));
    var s1 := [] + [tb];
    SnocOne([], tb, [], 0, UInt8, 1);
    SnocOne(s1, ts37, [Field(UInt8, 0, 1)], 1, FixedString, 37);
    assert s1 + [ts37] == [tb, ts37];
  }

  /** The tokens of the tile-post frame. */
  lemma PostTileTokens()
    ensures Tokenize("B37sHHH") == Some([Token("", 'B'), Token("37", 's'), Token("", 'H'), Token("", 'H'), Token("", 'H')])
  {
    var tb, ts37, th := Token("", 'B'), Token("37", 's'), Token("", 'H');
    ThirtySeven();
    var ts := [tb, ts37, th, th, th];
    assert Spell(ts[4..]) == "H";
    assert Spell(ts[3..]) == "HH";
    assert Spell(ts[2..]) == "HHH";
    assert Spell(ts[1..]) == "37sHHH";
    assert Spell(ts) == "B37sHHH";
    TokenizeComplete(ts);
  }

  lemma PostTileFields(tb: Token, ts37: Token, th: Token)
    requires tb == Token("", 'B') && ts37 == Token("37", 's') && th == Token("", 'H')
    ensures FieldsOf([tb, ts37, th, th, th])
      == [Field(UInt8, 0, 1), Field(FixedString, 1, 37), Field(UInt16, 38, 2), Field(UInt16, 40, 2), Field(UInt16, 42, 2)]
    ensures SizeOf([tb, ts37, th, th, th]) == 44
  {
    UserIdFields(tb, ts37);
    assert StepOf(th) == Step(1, 2, Some(UInt16));
    var f0, f1, fx, fy := Field(UInt8, 0, 1), Field(FixedString, 1, 37), Field(UInt16, 38, 2), Field(UInt16, 40, 2);
    var s2 := [tb, ts37];
    var s3 := s2 + [th];
    SnocOne(s2, th, [f0, f1], 38, UInt16, 2);
    var s4 := s3 + [th];
    SnocOne(s3, th, [f0, f1, fx], 40, UInt16, 2);
    SnocOne(s4, th, [f0, f1, fx, fy], 42, UInt16, 2);
    assert s4 + [th] == [tb, ts37, th, th, th];
  }

  /** The layout of the tile-post frame: opcode, user id, X, Y and color, 44 bytes. */
  lemma PostTileLayout()
    ensures LayoutOf("B37sHHH") == Ok(Layout(false,
      [Field(UInt8, 0, 1), Field(FixedString, 1, 37), Field(UInt16, 38, 2), Field(UInt16, 40, 2), Field(UInt16, 42, 2)], 44))
  {
    PostTileTokens();
    PostTileFields(Token("", 'B'), Token("37", 's'), Token("", 'H'));
  }
}
