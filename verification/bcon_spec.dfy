// The BCON state machine on values: one step for each entry of the list, with its two stacks.
module BconSpec {
  import opened Bytes
  import opened Wrappers
  import F = BsonFormat
  import opened BsonSpec

  // An entry of a BCON list. The C union is untagged; the constructor says which member was stored.
  // Ref is a pointer to a scalar, Ptr a pointer to a pointer, which may be null.
  datatype Bcon =
    | S(s: CString)
    | Dbl(bits: F.Bits64)
    | D(list: seq<Bcon>)
    | A(list: seq<Bcon>)
    | B(b: bool)
    | T(seconds: int)
    | I(i: int32)
    | L(bits: F.Bits64)
    | Ref(scalar: Bcon)
    | Ptr(target: Option<Bcon>)

  datatype Token = Default | End | Typespec | OpenBrace | CloseBrace | OpenBracket | CloseBracket

  const COLON: byte := 0x3A
  const UNDERSCORE: byte := 0x5F
  const CH_P: byte := 0x50
  const CH_R: byte := 0x52

  // bcon_token.
  function TokenOf(s: CString): Token {
    if |s| == 4 then
      if s[0] == COLON && s[3] == COLON && (s[1] == UNDERSCORE || s[1] == CH_P || s[1] == CH_R) then Typespec
      else Default
    else if |s| == 1 then
      if s[0] == 0x7B then OpenBrace
      else if s[0] == 0x7D then CloseBrace
      else if s[0] == 0x5B then OpenBracket
      else if s[0] == 0x5D then CloseBracket
      else if s[0] == 0x2E then End
      else Default
    else Default
  }

  // The decimal numeral that bson_numstr writes.
  function NumStr(n: nat): (s: CString)
    ensures s != []
  {
    if n < 10 then [0x30 + n] else NumStr(n / 10) + [0x30 + n % 10]
  }

  function Numeral(s: seq<byte>): int {
    if s == [] then 0 else var digit: int := s[|s| - 1]; 10 * Numeral(s[..|s| - 1]) + (digit - 0x30)
  }

  lemma {:induction false} NumStrIsNumeral(n: nat)
    ensures Numeral(NumStr(n)) == n
  {
    if n >= 10 {
      NumStrIsNumeral(n / 10);
      assert NumStr(n)[..|NumStr(n)| - 1] == NumStr(n / 10);
    } else {
      assert NumStr(n)[..0] == [];
    }
  }

  // The largest index whose numeral fits the 9-byte key buffer.
  const MAX_INDEX: nat := 99_999_999
  const STACK_SIZE: nat := 1024

  // The key buffer holds eight digits.
  lemma NumeralFits(n: nat)
    ensures |NumStr(n)| <= 8 <==> n <= 99_999_999
  {
    hide NumStr;
    Longer(n);
    Longer(n / 10);
    Longer(n / 10 / 10);
    Longer(n / 10 / 10 / 10);
    Longer(n / 10 / 10 / 10 / 10);
    Longer(n / 10 / 10 / 10 / 10 / 10);
    Longer(n / 10 / 10 / 10 / 10 / 10 / 10);
    Longer(n / 10 / 10 / 10 / 10 / 10 / 10 / 10);
  }

  lemma Longer(n: nat)
    ensures |NumStr(n)| == if n < 10 then 1 else |NumStr(n / 10)| + 1
  {
  }

  function HexByte(c: byte): (n: byte)
    ensures n < 16
  {
    if 0x30 <= c <= 0x39 then c - 0x30
    else if 0x41 <= c <= 0x46 then c - 0x41 + 10
    else if 0x61 <= c <= 0x66 then c - 0x61 + 10
    else 0
  }

  // bson_oid_from_string.
  function OidOf(s: seq<byte>, n: nat): (o: seq<byte>)
    requires 2 * n <= |s|
    ensures |o| == n
  {
    if n == 0 then [] else OidOf(s, n - 1) + [HexByte(s[2 * n - 2]) * 16 + HexByte(s[2 * n - 1])]
  }

  function Millis(seconds: int): F.Bits64 {
    LittleEndian(seconds * 1000 % 0x1_0000_0000_0000_0000, 8)
  }

  // The BSON value of a scalar entry under the type character u; None if the entry is not of that type. A null is
  // appended without a look at the entry.
  function ScalarValue(u: byte, v: Bcon): (r: Option<F.Value>)
    ensures r.Some? ==> !r.value.Document? && !r.value.Array?
  {
    if u == 0x76 then Some(F.Null)
    else match v
    case S(s) =>
      if u == UNDERSCORE || u == 0x73 then Some(F.Str(s))
      else if u == 0x78 then Some(F.Symbol(s))
      else if u == 0x6F && |s| >= 24 then Some(F.Oid(OidOf(s, 12)))
      else None
    case Dbl(bits) => if u == 0x66 then Some(F.Double(bits)) else None
    case B(b) => if u == 0x62 then Some(F.Bool(b)) else None
    case T(seconds) => if u == 0x74 then Some(F.Date(Millis(seconds))) else None
    case I(i) => if u == 0x69 then Some(F.Int(i)) else None
    case L(bits) => if u == 0x6C then Some(F.Long(bits)) else None
    case _ => None
  }

  datatype Mode = Element | DocSpecValue | DocValue | ArraySpecValue | ArrayValue

  // The states a nested document or array returns to.
  type Return = mode: Mode | mode == Element || mode == ArraySpecValue witness Element

  // key is kept only while it is live, between a document key and its value. whole is a record that the source does not
  // keep: whether every interpolated list read so far was complete.
  datatype Machine = Machine(
    mode: Mode, key: Option<CString>, typespec: Option<CString>, docStack: seq<Return>,
    arrayIndex: nat, indexStack: seq<nat>, ops: seq<Op>, ok: bool, ended: bool, whole: bool)

  function Begin(start: Return): Machine {
    Machine(start, None, None, [], 0, [], [], true, false, true)
  }

  // The run of a list has met its end token in its start state, with nothing open, and so has every list in it.
  predicate Complete(m: Machine, start: Return) {
    m.mode == start && m.docStack == [] && m.indexStack == [] && m.ok && m.ended && m.whole
  }

  // The builder calls of bson_bcon_key_value, whether it returns BCON_OK, and whether an interpolated list was
  // complete; None where the source asserts or misreads the union.
  function KeyValue(key: CString, typespec: Option<CString>, v: Bcon): Option<(seq<Op>, bool, bool)>
    requires typespec.Some? ==> |typespec.value| == 4
    decreases v, 1
  {
    var p := if typespec.Some? then typespec.value[1] else UNDERSCORE;
    var u := if typespec.Some? then typespec.value[2] else UNDERSCORE;
    if p == UNDERSCORE then Direct(key, u, v)
    else if p == CH_R then
      if u == UNDERSCORE || u == 0x76 then None
      else if v.Ref? then (if v.scalar.S? || v.scalar.D? || v.scalar.A? then None else Direct(key, u, v.scalar))
      else if v.S? || v.D? || v.A? then Direct(key, u, v)
      else None
    else if !v.Ptr? then None
    else if v.target.None? then Some(([], true, true))
    else if u == UNDERSCORE || u == 0x76 then None
    else Direct(key, u, v.target.value)
  }

  function Direct(key: CString, u: byte, v: Bcon): Option<(seq<Op>, bool, bool)>
    decreases v, 0
  {
    if v.D? && u == 0x44 then Interpolated(key, false, Compile(v.list, Element))
    else if v.A? && u == 0x41 then Interpolated(key, true, Compile(v.list, ArraySpecValue))
    else
      match ScalarValue(u, v)
      case None => None
      case Some(value) => Some(([Append(key, value)], true, true))
  }

  // An interpolated list is compiled by a machine of its own, between start and finish.
  function Interpolated(key: CString, isArray: bool, inner: Option<Machine>): Option<(seq<Op>, bool, bool)> {
    match inner
    case None => None
    case Some(m) =>
      var start := if isArray then ArraySpecValue else Element;
      Some(([Start(key, isArray)] + m.ops + [Close], m.mode == start, Complete(m, start)))
  }

  function AddValue(m: Machine, key: CString, v: Bcon, next: Return): Option<Machine>
    requires m.typespec.Some? ==> |m.typespec.value| == 4
    decreases v, 2
  {
    match KeyValue(key, m.typespec, v)
    case None => None
    case Some(r) => Some(m.(ops := m.ops + r.0, ok := r.1, whole := m.whole && r.2, mode := next, key := None))
  }

  function Pushed(m: Machine, op: Op, back: Return, next: Return): Option<Machine> {
    if |m.docStack| >= STACK_SIZE then None
    else Some(m.(ops := m.ops + [op], docStack := m.docStack + [back], mode := next, key := None))
  }

  function PushedArray(m: Machine, op: Op, back: Return): Option<Machine> {
    if |m.indexStack| >= STACK_SIZE then None
    else Pushed(m.(indexStack := m.indexStack + [m.arrayIndex], arrayIndex := 0), op, back, ArraySpecValue)
  }

  function Popped(m: Machine): Option<Machine> {
    if m.docStack == [] then None
    else
      var n := |m.docStack| - 1;
      Some(m.(ops := m.ops + [Close], mode := m.docStack[n], docStack := m.docStack[..n]))
  }

  function PoppedArray(m: Machine): Option<Machine> {
    var n := |m.indexStack|;
    if n == 0 then None else Popped(m.(arrayIndex := m.indexStack[n - 1], indexStack := m.indexStack[..n - 1]))
  }

  predicate Sane(m: Machine) {
    && (m.typespec.Some? ==> |m.typespec.value| == 4 && TokenOf(m.typespec.value) == Typespec)
    && (m.key.Some? <==> m.mode == DocSpecValue || m.mode == DocValue)
  }

  function StepElement(m: Machine, v: Bcon): (r: Option<Machine>)
    requires Sane(m) && m.mode == Element
    ensures r.Some? ==> Sane(r.value)
  {
    if !v.S? then None
    else match TokenOf(v.s)
      case CloseBrace => Popped(m)
      case End => Some(m.(ended := true))
      case _ => Some(m.(key := Some(v.s), mode := DocSpecValue))
  }

  function StepDocSpecValue(m: Machine, v: Bcon): (r: Option<Machine>)
    requires Sane(m) && m.mode == DocSpecValue
    ensures r.Some? ==> Sane(r.value)
    decreases v, 3
  {
    if !v.S? then None
    else match TokenOf(v.s)
      case Typespec => Some(m.(typespec := Some(v.s), mode := DocValue))
      case OpenBrace => Pushed(m, Start(m.key.value, false), Element, Element)
      case OpenBracket => PushedArray(m, Start(m.key.value, true), Element)
      case End => Some(m.(ended := true))
      case _ => AddValue(m, m.key.value, v, Element)
  }

  function StepArrayEntry(m: Machine, v: Bcon): (r: Option<Machine>)
    requires Sane(m) && m.mode == ArraySpecValue && v.S?
    ensures r.Some? ==> Sane(r.value)
    decreases v, 3
  {
    if m.arrayIndex > MAX_INDEX then None
    else if TokenOf(v.s) == OpenBrace then
      Pushed(Counted(m), Start(NumStr(m.arrayIndex), false), ArraySpecValue, Element)
    else if TokenOf(v.s) == OpenBracket then PushedArray(Counted(m), Start(NumStr(m.arrayIndex), true), ArraySpecValue)
    else AddValue(Counted(m), NumStr(m.arrayIndex), v, ArraySpecValue)
  }

  function StepArraySpecValue(m: Machine, v: Bcon): (r: Option<Machine>)
    requires Sane(m) && m.mode == ArraySpecValue
    ensures r.Some? ==> Sane(r.value)
    decreases v, 4
  {
    if !v.S? then None
    else
      var token := TokenOf(v.s);
      if token == Typespec then Some(m.(typespec := Some(v.s), mode := ArrayValue))
      else if token == CloseBracket then PoppedArray(m)
      else if token == End then Some(m.(ended := true))
      else StepArrayEntry(m, v)
  }

  // One turn of the loop of bson_append_bcon_with_state; None where it would leave an array or misread.
  function StepEntry(m: Machine, v: Bcon): (r: Option<Machine>)
    requires Sane(m)
    ensures r.Some? ==> Sane(r.value)
    decreases v, 5
  {
    match m.mode
    case Element => StepElement(m, v)
    case DocSpecValue => StepDocSpecValue(m, v)
    case DocValue => ClearSpec(AddValue(m, m.key.value, v, Element))
    case ArraySpecValue => StepArraySpecValue(m, v)
    case ArrayValue =>
      if m.arrayIndex > MAX_INDEX then None
      else ClearSpec(AddValue(Counted(m), NumStr(m.arrayIndex), v, ArraySpecValue))
  }

  function Counted(m: Machine): Machine {
    m.(arrayIndex := m.arrayIndex + 1)
  }

  function ClearSpec(m: Option<Machine>): Option<Machine> {
    if m.None? then None else Some(m.value.(typespec := None))
  }

  // The loop: it stops at an end token or at the first error, and must not run off the list.
  function Drive(m: Machine, list: seq<Bcon>): Option<Machine>
    requires Sane(m)
    decreases list, 6
  {
    if !m.ok || m.ended then Some(m)
    else if list == [] then None
    else match StepEntry(m, list[0])
      case None => None
      case Some(next) => Drive(next, list[1..])
  }

  function Compile(list: seq<Bcon>, start: Return): Option<Machine>
    decreases list, 7
  {
    Drive(Begin(start), list)
  }
}
