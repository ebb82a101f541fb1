/**
  Messages as values. The generated classes differ only in their field tables,
  so a message type is a Schema: one Field per member in declaration order, as
  the comments and `case` labels of the generated parser list them. A message
  value holds one slot per field: the values that are present in it.
 */
module Messages {
  import opened Wire

  datatype Kind =
    | KUInt32
    | KInt32
    | KBool(dflt: bool)
    | KEnum(max: nat)
    | KFloat
    | KBytes
    | KMessage(sub: Schema)

  datatype Rule = Optional | Required | Repeated

  datatype Field = Field(num: nat, rule: Rule, kind: Kind)

  /** A group of fields whose presence bits the generated code tests with one mask. */
  datatype MaskGroup = MaskGroup(start: nat, members: seq<nat>)

  datatype Schema = Schema(fields: seq<Field>, groups: seq<MaskGroup>)

  /** A float is four opaque bytes (Str); an enum is its number. */
  datatype Val =
    | Num(n: int)
    | Flag(b: bool)
    | Str(s: Bytes)
    | Sub(m: Msg)

  datatype Msg = Msg(slots: seq<seq<Val>>)

  // ---------------------------------------------------------------- well-formedness

  ghost predicate ValidSchema(sch: Schema)
    decreases sch, 0
  {
    && |sch.fields| <= 32
    && (forall i :: 0 <= i < |sch.fields| ==> ValidField(sch.fields[i]))
    && (forall i, j :: 0 <= i < j < |sch.fields| ==> sch.fields[i].num < sch.fields[j].num)
  }

  ghost predicate ValidField(f: Field)
    decreases f, 0
  {
    && 1 <= f.num < MAX_FIELD
    && (f.rule.Repeated? ==> f.kind.KUInt32? || f.kind.KInt32? || f.kind.KBytes? || f.kind.KMessage?)
    && (f.kind.KEnum? ==> f.kind.max < 0x8000_0000)
    && (f.kind.KMessage? ==> ValidSchema(f.kind.sub))
  }

  predicate Shaped(sch: Schema, m: Msg) {
    |m.slots| == |sch.fields|
  }

  ghost predicate WellTyped(sch: Schema, m: Msg)
    decreases sch, 1
  {
    && Shaped(sch, m)
    && forall i :: 0 <= i < |sch.fields| ==> SlotTyped(sch.fields[i], m.slots[i])
  }

  ghost predicate SlotTyped(f: Field, x: seq<Val>)
    decreases f, 1
  {
    && (f.rule.Repeated? || |x| <= 1)
    && forall j :: 0 <= j < |x| ==> Typed(f.kind, x[j])
  }

  ghost predicate Typed(k: Kind, v: Val)
    decreases k, 0
  {
    match k
    case KUInt32 => v.Num? && 0 <= v.n < TWO32
    case KInt32 => v.Num? && -0x8000_0000 <= v.n < 0x8000_0000
    case KBool(_) => v.Flag?
    case KEnum(max) => v.Num? && 0 <= v.n <= max
    case KFloat => v.Str? && |v.s| == 4
    case KBytes => v.Str?
    case KMessage(sub) => v.Sub? && WellTyped(sub, v.m)
  }

  function Empty(sch: Schema): (m: Msg)
    ensures Shaped(sch, m)
  {
    Msg(seq(|sch.fields|, i => []))
  }

  lemma EmptyTyped(sch: Schema)
    ensures WellTyped(sch, Empty(sch))
  {
  }

  /** The message a submessage slot stands for; an absent one reads as the default instance. */
  function SubOf(sub: Schema, x: seq<Val>): (m: Msg)
    ensures Shaped(sub, m)
  {
    if x != [] && x[0].Sub? && Shaped(sub, x[0].m) then x[0].m else Empty(sub)
  }

  predicate SubMember(f: Field) {
    f.kind.KMessage?
  }

  /** The submessage that mutable_x() or add_x() returns, as it is before it is changed. */
  function SlotBase(f: Field, x: seq<Val>): (m: Msg)
    requires SubMember(f)
    ensures Shaped(f.kind.sub, m)
  {
    if f.rule.Repeated? then Empty(f.kind.sub) else SubOf(f.kind.sub, x)
  }

  /** What precedes the submessage that mutable_x() or add_x() returns. */
  function Kept(f: Field, x: seq<Val>): seq<Val> {
    if f.rule.Repeated? then x else []
  }

  // ---------------------------------------------------------------- merging

  function Merge(sch: Schema, a: Msg, b: Msg): (m: Msg)
    requires Shaped(sch, a) && Shaped(sch, b)
    ensures Shaped(sch, m)
    decreases sch, 1
  {
    Msg(seq(|sch.fields|, i requires 0 <= i < |sch.fields| => MergeSlot(sch.fields[i], a.slots[i], b.slots[i])))
  }

  /** Repeated fields append; a present scalar replaces; a present submessage merges. */
  function MergeSlot(f: Field, x: seq<Val>, y: seq<Val>): seq<Val>
    decreases f, 0
  {
    if f.rule.Repeated? then x + y
    else if y == [] then x
    else match f.kind
      case KMessage(sub) => [Sub(Merge(sub, SubOf(sub, x), SubOf(sub, y)))]
      case _ => y
  }

  // ---------------------------------------------------------------- parsing, as a fold over records

  function NaturalWireType(k: Kind): nat {
    match k
    case KFloat => FIXED32
    case KBytes => DELIMITED
    case KMessage(_) => DELIMITED
    case _ => VARINT
  }

  predicate Packable(f: Field) {
    f.rule.Repeated? && (f.kind.KUInt32? || f.kind.KInt32?)
  }

  /** The wire types a `case` of the generated switch takes; any other goes to `handle_uninterpreted`. */
  predicate WireMatches(f: Field, wt: nat) {
    wt == NaturalWireType(f.kind) || (Packable(f) && wt == DELIMITED)
  }

  function IndexOf(fs: seq<Field>, num: nat): (i: nat)
    ensures i <= |fs|
    ensures i < |fs| ==> fs[i].num == num
    ensures forall j :: 0 <= j < i ==> fs[j].num != num
  {
    if fs == [] then 0 else if fs[0].num == num then 0 else 1 + IndexOf(fs[1..], num)
  }

  /** The index of the field a tag is read into, or the number of fields if it is skipped. */
  function Target(sch: Schema, num: nat, wt: nat): (i: nat)
    ensures i <= |sch.fields|
    ensures i < |sch.fields| ==> sch.fields[i].num == num && WireMatches(sch.fields[i], wt)
  {
    var i := IndexOf(sch.fields, num);
    if i < |sch.fields| && WireMatches(sch.fields[i], wt) then i else |sch.fields|
  }

  function ToInt32(v: nat): int {
    var u := v % TWO32;
    if u < 0x8000_0000 then u else u - TWO32
  }

  /** The value of a varint for a numeric kind; none for a number outside the enum. */
  function DecodeVarint(k: Kind, v: nat): seq<Val> {
    match k
    case KUInt32 => [Num(v % TWO32)]
    case KInt32 => [Num(ToInt32(v))]
    case KBool(_) => [Flag(v % TWO32 != 0)]
    case KEnum(max) => if 0 <= ToInt32(v) <= max then [Num(ToInt32(v))] else []
    case _ => []
  }

  function DecodeScalar(k: Kind, p: Payload): seq<Val> {
    match p
    case Varint(v) => DecodeVarint(k, v)
    case Delimited(b) => [Str(b)]
    case Fixed32(b) => [Str(b)]
    case _ => []
  }

  function DecodePacked(k: Kind, s: Bytes): Option<seq<Val>>
    decreases |s|
  {
    if s == [] then Some([])
    else match ReadVarint(s, MAX_VARINT)
      case Bad => None
      case Got(v, rest) =>
        match DecodePacked(k, rest)
        case None => None
        case Some(vs) => Some(DecodeVarint(k, v) + vs)
  }

  function ApplySlot(f: Field, x: seq<Val>, p: Payload): Option<seq<Val>>
    requires WireMatches(f, WireType(p))
    decreases f, 0
  {
    match f.kind
    case KMessage(sub) =>
      var base := if f.rule.Repeated? then Empty(sub) else SubOf(sub, x);
      (match ParseInto(sub, base, p.b)
       case None => None
       case Some(m) => Some(if f.rule.Repeated? then x + [Sub(m)] else [Sub(m)]))
    case _ =>
      if f.rule.Repeated? then
        if Packable(f) && p.Delimited? then
          match DecodePacked(f.kind, p.b)
          case None => None
          case Some(vs) => Some(x + vs)
        else Some(x + DecodeScalar(f.kind, p))
      else
        var d := DecodeScalar(f.kind, p);
        Some(if d == [] then x else d)
  }

  function Apply(sch: Schema, m: Msg, r: Record): (o: Option<Msg>)
    requires Shaped(sch, m)
    ensures o.Some? ==> Shaped(sch, o.value)
    decreases sch, 1
  {
    var i := Target(sch, r.num, WireType(r.payload));
    if i == |sch.fields| then Some(m)
    else match ApplySlot(sch.fields[i], m.slots[i], r.payload)
      case None => None
      case Some(x) => Some(Msg(m.slots[i := x]))
  }

  function Fold(sch: Schema, m: Msg, rs: seq<Record>): (o: Option<Msg>)
    requires Shaped(sch, m)
    ensures o.Some? ==> Shaped(sch, o.value)
    decreases sch, 2, |rs|
  {
    if rs == [] then Some(m)
    else match Apply(sch, m, rs[0])
      case None => None
      case Some(m') => Fold(sch, m', rs[1..])
  }

  /** Parses a whole input into an existing message. */
  function ParseInto(sch: Schema, m: Msg, s: Bytes): (o: Option<Msg>)
    requires Shaped(sch, m)
    ensures o.Some? ==> Shaped(sch, o.value)
    decreases sch, 3
  {
    match Split(s)
    case None => None
    case Some(rs) => Fold(sch, m, rs)
  }

  function Parse(sch: Schema, s: Bytes): (o: Option<Msg>)
    ensures o.Some? ==> Shaped(sch, o.value)
  {
    ParseInto(sch, Empty(sch), s)
  }

  // ---------------------------------------------------------------- serializing

  /** Negative numbers are written sign-extended to 64 bits. */
  function AsVarint(v: Val): nat {
    match v
    case Num(n) => n % TWO64
    case Flag(b) => if b then 1 else 0
    case _ => 0
  }

  function AsBytes(v: Val): Bytes {
    if v.Str? then v.s else []
  }

  function ValPayload(k: Kind, v: Val): (p: Payload)
    ensures WireType(p) == NaturalWireType(k)
    decreases k, 0
  {
    match k
    case KFloat => Fixed32(AsBytes(v))
    case KBytes => Delimited(AsBytes(v))
    case KMessage(sub) => Delimited(Serialize(sub, SubOf(sub, [v])))
    case _ => Varint(AsVarint(v))
  }

  function SlotRecords(f: Field, x: seq<Val>): (rs: seq<Record>)
    ensures |rs| == |x|
    decreases f, 0
  {
    seq(|x|, j requires 0 <= j < |x| => Record(f.num, ValPayload(f.kind, x[j])))
  }

  /** The records of the fields from index i on, in field order. */
  function RecordsFrom(sch: Schema, m: Msg, i: nat): seq<Record>
    requires Shaped(sch, m) && i <= |sch.fields|
    decreases sch, 0, |sch.fields| - i
  {
    if i == |sch.fields| then []
    else SlotRecords(sch.fields[i], m.slots[i]) + RecordsFrom(sch, m, i + 1)
  }

  function Serialize(sch: Schema, m: Msg): Bytes
    requires Shaped(sch, m)
    decreases sch, 1
  {
    Join(RecordsFrom(sch, m, 0))
  }

  // ---------------------------------------------------------------- required fields

  /** Whether a required field occurs in the schema or below it. */
  predicate HasRequired(sch: Schema)
    decreases sch, 0
  {
    exists i :: 0 <= i < |sch.fields| &&
      (sch.fields[i].rule.Required? || (sch.fields[i].kind.KMessage? && HasRequired(sch.fields[i].kind.sub)))
  }

  /** Every required field is present, here and in every submessage that is present. */
  predicate Complete(sch: Schema, m: Msg)
    requires Shaped(sch, m)
    decreases sch, 1
  {
    forall i :: 0 <= i < |sch.fields| ==> SlotComplete(sch.fields[i], m.slots[i])
  }

  predicate SlotComplete(f: Field, x: seq<Val>)
    decreases f, 0
  {
    && (f.rule.Required? ==> x != [])
    && (f.kind.KMessage? ==> forall j :: 0 <= j < |x| ==> Complete(f.kind.sub, SubOf(f.kind.sub, [x[j]])))
  }
}
