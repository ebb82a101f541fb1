/**
  The wire format below the generated message code: base 128 varints, tags, and
  records, as laid down in the "Protocol Buffers Encoding" document (sections
  "Base 128 Varints", "Message Structure" and "Length-Delimited Records").
  The library that implements it is not part of this model; the functions here
  say what its readers and writers do.
 */
module Wire {

  type Byte = x: int | 0 <= x < 0x100
  type Bytes = seq<Byte>

  datatype Option<+T> = None | Some(value: T)

  /** The outcome of reading one item from the front of a byte string. */
  datatype Got<+T> = Bad | Got(value: T, rest: Bytes)

  const TWO32 := 0x1_0000_0000
  const TWO64 := 0x1_0000_0000_0000_0000
  const MAX_FIELD := 0x2000_0000
  const MAX_VARINT := 10

  // ---------------------------------------------------------------- varints

  function EncodeVarint(n: nat): (s: Bytes)
    ensures s != []
  {
    if n < 0x80 then [n] else [n % 0x80 + 0x80] + EncodeVarint(n / 0x80)
  }

  /** Reads a varint of at most k bytes; the value is not yet cut to a width. */
  function ReadVarint(s: Bytes, k: nat): (g: Got<nat>)
    ensures g.Got? ==> |g.rest| < |s|
  {
    if s == [] || k == 0 then Bad
    else if s[0] < 0x80 then Got(s[0], s[1..])
    else match ReadVarint(s[1..], k - 1)
      case Bad => Bad
      case Got(v, rest) => Got(s[0] - 0x80 + 0x80 * v, rest)
  }

  function Pow128(k: nat): nat {
    if k == 0 then 1 else 0x80 * Pow128(k - 1)
  }

  lemma {:induction false} VarintLength(n: nat, k: nat)
    requires 1 <= k && n < Pow128(k)
    ensures |EncodeVarint(n)| <= k
  {
    assert Pow128(1) == 0x80;
    if n >= 0x80 {
      VarintLength(n / 0x80, k - 1);
    }
  }

  /** Every 64-bit value fits the ten bytes a reader is willing to take. */
  lemma VarintFits(n: nat)
    requires n < TWO64
    ensures |EncodeVarint(n)| <= MAX_VARINT
  {
    assert Pow128(3) == 0x20_0000;
    assert Pow128(6) == 0x20_0000 * Pow128(3) by {
      assert Pow128(6) == 0x80 * Pow128(5) == 0x80 * 0x80 * Pow128(4) == 0x80 * 0x80 * 0x80 * Pow128(3);
    }
    assert Pow128(10) == 0x1000_0000 * Pow128(6) by {
      assert Pow128(10) == 0x80 * Pow128(9) == 0x80 * 0x80 * Pow128(8);
      assert Pow128(8) == 0x80 * Pow128(7) == 0x80 * 0x80 * Pow128(6);
    }
    VarintLength(n, 10);
  }

  lemma {:induction false} ReadEncodedVarint(n: nat, k: nat, t: Bytes)
    requires |EncodeVarint(n)| <= k
    ensures ReadVarint(EncodeVarint(n) + t, k) == Got(n, t)
  {
    var s := EncodeVarint(n) + t;
    if n < 0x80 {
      assert s[1..] == t;
    } else {
      assert s[1..] == EncodeVarint(n / 0x80) + t;
      ReadEncodedVarint(n / 0x80, k - 1, t);
    }
  }

  lemma {:induction false} ReadVarintExtends(s: Bytes, k: nat, t: Bytes)
    requires ReadVarint(s, k).Got?
    ensures ReadVarint(s + t, k) == Got(ReadVarint(s, k).value, ReadVarint(s, k).rest + t)
  {
    assert (s + t)[1..] == s[1..] + t;
    if s[0] >= 0x80 {
      ReadVarintExtends(s[1..], k - 1, t);
    }
  }

  // ---------------------------------------------------------------- records

  /** What follows a tag. Groups are read only to be skipped. */
  datatype Payload =
    | Varint(v: nat)
    | Fixed64(b: Bytes)
    | Delimited(b: Bytes)
    | Group(rs: seq<Record>)
    | Fixed32(b: Bytes)

  datatype Record = Record(num: nat, payload: Payload)

  const VARINT := 0
  const FIXED64 := 1
  const DELIMITED := 2
  const START_GROUP := 3
  const END_GROUP := 4
  const FIXED32 := 5

  function WireType(p: Payload): nat {
    match p
    case Varint(_) => VARINT
    case Fixed64(_) => FIXED64
    case Delimited(_) => DELIMITED
    case Group(_) => START_GROUP
    case Fixed32(_) => FIXED32
  }

  function Tag(num: nat, wt: nat): nat { num * 8 + wt }

  function ReadBytes(s: Bytes, n: nat): (g: Got<Bytes>)
    ensures g.Got? ==> |g.rest| <= |s|
  {
    if n <= |s| then Got(s[..n], s[n..]) else Bad
  }

  /** Reads a 32-bit length and that many bytes; a length that overruns the input is malformed. */
  function ReadDelimited(s: Bytes): (g: Got<Bytes>)
    ensures g.Got? ==> |g.rest| < |s|
  {
    match ReadVarint(s, MAX_VARINT)
    case Bad => Bad
    case Got(n, rest) => ReadBytes(rest, n % TWO32)
  }

  function ReadPayload(num: nat, wt: nat, s: Bytes): (g: Got<Payload>)
    ensures g.Got? ==> |g.rest| < |s| && WireType(g.value) == wt
    decreases |s|, 1
  {
    if wt == VARINT then
      match ReadVarint(s, MAX_VARINT)
      case Bad => Bad
      case Got(v, rest) => Got(Varint(v), rest)
    else if wt == FIXED64 then
      match ReadBytes(s, 8)
      case Bad => Bad
      case Got(b, rest) => Got(Fixed64(b), rest)
    else if wt == DELIMITED then
      match ReadDelimited(s)
      case Bad => Bad
      case Got(b, rest) => Got(Delimited(b), rest)
    else if wt == START_GROUP then
      match ReadGroup(num, s)
      case Bad => Bad
      case Got(rs, rest) => Got(Group(rs), rest)
    else if wt == FIXED32 then
      match ReadBytes(s, 4)
      case Bad => Bad
      case Got(b, rest) => Got(Fixed32(b), rest)
    else Bad
  }

  /** Reads records up to the end-group tag of field num. */
  function ReadGroup(num: nat, s: Bytes): (g: Got<seq<Record>>)
    ensures g.Got? ==> |g.rest| < |s|
    decreases |s|, 0
  {
    match ReadVarint(s, MAX_VARINT)
    case Bad => Bad
    case Got(t, afterTag) =>
      var tag := t % TWO32;
      if tag == 0 then Bad
      else if tag % 8 == END_GROUP then
        if tag / 8 == num then Got([], afterTag) else Bad
      else match ReadPayload(tag / 8, tag % 8, afterTag)
        case Bad => Bad
        case Got(p, afterPayload) =>
          match ReadGroup(num, afterPayload)
          case Bad => Bad
          case Got(rs, rest) => Got([Record(tag / 8, p)] + rs, rest)
  }

  /**
    One turn of a message loop: the input is at its end, or the loop stops early
    (a zero or unreadable tag, or an end-group tag), or the tag is followed by a
    payload that cannot be read, or a record is read.
   */
  datatype Step =
    | AtEnd
    | Stop(stopRest: Bytes)
    | Malformed(badNum: nat, badType: nat)
    | Item(r: Record, rest: Bytes)

  function Next(s: Bytes): (n: Step)
    ensures n.Item? ==> |n.rest| < |s|
  {
    if s == [] then AtEnd
    else match ReadVarint(s, MAX_VARINT)
      case Bad => Stop(s)
      case Got(t, afterTag) => NextAfterTag(t % TWO32, afterTag)
  }

  function NextAfterTag(tag: nat, s: Bytes): (n: Step)
    ensures n.Item? ==> |n.rest| < |s|
  {
    if tag == 0 || tag % 8 == END_GROUP then Stop(s)
    else match ReadPayload(tag / 8, tag % 8, s)
      case Bad => Malformed(tag / 8, tag % 8)
      case Got(p, rest) => Item(Record(tag / 8, p), rest)
  }

  /** Splits a whole input into its records, if it is well formed up to its end. */
  function Split(s: Bytes): Option<seq<Record>>
    decreases |s|
  {
    match Next(s)
    case AtEnd => Some([])
    case Item(r, rest) =>
      (match Split(rest)
       case None => None
       case Some(rs) => Some([r] + rs))
    case _ => None
  }

  // ---------------------------------------------------------------- reads that fail

  /** What is being read when the input turns out to be malformed. */
  datatype Reading =
    | ReadingTag
    | ReadingVarint
    | ReadingFixed32
    | ReadingString
    | ReadingLength
    | Skipping(tag: nat)

  /**
    What the library leaves behind when a read fails: how many bytes it has used
    up, what is in a string it had begun to fill, and, when skipping, whether it
    counts as having found the end. Any answers will do, as long as the same input
    gets the same ones.
   */
  datatype Library = Library(
    used: (Reading, Bytes) -> nat,
    torn: (Bytes, Bytes) -> Bytes,
    ended: (nat, Bytes) -> bool)

  function LeftBy(lib: Library, what: Reading, s: Bytes): (r: Bytes)
    ensures |r| <= |s| && r == s[|s| - |r|..]
  {
    var n := lib.used(what, s);
    if n <= |s| then s[n..] else []
  }

  // ---------------------------------------------------------------- writing records

  ghost predicate ValidRecord(r: Record) {
    && 1 <= r.num < MAX_FIELD
    && match r.payload
       case Varint(v) => v < TWO64
       case Fixed64(b) => |b| == 8
       case Delimited(b) => |b| < TWO32
       case Group(rs) => forall g :: g in rs ==> ValidRecord(g)
       case Fixed32(b) => |b| == 4
  }

  ghost predicate ValidRecords(rs: seq<Record>) {
    forall r :: r in rs ==> ValidRecord(r)
  }

  function EncodePayload(num: nat, p: Payload): Bytes
    decreases p, 0
  {
    match p
    case Varint(v) => EncodeVarint(v)
    case Fixed64(b) => b
    case Delimited(b) => EncodeVarint(|b|) + b
    case Group(rs) => Join(rs) + EncodeVarint(Tag(num, END_GROUP))
    case Fixed32(b) => b
  }

  function EncodeRecord(r: Record): Bytes
    decreases r, 0
  {
    EncodeVarint(Tag(r.num, WireType(r.payload))) + EncodePayload(r.num, r.payload)
  }

  function Join(rs: seq<Record>): Bytes
    decreases rs, 0
  {
    if rs == [] then [] else EncodeRecord(rs[0]) + Join(rs[1..])
  }

  lemma {:induction false} JoinConcat(a: seq<Record>, b: seq<Record>)
    ensures Join(a + b) == Join(a) + Join(b)
  {
    if a == [] {
      assert a + b == b;
    } else {
      assert (a + b)[1..] == a[1..] + b;
      JoinConcat(a[1..], b);
    }
  }

  lemma JoinOne(r: Record)
    ensures Join([r]) == EncodeRecord(r)
  {
    assert [r][1..] == [];
  }

  // ---------------------------------------------------------------- reading back what was written

  lemma ReadEncodedTag(num: nat, wt: nat, t: Bytes)
    requires 1 <= num < MAX_FIELD && wt < 8
    ensures ReadVarint(EncodeVarint(Tag(num, wt)) + t, MAX_VARINT) == Got(Tag(num, wt), t)
    ensures Tag(num, wt) % TWO32 == Tag(num, wt) != 0
    ensures Tag(num, wt) / 8 == num && Tag(num, wt) % 8 == wt
  {
    VarintFits(Tag(num, wt));
    ReadEncodedVarint(Tag(num, wt), MAX_VARINT, t);
  }

  lemma ReadDelimitedOf(s: Bytes, n: nat, b: Bytes, t: Bytes)
    requires ReadVarint(s, MAX_VARINT) == Got(n, b + t) && n == |b| < TWO32
    ensures ReadDelimited(s) == Got(b, t)
  {
    assert (b + t)[..n] == b && (b + t)[n..] == t;
  }

  lemma ReadEncodedDelimited(b: Bytes, t: Bytes)
    requires |b| < TWO32
    ensures ReadDelimited(EncodeVarint(|b|) + b + t) == Got(b, t)
  {
    var n := |b|;
    var prefix := EncodeVarint(n);
    assert prefix + b + t == prefix + (b + t);
    VarintFits(n);
    ReadEncodedVarint(n, MAX_VARINT, b + t);
    ReadDelimitedOf(prefix + b + t, n, b, t);
  }

  lemma PayloadOfDelimited(num: nat, s: Bytes, b: Bytes, t: Bytes)
    requires ReadDelimited(s) == Got(b, t)
    ensures ReadPayload(num, DELIMITED, s) == Got(Delimited(b), t)
  {
  }

  lemma PayloadOfGroup(num: nat, s: Bytes, rs: seq<Record>, t: Bytes)
    requires ReadGroup(num, s) == Got(rs, t)
    ensures ReadPayload(num, START_GROUP, s) == Got(Group(rs), t)
  {
  }

  lemma ReadFixed(num: nat, b: Bytes, t: Bytes)
    ensures |b| == 8 ==> ReadPayload(num, FIXED64, b + t) == Got(Fixed64(b), t)
    ensures |b| == 4 ==> ReadPayload(num, FIXED32, b + t) == Got(Fixed32(b), t)
  {
    assert (b + t)[..|b|] == b && (b + t)[|b|..] == t;
  }

  lemma {:induction false} ReadEncodedPayload(num: nat, p: Payload, t: Bytes)
    requires ValidRecord(Record(num, p))
    ensures ReadPayload(num, WireType(p), EncodePayload(num, p) + t) == Got(p, t)
    decreases p, 1
  {
    match p
    case Varint(v) =>
      VarintFits(v);
      ReadEncodedVarint(v, MAX_VARINT, t);
    case Fixed64(b) => ReadFixed(num, b, t);
    case Delimited(b) =>
      ReadEncodedDelimited(b, t);
      PayloadOfDelimited(num, EncodeVarint(|b|) + b + t, b, t);
    case Group(rs) =>
      var close := EncodeVarint(Tag(num, END_GROUP));
      ReadEncodedGroup(num, rs, t);
      assert Join(rs) + close + t == Join(rs) + (close + t);
      PayloadOfGroup(num, Join(rs) + (close + t), rs, t);
    case Fixed32(b) => ReadFixed(num, b, t);
  }

  lemma {:induction false} ReadEncodedGroup(num: nat, rs: seq<Record>, t: Bytes)
    requires 1 <= num < MAX_FIELD && ValidRecords(rs)
    ensures ReadGroup(num, Join(rs) + (EncodeVarint(Tag(num, END_GROUP)) + t)) == Got(rs, t)
    decreases rs, 0
  {
    var close := EncodeVarint(Tag(num, END_GROUP)) + t;
    if rs == [] {
      assert Join(rs) + close == close;
      ReadEncodedTag(num, END_GROUP, t);
    } else {
      var r := rs[0];
      assert ValidRecord(r);
      var more := Join(rs[1..]) + close;
      assert Join(rs) + close == EncodeRecord(r) + more;
      ReadEncodedRecord(r, more);
      ReadEncodedGroup(num, rs[1..], t);
      assert rs == [r] + rs[1..];
    }
  }

  lemma {:induction false} ReadEncodedRecord(r: Record, t: Bytes)
    requires ValidRecord(r)
    ensures ReadVarint(EncodeRecord(r) + t, MAX_VARINT)
            == Got(Tag(r.num, WireType(r.payload)), EncodePayload(r.num, r.payload) + t)
    ensures ReadPayload(r.num, WireType(r.payload), EncodePayload(r.num, r.payload) + t) == Got(r.payload, t)
    ensures Next(EncodeRecord(r) + t) == Item(r, t)
    decreases r, 2
  {
    var body := EncodePayload(r.num, r.payload) + t;
    assert EncodeRecord(r) + t == EncodeVarint(Tag(r.num, WireType(r.payload))) + body;
    ReadEncodedTag(r.num, WireType(r.payload), body);
    ReadEncodedPayload(r.num, r.payload, t);
  }

  /** Splitting what was written gives the records back, whatever they hold. */
  lemma {:induction false} SplitJoin(rs: seq<Record>)
    requires ValidRecords(rs)
    ensures Split(Join(rs)) == Some(rs)
  {
    if rs != [] {
      assert ValidRecord(rs[0]);
      ReadEncodedRecord(rs[0], Join(rs[1..]));
      SplitJoin(rs[1..]);
      assert rs == [rs[0]] + rs[1..];
    }
  }

  // ---------------------------------------------------------------- a record does not see what follows it

  lemma {:induction false} ReadDelimitedExtends(s: Bytes, t: Bytes)
    requires ReadDelimited(s).Got?
    ensures ReadDelimited(s + t) == Got(ReadDelimited(s).value, ReadDelimited(s).rest + t)
  {
    ReadVarintExtends(s, MAX_VARINT, t);
    var g := ReadVarint(s, MAX_VARINT);
    assert (g.rest + t)[..g.value % TWO32] == g.rest[..g.value % TWO32];
    assert (g.rest + t)[g.value % TWO32..] == g.rest[g.value % TWO32..] + t;
  }

  lemma {:induction false} ReadPayloadExtends(num: nat, wt: nat, s: Bytes, t: Bytes)
    requires ReadPayload(num, wt, s).Got?
    ensures ReadPayload(num, wt, s + t) == Got(ReadPayload(num, wt, s).value, ReadPayload(num, wt, s).rest + t)
    decreases |s|, 1
  {
    if wt == VARINT {
      ReadVarintExtends(s, MAX_VARINT, t);
    } else if wt == FIXED64 {
      assert (s + t)[..8] == s[..8] && (s + t)[8..] == s[8..] + t;
    } else if wt == DELIMITED {
      ReadDelimitedExtends(s, t);
    } else if wt == START_GROUP {
      ReadGroupExtends(num, s, t);
    } else {
      assert (s + t)[..4] == s[..4] && (s + t)[4..] == s[4..] + t;
    }
  }

  lemma {:induction false} ReadGroupExtends(num: nat, s: Bytes, t: Bytes)
    requires ReadGroup(num, s).Got?
    ensures ReadGroup(num, s + t) == Got(ReadGroup(num, s).value, ReadGroup(num, s).rest + t)
    decreases |s|, 0
  {
    ReadVarintExtends(s, MAX_VARINT, t);
    var g := ReadVarint(s, MAX_VARINT);
    var tag := g.value % TWO32;
    if tag % 8 != END_GROUP {
      ReadPayloadExtends(tag / 8, tag % 8, g.rest, t);
      ReadGroupExtends(num, ReadPayload(tag / 8, tag % 8, g.rest).rest, t);
    }
  }

  lemma NextExtends(s: Bytes, t: Bytes)
    requires Next(s).Item?
    ensures Next(s + t) == Item(Next(s).r, Next(s).rest + t)
  {
    ReadVarintExtends(s, MAX_VARINT, t);
    var g := ReadVarint(s, MAX_VARINT);
    var tag := g.value % TWO32;
    ReadPayloadExtends(tag / 8, tag % 8, g.rest, t);
  }

  function AppendRecords(a: seq<Record>, b: Option<seq<Record>>): Option<seq<Record>> {
    match b
    case None => None
    case Some(rs) => Some(a + rs)
  }

  lemma SplitStep(s: Bytes)
    requires Next(s).Item?
    ensures Split(s) == AppendRecords([Next(s).r], Split(Next(s).rest))
  {
  }

  lemma AppendRecordsTwice(a: seq<Record>, b: seq<Record>, c: Option<seq<Record>>)
    ensures AppendRecords(a, AppendRecords(b, c)) == AppendRecords(a + b, c)
  {
    if c.Some? {
      assert a + (b + c.value) == (a + b) + c.value;
    }
  }

  /** A well-formed input followed by any input splits into its records followed by theirs. */
  lemma {:induction false} SplitConcat(a: Bytes, b: Bytes)
    requires Split(a).Some?
    ensures Split(a + b) == AppendRecords(Split(a).value, Split(b))
    decreases |a|
  {
    if a == [] {
      assert a + b == b;
      assert Split(b).Some? ==> [] + Split(b).value == Split(b).value;
    } else {
      var rest := Next(a).rest;
      NextExtends(a, b);
      SplitStep(a);
      SplitStep(a + b);
      SplitConcat(rest, b);
      AppendRecordsTwice([Next(a).r], Split(rest).value, Split(b));
    }
  }
}
