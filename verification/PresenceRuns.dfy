/** The presence invariant over whole runs: any operations, in any order, on two objects of one type. */
module PresenceRuns {
  import opened Wire
  import opened Messages
  import opened HasBits
  import opened Objects
  import opened ObjectOps
  import opened CodedStreams
  import opened MessageObjects

  /** The public operations; the second object is the source of merging and copying and the partner of swapping. */
  datatype Op =
    | SetOp(i: Index, v: Val)
    | AddOp(i: Index, v: Val)
    | ClearFieldOp(i: Index)
    | MutateOp(i: Index, s: Obj)
    | ReleaseOp(i: Index)
    | SetAllocatedOp(i: Index, p: Option<Obj>)
    | ClearOp
    | ParseOp(bytes: Bytes)
    | MergeOp
    | CopyOp
    | SwapOp

  /** The call type checks: the member exists and takes such a value. */
  ghost predicate Allowed(sch: Schema, op: Op) {
    match op
    case SetOp(i, v) =>
      i < |sch.fields| && Singular(sch, i) && !SubMember(sch.fields[i]) && Typed(sch.fields[i].kind, v)
    case AddOp(i, v) =>
      i < |sch.fields| && !Singular(sch, i) && !SubMember(sch.fields[i]) && Typed(sch.fields[i].kind, v)
    case ClearFieldOp(i) => i < |sch.fields|
    case MutateOp(i, s) => i < |sch.fields| && SubMember(sch.fields[i]) && Coherent(sch.fields[i].kind.sub, s)
    case ReleaseOp(i) => i < |sch.fields| && Singular(sch, i) && SubMember(sch.fields[i])
    case SetAllocatedOp(i, p) =>
      && i < |sch.fields| && Singular(sch, i) && SubMember(sch.fields[i])
      && (p.Some? ==> Coherent(sch.fields[i].kind.sub, p.value))
    case _ => true
  }

  method Perform(a: Message, b: Message, op: Op, lib: Library)
    requires a.Valid() && b.Valid() && a != b && a.schema == b.schema && Allowed(a.schema, op)
    modifies a, b
    ensures a.Valid() && b.Valid()
  {
    if op.SetOp? {
      a.SetScalar(op.i, op.v);
    } else if op.AddOp? {
      a.AddScalar(op.i, op.v);
    } else if op.ClearFieldOp? {
      a.ClearField(op.i);
    } else if op.MutateOp? {
      a.MutateSub(op.i, op.s);
    } else if op.ReleaseOp? {
      var p := a.ReleaseSub(op.i);
    } else if op.SetAllocatedOp? {
      a.SetAllocatedSub(op.i, op.p);
    } else if op.ClearOp? {
      a.Clear();
    } else if op.ParseOp? {
      var input := new CodedInputStream(op.bytes, lib);
      var ok := a.MergePartialFromCodedStream(input);
    } else if op.MergeOp? {
      a.MergeFrom(b);
    } else if op.CopyOp? {
      a.CopyFrom(b);
    } else {
      a.Swap(b);
    }
  }

  /**
    After any run, failed parses included, an absent member of either object holds
    its default, and an absent submessage is NULL or empty; so clearing gives a new
    object's value and copying gives the source's.
   */
  method AnyRun(a: Message, b: Message, ops: seq<Op>, lib: Library)
    requires a.Valid() && b.Valid() && a != b && a.schema == b.schema
    requires forall k :: 0 <= k < |ops| ==> Allowed(a.schema, ops[k])
    modifies a, b
    ensures a.Valid() && HoldsDefaults(a.schema, a.State())
    ensures b.Valid() && HoldsDefaults(b.schema, b.State())
  {
    for k := 0 to |ops|
      invariant a.Valid() && b.Valid()
    {
      Perform(a, b, ops[k], lib);
    }
    CoherentHoldsDefaults(a.schema, a.State());
    CoherentHoldsDefaults(b.schema, b.State());
  }
}
