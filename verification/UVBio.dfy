/**
  The BIO that turns received buffers into a byte stream: the queue of buffers as
  a pure model, the class over ByteArrays that refines it, and the stream laws.
 */
module UVBio {
  import opened Wire
  import opened ByteArrays

  // ---------------------------------------------------------------- the queue as chunks

  function Flat(q: seq<Bytes>): Bytes {
    if q == [] then [] else q[0] + Flat(q[1..])
  }

  predicate NoneEmpty(q: seq<Bytes>) {
    forall i :: 0 <= i < |q| ==> q[i] != []
  }

  /** The bytes a Read of at most n bytes delivers. */
  function ReadData(q: seq<Bytes>, n: nat): Bytes {
    if q == [] then [] else if |q[0]| > n then q[0][..n] else q[0]
  }

  /** The queue it leaves: the rest of a longer front buffer goes back to the front. */
  function ReadRest(q: seq<Bytes>, n: nat): seq<Bytes> {
    if q == [] then [] else if |q[0]| > n then [q[0][n..]] + q[1..] else q[1..]
  }

  datatype Event = Put(chunk: Bytes) | Read(n: nat)

  ghost predicate Sensible(evs: seq<Event>) {
    forall i :: 0 <= i < |evs| ==> if evs[i].Put? then evs[i].chunk != [] else evs[i].n > 0
  }

  function After(q: seq<Bytes>, evs: seq<Event>): seq<Bytes>
    decreases |evs|
  {
    if evs == [] then q
    else match evs[0]
      case Put(c) => After(q + [c], evs[1..])
      case Read(n) => After(ReadRest(q, n), evs[1..])
  }

  function Delivered(q: seq<Bytes>, evs: seq<Event>): Bytes
    decreases |evs|
  {
    if evs == [] then []
    else match evs[0]
      case Put(c) => Delivered(q + [c], evs[1..])
      case Read(n) => ReadData(q, n) + Delivered(ReadRest(q, n), evs[1..])
  }

  function Received(evs: seq<Event>): Bytes {
    if evs == [] then []
    else match evs[0]
      case Put(c) => c + Received(evs[1..])
      case Read(_) => Received(evs[1..])
  }

  lemma {:induction false} FlatPush(q: seq<Bytes>, c: Bytes)
    ensures Flat(q + [c]) == Flat(q) + c
  {
    if q == [] {
      assert q + [c] == [c];
    } else {
      assert (q + [c])[1..] == q[1..] + [c];
      FlatPush(q[1..], c);
    }
  }

  lemma FlatCons(c: Bytes, q: seq<Bytes>)
    ensures Flat([c] + q) == c + Flat(q)
  {
    assert ([c] + q)[1..] == q;
  }

  lemma Regroup(a: Bytes, b: Bytes, c: Bytes)
    ensures a + (b + c) == (a + b) + c
  {
  }

  /** One Read takes bytes off the front of the stream and loses none. */
  lemma ReadConserves(q: seq<Bytes>, n: nat)
    ensures ReadData(q, n) + Flat(ReadRest(q, n)) == Flat(q)
  {
    if q != [] && |q[0]| > n {
      FlatCons(q[0][n..], q[1..]);
      Regroup(q[0][..n], q[0][n..], Flat(q[1..]));
      assert q[0][..n] + q[0][n..] == q[0];
    }
  }

  /** A Read delivers as much of the front buffer as there is room for, and puts back the rest. */
  lemma ReadIsOfFront(q: seq<Bytes>, n: nat)
    requires q != []
    ensures var k := if |q[0]| < n then |q[0]| else n;
            && ReadData(q, n) == q[0][..k]
            && ReadRest(q, n) == (if k < |q[0]| then [q[0][k..]] else []) + q[1..]
  {
    assert q[0][..|q[0]|] == q[0] && [] + q[1..] == q[1..];
  }

  lemma ReadKeepsNoneEmpty(q: seq<Bytes>, n: nat)
    requires NoneEmpty(q) && n > 0
    ensures NoneEmpty(ReadRest(q, n))
    ensures q != [] ==> 0 < |ReadData(q, n)| <= n
  {
  }

  /**
    Stream conservation: whatever the interleaving, what has been delivered
    followed by what is queued is what was queued followed by all that came in.
   */
  lemma {:induction false} StreamConserved(q: seq<Bytes>, evs: seq<Event>)
    ensures Delivered(q, evs) + Flat(After(q, evs)) == Flat(q) + Received(evs)
    decreases |evs|
  {
    if evs == [] {
      assert Flat(q) + [] == Flat(q);
    } else {
      match evs[0]
      case Put(c) =>
        FlatPush(q, c);
        StreamConserved(q + [c], evs[1..]);
        Regroup(Flat(q), c, Received(evs[1..]));
      case Read(n) =>
        var rest, d := ReadRest(q, n), ReadData(q, n);
        ReadConserves(q, n);
        StreamConserved(rest, evs[1..]);
        Regroup(d, Delivered(rest, evs[1..]), Flat(After(rest, evs[1..])));
        Regroup(d, Flat(rest), Received(evs[1..]));
    }
  }

  /** If none is put in empty, no queued buffer is ever empty, so a Read that finds a buffer never delivers nothing. */
  lemma {:induction false} NeverEmpty(q: seq<Bytes>, evs: seq<Event>)
    requires NoneEmpty(q) && Sensible(evs)
    ensures NoneEmpty(After(q, evs))
    decreases |evs|
  {
    if evs != [] {
      assert Sensible(evs[1..]);
      match evs[0]
      case Put(c) => NeverEmpty(q + [c], evs[1..]);
      case Read(n) =>
        ReadKeepsNoneEmpty(q, n);
        NeverEmpty(ReadRest(q, n), evs[1..]);
    }
  }

  /**
    How the input was cut into buffers, and when it was read, does not show: of two
    runs that receive the same bytes, whichever has delivered less has delivered a
    prefix of the other's bytes; and if both have drained their queues, the same.
   */
  lemma ChunkingDoesNotShow(evs: seq<Event>, evs': seq<Event>)
    requires Received(evs) == Received(evs')
    ensures |Delivered([], evs)| <= |Delivered([], evs')| ==> Delivered([], evs) <= Delivered([], evs')
    ensures After([], evs) == [] && After([], evs') == [] ==> Delivered([], evs) == Delivered([], evs')
  {
    StreamConserved([], evs);
    StreamConserved([], evs');
    var s, d, d' := Received(evs), Delivered([], evs), Delivered([], evs');
    assert d + Flat(After([], evs)) == s && d' + Flat(After([], evs')) == s;
    assert d == s[..|d|] && d' == s[..|d'|];
  }

  // ---------------------------------------------------------------- the class

  class UVBioState {
    var bufs: seq<ByteArray>

    ghost function Arrays(): set<array?<Byte>>
      reads this, bufs
    {
      set b | b in bufs && b.buf != null :: b.buf
    }

    ghost predicate Valid()
      reads this, bufs
    {
      forall i :: 0 <= i < |bufs| ==> bufs[i].Valid()
    }

    /** The queued contents, front first. */
    ghost function Chunks(): (q: seq<Bytes>)
      requires Valid()
      reads this, bufs, Arrays()
      ensures |q| == |bufs|
    {
      seq(|bufs|, i requires 0 <= i < |bufs| reads this, bufs, Arrays() requires Valid() => bufs[i].Contents())
    }

    constructor ()
      ensures Valid() && Chunks() == []
    {
      bufs := [];
    }

    /** push_back of a copy. */
    method PutNewBuffer(ba: ByteArray)
      requires Valid() && ba.Valid()
      modifies this
      ensures Valid() && Chunks() == old(Chunks()) + [old(ba.Contents())]
      ensures Arrays() >= old(Arrays()) && fresh(Arrays() - old(Arrays()))
    {
      var copy := new ByteArray.Copy(ba);
      bufs := bufs + [copy];
    }

    /** push_front of a copy. */
    method PutOldBuffer(ba: ByteArray)
      requires Valid() && ba.Valid()
      modifies this
      ensures Valid() && Chunks() == [old(ba.Contents())] + old(Chunks())
      ensures Arrays() >= old(Arrays()) && fresh(Arrays() - old(Arrays()))
    {
      var copy := new ByteArray.Copy(ba);
      bufs := [copy] + bufs;
    }

    method HasBuffers() returns (b: bool)
      requires Valid()
      ensures b <==> Chunks() != []
    {
      b := |bufs| > 0;
    }

    method GetBuffer() returns (front: ByteArray)
      requires Valid() && Chunks() != []
      modifies this
      ensures Valid() && fresh(front) && front.Valid() && front.Contents() == old(Chunks())[0]
      ensures front.buf == null || fresh(front.buf)
      ensures Chunks() == old(Chunks())[1..] && Arrays() <= old(Arrays())
    {
      front := new ByteArray.Copy(bufs[0]);
      bufs := bufs[1..];
    }

    /**
      Read: -1 (retry) if nothing is queued, otherwise as much of the front buffer
      as there is room for, the remainder going back to the front.
     */
    method Read(buf: array<Byte>, len: nat) returns (n: int)
      requires Valid() && len <= buf.Length && buf !in Arrays()
      modifies this, buf
      ensures Valid()
      ensures len > 0 && NoneEmpty(old(Chunks())) ==> n != 0 && NoneEmpty(Chunks())
      ensures old(Chunks()) == [] ==> n == -1 && Chunks() == [] && buf[..] == old(buf[..])
      ensures old(Chunks()) != [] ==>
                && 0 <= n <= len
                && buf[..n] == ReadData(old(Chunks()), len) && buf[n..] == old(buf[n..])
                && Chunks() == ReadRest(old(Chunks()), len)
      ensures old(Chunks()) != [] ==>
                var front, others := old(Chunks())[0], old(Chunks())[1..];
                && n == (if |front| < len then |front| else len) && buf[..n] == front[..n]
                && Chunks() == (if n < |front| then [front[n..]] else []) + others
    {
      var any := HasBuffers();
      if !any { return -1; }
      ReadIsOfFront(Chunks(), len);
      var ba;
      ba, n := TakeFront(len);
      CopyOut(buf, ba, n);
    }

    /** The front buffer, of which n bytes will be delivered and the rest has gone back to the front. */
    method TakeFront(len: nat) returns (ba: ByteArray, n: nat)
      requires Valid() && Chunks() != []
      modifies this
      ensures Valid() && ba.Valid() && n <= len && n <= ba.len && (ba.buf != null ==> fresh(ba.buf))
      ensures ba.Contents()[..n] == ReadData(old(Chunks()), len) && Chunks() == ReadRest(old(Chunks()), len)
      ensures fresh(Arrays() - old(Arrays()))
    {
      assert bufs[0].Contents() == Chunks()[0];
      ba := GetBuffer();
      n := ba.len;
      if ba.len > len {
        n := len;
        var remain := ba.Slice(len, -1);
        PutOldBuffer(remain);
      }
    }

    /** memcpy of the first n bytes of a buffer into the caller's. */
    static method CopyOut(buf: array<Byte>, ba: ByteArray, n: nat)
      requires ba.Valid() && n <= ba.len && n <= buf.Length && ba.buf != buf
      modifies buf
      ensures buf[..n] == ba.Contents()[..n] && buf[n..] == old(buf[n..])
    {
      forall k | 0 <= k < n {
        buf[k] := ba.buf[k];
      }
    }
  }
}
