/**
  The streams the generated code reads from and writes to. The library that
  provides them is not part of this model: each method does what the wire format
  says, the two guesses ExpectTag and ExpectAtEnd may be wrong in one direction
  only, and what a failed read leaves behind is whatever the Library says.
 */
module CodedStreams {
  import opened Wire

  predicate IsSuffix(t: Bytes, s: Bytes) {
    |t| <= |s| && t == s[|s| - |t|..]
  }

  lemma SuffixOfTail(t: Bytes, s: Bytes, n: nat)
    requires n <= |s| && IsSuffix(t, s[n..])
    ensures IsSuffix(t, s)
  {
  }

  lemma SuffixTrans(t: Bytes, u: Bytes, s: Bytes)
    requires IsSuffix(t, u) && IsSuffix(u, s)
    ensures IsSuffix(t, s)
  {
  }

  lemma {:induction false} ReadVarintSuffix(s: Bytes, k: nat)
    requires ReadVarint(s, k).Got?
    ensures IsSuffix(ReadVarint(s, k).rest, s)
  {
    if s[0] >= 0x80 {
      ReadVarintSuffix(s[1..], k - 1);
      SuffixOfTail(ReadVarint(s, k).rest, s, 1);
    }
  }

  lemma ReadDelimitedSuffix(s: Bytes)
    requires ReadDelimited(s).Got?
    ensures IsSuffix(ReadDelimited(s).rest, s)
  {
    var g := ReadVarint(s, MAX_VARINT);
    ReadVarintSuffix(s, MAX_VARINT);
    SuffixOfTail(ReadDelimited(s).rest, g.rest, g.value % TWO32);
    SuffixTrans(ReadDelimited(s).rest, g.rest, s);
  }

  lemma {:induction false} ReadPayloadSuffix(num: nat, wt: nat, s: Bytes)
    requires ReadPayload(num, wt, s).Got?
    ensures IsSuffix(ReadPayload(num, wt, s).rest, s)
    decreases |s|, 1
  {
    if wt == VARINT {
      ReadVarintSuffix(s, MAX_VARINT);
    } else if wt == DELIMITED {
      ReadDelimitedSuffix(s);
    } else if wt == START_GROUP {
      ReadGroupSuffix(num, s);
    }
  }

  lemma {:induction false} ReadGroupSuffix(num: nat, s: Bytes)
    requires ReadGroup(num, s).Got?
    ensures IsSuffix(ReadGroup(num, s).rest, s)
    decreases |s|, 0
  {
    var g := ReadVarint(s, MAX_VARINT);
    ReadVarintSuffix(s, MAX_VARINT);
    var tag := g.value % TWO32;
    if tag % 8 != END_GROUP {
      var p := ReadPayload(tag / 8, tag % 8, g.rest);
      ReadPayloadSuffix(tag / 8, tag % 8, g.rest);
      ReadGroupSuffix(num, p.rest);
      SuffixTrans(p.rest, g.rest, s);
      SuffixTrans(ReadGroup(num, p.rest).rest, p.rest, s);
    }
  }

  class CodedInputStream {
    const lib: Library
    const data: Bytes
    var pos: nat
    var limit: nat
    // Whether the last tag read found the end of the input or of the current limit.
    var consumedEntireMessage: bool

    ghost predicate Valid()
      reads this
    {
      pos <= limit <= |data|
    }

    function Remaining(): Bytes
      requires Valid()
      reads this
    {
      data[pos..limit]
    }

    /** The input from the position up to a limit at or beyond the current one. */
    function Until(end: nat): Bytes
      requires pos <= end <= |data|
      reads this
    {
      data[pos..end]
    }

    constructor (bytes: Bytes, library: Library)
      ensures Valid() && Remaining() == bytes && limit == |data| && data == bytes && lib == library
    {
      lib, data, pos, limit, consumedEntireMessage := library, bytes, 0, |bytes|, false;
    }

    /** Moves the position to where rest is left. */
    method Advance(ghost before: Bytes, rest: Bytes)
      requires Valid() && before == Remaining() && IsSuffix(rest, before)
      modifies this`pos
      ensures Valid() && Remaining() == rest
    {
      pos := limit - |rest|;
      assert data[pos..limit] == before[|before| - |rest|..];
    }

    /** Zero at the end of the input, on an unreadable tag, or for a tag of zero. */
    method ReadTag() returns (tag: nat)
      requires Valid()
      modifies this`pos, this`consumedEntireMessage
      ensures Valid()
      ensures old(Remaining()) == [] ==> tag == 0 && consumedEntireMessage && Remaining() == []
      ensures old(Remaining()) != [] ==>
                match ReadVarint(old(Remaining()), MAX_VARINT)
                case Bad => tag == 0 && !consumedEntireMessage
                            && Remaining() == LeftBy(lib, ReadingTag, old(Remaining()))
                case Got(t, rest) => tag == t % TWO32 && !consumedEntireMessage && Remaining() == rest
    {
      var s := Remaining();
      tag := 0;
      consumedEntireMessage := s == [];
      if s != [] {
        var g := ReadVarint(s, MAX_VARINT);
        if g.Got? {
          ReadVarintSuffix(s, MAX_VARINT);
          Advance(s, g.rest);
          tag := g.value % TWO32;
        } else {
          Advance(s, LeftBy(lib, ReadingTag, s));
        }
      }
    }

    /** May answer yes only if the shortest encoding of the tag comes next, which is then consumed. */
    method ExpectTag(tag: nat) returns (yes: bool)
      requires Valid()
      modifies this`pos
      ensures Valid()
      ensures if yes then old(Remaining()) == EncodeVarint(tag) + Remaining() else Remaining() == old(Remaining())
    {
      yes := false;
      var s := Remaining();
      var t := EncodeVarint(tag);
      if * {
        if t <= s {
          yes := true;
          assert s == t + s[|t|..];
          Advance(s, s[|t|..]);
        }
      }
    }

    /** May answer yes only at the end. */
    method ExpectAtEnd() returns (yes: bool)
      requires Valid()
      modifies this`consumedEntireMessage
      ensures Valid()
      ensures if yes then Remaining() == [] && consumedEntireMessage
              else consumedEntireMessage == old(consumedEntireMessage)
    {
      yes := false;
      if * {
        if pos == limit {
          yes, consumedEntireMessage := true, true;
        }
      }
    }

    method ReadVarint64() returns (ok: bool, v: nat)
      requires Valid()
      modifies this`pos
      ensures Valid()
      ensures match ReadVarint(old(Remaining()), MAX_VARINT)
              case Bad => !ok && Remaining() == LeftBy(lib, ReadingVarint, old(Remaining()))
              case Got(w, rest) => ok && v == w && Remaining() == rest
    {
      var s := Remaining();
      var g := ReadVarint(s, MAX_VARINT);
      ok, v := g.Got?, 0;
      if ok {
        ReadVarintSuffix(s, MAX_VARINT);
        v := g.value;
        Advance(s, g.rest);
      } else {
        Advance(s, LeftBy(lib, ReadingVarint, s));
      }
    }

    /** The four bytes of a float. */
    method ReadFixed32() returns (ok: bool, b: Bytes)
      requires Valid()
      modifies this`pos
      ensures Valid()
      ensures match ReadBytes(old(Remaining()), 4)
              case Bad => !ok && Remaining() == LeftBy(lib, ReadingFixed32, old(Remaining()))
              case Got(c, rest) => ok && b == c && Remaining() == rest
    {
      var s := Remaining();
      ok, b := 4 <= |s|, [];
      if ok {
        b := s[..4];
        Advance(s, s[4..]);
      } else {
        Advance(s, LeftBy(lib, ReadingFixed32, s));
      }
    }

    /** Reads into a string that holds something already; a failed read may leave it torn. */
    method ReadString(before: Bytes) returns (ok: bool, b: Bytes)
      requires Valid()
      modifies this`pos
      ensures Valid()
      ensures match ReadDelimited(old(Remaining()))
              case Bad => !ok && b == lib.torn(before, old(Remaining()))
                          && Remaining() == LeftBy(lib, ReadingString, old(Remaining()))
              case Got(c, rest) => ok && b == c && Remaining() == rest
    {
      var s := Remaining();
      var g := ReadDelimited(s);
      ok := g.Got?;
      if ok {
        ReadDelimitedSuffix(s);
        b := g.value;
        Advance(s, g.rest);
      } else {
        b := lib.torn(before, s);
        Advance(s, LeftBy(lib, ReadingString, s));
      }
    }

    /** Reads a length and narrows the limit to that many bytes; fails if there are fewer. */
    method ReadLengthAndPushLimit() returns (ok: bool, outer: nat)
      requires Valid()
      modifies this`pos, this`limit
      ensures Valid() && outer == old(limit)
      ensures match ReadDelimited(old(Remaining()))
              case Bad => !ok && limit == outer && Remaining() == LeftBy(lib, ReadingLength, old(Remaining()))
              case Got(c, rest) => ok && limit <= outer <= |data| && Remaining() == c && data[limit..outer] == rest
    {
      var s := Remaining();
      var g := ReadVarint(s, MAX_VARINT);
      outer := limit;
      ok := g.Got? && g.value % TWO32 <= |g.rest|;
      if ok {
        ReadVarintSuffix(s, MAX_VARINT);
        Advance(s, g.rest);
        limit := pos + g.value % TWO32;
        assert Remaining() == g.rest[..g.value % TWO32];
        assert data[limit..outer] == g.rest[g.value % TWO32..];
      } else {
        Advance(s, LeftBy(lib, ReadingLength, s));
      }
    }

    /** Back to the outer limit, where the end has not been found yet. */
    method PopLimit(outer: nat)
      requires Valid() && Remaining() == [] && limit <= outer <= |data|
      modifies this`limit, this`consumedEntireMessage
      ensures Valid() && limit == outer && Remaining() == data[old(limit)..outer] && !consumedEntireMessage
    {
      limit, consumedEntireMessage := outer, false;
    }

    /** Skips the payload of a record no field takes, a whole group included. */
    method SkipField(tag: nat) returns (ok: bool)
      requires Valid()
      modifies this`pos, this`consumedEntireMessage
      ensures Valid()
      ensures match ReadPayload(tag / 8, tag % 8, old(Remaining()))
              case Bad => !ok && consumedEntireMessage == lib.ended(tag, old(Remaining()))
                          && Remaining() == LeftBy(lib, Skipping(tag), old(Remaining()))
              case Got(_, rest) => ok && !consumedEntireMessage && Remaining() == rest
    {
      var s := Remaining();
      var g := ReadPayload(tag / 8, tag % 8, s);
      ok := g.Got?;
      if ok {
        ReadPayloadSuffix(tag / 8, tag % 8, s);
        Advance(s, g.rest);
        consumedEntireMessage := false;
      } else {
        Advance(s, LeftBy(lib, Skipping(tag), s));
        consumedEntireMessage := lib.ended(tag, s);
      }
    }
  }

  class CodedOutputStream {
    var written: Bytes

    constructor ()
      ensures written == []
    {
      written := [];
    }

    method WriteVarint(n: nat)
      modifies this
      ensures written == old(written) + EncodeVarint(n)
    {
      written := written + EncodeVarint(n);
    }

    method WriteRaw(b: Bytes)
      modifies this
      ensures written == old(written) + b
    {
      written := written + b;
    }
  }
}
