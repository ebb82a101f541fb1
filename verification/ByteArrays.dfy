/** The byte buffer that everything in the transport is passed in. */
module ByteArrays {
  import opened Wire

  /** What a ByteArray means: nothing, or some bytes, possibly none. */
  datatype View = Null | Held(bytes: Bytes)

  // ---------------------------------------------------------------- how much is copied

  /** The storage that the constructor from a buffer allocates and fills; -1 asks for the length. */
  function EffectiveCapacity(length: nat, capacity: int): int {
    if capacity == -1 then length else capacity
  }

  /** What Slice allocates: len bytes, or with the default of -1 the whole remainder. */
  function SliceRoom(length: nat, off: nat, n: int): int
    requires off <= length && -1 <= n <= length - off
  {
    if n == -1 then length - off else n
  }

  /** What Slice copies into that room and returns: always the whole remainder. */
  function SliceCopy(content: Bytes, off: nat): Bytes
    requires off <= |content|
  {
    content[off..]
  }

  /**
    Slice is documented to return n bytes from off on. What it copies is that, and
    stays inside what it has allocated, exactly if n is the default or off + n is
    the length.
   */
  lemma SliceAsDocumentedExactly(content: Bytes, off: nat, n: int)
    requires off <= |content| && -1 <= n <= |content| - off
    ensures |SliceCopy(content, off)| <= SliceRoom(|content|, off, n) <==> n == -1 || off + n == |content|
    ensures SliceCopy(content, off) == content[off..off + SliceRoom(|content|, off, n)]
            <==> n == -1 || off + n == |content|
  {
    var copy, room := SliceCopy(content, off), SliceRoom(|content|, off, n);
    assert |content[off..off + room]| == room;
    if n == -1 || off + n == |content| {
      assert content[off..off + room] == copy;
    }
  }

  /** The first byte of three: one byte allocated, three copied. */
  lemma SliceTooShort()
    ensures SliceRoom(3, 0, 1) == 1 && |SliceCopy([7, 8, 9], 0)| == 3
  {
    assert SliceCopy([7, 8, 9], 0) == [7, 8, 9];
  }

  class ByteArray {
    var buf: array?<Byte>
    var len: nat
    var cap: nat

    ghost predicate Valid()
      reads this
    {
      if buf == null then len == 0 && cap == 0 else len <= cap == buf.Length
    }

    ghost function Contents(): Bytes
      requires Valid()
      reads this, buf
    {
      if buf == null then [] else buf[..len]
    }

    ghost function View(): View
      requires Valid()
      reads this, buf
    {
      if buf == null then Null else Held(buf[..len])
    }

    constructor ()
      ensures Valid() && View() == Null
    {
      buf, len, cap := null, 0, 0;
    }

    /** n bytes of storage, all of them content; what they hold is not known. */
    constructor OfLength(n: nat)
      ensures Valid() && buf != null && fresh(buf) && len == cap == n
    {
      buf := new Byte[n];
      len, cap := n, n;
    }

    /** Copies as many bytes of src as the capacity asks for. */
    constructor From(src: array?<Byte>, length: nat, capacity: int)
      requires src != null && EffectiveCapacity(length, capacity) >= length ==>
                 EffectiveCapacity(length, capacity) <= src.Length
      ensures Valid()
      ensures if src == null || EffectiveCapacity(length, capacity) < length then View() == Null
              else
                && buf != null && fresh(buf) && View() == Held(src[..length])
                && cap == EffectiveCapacity(length, capacity)
    {
      var c := EffectiveCapacity(length, capacity);
      if src == null || c < length {
        buf, len, cap := null, 0, 0;
      } else {
        buf := new Byte[c](k requires 0 <= k < c <= src.Length reads src => src[k]);
        len, cap := length, c;
      }
    }

    /**
      The constructor as its documentation offers it, for a buffer that holds length
      bytes and any capacity. The documentation speaks of copying length bytes, but
      the copy is of the capacity: it stays inside the source exactly if the source
      is that long. No result stands for a copy that does not, after which nothing
      is defined.
     */
    static method FromBuffer(src: array?<Byte>, length: nat, capacity: int) returns (r: ByteArray?)
      requires src != null ==> length <= src.Length
      ensures r != null <==>
                src == null || EffectiveCapacity(length, capacity) < length
                || EffectiveCapacity(length, capacity) <= src.Length
      ensures r != null ==> fresh(r) && r.Valid() && (r.buf != null ==> fresh(r.buf))
      ensures r != null ==>
                if src == null || EffectiveCapacity(length, capacity) < length then r.View() == Null
                else r.View() == Held(src[..length]) && r.cap == EffectiveCapacity(length, capacity)
    {
      r := null;
      var c := EffectiveCapacity(length, capacity);
      if src == null || c < length || c <= src.Length {
        r := new ByteArray.From(src, length, capacity);
      }
    }

    /** A buffer of one byte and a capacity of two: the copy leaves the source. */
    static method CapacityPastTheBuffer() returns (r: ByteArray?)
      ensures r == null
    {
      var src := new Byte[1](_ => 7);
      r := FromBuffer(src, 1, 2);
    }

    constructor Copy(ba: ByteArray)
      requires ba.Valid()
      ensures Valid() && View() == ba.View() && cap == ba.cap
      ensures buf != null ==> fresh(buf) && buf[..] == ba.buf[..]
    {
      var src, c := ba.buf, ba.cap;
      if src != null {
        buf := new Byte[c](k requires 0 <= k < src.Length reads src => src[k]);
        len, cap := ba.len, c;
      } else {
        buf, len, cap := null, 0, 0;
      }
    }

    /** Copy and swap; an array may be assigned to itself. */
    method Assign(ba: ByteArray)
      requires Valid() && ba.Valid()
      modifies this
      ensures Valid() && View() == old(ba.View()) && cap == old(ba.cap)
      ensures buf != null ==> fresh(buf)
    {
      var tmp := new ByteArray.Copy(ba);
      buf, tmp.buf := tmp.buf, buf;
      len, tmp.len := tmp.len, len;
      cap, tmp.cap := tmp.cap, cap;
    }

    /**
      Copies the content from off on into n newly allocated bytes (-1 for as many as
      there are): in storage of its own and never null. No result stands for a copy
      that leaves the allocation, after which nothing is defined.
     */
    method Slice(off: nat, n: int) returns (r: ByteArray?)
      requires Valid() && off <= len && -1 <= n <= len - off
      ensures r != null <==> |SliceCopy(Contents(), off)| <= SliceRoom(len, off, n)
      ensures r != null <==> n == -1 || off + n == len
      ensures r != null ==>
                && fresh(r) && r.Valid() && r.buf != null && fresh(r.buf)
                && r.View() == Held(SliceCopy(Contents(), off))
                && r.View() == Held(Contents()[off..off + SliceRoom(len, off, n)]) && r.cap == r.len
    {
      r := null;
      assert |Contents()| == len;
      SliceAsDocumentedExactly(Contents(), off, n);
      var remain := len - off;
      var room := SliceRoom(len, off, n);
      if remain <= room {
        var tmp := new Byte[room];
        if buf != null {
          forall k | 0 <= k < remain {
            tmp[k] := buf[off + k];
          }
        }
        assert tmp[..remain] == Contents()[off..];
        r := new ByteArray.From(tmp, remain, -1);
      }
    }

    /** Room for n more bytes: the old storage if they fit, otherwise a copy of exactly the right size. */
    method Reserve(n: nat)
      requires Valid()
      modifies this
      ensures Valid() && len == old(len) && Contents() == old(Contents()) && n <= cap - len
      ensures n <= old(cap - len) ==> buf == old(buf) && cap == old(cap)
      ensures n > old(cap - len) ==> buf != null && fresh(buf) && cap == len + n
    {
      if cap - len < n {
        var larger := new Byte[len + n];
        if buf != null {
          forall k | 0 <= k < cap {
            larger[k] := buf[k];
          }
          assert larger[..len] == buf[..len];
        }
        buf, cap := larger, len + n;
      }
    }

    /** Appends the content of chunk, which may be this very array. */
    method Append(chunk: ByteArray)
      requires Valid() && chunk.Valid()
      requires chunk == this || buf == null || chunk.buf != buf
      modifies this, buf
      ensures Valid() && Contents() == old(Contents()) + old(chunk.Contents())
      ensures chunk != this ==> chunk.Valid() && chunk.View() == old(chunk.View())
      ensures old(chunk.len) <= old(cap - len) ==> buf == old(buf) && cap == old(cap)
      ensures old(chunk.len) > old(cap - len) ==> buf != null && fresh(buf) && cap == old(len + chunk.len)
      ensures View() == Null <==> old(View() == Null && chunk.len == 0)
    {
      ghost var back := chunk.Contents();
      Reserve(chunk.len);
      var n := chunk.len;
      assert chunk.Contents() == back && |back| == n;
      if n > 0 {
        CopyIn(chunk.buf[..n]);
      }
      len := len + n;
    }

    /** memcpy to just past the content. */
    method CopyIn(b: Bytes)
      requires Valid() && buf != null && len + |b| <= cap
      modifies buf
      ensures buf[..len + |b|] == old(buf[..len]) + b
    {
      var at := len;
      forall k | 0 <= k < |b| {
        buf[at + k] := b[k];
      }
    }

    /** Sets the length to anything the storage holds; growing shows the bytes that were there. */
    method Truncate(n: nat)
      requires Valid() && n <= cap
      modifies this
      ensures Valid() && len == n && buf == old(buf) && cap == old(cap)
      ensures n <= old(len) ==> Contents() == old(Contents())[..n]
      ensures n >= old(len) ==> Contents()[..old(len)] == old(Contents())
    {
      len := n;
    }

    /** Equality of views: null differs from empty, and capacity does not matter. */
    method Equal(other: ByteArray) returns (b: bool)
      requires Valid() && other.Valid()
      ensures b <==> View() == other.View()
    {
      assert |Contents()| == len && |other.Contents()| == other.len;
      if len != other.len { return false; }
      if len == 0 && other.len == 0 {
        assert buf != null ==> buf[..0] == [];
        assert other.buf != null ==> other.buf[..0] == [];
        return (buf == null) == (other.buf == null);
      }
      return buf[..len] == other.buf[..len];
    }
  }
}
