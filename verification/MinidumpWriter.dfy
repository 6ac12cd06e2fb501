/** The allocator of the minidump file writer, and the typed chunks written through it. */
module MinidumpWriter {

  newtype Byte = x: int | 0 <= x < 256

  /** Positions in the file are 32 bits wide; the last one stands for a failed allocation. */
  const RVA_LIMIT: nat := 0x1_0000_0000
  const INVALID: nat := 0xFFFF_FFFF

  /** `(size + 7) & ~7`. */
  function Aligned(size: nat): (r: nat)
    ensures size <= r < size + 8 && r % 8 == 0
  {
    (size + 7) / 8 * 8
  }

  datatype Chunk = Chunk(position: nat, size: nat)

  /** The chunks follow each other from `from` on, each at a multiple of 8, and end at `to`. */
  ghost predicate Laid(chunks: seq<Chunk>, from: nat, to: nat) {
    if chunks == [] then from == to
    else
      var c := chunks[0];
      c.position == from && from % 8 == 0 && c.size > 0 && Laid(chunks[1..], from + Aligned(c.size), to)
  }

  predicate Inside(at: nat, n: nat, c: Chunk) {
    c.position <= at && at + n <= c.position + c.size
  }

  predicate Apart(at: nat, n: nat, c: Chunk) {
    at + n <= c.position || c.position + c.size <= at
  }

  /** A write of some bytes. */
  function Patched(file: seq<Byte>, at: nat, bytes: seq<Byte>): (r: seq<Byte>)
    requires at + |bytes| <= |file|
    ensures |r| == |file|
  {
    file[..at] + bytes + file[at + |bytes|..]
  }

  function Contents(file: seq<Byte>, c: Chunk): seq<Byte>
    requires c.position + c.size <= |file|
  {
    file[c.position..c.position + c.size]
  }

  lemma {:induction false} LaidBounds(chunks: seq<Chunk>, from: nat, to: nat)
    requires Laid(chunks, from, to)
    ensures from <= to
    ensures forall c | c in chunks ::
      from <= c.position && c.position + Aligned(c.size) <= to && c.position % 8 == 0 && c.size > 0
  {
    if chunks != [] {
      LaidBounds(chunks[1..], from + Aligned(chunks[0].size), to);
    }
  }

  lemma {:induction false} LaidMore(chunks: seq<Chunk>, from: nat, to: nat, c: Chunk)
    requires Laid(chunks, from, to) && c.position == to && to % 8 == 0 && c.size > 0
    ensures Laid(chunks + [c], from, to + Aligned(c.size))
  {
    if chunks == [] {
      assert chunks + [c] == [c] && [c][1..] == [];
    } else {
      assert (chunks + [c])[1..] == chunks[1..] + [c];
      LaidMore(chunks[1..], from + Aligned(chunks[0].size), to, c);
    }
  }

  /** Chunks do not overlap, so what is inside one is apart from every other. */
  lemma {:induction false} ChunksApart(chunks: seq<Chunk>, from: nat, to: nat, c: Chunk, d: Chunk)
    requires Laid(chunks, from, to) && c in chunks && d in chunks && c != d
    ensures Apart(c.position, c.size, d)
  {
    LaidBounds(chunks, from, to);
    var rest := chunks[1..];
    LaidBounds(rest, from + Aligned(chunks[0].size), to);
    if c in rest && d in rest {
      ChunksApart(rest, from + Aligned(chunks[0].size), to, c, d);
    }
  }

  lemma PatchedApart(file: seq<Byte>, at: nat, bytes: seq<Byte>, c: Chunk)
    requires at + |bytes| <= |file| && c.position + c.size <= |file| && Apart(at, |bytes|, c)
    ensures Contents(Patched(file, at, bytes), c) == Contents(file, c)
  {
    var p := Patched(file, at, bytes);
    forall i | c.position <= i < c.position + c.size ensures p[i] == file[i] {
    }
  }

  /** A write inside one chunk leaves the bytes of all others alone. */
  lemma OthersKept(chunks: seq<Chunk>, to: nat, file: seq<Byte>, c: Chunk, at: nat, bytes: seq<Byte>)
    requires Laid(chunks, 0, to) && to <= |file| && c in chunks && Inside(at, |bytes|, c)
    ensures at + |bytes| <= |file|
    ensures forall d | d in chunks && d != c ::
      d.position + d.size <= |file| && Contents(Patched(file, at, bytes), d) == Contents(file, d)
  {
    LaidBounds(chunks, 0, to);
    forall d | d in chunks && d != c
      ensures d.position + d.size <= |file| && Contents(Patched(file, at, bytes), d) == Contents(file, d)
    {
      ChunksApart(chunks, 0, to, c, d);
      PatchedApart(file, at, bytes, d);
    }
  }

  class MinidumpFileWriter {
    const page: nat
    var position: nat
    var size: nat
    var file: seq<Byte>
    ghost var chunks: seq<Chunk>

    /** The chunks lie one after the other from the start of the file up to the position, which is in the file. */
    ghost predicate Valid()
      reads this
    {
      Laid(chunks, 0, position) && position <= size == |file| && position % 8 == 0 && position < RVA_LIMIT
    }

    constructor (page: nat)
      ensures Valid() && this.page == page && position == 0 && file == [] && chunks == []
    {
      this.page, position, size, file, chunks := page, 0, 0, [], [];
    }

    /**
      `grows` says whether the operating system extends the file when asked to. The 32-bit position is not checked
      for overflow: everything holds as long as it does not wrap.
     */
    method Allocate(bytes: nat, grows: bool) returns (rva: nat)
      requires Valid() && bytes > 0
      modifies this
      ensures rva == INVALID || old(position) + Aligned(bytes) < RVA_LIMIT ==> Valid()
      ensures old(file) <= file && |file| == size >= old(position) + if rva == INVALID then 0 else Aligned(bytes)
      ensures rva == INVALID <==> !grows && old(position) + Aligned(bytes) > old(size)
      ensures rva != INVALID ==> rva == old(position) && chunks == old(chunks) + [Chunk(rva, bytes)]
      ensures rva == INVALID ==> chunks == old(chunks) && position == old(position) && file == old(file)
    {
      hide Aligned, Laid;
      var aligned := Aligned(bytes);
      if position + aligned > size {
        var growth := aligned;
        if growth < page {
          growth := page;
        }
        if !grows {
          return INVALID;
        }
        file := file + seq(growth, i => 0);
        size := size + growth;
      }
      rva := position;
      LaidMore(chunks, 0, position, Chunk(rva, bytes));
      chunks := chunks + [Chunk(rva, bytes)];
      position := (position + aligned) % RVA_LIMIT;
    }

    /** `written` says how many of the bytes the operating system writes. */
    method Copy(at: nat, bytes: seq<Byte>, written: nat) returns (ok: bool)
      requires Valid() && bytes != [] && written <= |bytes|
      modifies this`file
      ensures Valid()
      ensures ok <==> at + |bytes| <= size && written == |bytes|
      ensures file == if at + |bytes| <= size then Patched(old(file), at, bytes[..written]) else old(file)
    {
      if |bytes| + at > size {
        return false;
      }
      file := Patched(file, at, bytes[..written]);
      return written == |bytes|;
    }
  }

  datatype AllocationState = UNALLOCATED | SINGLE_OBJECT | ARRAY | SINGLE_OBJECT_WITH_ARRAY

  /**
    The elements follow the object without gaps up to the end of the chunk, so an element's bytes are inside the chunk
    exactly when its index is below the count of the allocation.
   */
  lemma ElementInside(position: nat, objectSize: nat, count: nat, size: nat, index: nat)
    requires size > 0
    ensures Inside(position + objectSize + index * size, size, Chunk(position, objectSize + count * size)) <==>
      index < count
  {
    assert index * size + size == (index + 1) * size;
    if index < count {
      Monotone(index + 1, count, size);
    } else {
      Monotone(count, index, size);
    }
  }

  lemma Monotone(a: nat, b: nat, size: nat)
    requires a <= b
    ensures a * size <= b * size
  {
  }

  /** A write of the first bytes of an object of `n` bytes, if the file has the room for the object. */
  function Flushed(file: seq<Byte>, at: nat, n: nat, bytes: seq<Byte>): (r: seq<Byte>)
    requires |bytes| <= n
    ensures |r| == |file|
  {
    if at + n <= |file| then Patched(file, at, bytes) else file
  }

  /** Chunks were allocated since, and the file has room for the object. */
  predicate Overwrites(file: seq<Byte>, chunks: seq<Chunk>, made: seq<Chunk>, at: nat, n: nat) {
    |made| < |chunks| && at + n <= |file|
  }

  lemma {:induction false} LaidSplit(chunks: seq<Chunk>, made: seq<Chunk>, from: nat, at: nat, to: nat)
    requires Laid(chunks, from, to) && made <= chunks && Laid(made, from, at)
    ensures Laid(chunks[|made|..], at, to)
  {
    if made != [] {
      LaidSplit(chunks[1..], made[1..], from + Aligned(made[0].size), at, to);
      assert chunks[1..][|made| - 1..] == chunks[|made|..];
    } else {
      assert chunks[0..] == chunks;
    }
  }

  /** Where the bytes of an object that was never allocated go. */
  lemma FlushReaches(chunks: seq<Chunk>, to: nat, file: seq<Byte>, made: seq<Chunk>, at: nat, n: nat, bytes: seq<Byte>)
    requires Laid(chunks, 0, to) && to <= |file| && made <= chunks && Laid(made, 0, at) && |bytes| <= n
    ensures forall c | c in chunks :: c.position + c.size <= |file|
    ensures !Overwrites(file, chunks, made, at, n) ==>
      forall c | c in chunks :: Contents(Flushed(file, at, n, bytes), c) == Contents(file, c)
    ensures Overwrites(file, chunks, made, at, n) ==>
      chunks[|made|].position == at && (bytes != [] ==> Flushed(file, at, n, bytes)[at] == bytes[0])
  {
    LaidBounds(chunks, 0, to);
    LaidBounds(made, 0, at);
    LaidSplit(chunks, made, 0, at, to);
    if |made| < |chunks| {
      assert chunks[|made|..][0] == chunks[|made|];
    } else if at + n <= |file| {
      forall c | c in chunks ensures Contents(Flushed(file, at, n, bytes), c) == Contents(file, c) {
        PatchedApart(file, at, bytes, c);
      }
    }
  }

  /** Writing these bytes at that place changes the contents of a chunk. */
  ghost predicate Harms(file: seq<Byte>, chunks: seq<Chunk>, at: nat, bytes: seq<Byte>) {
    exists c | c in chunks :: c.position + c.size <= |file| &&
      Contents(Flushed(file, at, |bytes|, bytes), c) != Contents(file, c)
  }

  /**
    An object that was never allocated is still written when it goes away, at the position the writer had when it was
    made. Some object of its size changes the bytes of a chunk exactly when anything has been allocated since and the
    file has room for the object.
   */
  lemma UnallocatedFlush(chunks: seq<Chunk>, to: nat, file: seq<Byte>, made: seq<Chunk>, at: nat, n: nat)
    requires Laid(chunks, 0, to) && to <= |file| && made <= chunks && Laid(made, 0, at) && n > 0
    ensures (exists bytes: seq<Byte> :: |bytes| == n && Harms(file, chunks, at, bytes)) <==>
      Overwrites(file, chunks, made, at, n)
  {
    hide Laid;
    if bytes: seq<Byte> :| |bytes| == n && Harms(file, chunks, at, bytes) {
      FlushReaches(chunks, to, file, made, at, n, bytes);
    }
    if Overwrites(file, chunks, made, at, n) {
      var other: Byte := if file[at] == 0 then 1 else 0;
      var bytes := seq(n, i => other);
      FlushReaches(chunks, to, file, made, at, n, bytes);
      var c := chunks[|made|];
      LaidBounds(chunks, 0, to);
      assert c in chunks && Contents(file, c)[0] == file[at];
      assert Contents(Flushed(file, at, n, bytes), c)[0] == other;
      assert Harms(file, chunks, at, bytes);
    }
  }

  class TypedMDRVA {
    const writer: MinidumpFileWriter
    // the size of the object type in the file
    const objectSize: nat
    var position: nat
    var size: nat
    var state: AllocationState
    // the elements allocated, and the size of each
    ghost var count: nat
    ghost var elementSize: nat
    // the chunks there were when this was made
    ghost const made: seq<Chunk>

    /** The chunk belongs to the writer and has the size its state calls for. */
    ghost predicate Holds()
      reads this, writer
    {
      && state != UNALLOCATED && Chunk(position, size) in writer.chunks
      && (match state
          case ARRAY => size == count * objectSize
          case SINGLE_OBJECT_WITH_ARRAY => size == objectSize + count * elementSize
          case _ => size >= objectSize)
    }

    /** Never allocated: still at the position the writer had when this was made. */
    ghost predicate Unallocated()
      reads this, writer
    {
      state == UNALLOCATED && made <= writer.chunks && Laid(made, 0, position)
    }

    constructor (writer: MinidumpFileWriter, objectSize: nat)
      requires objectSize > 0 && writer.Valid()
      ensures Unallocated() && made == writer.chunks
      ensures this.writer == writer && this.objectSize == objectSize
      ensures position == writer.position && size == 0 && state == UNALLOCATED
    {
      this.writer, this.objectSize := writer, objectSize;
      position, size, state := writer.position, 0, UNALLOCATED;
      made := writer.chunks;
    }

    method AllocateBytes(bytes: nat, grows: bool) returns (ok: bool)
      requires writer.Valid() && size == 0 && bytes > 0
      modifies this`position, this`size, writer
      ensures !ok || old(writer.position) + Aligned(bytes) < RVA_LIMIT ==> writer.Valid()
      ensures size == bytes
      ensures ok <==> grows || old(writer.position) + Aligned(bytes) <= old(writer.size)
      ensures ok ==> writer.chunks == old(writer.chunks) + [Chunk(position, size)]
      ensures !ok ==> position == INVALID && writer.chunks == old(writer.chunks)
    {
      size := bytes;
      position := writer.Allocate(size, grows);
      return position != INVALID;
    }

    /** `Allocate`, with room for `additional` bytes after the object. */
    method AllocateObject(additional: nat, grows: bool) returns (ok: bool)
      requires writer.Valid() && size == 0 && objectSize > 0
      modifies this, writer
      ensures !ok || old(writer.position) + Aligned(objectSize + additional) < RVA_LIMIT ==> writer.Valid()
      ensures state == SINGLE_OBJECT && (ok ==> Holds() && size == objectSize + additional)
      ensures !ok ==> writer.chunks == old(writer.chunks)
    {
      state := SINGLE_OBJECT;
      ok := AllocateBytes(objectSize + additional, grows);
    }

    method AllocateArray(n: nat, grows: bool) returns (ok: bool)
      requires writer.Valid() && size == 0 && n > 0 && objectSize > 0
      modifies this, writer
      ensures !ok || old(writer.position) + Aligned(n * objectSize) < RVA_LIMIT ==> writer.Valid()
      ensures state == ARRAY && (ok ==> Holds() && count == n)
      ensures !ok ==> writer.chunks == old(writer.chunks)
    {
      state := ARRAY;
      count, elementSize := n, objectSize;
      Monotone(1, n, objectSize);
      ok := AllocateBytes(n * objectSize, grows);
    }

    method AllocateObjectAndArray(n: nat, each: nat, grows: bool) returns (ok: bool)
      requires writer.Valid() && size == 0 && n > 0 && each > 0 && objectSize > 0
      modifies this, writer
      ensures !ok || old(writer.position) + Aligned(objectSize + n * each) < RVA_LIMIT ==> writer.Valid()
      ensures state == SINGLE_OBJECT_WITH_ARRAY && (ok ==> Holds() && count == n && elementSize == each)
      ensures !ok ==> writer.chunks == old(writer.chunks)
    {
      state := SINGLE_OBJECT_WITH_ARRAY;
      count, elementSize := n, each;
      ok := AllocateBytes(objectSize + n * each, grows);
    }

    /** Every chunk but this one keeps its bytes. */
    twostate predicate OthersSame()
      reads this, writer
    {
      && writer.chunks == old(writer.chunks) && |writer.file| == |old(writer.file)|
      && forall d | d in writer.chunks && d != Chunk(position, size) && d.position + d.size <= |writer.file| ::
           Contents(writer.file, d) == Contents(old(writer.file), d)
    }

    method WriteInside(at: nat, bytes: seq<Byte>, written: nat) returns (ok: bool)
      requires writer.Valid() && Holds() && bytes != [] && written <= |bytes|
      requires Inside(at, |bytes|, Chunk(position, size))
      modifies writer`file
      ensures writer.Valid() && Holds() && OthersSame()
      ensures at + |bytes| <= |old(writer.file)|
      ensures ok <==> written == |bytes|
      ensures writer.file == Patched(old(writer.file), at, bytes[..written])
    {
      OthersKept(writer.chunks, writer.position, writer.file, Chunk(position, size), at, bytes);
      OthersKept(writer.chunks, writer.position, writer.file, Chunk(position, size), at, bytes[..written]);
      ok := writer.Copy(at, bytes, written);
    }

    /** An element of an array, at the index and of the size it was allocated with. */
    method CopyIndex(index: nat, item: seq<Byte>, written: nat) returns (ok: bool)
      requires writer.Valid() && Holds() && state == ARRAY && index < count
      requires |item| == objectSize > 0 && written <= |item|
      modifies writer`file
      ensures writer.Valid() && Holds() && OthersSame() && (ok <==> written == |item|)
      ensures ok ==> var at := position + index * objectSize;
        at + objectSize <= |writer.file| && writer.file[at..at + objectSize] == item
    {
      var at := position + index * objectSize;
      ElementInside(position, 0, count, objectSize, index);
      ok := WriteInside(at, item, written);
    }

    method CopyIndexAfterObject(index: nat, src: seq<Byte>, written: nat) returns (ok: bool)
      requires writer.Valid() && Holds() && state == SINGLE_OBJECT_WITH_ARRAY && index < count
      requires |src| == elementSize && src != [] && written <= |src|
      modifies writer`file
      ensures writer.Valid() && Holds() && OthersSame() && (ok <==> written == |src|)
      ensures ok ==> var at := position + objectSize + index * elementSize;
        at + elementSize <= |writer.file| && writer.file[at..at + elementSize] == src
    {
      var at := position + objectSize + index * |src|;
      ElementInside(position, objectSize, count, elementSize, index);
      ok := WriteInside(at, src, written);
    }

    /** Write the object itself, whatever has been allocated. */
    method Flush(data: seq<Byte>, written: nat) returns (ok: bool)
      requires writer.Valid() && |data| == objectSize > 0 && written <= |data|
      modifies writer`file
      ensures writer.Valid()
      ensures writer.file == Flushed(old(writer.file), position, objectSize, data[..written])
      ensures ok <==> position + objectSize <= writer.size && written == objectSize
      ensures Holds() && state != ARRAY ==> OthersSame()
    {
      if Holds() && state != ARRAY {
        OthersKept(writer.chunks, writer.position, writer.file, Chunk(position, size), position, data);
        OthersKept(writer.chunks, writer.position, writer.file, Chunk(position, size), position, data[..written]);
      }
      ok := writer.Copy(position, data, written);
    }

    /**
      The destructor: an array has no object to write. An object never allocated is written where the next chunk after
      it was made lies, if there is one and the file has the room.
     */
    method Destroy(data: seq<Byte>, written: nat)
      requires writer.Valid() && |data| == objectSize > 0 && written <= |data|
      modifies writer`file
      ensures writer.Valid()
      ensures state != ARRAY ==> writer.file == Flushed(old(writer.file), position, objectSize, data[..written])
      ensures state == ARRAY ==> writer.file == old(writer.file)
      ensures Holds() ==> OthersSame()
      ensures Unallocated() && !Overwrites(writer.file, writer.chunks, made, position, objectSize) ==> OthersSame()
      ensures Unallocated() && Overwrites(writer.file, writer.chunks, made, position, objectSize) && written > 0 ==>
        writer.chunks[|made|].position == position && writer.file[position] == data[0]
    {
      if state == UNALLOCATED && Unallocated() {
        FlushReaches(writer.chunks, writer.position, writer.file, made, position, objectSize, data[..written]);
      }
      if state != ARRAY {
        var _ := Flush(data, written);
      }
    }
  }
}
