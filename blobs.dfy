/**
  The chunked blob store: `Blob.write` splits a byte stream into chunks
  stored under (blob, index), and `BlobReader` reads them back in index order
  through a buffer.

  `Split` is the specification of the chunks `write` produces; `Concat`
  undoes it. The chunk table is a map keyed by (blob, index), which is the
  `unique_together` constraint of `BlobChunk`.
 */
module Blobs {
  import opened Common

  type BlobId = string

  datatype ChunkKey = ChunkKey(blob: BlobId, index: nat)

  // ---------------------------------------------------------------------
  // The chunks of a byte string

  /** The bodies read back to back, in order. */
  function Concat(chunks: seq<Bytes>): Bytes
  {
    if |chunks| == 0 then [] else chunks[0] + Concat(chunks[1..])
  }

  lemma {:induction false} ConcatAppend(a: seq<Bytes>, b: seq<Bytes>)
    ensures Concat(a + b) == Concat(a) + Concat(b)
  {
    if |a| == 0 {
      assert a + b == b;
    } else {
      calc {
        Concat(a + b);
        (a + b)[0] + Concat((a + b)[1..]);
        { assert (a + b)[1..] == a[1..] + b; }
        a[0] + Concat(a[1..] + b);
        { ConcatAppend(a[1..], b); }
        a[0] + (Concat(a[1..]) + Concat(b));
        (a[0] + Concat(a[1..])) + Concat(b);
      }
    }
  }

  /** Extending a slice of chunks by one more chunk extends its bytes by that chunk's body. */
  lemma ConcatSliceSnoc(chunks: seq<Bytes>, lo: nat, hi: nat)
    requires lo <= hi < |chunks|
    ensures Concat(chunks[lo..hi + 1]) == Concat(chunks[lo..hi]) + chunks[hi]
  {
    assert chunks[lo..hi + 1] == chunks[lo..hi] + [chunks[hi]];
    ConcatAppend(chunks[lo..hi], [chunks[hi]]);
  }

  /** The bytes from chunk `lo` on are those of chunks `lo` to `hi`, then those from `hi` on. */
  lemma ConcatSplitAt(chunks: seq<Bytes>, lo: nat, hi: nat)
    requires lo <= hi <= |chunks|
    ensures Concat(chunks[lo..]) == Concat(chunks[lo..hi]) + Concat(chunks[hi..])
  {
    assert chunks[lo..] == chunks[lo..hi] + chunks[hi..];
    ConcatAppend(chunks[lo..hi], chunks[hi..]);
  }

  /**
    The successive results of `data.read(chunkSize)` up to the first empty
    one, on a stream holding `data` whose reads are full: pieces of
    `chunkSize` bytes and a shorter last piece; everything at once for a
    negative size (a read of all that is left); nothing for size 0.
   */
  function Split(data: Bytes, chunkSize: int): (chunks: seq<Bytes>)
    ensures chunks == [] <==> |data| == 0 || chunkSize == 0
    decreases |data|
  {
    if |data| == 0 || chunkSize == 0 then []
    else if chunkSize < 0 || |data| <= chunkSize then [data]
    else [data[..chunkSize]] + Split(data[chunkSize..], chunkSize)
  }

  /** Reading the chunks back gives the data, for every non-zero chunk size. */
  lemma {:induction false} SplitConcat(data: Bytes, chunkSize: int)
    requires chunkSize != 0
    ensures Concat(Split(data, chunkSize)) == data
    decreases |data|
  {
    if 0 < chunkSize < |data| {
      var rest := Split(data[chunkSize..], chunkSize);
      SplitConcat(data[chunkSize..], chunkSize);
      assert ([data[..chunkSize]] + rest)[1..] == rest;
      assert data[..chunkSize] + data[chunkSize..] == data;
    }
  }

  /**
    For a positive chunk size, every chunk is non-empty and at most
    `chunkSize` long, and every chunk but the last is exactly `chunkSize` long.
   */
  lemma {:induction false} SplitChunkSizes(data: Bytes, chunkSize: int)
    requires chunkSize > 0
    ensures forall k :: 0 <= k < |Split(data, chunkSize)| ==> 0 < |Split(data, chunkSize)[k]| <= chunkSize
    ensures forall k :: 0 <= k < |Split(data, chunkSize)| - 1 ==> |Split(data, chunkSize)[k]| == chunkSize
    decreases |data|
  {
    if |data| > chunkSize {
      var rest := Split(data[chunkSize..], chunkSize);
      SplitChunkSizes(data[chunkSize..], chunkSize);
      assert Split(data, chunkSize) == [data[..chunkSize]] + rest;
      forall k | 0 < k < |Split(data, chunkSize)|
        ensures Split(data, chunkSize)[k] == rest[k - 1]
      {
      }
    }
  }

  /**
    For a positive chunk size, the number of chunks n is ceil(|data| / chunkSize):
    the least n with n * chunkSize >= |data|.
   */
  lemma {:induction false} SplitCount(data: Bytes, chunkSize: int)
    requires chunkSize > 0
    ensures |data| <= |Split(data, chunkSize)| * chunkSize < |data| + chunkSize
    decreases |data|
  {
    if |data| > chunkSize {
      var rest := data[chunkSize..];
      SplitCount(rest, chunkSize);
      var n := |Split(rest, chunkSize)|;
      assert |Split(data, chunkSize)| == n + 1;
      assert (n + 1) * chunkSize == n * chunkSize + chunkSize;
    }
  }

  /** Writing 150000 bytes with the default chunk size gives chunks of 65536, 65536 and 18928 bytes. */
  lemma SplitDefaultSizeExample(data: Bytes)
    requires |data| == 150000
    ensures var chunks := Split(data, 65536);
      && |chunks| == 3
      && |chunks[0]| == 65536 && |chunks[1]| == 65536 && |chunks[2]| == 18928
  {
    var rest1 := data[65536..];
    var rest2 := rest1[65536..];
    assert Split(rest2, 65536) == [rest2];
    assert Split(rest1, 65536) == [rest1[..65536]] + [rest2];
    assert Split(data, 65536) == [data[..65536]] + [rest1[..65536]] + [rest2];
  }

  /** The first chunk is the first read of the stream, the rest are the reads after it. */
  lemma SplitStep(data: Bytes, chunkSize: int, n: nat)
    requires data != [] && chunkSize != 0
    requires n == if chunkSize < 0 then |data| else Min(chunkSize, |data|)
    ensures Split(data, chunkSize) == [data[..n]] + Split(data[n..], chunkSize)
  {
    if chunkSize < 0 || |data| <= chunkSize {
      assert data[..n] == data && data[n..] == [];
    }
  }

  // ---------------------------------------------------------------------
  // The input stream

  /** A readable byte stream holding `data`, read from `pos` on. */
  class ByteStream {
    const data: Bytes
    var pos: nat

    ghost predicate Valid()
      reads this
    {
      pos <= |data|
    }

    /** The bytes not yet read. */
    function Remaining(): Bytes
      reads this
      requires Valid()
    {
      data[pos..]
    }

    constructor (data: Bytes)
      ensures Valid() && this.data == data && pos == 0
    {
      this.data := data;
      pos := 0;
    }

    /**
      `read(size)`: the next `size` bytes, or all that is left when fewer
      remain or `size` is negative.
     */
    method Read(size: int) returns (buf: Bytes)
      requires Valid()
      modifies this
      ensures Valid()
      ensures buf + Remaining() == old(Remaining())
      ensures |buf| == if size < 0 then |old(Remaining())| else Min(size, |old(Remaining())|)
    {
      var n := if size < 0 then |data| - pos else Min(size, |data| - pos);
      buf := data[pos..pos + n];
      pos := pos + n;
    }
  }

  // ---------------------------------------------------------------------
  // The store

  /** The chunk rows of blob `id` for the bodies `bodies`, at indices 0, 1, 2, ... */
  function Placed(id: BlobId, bodies: seq<Bytes>): (m: map<ChunkKey, Bytes>)
    ensures forall k :: k in m <==> k.blob == id && k.index < |bodies|
    ensures forall k :: k in m ==> m[k] == bodies[k.index]
  {
    map i: nat | i < |bodies| :: ChunkKey(id, i) := bodies[i]
  }

  lemma PlacedSnoc(id: BlobId, bodies: seq<Bytes>, body: Bytes)
    ensures Placed(id, bodies + [body]) == Placed(id, bodies)[ChunkKey(id, |bodies|) := body]
  {
  }

  /**
    One read of a non-empty stream moves the next piece of `Split` from the
    stream to the pieces written.
   */
  lemma WrittenStep(written: seq<Bytes>, before: Bytes, buf: Bytes, rest: Bytes, chunkSize: int)
    requires before != [] && chunkSize != 0 && buf + rest == before
    requires |buf| == if chunkSize < 0 then |before| else Min(chunkSize, |before|)
    ensures (written + [buf]) + Split(rest, chunkSize) == written + Split(before, chunkSize)
  {
    assert buf == before[..|buf|] && rest == before[|buf|..];
    SplitStep(before, chunkSize, |buf|);
    assert (written + [buf]) + Split(rest, chunkSize) == written + ([buf] + Split(rest, chunkSize));
  }

  /** Updating a union at a key updates its right operand, which wins on shared keys. */
  lemma UnionUpdate(a: map<ChunkKey, Bytes>, b: map<ChunkKey, Bytes>, k: ChunkKey, v: Bytes)
    ensures (a + b)[k := v] == a + b[k := v]
  {
  }

  /** The `Blob` and `BlobChunk` tables. */
  class BlobStore {
    var blobs: map<BlobId, Option<string>>
    var chunks: map<ChunkKey, Bytes>

    /** Every chunk belongs to a stored blob (the foreign key of `BlobChunk.blob`). */
    ghost predicate Valid()
      reads this
    {
      forall k :: k in chunks ==> k.blob in blobs
    }

    constructor ()
      ensures Valid() && blobs == map[] && chunks == map[]
    {
      blobs := map[];
      chunks := map[];
    }

    /**
      `Blob.write(stream, name, chunkSize)`: store a new blob `id` and the
      successive reads of the stream as its chunks 0, 1, 2, ...; the stream
      is read to its end unless `chunkSize` is 0.
     */
    method Write(id: BlobId, stream: ByteStream, name: Option<string>, chunkSize: int)
      requires Valid() && stream.Valid() && id !in blobs
      modifies this, stream
      ensures Valid() && stream.Valid()
      ensures blobs == old(blobs)[id := name]
      ensures chunks == old(chunks) + Placed(id, Split(old(stream.Remaining()), chunkSize))
      ensures stream.Remaining() == if chunkSize == 0 then old(stream.Remaining()) else []
    {
      ghost var input, c0 := stream.Remaining(), chunks;
      blobs := blobs[id := name];
      var idx: nat := 0;
      ghost var written: seq<Bytes> := [];
      while true
        invariant Valid() && stream.Valid()
        invariant blobs == old(blobs)[id := name]
        invariant idx == |written|
        invariant written + Split(stream.Remaining(), chunkSize) == Split(input, chunkSize)
        invariant chunks == c0 + Placed(id, written)
        invariant chunkSize == 0 ==> stream.Remaining() == input
        decreases |stream.Remaining()|
      {
        ghost var before := stream.Remaining();
        var buf := stream.Read(chunkSize);
        if |buf| == 0 {
          assert Split(stream.Remaining(), chunkSize) == [];
          assert written == Split(input, chunkSize);
          break;
        }
        WrittenStep(written, before, buf, stream.Remaining(), chunkSize);
        PlacedSnoc(id, written, buf);
        UnionUpdate(c0, Placed(id, written), ChunkKey(id, idx), buf);
        chunks := chunks[ChunkKey(id, idx) := buf];
        written := written + [buf];
        idx := idx + 1;
      }
    }
  }

  // ---------------------------------------------------------------------
  // The ordered chunk query

  /** A least element of a non-empty set of naturals. */
  lemma {:induction false} LeastOf(s: set<nat>) returns (m: nat)
    requires s != {}
    ensures m in s && forall x :: x in s ==> m <= x
    decreases s
  {
    var x :| x in s;
    if s == {x} {
      m := x;
    } else {
      var y := LeastOf(s - {x});
      m := if x <= y then x else y;
      forall z | z in s ensures m <= z {
        if z != x {
          assert z in s - {x};
        }
      }
    }
  }

  /** A non-empty set of naturals has a least element. */
  lemma MinExists(s: set<nat>)
    requires s != {}
    ensures exists m :: m in s && forall x :: x in s ==> m <= x
  {
    var m := LeastOf(s);
  }

  /** The least element of a non-empty set of naturals. */
  function MinOf(s: set<nat>): (m: nat)
    requires s != {}
    ensures m in s && forall x :: x in s ==> m <= x
  {
    MinExists(s);
    var m :| m in s && forall x :: x in s ==> m <= x; m
  }

  /** The elements of `s` in increasing order. */
  function Sorted(s: set<nat>): (r: seq<nat>)
    ensures forall i, j :: 0 <= i < j < |r| ==> r[i] < r[j]
    ensures forall x :: x in s <==> x in r
    decreases s
  {
    if s == {} then []
    else
      var m := MinOf(s);
      [m] + Sorted(s - {m})
  }

  /** The indices of the chunks of blob `id`. */
  function Indices(chunks: map<ChunkKey, Bytes>, id: BlobId): (r: set<nat>)
    ensures forall n :: n in r <==> ChunkKey(id, n) in chunks
  {
    set k | k in chunks && k.blob == id :: k.index
  }

  /** `BlobChunk.objects.filter(blob=id).order_by("index")`: the bodies of blob `id` by index. */
  function Query(chunks: map<ChunkKey, Bytes>, id: BlobId): (r: seq<Bytes>)
  {
    var idx := Sorted(Indices(chunks, id));
    seq(|idx|, i requires 0 <= i < |idx| => chunks[ChunkKey(id, idx[i])])
  }

  /** Sorting keeps every element once: as many as the set holds. */
  lemma {:induction false} SortedLength(s: set<nat>)
    ensures |Sorted(s)| == |s|
    decreases s
  {
    if s != {} {
      SortedLength(s - {MinOf(s)});
    }
  }

  /** The ordered query returns one body per chunk of the blob. */
  lemma QueryLength(chunks: map<ChunkKey, Bytes>, id: BlobId)
    ensures |Query(chunks, id)| == |Indices(chunks, id)|
  {
    SortedLength(Indices(chunks, id));
  }

  /** The naturals `lo <= n < hi`. */
  function Range(lo: nat, hi: nat): (r: set<nat>)
    ensures forall n :: n in r <==> lo <= n < hi
    decreases hi - lo
  {
    if hi <= lo then {} else {lo} + Range(lo + 1, hi)
  }

  /** The naturals lo, lo + 1, ..., hi - 1, in this order. */
  function Upto(lo: nat, hi: nat): (r: seq<nat>)
    ensures |r| == if lo <= hi then hi - lo else 0
    ensures forall i :: 0 <= i < |r| ==> r[i] == lo + i
    decreases hi - lo
  {
    if hi <= lo then [] else [lo] + Upto(lo + 1, hi)
  }

  /** The least of the naturals `lo <= n < hi` is `lo`; the others start at `lo + 1`. */
  lemma RangeFront(lo: nat, hi: nat)
    requires lo < hi
    ensures MinOf(Range(lo, hi)) == lo && Range(lo, hi) - {lo} == Range(lo + 1, hi)
  {
    assert lo in Range(lo, hi);
  }

  /** The naturals `lo <= n < hi`, sorted, are lo, lo + 1, ..., hi - 1. */
  lemma {:induction false} SortedRange(lo: nat, hi: nat)
    ensures Sorted(Range(lo, hi)) == Upto(lo, hi)
    decreases hi - lo
  {
    if lo < hi {
      RangeFront(lo, hi);
      SortedRange(lo + 1, hi);
    } else {
      assert Range(lo, hi) == {};
    }
  }

  /**
    After writing blob `id` into a store where it had no chunks, the ordered
    query for `id` gives back the written bodies, in order.
   */
  lemma QueryPlaced(old_chunks: map<ChunkKey, Bytes>, id: BlobId, bodies: seq<Bytes>)
    requires forall k :: k in old_chunks ==> k.blob != id
    ensures Query(old_chunks + Placed(id, bodies), id) == bodies
  {
    var chunks := old_chunks + Placed(id, bodies);
    IndicesPlaced(old_chunks, id, bodies);
    SortedRange(0, |bodies|);
    var idx := Sorted(Indices(chunks, id));
    assert |idx| == |bodies|;
    forall i | 0 <= i < |bodies|
      ensures Query(chunks, id)[i] == bodies[i]
    {
      assert idx[i] == i;
    }
  }

  /** After writing blob `id` into a store where it had no chunks, its indices are 0, ..., n - 1. */
  lemma IndicesPlaced(old_chunks: map<ChunkKey, Bytes>, id: BlobId, bodies: seq<Bytes>)
    requires forall k :: k in old_chunks ==> k.blob != id
    ensures Indices(old_chunks + Placed(id, bodies), id) == Range(0, |bodies|)
  {
  }

  // ---------------------------------------------------------------------
  // The reader

  /**
    Pulling chunks `lo` to `hi` into a buffer holding `buffer` leaves the bytes
    of the buffer followed by the chunks not pulled as they were.
   */
  lemma PulledKeepsUnread(chunks: seq<Bytes>, buffer: Bytes, lo: nat, hi: nat)
    requires lo <= hi <= |chunks|
    ensures (buffer + Concat(chunks[lo..hi])) + Concat(chunks[hi..]) == buffer + Concat(chunks[lo..])
  {
    ConcatSplitAt(chunks, lo, hi);
  }

  /**
    Cutting the pulled bytes `pulled` into the part `read` returns and the part
    it keeps: the cut keeps the order of the unread bytes, and for a size of at
    least 0 returns that many bytes or all there are.
   */
  lemma CutPulled(consumed: Bytes, unread: Bytes, pulled: Bytes, rest: Bytes, size: int, r: Bytes, kept: Bytes)
    requires unread == pulled + rest
    requires size == -1 || |pulled| < size ==> rest == []
    requires size >= 0 ==> r == pulled[..Min(size, |pulled|)] && kept == pulled[Min(size, |pulled|)..]
    requires size < 0 ==> r == pulled && kept == []
    ensures r + kept == pulled && r + (kept + rest) == unread
    ensures (consumed + r) + (kept + rest) == consumed + unread
    ensures size >= 0 ==> |r| == Min(size, |unread|)
  {
    assert r + kept == pulled;
  }

  /**
    `BlobReader`: the chunks of one blob in index order, a cursor `pos` into
    them (the generator `_gen`) and the bytes pulled but not yet returned
    (`_buffer`).
   */
  class BlobReader {
    const chunks: seq<Bytes>
    var pos: nat
    var buffer: Bytes
    /** The bytes returned so far. */
    ghost var consumed: Bytes

    ghost predicate Valid()
      reads this
    {
      pos <= |chunks| && consumed + Unread() == Concat(chunks)
    }

    /** The bytes not yet returned: the buffer, then the chunks not yet pulled. */
    ghost function Unread(): Bytes
      reads this
      requires pos <= |chunks|
    {
      buffer + Concat(chunks[pos..])
    }

    constructor (store: BlobStore, id: BlobId)
      ensures Valid()
      ensures chunks == Query(store.chunks, id) && pos == 0 && buffer == [] && consumed == []
    {
      chunks := Query(store.chunks, id);
      pos := 0;
      buffer := [];
      consumed := [];
      new;
      assert chunks[0..] == chunks;
    }

    /** `next(self._gen)`: the next chunk in index order, or `None` at the end. */
    method Next() returns (chunk: Option<Bytes>)
      requires pos <= |chunks|
      modifies this`pos
      ensures pos <= |chunks|
      ensures old(pos) < |chunks| ==> chunk == Some(chunks[old(pos)]) && pos == old(pos) + 1
      ensures old(pos) == |chunks| ==> chunk == None && pos == old(pos)
    {
      if pos < |chunks| {
        chunk := Some(chunks[pos]);
        pos := pos + 1;
      } else {
        chunk := None;
      }
    }

    /**
      The loop of `read(size)`: pull chunks into the buffer while `size` is -1
      or the buffer is shorter than `size`: the buffer grows by the chunks
      pulled, each pulled while the buffer was still short.
     */
    method Pull(size: int)
      requires pos <= |chunks|
      modifies this`pos, this`buffer
      ensures old(pos) <= pos <= |chunks|
      ensures buffer == old(buffer) + Concat(chunks[old(pos)..pos])
      ensures size >= 0 && old(pos) < pos ==> |old(buffer) + Concat(chunks[old(pos)..pos - 1])| < size
      ensures size == -1 || |buffer| < size ==> pos == |chunks|
      ensures size < -1 ==> pos == old(pos)
    {
      ghost var b0, p0 := buffer, pos;
      while size == -1 || |buffer| < size
        invariant p0 <= pos <= |chunks|
        invariant buffer == b0 + Concat(chunks[p0..pos])
        invariant size >= 0 && p0 < pos ==> |b0 + Concat(chunks[p0..pos - 1])| < size
        invariant size < -1 ==> pos == p0
        decreases |chunks| - pos
      {
        ghost var before := buffer;
        var chunk := Next();
        if chunk.None? {
          break;
        }
        ConcatSliceSnoc(chunks, p0, pos - 1);
        buffer := buffer + chunk.value;
        assert before == b0 + Concat(chunks[p0..pos - 1]);
        assert buffer == b0 + (Concat(chunks[p0..pos - 1]) + chunks[pos - 1]);
      }
    }

    /**
      `read(size)`. A size of at least 0 returns that many bytes or all there
      are, keeping the rest buffered; -1 returns everything left; a size below
      -1 returns only what is buffered. Either way the bytes returned are the
      next bytes of the blob.
     */
    method Read(size: int) returns (r: Bytes)
      requires Valid()
      modifies this
      ensures Valid()
      ensures consumed == old(consumed) + r
      ensures old(pos) <= pos
      ensures r + buffer == old(buffer) + Concat(chunks[old(pos)..pos])
      ensures r + Unread() == old(Unread())
      ensures size >= 0 ==> |r| == Min(size, |old(Unread())|)
      ensures size >= 0 && old(pos) < pos ==> |old(buffer) + Concat(chunks[old(pos)..pos - 1])| < size
      ensures size >= 0 ==> pos == |chunks| || size <= |old(buffer) + Concat(chunks[old(pos)..pos])|
      ensures size == -1 ==> pos == |chunks| && buffer == []
      ensures size < -1 ==> pos == old(pos) && buffer == []
    {
      ghost var b0, p0 := buffer, pos;
      Pull(size);
      PulledKeepsUnread(chunks, b0, p0, pos);
      ghost var rest := Concat(chunks[pos..]);
      var kept: Bytes;
      if size >= 0 {
        var n := Min(size, |buffer|);
        r, kept := buffer[..n], buffer[n..];
      } else {
        r, kept := buffer, [];
      }
      CutPulled(consumed, old(Unread()), buffer, rest, size, r, kept);
      buffer := kept;
      consumed := consumed + r;
    }
  }

  // ---------------------------------------------------------------------
  // Writing, then reading back

  /**
    A blob written into a fresh store with a non-zero chunk size and read back
    whole with `read()` gives the bytes of the stream.
   */
  method WriteThenReadAll(id: BlobId, data: Bytes, chunkSize: int) returns (r: Bytes)
    requires chunkSize != 0
    ensures r == data
  {
    var store := new BlobStore();
    var stream := new ByteStream(data);
    store.Write(id, stream, None, chunkSize);
    QueryPlaced(map[], id, Split(data, chunkSize));
    var reader := new BlobReader(store, id);
    r := reader.Read(-1);
    SplitConcat(data, chunkSize);
  }
}
