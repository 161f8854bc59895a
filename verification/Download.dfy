/** The download reader, its two ways to seek, and the round trip with the uploader. */
module Download {
  import opened Wrappers
  import opened Crypto
  import opened Blocks

  /** The plaintext of the blocks up to the first that does not open. */
  function GoodBytes(keys: RevisionKeys, verifier: KeyRing, blocks: seq<Block>): seq<Byte> {
    if blocks == [] || !Good(keys, verifier, blocks[0]) then []
    else blocks[0].encData.plain + GoodBytes(keys, verifier, blocks[1..])
  }

  ghost predicate AllGood(keys: RevisionKeys, verifier: KeyRing, blocks: seq<Block>) {
    forall k | 0 <= k < |blocks| :: Good(keys, verifier, blocks[k])
  }

  ghost predicate NoneEmpty(blocks: seq<Block>) {
    forall k | 0 <= k < |blocks| :: blocks[k].encData.plain != []
  }

  lemma {:induction false} GoodBytesCut(keys: RevisionKeys, verifier: KeyRing, blocks: seq<Block>, i: nat)
    requires AllGood(keys, verifier, blocks) && i <= |blocks|
    ensures GoodBytes(keys, verifier, blocks)
            == GoodBytes(keys, verifier, blocks[..i]) + GoodBytes(keys, verifier, blocks[i..])
  {
    if i > 0 {
      GoodBytesCut(keys, verifier, blocks[1..], i - 1);
      assert blocks[..i][1..] == blocks[1..][..i - 1] && blocks[1..][i - 1..] == blocks[i..];
    } else {
      assert blocks[0..] == blocks;
    }
  }

  class FileDownloadReader {
    const blocks: seq<Block>
    const keys: RevisionKeys
    const verifier: KeyRing
    /** DOWNLOAD_BATCH_BLOCK_SIZE. */
    const batch: nat

    /** The fault met by the n-th fetch, if any. */
    const lost: nat -> Option<Error>

    var data: seq<Byte>
    var nextRevision: nat
    var isEOF: bool
    var fetches: nat

    ghost predicate Valid()
      reads this
    {
      && batch > 0
      && nextRevision <= |blocks|
      && (isEOF ==> nextRevision == |blocks| && data == [])
      && forall k :: lost(k) != Some(EndOfFile)
    }

    /** What is still to be delivered, up to the first block that does not open. */
    ghost function Remaining(): seq<Byte>
      requires nextRevision <= |blocks|
      reads this
    {
      data + GoodBytes(keys, verifier, blocks[nextRevision..])
    }

    ghost predicate Intact() {
      AllGood(keys, verifier, blocks) && NoneEmpty(blocks)
    }

    ghost predicate NothingLost() {
      forall k :: lost(k) == None
    }

    constructor (blocks: seq<Block>, keys: RevisionKeys, verifier: KeyRing, batch: nat, lost: nat -> Option<Error>)
      requires batch > 0 && forall k :: lost(k) != Some(EndOfFile)
      ensures Valid() && data == [] && nextRevision == 0 && !isEOF && fetches == 0
      ensures this.blocks == blocks && this.keys == keys && this.verifier == verifier
      ensures this.batch == batch && this.lost == lost
    {
      this.blocks, this.keys, this.verifier, this.batch, this.lost := blocks, keys, verifier, batch, lost;
      data, nextRevision, isEOF, fetches := [], 0, false, 0;
    }

    method Decrypted(buffer: seq<Byte>, block: Block) returns (after: seq<Byte>, err: Option<Error>)
      ensures (after, err) == DecryptBlockIntoBuffer(keys, verifier, buffer, block)
      ensures err == None <==> Good(keys, verifier, block)
      ensures buffer <= after && (err == None ==> after == buffer + block.encData.plain)
      ensures err != Some(EndOfFile)
    {
      var r := DecryptBlockIntoBuffer(keys, verifier, buffer, block);
      return r.0, r.1;
    }

    /** One turn of the loop. */
    method FetchBlock() returns (err: Option<Error>)
      requires Valid() && !isEOF && nextRevision < |blocks|
      modifies this`data, this`nextRevision, this`fetches
      ensures Valid() && fetches == old(fetches) + 1
      ensures err == None ==>
                && nextRevision == old(nextRevision) + 1
                && data == old(data) + blocks[old(nextRevision)].encData.plain
                && Remaining() == old(Remaining())
      ensures err != None ==> nextRevision == old(nextRevision)
      ensures lost(old(fetches)).Some? ==> err == lost(old(fetches)) && data == old(data)
      ensures lost(old(fetches)).None? ==> (err == None <==> Good(keys, verifier, blocks[old(nextRevision)]))
      ensures err != None ==> old(Remaining()) <= Remaining() && err != Some(EndOfFile)
      ensures err != None && Intact() ==> Remaining() == old(Remaining())
      ensures Intact() && NothingLost() ==> err == None
    {
      var fault := lost(fetches);
      fetches := fetches + 1;
      if fault.Some? {
        return fault;
      }
      var i := nextRevision;
      assert blocks[i..][0] == blocks[i] && blocks[i..][1..] == blocks[i + 1..];
      var e;
      data, e := Decrypted(data, blocks[i]);
      if e.Some? {
        return e;
      }
      nextRevision := i + 1;
      return None;
    }

    /** Without an error nothing is lost or added: bytes only move from the blocks to the buffer. After an error
        the buffer may end in bytes of the block that failed its hash, behind everything that was due. */
    method PopulateBufferOnRead() returns (err: Option<Error>)
      requires Valid() && data == []
      modifies this`data, this`nextRevision, this`isEOF, this`fetches
      ensures Valid() && nextRevision >= old(nextRevision)
      ensures isEOF <==> old(nextRevision) == |blocks|
      ensures isEOF ==> err == None
      ensures err == None ==> Remaining() == old(Remaining())
      ensures err == None && !isEOF && NoneEmpty(blocks) ==> data != []
      // blocks are fetched up to the end of the batch, or the first fetch that fails
      ensures err == None ==> fetches - old(fetches) == if |blocks| - old(nextRevision) < batch
                                                        then |blocks| - old(nextRevision) else batch
      ensures fetches <= old(fetches) + batch && nextRevision - old(nextRevision) <= fetches - old(fetches)
      ensures err == None ==> forall k | old(fetches) <= k < fetches :: lost(k) == None
      ensures err != None ==>
                && old(fetches) < fetches && nextRevision < |blocks|
                && (lost(fetches - 1) == None ==> !Good(keys, verifier, blocks[nextRevision]))
                && (lost(fetches - 1).Some? ==> err == lost(fetches - 1))
      ensures err == None && !isEOF ==> |data| >= |blocks[old(nextRevision)].encData.plain|
      ensures err != None ==> old(Remaining()) <= Remaining() && err != Some(EndOfFile)
      ensures err != None && Intact() ==> Remaining() == old(Remaining())
      ensures Intact() && NothingLost() ==> err == None
    {
      if |blocks| == 0 || |blocks| == nextRevision {
        isEOF := true;
        return None;
      }
      var offset := nextRevision;
      var i := offset;
      while i - offset < batch && i < |blocks|
        invariant Valid() && !isEOF && offset <= i == nextRevision && i - offset <= batch
        invariant Remaining() == old(Remaining())
        invariant i > offset ==> |data| >= |blocks[offset].encData.plain|
        invariant fetches == old(fetches) + (i - offset)
        invariant forall k | old(fetches) <= k < fetches :: lost(k) == None
        decreases |blocks| - i
      {
        err := FetchBlock();
        if err.Some? {
          return;
        }
        i := i + 1;
      }
      assert NoneEmpty(blocks) ==> |blocks[offset].encData.plain| > 0;
      return None;
    }

    /** `bytes.Buffer.Read`. */
    method BufferRead(p: array<Byte>) returns (n: nat, err: Option<Error>)
      modifies this`data, p
      ensures n == if p.Length <= |old(data)| then p.Length else |old(data)|
      ensures p[..n] + data == old(data) && p[n..] == old(p[n..])
      ensures nextRevision <= |blocks| ==> p[..n] + Remaining() == old(Remaining())
      ensures err == if old(data) == [] && p.Length > 0 then Some(EndOfFile) else None
    {
      if data == [] {
        return 0, if p.Length == 0 then None else Some(EndOfFile);
      }
      n := if p.Length <= |data| then p.Length else |data|;
      forall k | 0 <= k < n {
        p[k] := data[k];
      }
      assert p[..n] == data[..n];
      data := data[n..];
      if nextRevision <= |blocks| {
        assert p[..n] + (data + GoodBytes(keys, verifier, blocks[nextRevision..])) == old(Remaining());
      }
      return n, None;
    }

    /** What is returned without an error is the next piece of what remains, and is empty only for an empty
        buffer. End of file is reported exactly when nothing remains, provided that no block is empty. */
    method Read(p: array<Byte>) returns (n: nat, err: Option<Error>)
      requires Valid()
      modifies this`data, this`nextRevision, this`isEOF, this`fetches, p
      ensures Valid() && n <= p.Length && p[n..] == old(p[n..])
      ensures err == None ==> p[..n] + Remaining() == old(Remaining()) && (p.Length > 0 ==> n > 0)
      ensures err != None ==> n == 0 && old(Remaining()) <= Remaining()
      ensures err == Some(EndOfFile) && NoneEmpty(blocks) ==> old(nextRevision) == |blocks| && old(Remaining()) == []
      ensures old(nextRevision) == |blocks| && old(Remaining()) == [] ==> err == Some(EndOfFile)
      ensures err == Some(EndOfFile) || (err != None && Intact()) ==> Remaining() == old(Remaining())
      ensures Intact() && NothingLost() && old(Remaining()) != [] ==> err == None
      // the server is asked only when the buffer is empty, for at most one batch
      ensures fetches <= old(fetches) + (if old(data) == [] then batch else 0)
      ensures old(data) != [] ==> n + |data| == |old(data)|
      ensures old(data) == [] && err == None && p.Length > 0 ==>
                old(nextRevision) < |blocks| && n + |data| >= |blocks[old(nextRevision)].encData.plain|
    {
      if |data| == 0 {
        data := [];
        err := PopulateBufferOnRead();
        if err.Some? {
          return 0, err;
        }
        if isEOF {
          return 0, Some(EndOfFile);
        }
      }
      n, err := BufferRead(p);
    }
  }

  /** `io.ReadAll`, with any pattern of non-empty buffers. */
  method ReadAll(reader: FileDownloadReader, bufferSize: nat -> nat) returns (bytes: seq<Byte>, err: Option<Error>)
    requires reader.Valid() && NoneEmpty(reader.blocks) && forall k :: bufferSize(k) > 0
    modifies reader`data, reader`nextRevision, reader`isEOF, reader`fetches
    ensures reader.Valid()
    ensures err == None ==> bytes == old(reader.Remaining()) && reader.Remaining() == []
    ensures err != None ==> bytes <= old(reader.Remaining())
    ensures reader.Intact() && reader.NothingLost() ==> err == None
  {
    bytes := [];
    var k: nat := 0;
    while true
      invariant reader.Valid()
      invariant bytes + reader.Remaining() == old(reader.Remaining())
      decreases |reader.Remaining()|
    {
      var p := new Byte[bufferSize(k)];
      var n, e := reader.Read(p);
      if e == Some(EndOfFile) {
        return bytes, None;
      }
      if e.Some? {
        return bytes, e;
      }
      bytes := bytes + p[..n];
      k := k + 1;
    }
  }

  /** Skipping `n` bytes ends within the first block still to be fetched. */
  ghost predicate InNextBlock(reader: FileDownloadReader, n: int)
    reads reader
  {
    && reader.data == []
    && (n > 0 ==> reader.nextRevision < |reader.blocks| && n <= |reader.blocks[reader.nextRevision].encData.plain|)
  }

  const DISCARD_BUFFER := 8192

  /** `io.CopyN(io.Discard, reader, n)`. A negative count copies nothing and reports no error. */
  method CopyN(reader: FileDownloadReader, n: int) returns (written: nat, err: Option<Error>)
    requires reader.Valid() && NoneEmpty(reader.blocks)
    modifies reader`data, reader`nextRevision, reader`isEOF, reader`fetches
    ensures reader.Valid()
    ensures n <= 0 ==> written == 0 && err == None && reader.Remaining() == old(reader.Remaining())
    ensures n > 0 && err == None ==>
              written == n <= |old(reader.Remaining())| && reader.Remaining() == old(reader.Remaining())[n..]
    ensures reader.Intact() && reader.NothingLost() ==> (err == None <==> n <= |old(reader.Remaining())|)
    ensures old(InNextBlock(reader, n)) ==> reader.fetches <= old(reader.fetches) + reader.batch
  {
    written := 0;
    while written < n
      invariant old(InNextBlock(reader, n)) ==>
                  if written == 0 then InNextBlock(reader, n) && reader.fetches == old(reader.fetches)
                  else |reader.data| >= n - written && reader.fetches <= old(reader.fetches) + reader.batch
      invariant reader.Valid()
      invariant n > 0 ==> written <= n
      invariant n <= 0 ==> written == 0
      invariant written <= |old(reader.Remaining())| && reader.Remaining() == old(reader.Remaining())[written..]
      decreases n - written
    {
      var p := new Byte[if n - written < DISCARD_BUFFER then n - written else DISCARD_BUFFER];
      ghost var before := reader.Remaining();
      var k, e := reader.Read(p);
      if e.Some? {
        return written, e;
      }
      assert reader.Remaining() == before[k..] && |before| >= k;
      written := written + k;
    }
    return written, None;
  }

  /** The recorded block sizes are those of the blocks. */
  ghost predicate Recorded(blocks: seq<Block>, sizes: seq<int>) {
    |sizes| == |blocks| && forall k | 0 <= k < |blocks| :: sizes[k] == |blocks[k].encData.plain|
  }

  lemma {:induction false} RecordedLength(keys: RevisionKeys, verifier: KeyRing, blocks: seq<Block>, sizes: seq<int>)
    requires AllGood(keys, verifier, blocks) && Recorded(blocks, sizes)
    ensures Sum(sizes) == |GoodBytes(keys, verifier, blocks)|
  {
    if blocks != [] {
      RecordedLength(keys, verifier, blocks[1..], sizes[1..]);
    }
  }

  lemma {:induction false} SumAppend(s: seq<int>, x: int)
    ensures Sum(s + [x]) == Sum(s) + x
  {
    if s == [] {
      assert (s + [x])[1..] == [];
    } else {
      SumAppend(s[1..], x);
      assert (s + [x])[1..] == s[1..] + [x];
    }
  }

  /** Where block `k` ends, by the recorded sizes. */
  function EndOf(sizes: seq<int>, k: nat): int
    requires k < |sizes|
  {
    Sum(sizes[..k + 1])
  }

  /** `first` is the first block whose recorded end reaches the offset, and `skip` what is left to skip in it. An offset
      past the end is in no block; it is left to the reader to run out of bytes. */
  ghost predicate Located(sizes: seq<int>, offset: int, first: nat, skip: int) {
    if forall k | 0 <= k < |sizes| :: EndOf(sizes, k) < offset then first == 0 && skip == offset
    else
      && first < |sizes| && offset <= EndOf(sizes, first)
      && skip == offset - Sum(sizes[..first])
      && forall k | 0 <= k < first :: EndOf(sizes, k) < offset
  }

  /** The search for the block, a loop over the recorded sizes. */
  method LocateBlock(sizes: seq<int>, offset: int) returns (first: nat, skip: int)
    ensures Located(sizes, offset, first, skip)
  {
    var totalBytes: int := 0;
    for i := 0 to |sizes|
      invariant totalBytes == Sum(sizes[..i])
      invariant forall k | 0 <= k < i :: EndOf(sizes, k) < offset
    {
      SumAppend(sizes[..i], sizes[i]);
      assert sizes[..i] + [sizes[i]] == sizes[..i + 1];
      var prevTotalBytes := totalBytes;
      totalBytes := totalBytes + sizes[i];
      assert totalBytes == EndOf(sizes, i);
      if offset <= totalBytes {
        return i, offset - prevTotalBytes;
      }
    }
    return 0, offset;
  }

  lemma StartsAt(keys: RevisionKeys, verifier: KeyRing, blocks: seq<Block>, sizes: seq<int>, first: nat)
    requires AllGood(keys, verifier, blocks) && Recorded(blocks, sizes)
    requires first <= |sizes|
    ensures 0 <= Sum(sizes[..first]) <= |GoodBytes(keys, verifier, blocks)|
    ensures GoodBytes(keys, verifier, blocks[first..]) == GoodBytes(keys, verifier, blocks)[Sum(sizes[..first])..]
  {
    GoodBytesCut(keys, verifier, blocks, first);
    RecordedLength(keys, verifier, blocks[..first], sizes[..first]);
  }

  /** Starting at the located block and skipping the rest comes to skipping the offset from the start, and the rest lies
      within that block. */
  lemma SkipIsOffset(keys: RevisionKeys, verifier: KeyRing, blocks: seq<Block>, sizes: seq<int>,
                     offset: int, first: nat, skip: int)
    requires AllGood(keys, verifier, blocks) && Recorded(blocks, sizes) && Located(sizes, offset, first, skip)
    ensures first <= |blocks| && (skip < 0 <==> offset < 0)
    ensures var content, rest := GoodBytes(keys, verifier, blocks), GoodBytes(keys, verifier, blocks[first..]);
            && (skip <= |rest| <==> offset <= |content|)
            && (0 <= offset <= |content| ==> rest[skip..] == content[offset..])
    ensures offset <= |GoodBytes(keys, verifier, blocks)| && skip > 0 ==>
              first < |blocks| && skip <= |blocks[first].encData.plain|
  {
    StartsAt(keys, verifier, blocks, sizes, first);
    RecordedLength(keys, verifier, blocks, sizes);
    if forall k | 0 <= k < |sizes| :: EndOf(sizes, k) < offset {
      if sizes != [] {
        assert EndOf(sizes, |sizes| - 1) < offset && sizes[..|sizes| - 1 + 1] == sizes;
      }
      assert sizes[..0] == [] && blocks[0..] == blocks;
    } else {
      SumAppend(sizes[..first], sizes[first]);
      assert sizes[..first] + [sizes[first]] == sizes[..first + 1];
      if first > 0 {
        assert EndOf(sizes, first - 1) < offset;
      }
    }
  }

  /** Reading and discarding, with the two checks on the outcome. */
  method Skip(reader: FileDownloadReader, skip: int) returns (err: Option<Error>)
    requires reader.Valid() && NoneEmpty(reader.blocks)
    modifies reader`data, reader`nextRevision, reader`isEOF, reader`fetches
    ensures reader.Valid()
    ensures err == None ==>
              0 <= skip <= |old(reader.Remaining())| && reader.Remaining() == old(reader.Remaining())[skip..]
    ensures reader.Intact() && reader.NothingLost() ==> (err == None <==> 0 <= skip <= |old(reader.Remaining())|)
    ensures old(InNextBlock(reader, skip)) ==> reader.fetches <= old(reader.fetches) + reader.batch
  {
    var n, e := CopyN(reader, skip);
    if e.Some? {
      return e;
    }
    if n != skip {
      return Some(SeekOffset);
    }
    return None;
  }

  /** The seek of `DownloadFile`, through the recorded sizes or, without them, by reading from the start. Both
      succeed exactly for offsets within the content, and leave the same bytes to be read; with the sizes at hand at
      most one batch of blocks is fetched. */
  method DownloadFile(blocks: seq<Block>, keys: RevisionKeys, verifier: KeyRing, batch: nat,
                      lost: nat -> Option<Error>, blockSizes: Option<seq<int>>, offset: int)
    returns (reader: FileDownloadReader, err: Option<Error>)
    requires batch > 0 && forall k :: lost(k) != Some(EndOfFile)
    requires AllGood(keys, verifier, blocks) && NoneEmpty(blocks)
    requires blockSizes.Some? ==> Recorded(blocks, blockSizes.value)
    ensures fresh(reader) && reader.Valid() && reader.Intact()
    ensures reader.blocks == blocks && reader.keys == keys && reader.verifier == verifier && reader.lost == lost
    ensures err == None ==>
              && 0 <= offset <= |GoodBytes(keys, verifier, blocks)|
              && reader.Remaining() == GoodBytes(keys, verifier, blocks)[offset..]
    ensures reader.NothingLost() ==> (err == None <==> 0 <= offset <= |GoodBytes(keys, verifier, blocks)|)
    ensures blockSizes.Some? && err == None ==> reader.fetches <= batch
  {
    reader := new FileDownloadReader(blocks, keys, verifier, batch, lost);
    assert blocks[0..] == blocks;
    if blockSizes.Some? {
      var first, skip := LocateBlock(blockSizes.value, offset);
      SkipIsOffset(keys, verifier, blocks, blockSizes.value, offset, first, skip);
      reader.nextRevision := first;
      err := Skip(reader, skip);
    } else {
      err := Skip(reader, offset);
    }
  }
}
