/** Reading and writing a file of simplefs: what comes back of what was put in. */
module FsFiles {
  import opened Bytes
  import opened Layout
  import opened FsState
  import opened FsInvariant
  import opened FsOps
  import opened SimpleFs

  /** A write changes the file's size and the bytes it covers, and nothing else that is in core. */
  lemma WriteEffect(fs: Fs, no: nat, pos: nat, data: seq<Byte>)
    requires WellFormed(fs) && WriteFits(fs, no, pos, data)
    ensures var fs' := WriteResult(fs, no, pos, data); var b := fs.core[no].block;
      && fs'.core == fs.core[no := fs.core[no].(size := pos + |data|)]
      && b < |fs.blocks| && fs'.blocks == fs.blocks[b := Overwrite(fs.blocks[b], pos, data)]
      && fs'.count == fs.count && fs'.free == fs.free && !fs'.fault
      && SlotOf(fs, no) < fs.count && fs'.table == fs.table[SlotOf(fs, no) := fs'.core[no]]
  {
    CoreSlot(fs, no);
    SearchAgreesIff(fs.table, fs.count, no);
    NoFaultYet(fs);
    hide WellFormed, Overwrite, CopyAll, SlotFrom;
    WriteFrame(fs, no, pos, data);
  }

  lemma NoFaultYet(fs: Fs)
    requires WellFormed(fs)
    ensures !fs.fault && fs.count < |fs.table|
  {
  }

  function Concat(chunks: seq<seq<Byte>>): seq<Byte>
  {
    if chunks == [] then [] else chunks[0] + Concat(chunks[1..])
  }

  /** Writes one after the other, each where the one before stopped. */
  ghost function WriteAll(fs: Fs, no: nat, pos: nat, chunks: seq<seq<Byte>>): Fs
    decreases |chunks|
  {
    if chunks == [] then fs
    else WriteAll(WriteResult(fs, no, pos, chunks[0]), no, pos + |chunks[0]|, chunks[1..])
  }

  /** The file's data block starts with `sofar`. */
  ghost predicate Begins(fs: Fs, no: nat, sofar: seq<Byte>)
  {
    && WellFormed(fs) && no in fs.core && IsReg(fs.core[no].mode)
    && fs.core[no].block < |fs.blocks| && |sofar| <= BLOCK_SIZE
    && fs.blocks[fs.core[no].block][..|sofar|] == sofar
  }

  lemma WriteOne(fs: Fs, no: nat, sofar: seq<Byte>, data: seq<Byte>)
    requires Begins(fs, no, sofar) && |sofar| + |data| <= BLOCK_SIZE
    ensures var fs' := WriteResult(fs, no, |sofar|, data);
      Begins(fs', no, sofar + data) && fs'.core[no].size == |sofar + data|
  {
    hide WellFormed, WriteResult;
    WriteKeepsWellFormed(fs, no, |sofar|, data);
    WriteEffect(fs, no, |sofar|, data);
    var old', new' := fs.blocks[fs.core[no].block], Overwrite(fs.blocks[fs.core[no].block], |sofar|, data);
    assert new'[..|sofar|] == old'[..|sofar|];
    assert new'[..|sofar| + |data|] == new'[..|sofar|] + new'[|sofar|..|sofar| + |data|];
  }

  lemma {:induction false} WriteMany(fs: Fs, no: nat, sofar: seq<Byte>, chunks: seq<seq<Byte>>)
    requires Begins(fs, no, sofar) && |sofar + Concat(chunks)| <= BLOCK_SIZE
    requires chunks != [] || fs.core[no].size == |sofar|
    ensures var fs' := WriteAll(fs, no, |sofar|, chunks);
      Begins(fs', no, sofar + Concat(chunks)) && fs'.core[no].size == |sofar + Concat(chunks)|
    decreases |chunks|
  {
    hide WellFormed, WriteResult;
    if chunks == [] {
      assert sofar + Concat(chunks) == sofar;
    } else {
      WriteOne(fs, no, sofar, chunks[0]);
      assert (sofar + chunks[0]) + Concat(chunks[1..]) == sofar + Concat(chunks);
      WriteMany(WriteResult(fs, no, |sofar|, chunks[0]), no, sofar + chunks[0], chunks[1..]);
    }
  }

  /** Contiguous writes from offset 0, then a read at offset 0 that is long enough, give back the concatenation. */
  lemma WritesReadBack(fs: Fs, no: nat, chunks: seq<seq<Byte>>, len: nat)
    requires WellFormed(fs) && no in fs.core && IsReg(fs.core[no].mode)
    requires chunks != [] && |Concat(chunks)| <= BLOCK_SIZE && len >= |Concat(chunks)|
    ensures var fs' := WriteAll(fs, no, 0, chunks);
      && WellFormed(fs') && FileReadable(fs', no)
      && ReadResult(fs', no, len, 0) == Concat(chunks)
  {
    hide WriteAll, WellFormed;
    InCore(fs, no);
    WriteMany(fs, no, [], chunks);
    assert [] + Concat(chunks) == Concat(chunks);
  }

  // ---------- reading on ----------

  /** A file that can be read. */
  predicate FileReadable(fs: Fs, no: nat)
  {
    no in fs.core && fs.core[no].block < |fs.blocks| && fs.core[no].size <= BLOCK_SIZE
  }

  /**
   * What a caller gets that reads `n` bytes at a time from `pos` on, each read where the one before stopped, until one
   * is empty.
   */
  function ReadOn(fs: Fs, no: nat, n: nat, pos: nat): seq<seq<Byte>>
    requires FileReadable(fs, no)
    decreases if pos < fs.core[no].size then fs.core[no].size - pos else 0
  {
    var got := ReadResult(fs, no, n, pos);
    if got == [] then [] else [got] + ReadOn(fs, no, n, pos + |got|)
  }

  /** `k` is `d / n` rounded up. */
  predicate Ceiling(k: nat, d: nat, n: nat)
  {
    d <= k * n && (k > 0 ==> (k - 1) * n < d) && (k == 0 ==> d == 0)
  }

  lemma {:induction false} ReadsFrom(fs: Fs, no: nat, n: nat, pos: nat)
    requires FileReadable(fs, no) && 0 < n <= fs.core[no].size
    ensures Ceiling(|ReadOn(fs, no, n, pos)|, if pos < fs.core[no].size then fs.core[no].size - pos else 0, n)
    decreases if pos < fs.core[no].size then fs.core[no].size - pos else 0
  {
    if pos < fs.core[no].size {
      ReadsFrom(fs, no, n, pos + n);
      var k := |ReadOn(fs, no, n, pos + n)|;
      assert |ReadOn(fs, no, n, pos)| == k + 1;
      assert (k + 1) * n == k * n + n;
      assert k > 0 ==> (k - 1) * n == k * n - n;
    }
  }

  /** A reader taking `n` bytes at a time from the start stops after `ceil(file_size / n)` non-empty reads. */
  lemma ReaderStops(fs: Fs, no: nat, n: nat)
    requires FileReadable(fs, no) && n > 0
    ensures Ceiling(|ReadOn(fs, no, n, 0)|, fs.core[no].size, n)
  {
    var size := fs.core[no].size;
    if n <= size {
      ReadsFrom(fs, no, n, 0);
    } else if size > 0 {
      assert ReadOn(fs, no, n, size) == [];
    }
  }

  /** What a read at `ppos` ought to return of a file with this content. */
  function Expected(content: seq<Byte>, len: nat, ppos: nat): seq<Byte>
  {
    if ppos >= |content| then []
    else if |content| - ppos < len then content[ppos..] else content[ppos..ppos + len]
  }

  /** What `simplefs_read` does return of it. */
  function Returned(content: seq<Byte>, len: nat, ppos: nat): seq<Byte>
  {
    if ppos >= |content| then [] else content[..if |content| < len then |content| else len]
  }

  lemma ReadIsReturned(fs: Fs, no: nat, len: nat, ppos: nat)
    requires FileReadable(fs, no)
    ensures ReadResult(fs, no, len, ppos) == Returned(fs.blocks[fs.core[no].block][..fs.core[no].size], len, ppos)
  {
  }

  /** Reads are right for every content of the given size exactly at offset 0, at or past the end, or for nothing. */
  ghost predicate ReadsRight(size: nat, len: nat, ppos: nat)
  {
    forall content: seq<Byte> :: |content| == size ==> Returned(content, len, ppos) == Expected(content, len, ppos)
  }

  lemma ReadsRightIff(size: nat, len: nat, ppos: nat)
    ensures ReadsRight(size, len, ppos) <==> ppos == 0 || ppos >= size || len == 0
  {
    if 0 < ppos < size && len > 0 {
      var content: seq<Byte> := seq(size, i => if i == 0 then 1 else 0);
      assert Returned(content, len, ppos)[0] == 1;
      assert Expected(content, len, ppos)[0] == 0;
    } else {
      forall content: seq<Byte> | |content| == size
        ensures Returned(content, len, ppos) == Expected(content, len, ppos)
      {
      }
    }
  }
}
