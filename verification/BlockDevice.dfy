/** The RAM block device: requests served segment by segment, and the flat byte array they amount to. */
module BlockDevice {
  import opened Bytes

  const SECTOR_SIZE: nat := 512
  const WORD: nat := 0x1_0000_0000_0000_0000

  function Min(a: nat, b: nat): nat { if a < b then a else b }

  // ---------- capacity ----------

  /** `capacity = (112 * PAGE_SIZE) >> 9`; the buffer has `capacity << 9` bytes. */
  function Capacity(pageSize: nat): nat { 112 * pageSize / SECTOR_SIZE }

  /** No byte is lost in the conversion to sectors and back, for every page size of whole sectors. */
  lemma CapacityExact(pageSize: nat)
    requires pageSize % SECTOR_SIZE == 0
    ensures Capacity(pageSize) * SECTOR_SIZE == 112 * pageSize
  {
  }

  // ---------- requests as values ----------

  /** A request: direction, first sector, and the contents of its segments. */
  datatype Request = Request(write: bool, sector: nat, segs: seq<seq<Byte>>)

  function Concat(segs: seq<seq<Byte>>): seq<Byte>
  {
    if segs == [] then [] else Concat(segs[..|segs| - 1]) + segs[|segs| - 1]
  }

  function TotalLength(segs: seq<seq<Byte>>): nat
  {
    if segs == [] then 0 else TotalLength(segs[..|segs| - 1]) + |segs[|segs| - 1]|
  }

  function Start(rq: Request): nat { rq.sector * SECTOR_SIZE }

  /** What a request moves: as much of it as lies within the device. */
  function Moved(size: nat, rq: Request): nat
    requires Start(rq) <= size
  {
    Min(|Concat(rq.segs)|, size - Start(rq))
  }

  /** The device after the request, as a flat byte array. */
  function Stored(data: seq<Byte>, rq: Request): (r: seq<Byte>)
    requires Start(rq) <= |data|
    ensures |r| == |data|
  {
    if rq.write then Overwrite(data, Start(rq), Concat(rq.segs)[..Moved(|data|, rq)]) else data
  }

  /** The bytes of the segments after the request, end to end. */
  function Fetched(data: seq<Byte>, rq: Request): (r: seq<Byte>)
    requires Start(rq) <= |data|
    ensures |r| == |Concat(rq.segs)|
  {
    var n := Moved(|data|, rq);
    if rq.write then Concat(rq.segs) else data[Start(rq)..Start(rq) + n] + Concat(rq.segs)[n..]
  }

  // ---------- serving a request in place ----------

  ghost function Contents(segs: seq<array<Byte>>): (r: seq<seq<Byte>>)
    reads segs
    ensures |r| == |segs| && forall k :: 0 <= k < |segs| ==> r[k] == segs[k][..]
  {
    seq(|segs|, k requires 0 <= k < |segs| reads segs => segs[k][..])
  }

  method CopyBytes(dst: array<Byte>, to: nat, src: array<Byte>, at: nat, len: nat)
    requires dst != src && to + len <= dst.Length && at + len <= src.Length
    modifies dst
    ensures dst[..] == Overwrite(old(dst[..]), to, src[at..at + len])
  {
    for i := 0 to len
      invariant forall k :: to <= k < to + i ==> dst[k] == src[at + (k - to)]
      invariant forall k :: 0 <= k < dst.Length && !(to <= k < to + i) ==> dst[k] == old(dst[k])
    {
      dst[to + i] := src[at + i];
    }
    ghost var want := Overwrite(old(dst[..]), to, src[at..at + len]);
    forall k | 0 <= k < dst.Length ensures dst[..][k] == want[k] {
      if to <= k < to + len {
        assert want[k] == want[to..to + len][k - to];
      }
    }
  }

  lemma ClippedWrite(base: seq<Byte>, start: nat, before: seq<Byte>, seg: seq<Byte>, n: nat, m: nat)
    requires start <= |base| && n == Min(|before|, |base| - start) && m == Min(|seg|, |base| - start - n)
    ensures n + m == Min(|before + seg|, |base| - start)
    ensures Overwrite(Overwrite(base, start, before[..n]), start + n, seg[..m])
      == Overwrite(base, start, (before + seg)[..n + m])
  {
    if |before| <= |base| - start {
      assert (before + seg)[..n + m] == before + seg[..m];
      OverwriteAppend(base, start, before, seg[..m]);
      assert before[..n] == before;
    } else {
      assert m == 0 && (before + seg)[..n] == before[..n];
      assert seg[..0] == [];
    }
  }

  lemma OverwritePrefix(seg: seq<Byte>, d: seq<Byte>)
    requires |d| <= |seg|
    ensures Overwrite(seg, 0, d) == d + seg[|d|..]
  {
  }

  lemma Regroup(a: seq<Byte>, b: seq<Byte>, c: seq<Byte>, d: seq<Byte>)
    requires b == [] || c == []
    ensures (a + b) + (c + d) == (a + c) + (b + d)
  {
  }

  lemma Rests(before: seq<Byte>, seg: seq<Byte>, n: nat, m: nat)
    requires n <= |before| && m <= |seg| && (n == |before| || m == 0)
    ensures (before + seg)[n + m..] == before[n..] + seg[m..]
  {
  }

  lemma ClippedRead(data: seq<Byte>, start: nat, before: seq<Byte>, seg: seq<Byte>, n: nat, m: nat)
    requires start <= |data| && n == Min(|before|, |data| - start) && m == Min(|seg|, |data| - start - n)
    ensures n + m == Min(|before + seg|, |data| - start)
    ensures (data[start..start + n] + before[n..]) + Overwrite(seg, 0, data[start + n..start + n + m])
         == data[start..start + n + m] + (before + seg)[n + m..]
  {
    hide Overwrite;
    var d := data[start + n..start + n + m];
    OverwritePrefix(seg, d);
    Rests(before, seg, n, m);
    Regroup(data[start..start + n], before[n..], d, seg[m..]);
    assert data[start..start + n] + d == data[start..start + n + m];
  }

  class Device {
    const capacity: nat
    const data: array<Byte>

    ghost predicate Valid() { data.Length == capacity * SECTOR_SIZE }

    constructor (pageSize: nat)
      ensures Valid() && fresh(data) && capacity == Capacity(pageSize)
    {
      capacity := Capacity(pageSize);
      data := new Byte[Capacity(pageSize) * SECTOR_SIZE];
    }

    /** One round of the segment loop: clip to the end of the device, then copy one way or the other. */
    method MoveSegment(write: bool, seg: array<Byte>, pos: nat) returns (len: nat)
      requires pos <= data.Length && seg != data
      modifies data, seg
      ensures len == Min(seg.Length, data.Length - pos)
      ensures write ==> seg[..] == old(seg[..]) && data[..] == Overwrite(old(data[..]), pos, seg[..][..len])
      ensures !write ==> data[..] == old(data[..]) && seg[..] == Overwrite(old(seg[..]), 0, data[..][pos..pos + len])
    {
      len := seg.Length;
      if pos + len > data.Length { len := data.Length - pos; }
      if write {
        assert seg[0..0 + len] == seg[..][..len];
        CopyBytes(data, pos, seg, 0, len);
      } else {
        assert data[pos..pos + len] == data[..][pos..pos + len];
        CopyBytes(seg, 0, data, pos, len);
      }
    }

    /** do_request: `segs` are the request's segment buffers. */
    method DoRequest(write: bool, sector: nat, segs: seq<array<Byte>>) returns (nrBytes: nat)
      requires Valid() && sector * SECTOR_SIZE <= data.Length
      requires data !in segs && forall i, j :: 0 <= i < j < |segs| ==> segs[i] != segs[j]
      modifies data, segs
      ensures var rq := Request(write, sector, old(Contents(segs)));
        && nrBytes == Moved(data.Length, rq) == Min(TotalLength(rq.segs), data.Length - 512 * sector)
        && data[..] == Stored(old(data[..]), rq)
        && Concat(Contents(segs)) == Fetched(old(data[..]), rq)
    {
      hide Progress, Overwrite, Concat, Stored, Fetched, Moved;
      var start := sector * SECTOR_SIZE;
      var pos := start;
      nrBytes := 0;
      NoProgress(write, start, data[..]);
      ghost var was, were, now := data[..], Contents(segs), [];
      for i := 0 to |segs|
        invariant start <= pos <= data.Length && nrBytes == pos - start
        invariant |now| == i && forall k :: 0 <= k < i ==> segs[k][..] == now[k]
        invariant forall k :: i <= k < |segs| ==> segs[k][..] == were[k]
        invariant Progress(write, start, nrBytes, was, data[..], Concat(were[..i]), Concat(now))
      {
        ghost var here := data[..];
        var len := MoveSegment(write, segs[i], pos);
        SegmentMoved(write, start, nrBytes, was, here, were, now, i, len, data[..], segs[i][..]);
        now := now + [segs[i][..]];
        pos := pos + len;
        nrBytes := nrBytes + len;
      }
      assert were[..|segs|] == were;
      assert Contents(segs) == now;
      AllProgress(Request(write, sector, were), nrBytes, was, data[..], Concat(now));
      ConcatLength(were);
    }
  }

  /** After some segments: `n` bytes moved, `before` their bytes at first and `now` their bytes at present. */
  ghost predicate Progress(write: bool, start: nat, n: nat, was: seq<Byte>, data: seq<Byte>, before: seq<Byte>,
      now: seq<Byte>)
  {
    && start <= |was| && n == Min(|before|, |was| - start)
    && if write then data == Overwrite(was, start, before[..n]) && now == before
       else data == was && now == was[start..start + n] + before[n..]
  }

  lemma NoProgress(write: bool, start: nat, data: seq<Byte>)
    requires start <= |data|
    ensures Progress(write, start, 0, data, data, Concat([]), Concat([]))
  {
  }

  lemma AllProgress(rq: Request, n: nat, was: seq<Byte>, data: seq<Byte>, now: seq<Byte>)
    requires Progress(rq.write, Start(rq), n, was, data, Concat(rq.segs), now)
    ensures n == Moved(|was|, rq) == Min(|Concat(rq.segs)|, |was| - Start(rq))
    ensures data == Stored(was, rq) && now == Fetched(was, rq)
  {
  }

  lemma Advance(write: bool, start: nat, n: nat, was: seq<Byte>, data: seq<Byte>, before: seq<Byte>, now: seq<Byte>,
      seg: seq<Byte>, len: nat)
    requires Progress(write, start, n, was, data, before, now) && len == Min(|seg|, |data| - (start + n))
    ensures start + n + len <= |data|
    ensures write ==>
      Progress(write, start, n + len, was, Overwrite(data, start + n, seg[..len]), before + seg, now + seg)
    ensures !write ==>
      Progress(write, start, n + len, was, data, before + seg,
               now + Overwrite(seg, 0, data[start + n..start + n + len]))
  {
    ClippedBoth(was, start, before, seg, n, len);
  }

  lemma SegmentMoved(write: bool, start: nat, n: nat, was: seq<Byte>, data: seq<Byte>, were: seq<seq<Byte>>,
      now: seq<seq<Byte>>, i: nat, len: nat, data': seq<Byte>, seg: seq<Byte>)
    requires i < |were| && Progress(write, start, n, was, data, Concat(were[..i]), Concat(now)) && start + n <= |data|
    requires len == Min(|were[i]|, |data| - (start + n))
    requires write ==> seg == were[i] && data' == Overwrite(data, start + n, were[i][..len])
    requires !write ==> data' == data && seg == Overwrite(were[i], 0, data[start + n..start + n + len])
    ensures Progress(write, start, n + len, was, data', Concat(were[..i + 1]), Concat(now + [seg]))
  {
    hide Progress, Overwrite, Concat;
    Advance(write, start, n, was, data, Concat(were[..i]), Concat(now), were[i], len);
    ConcatStep(were, i);
    ConcatAppend(now, seg);
  }

  lemma ConcatAppend(segs: seq<seq<Byte>>, x: seq<Byte>)
    ensures Concat(segs + [x]) == Concat(segs) + x
  {
    assert (segs + [x])[..|segs|] == segs;
  }

  lemma ConcatStep(segs: seq<seq<Byte>>, i: nat)
    requires i < |segs|
    ensures Concat(segs[..i + 1]) == Concat(segs[..i]) + segs[i]
  {
    assert segs[..i + 1][..i] == segs[..i];
  }

  lemma ClippedBoth(was: seq<Byte>, start: nat, before: seq<Byte>, seg: seq<Byte>, n: nat, m: nat)
    requires start <= |was| && n == Min(|before|, |was| - start) && m == Min(|seg|, |was| - start - n)
    ensures n + m == Min(|before + seg|, |was| - start) && start + n + m <= |was|
    ensures Overwrite(Overwrite(was, start, before[..n]), start + n, seg[..m])
      == Overwrite(was, start, (before + seg)[..n + m])
    ensures (was[start..start + n] + before[n..]) + Overwrite(seg, 0, was[start + n..start + n + m])
         == was[start..start + (n + m)] + (before + seg)[n + m..]
  {
    ClippedWrite(was, start, before, seg, n, m);
    ClippedRead(was, start, before, seg, n, m);
  }

  // ---------- what a sequence of requests amounts to ----------

  /** Every request starts within a device of this size. */
  predicate AllStartWithin(rqs: seq<Request>, size: nat)
  {
    forall i :: 0 <= i < |rqs| ==> 512 * rqs[i].sector <= size
  }

  /** The device after a sequence of requests. */
  function Serve(data: seq<Byte>, rqs: seq<Request>): (r: seq<Byte>)
    requires AllStartWithin(rqs, |data|)
    ensures |r| == |data|
  {
    if rqs == [] then data else Stored(Serve(data, rqs[..|rqs| - 1]), rqs[|rqs| - 1])
  }

  /** The request writes byte `x` of the device; sector `s` begins at byte 512 * s. */
  predicate Covers(rq: Request, x: nat)
  {
    rq.write && 512 * rq.sector <= x < 512 * rq.sector + |Concat(rq.segs)|
  }

  /** Request `i` is the last of them that writes byte `x`. */
  predicate LastToCover(rqs: seq<Request>, i: int, x: nat)
  {
    0 <= i < |rqs| && Covers(rqs[i], x) && forall j :: i < j < |rqs| ==> !Covers(rqs[j], x)
  }

  lemma StoredByte(data: seq<Byte>, rq: Request, x: nat)
    requires Start(rq) <= |data| && x < |data|
    ensures Stored(data, rq)[x] == if Covers(rq, x) then Concat(rq.segs)[x - 512 * rq.sector] else data[x]
  {
    hide Concat;
    if rq.write {
      var c, n := Concat(rq.segs), Moved(|data|, rq);
      var r := Overwrite(data, Start(rq), c[..n]);
      if Covers(rq, x) {
        assert r[x] == r[Start(rq)..Start(rq) + n][x - Start(rq)];
      }
    }
  }

  /**
   * Any sequence of requests refines a flat byte array: byte `x` is that of the last write, from byte 512 * sector on,
   * that reaches it, and that of the first contents if there is none.
   */
  lemma {:induction false} ServeRefinesFlatArray(data: seq<Byte>, rqs: seq<Request>, x: nat)
    requires AllStartWithin(rqs, |data|) && x < |data|
    ensures forall i :: LastToCover(rqs, i, x) ==> Serve(data, rqs)[x] == Concat(rqs[i].segs)[x - 512 * rqs[i].sector]
    ensures (forall i :: 0 <= i < |rqs| ==> !Covers(rqs[i], x)) ==> Serve(data, rqs)[x] == data[x]
    decreases |rqs|
  {
    hide Concat, Stored;
    if rqs != [] {
      var n := |rqs| - 1;
      ServeRefinesFlatArray(data, rqs[..n], x);
      StoredByte(Serve(data, rqs[..n]), rqs[n], x);
      forall i | LastToCover(rqs, i, x) ensures i == n || LastToCover(rqs[..n], i, x) {
        assert i < n ==> rqs[..n][i] == rqs[i];
      }
    }
  }

  lemma {:induction false} ConcatAt(segs: seq<seq<Byte>>, i: nat, j: nat)
    requires i < |segs| && j < |segs[i]|
    ensures |Concat(segs)| == TotalLength(segs)
    ensures TotalLength(segs[..i]) + j < |Concat(segs)| && Concat(segs)[TotalLength(segs[..i]) + j] == segs[i][j]
    decreases |segs|
  {
    var n := |segs| - 1;
    ConcatLength(segs);
    ConcatLength(segs[..n]);
    if i < n {
      ConcatAt(segs[..n], i, j);
      assert segs[..n][..i] == segs[..i];
    }
  }

  lemma {:induction false} ConcatLength(segs: seq<seq<Byte>>)
    ensures |Concat(segs)| == TotalLength(segs)
    decreases |segs|
  {
    if segs != [] { ConcatLength(segs[..|segs| - 1]); }
  }

  /**
   * Where byte `j` of segment `i` goes, or comes from: as many bytes past 512 * sector as the segments before it have
   * and `j` more. Past the end of the device nothing is moved.
   */
  lemma SegmentPlace(data: seq<Byte>, rq: Request, i: nat, j: nat)
    requires 512 * rq.sector <= |data| && i < |rq.segs| && j < |rq.segs[i]|
    ensures var off := TotalLength(rq.segs[..i]) + j; var x := 512 * rq.sector + off;
      && off < |Fetched(data, rq)|
      && (x < |data| && rq.write ==> Stored(data, rq)[x] == rq.segs[i][j])
      && (x < |data| && !rq.write ==> Fetched(data, rq)[off] == data[x])
      && (x >= |data| || rq.write ==> Fetched(data, rq)[off] == rq.segs[i][j])
  {
    hide Concat;
    ConcatAt(rq.segs, i, j);
    var x := 512 * rq.sector + TotalLength(rq.segs[..i]) + j;
    if x < |data| { StoredByte(data, rq, x); }
  }

  /** A read that lies within the device returns its bytes from byte 512 * sector on, and changes none. */
  lemma ReadReturnsBytes(data: seq<Byte>, rq: Request)
    requires !rq.write && 512 * rq.sector + TotalLength(rq.segs) <= |data|
    ensures Stored(data, rq) == data
    ensures Fetched(data, rq) == data[512 * rq.sector..512 * rq.sector + TotalLength(rq.segs)]
  {
    hide Concat;
    ConcatLength(rq.segs);
  }

  /** The two requests have no byte of the device in common. */
  predicate Apart(a: Request, b: Request)
  {
    || 512 * a.sector + TotalLength(a.segs) <= 512 * b.sector
    || 512 * b.sector + TotalLength(b.segs) <= 512 * a.sector
  }

  /** Requests on disjoint ranges do not affect each other. */
  lemma ApartIndependent(data: seq<Byte>, a: Request, b: Request)
    requires 512 * a.sector <= |data| && 512 * b.sector <= |data| && Apart(a, b)
    ensures Stored(Stored(data, a), b) == Stored(Stored(data, b), a)
    ensures Fetched(Stored(data, a), b) == Fetched(data, b)
  {
    ConcatLength(a.segs);
    ConcatLength(b.segs);
    hide Concat, Stored, Fetched;
    var ab, ba := Stored(Stored(data, a), b), Stored(Stored(data, b), a);
    forall x: nat | x < |data| ensures ab[x] == ba[x] {
      StoredByte(data, a, x);
      StoredByte(data, b, x);
      StoredByte(Stored(data, a), b, x);
      StoredByte(Stored(data, b), a, x);
    }
    FetchedSame(data, Stored(data, a), b, a);
  }

  lemma FetchedSame(data: seq<Byte>, data': seq<Byte>, b: Request, a: Request)
    requires 512 * a.sector <= |data| && 512 * b.sector <= |data| && Apart(a, b) && data' == Stored(data, a)
    ensures Fetched(data', b) == Fetched(data, b)
  {
    ConcatLength(a.segs);
    ConcatLength(b.segs);
    hide Concat, Stored;
    var n := Moved(|data|, b);
    forall x | Start(b) <= x < Start(b) + n ensures data'[x] == data[x] {
      StoredByte(data, a, x);
    }
    assert data'[Start(b)..Start(b) + n] == data[Start(b)..Start(b) + n];
  }

  /** The same transfer, whichever way it is cut into segments. */
  predicate SameTransfer(a: Request, b: Request)
  {
    a.write == b.write && a.sector == b.sector && Concat(a.segs) == Concat(b.segs)
  }

  predicate SameTransfers(a: seq<Request>, b: seq<Request>)
  {
    |a| == |b| && forall i :: 0 <= i < |a| ==> SameTransfer(a[i], b[i])
  }

  lemma OneSegmentation(data: seq<Byte>, a: Request, b: Request)
    requires SameTransfer(a, b) && Start(a) <= |data|
    ensures Start(b) <= |data| && Stored(data, a) == Stored(data, b) && Fetched(data, a) == Fetched(data, b)
  {
  }

  lemma {:induction false} SameServe(data: seq<Byte>, a: seq<Request>, b: seq<Request>)
    requires SameTransfers(a, b) && AllStartWithin(a, |data|)
    ensures AllStartWithin(b, |data|) && Serve(data, a) == Serve(data, b)
    decreases |a|
  {
    hide Stored, Concat;
    assert forall i :: 0 <= i < |a| ==> Start(b[i]) == Start(a[i]) by {
      assert forall i :: 0 <= i < |a| ==> SameTransfer(a[i], b[i]);
    }
    if a != [] {
      var n := |a| - 1;
      SameServe(data, a[..n], b[..n]);
      OneSegmentation(Serve(data, a[..n]), a[n], b[n]);
    }
  }

  /** Segmentation does not matter, to the device or to what any request in the sequence reads from it. */
  lemma SegmentationIrrelevant(data: seq<Byte>, a: seq<Request>, b: seq<Request>, i: nat)
    requires |a| == |b| && (forall j :: 0 <= j < |a| ==> a[j].write == b[j].write && a[j].sector == b[j].sector)
    requires forall j :: 0 <= j < |a| ==> Concat(a[j].segs) == Concat(b[j].segs)
    requires AllStartWithin(a, |data|) && i < |a|
    ensures AllStartWithin(b, |data|) && Serve(data, a) == Serve(data, b)
    ensures Fetched(Serve(data, a[..i]), a[i]) == Fetched(Serve(data, b[..i]), b[i])
  {
    hide Stored, Concat, Fetched;
    SameServe(data, a, b);
    SameServe(data, a[..i], b[..i]);
    OneSegmentation(Serve(data, a[..i]), a[i], b[i]);
  }

  /** A transfer that fits is read back as it was written. */
  lemma WriteReadRoundTrip(data: seq<Byte>, w: Request, r: Request)
    requires w.write && !r.write && w.sector == r.sector && |Concat(r.segs)| == |Concat(w.segs)|
    requires 512 * w.sector + |Concat(w.segs)| <= |data|
    ensures Fetched(Stored(data, w), r) == Concat(w.segs)
  {
    hide Concat;
    var c := Concat(w.segs);
    assert c[..|c|] == c && Concat(r.segs)[|c|..] == [];
  }

  // ---------- queue_rq ----------

  /** `blk_update_request` reports that bytes of the request are still outstanding, and `queue_rq` runs into `BUG()`. */
  predicate RunsIntoBug(size: nat, rq: Request)
    requires Start(rq) <= size
  {
    Moved(size, rq) < |Concat(rq.segs)|
  }

  /** That happens exactly for requests that reach past the end of the device. */
  lemma BugIffPastEnd(size: nat, rq: Request)
    requires 512 * rq.sector <= size
    ensures RunsIntoBug(size, rq) <==> 512 * rq.sector + TotalLength(rq.segs) > size
  {
    ConcatLength(rq.segs);
  }

  // ---------- bounds ----------

  const LENGTH: nat := 0x1_0000_0000
  const OFFSET: nat := 0x8000_0000_0000_0000

  /**
   * The length copied for a segment at `pos`. The end of the segment is compared, and `dev_size - pos` computed,
   * in 64-bit unsigned arithmetic; offsets are below 2^63 and segment lengths below 2^32.
   */
  function ClippedLength(pos: nat, len: nat, size: nat): nat
    requires pos < OFFSET && size < OFFSET && len < LENGTH
  {
    if (pos + len) % WORD <= size then len else (WORD + size - pos) % WORD
  }

  /** Every copy of the segment loop stays inside the buffer. */
  predicate CopiesInBounds(pos: nat, lens: seq<nat>, size: nat)
    requires pos < OFFSET && size < OFFSET && forall i :: 0 <= i < |lens| ==> lens[i] < LENGTH
    decreases |lens|
  {
    lens == [] ||
    var n := ClippedLength(pos, lens[0], size);
    pos + n <= size && CopiesInBounds(pos + n, lens[1..], size)
  }

  /** The clipping protects the buffer exactly when the request starts within the device, or has no segment at all. */
  lemma {:induction false} InBoundsIff(pos: nat, lens: seq<nat>, size: nat)
    requires pos < OFFSET && size < OFFSET && forall i :: 0 <= i < |lens| ==> lens[i] < LENGTH
    ensures CopiesInBounds(pos, lens, size) <==> pos <= size || lens == []
    decreases |lens|
  {
    if lens != [] {
      Clipped(pos, lens[0], size);
      if pos <= size {
        InBoundsIff(pos + ClippedLength(pos, lens[0], size), lens[1..], size);
      }
    }
  }

  /**
   * The clipped length is what remains of the device. If the segment starts past its end the difference wraps around,
   * to at least 2^63 bytes.
   */
  lemma Clipped(pos: nat, len: nat, size: nat)
    requires pos < OFFSET && size < OFFSET && len < LENGTH
    ensures pos <= size ==> ClippedLength(pos, len, size) == Min(len, size - pos)
    ensures pos > size ==>
      ClippedLength(pos, len, size) == 0x1_0000_0000_0000_0000 + size - pos >= 0x8000_0000_0000_0000
  {
  }
}
