/**
The byte ring of one direction of a connection: `(start, len)` ranges over a
buffer of `N` bytes, the iovecs of the used and the unused part, and the
operations on them (append, ltrim, move, linearize).

`Contents` gives a range its meaning as a byte string. `Overlay` describes
every write into a ring.
*/
module RingBuffer {

  // A ring fits an `int` return value, so no count equals the sentinel
  // `(unsigned int)-1`.
  type RingSize = n: nat | 0 < n <= 0x7FFF_FFFF witness 1

  // The size of every ring (`RING_BUFFER_SIZE`); nothing below depends on its value.
  const N: RingSize

  type Bytes = seq<char>

  datatype Range = Range(start: nat, len: nat, shutdown: bool)

  ghost predicate Legal(r: Range) {
    r.start < N && r.len <= N
  }

  // Positions and contents

  // The position `k` bytes behind `start`.
  function At(start: nat, k: nat): (p: nat)
    requires start < N && k <= N
    ensures p < N
  {
    if start + k < N then start + k else start + k - N
  }

  // `At` is the remainder the source computes.
  lemma AtIsMod(start: nat, k: nat)
    requires start < N && k <= N
    ensures At(start, k) == (start + k) % N
  {
    if start + k < N {
      Remainder(start + k, N, start + k);
    } else {
      Remainder(start + k, N, start + k - N);
    }
  }

  lemma Remainder(x: nat, n: nat, r: nat)
    requires r < n && (x == r || x == r + n)
    ensures x % n == r
  {
    if x == r + n {
      assert x / n == 1;
    }
  }

  // How far position `j` lies behind `start` in ring order.
  function Offset(start: nat, j: nat): (k: nat)
    requires start < N && j < N
    ensures k < N && At(start, k) == j
  {
    if start <= j then j - start else j + N - start
  }

  function Cells(start: nat, len: nat): (cells: seq<nat>)
    requires start < N && len <= N
    ensures |cells| == len
    ensures forall i :: 0 <= i < len ==> cells[i] == At(start, i)
  {
    seq(len, i requires 0 <= i < len => At(start, i))
  }

  ghost function Contents(buf: Bytes, r: Range): (s: Bytes)
    requires |buf| == N && Legal(r)
    ensures |s| == r.len
    ensures forall i :: 0 <= i < r.len ==> s[i] == buf[At(r.start, i)]
  {
    seq(r.len, i requires 0 <= i < r.len => buf[At(r.start, i)])
  }

  // The position behind the last used byte.
  function End(r: Range): nat
    requires Legal(r)
  {
    At(r.start, r.len)
  }

  // `buf` after writing `data` at `start` in ring order.
  ghost function Overlay(buf: Bytes, start: nat, data: Bytes): (out: Bytes)
    requires |buf| == N && start < N && |data| <= N
    ensures |out| == N
  {
    seq(N, j requires 0 <= j < N => if Offset(start, j) < |data| then data[Offset(start, j)] else buf[j])
  }

  ghost predicate SameUsed(a: Bytes, b: Bytes, r: Range)
    requires |a| == |b| == N && Legal(r)
  {
    forall i :: 0 <= i < r.len ==> a[At(r.start, i)] == b[At(r.start, i)]
  }

  lemma OverlayNothing(buf: Bytes, start: nat)
    requires |buf| == N && start < N
    ensures Overlay(buf, start, []) == buf
  {
  }

  // Writing into the free part extends the contents and keeps what was there.
  lemma OverlayAppends(buf: Bytes, r: Range, data: Bytes)
    requires |buf| == N && Legal(r) && r.len + |data| <= N
    ensures Contents(Overlay(buf, End(r), data), r.(len := r.len + |data|)) == Contents(buf, r) + data
    ensures SameUsed(Overlay(buf, End(r), data), buf, r)
  {
    var out := Overlay(buf, End(r), data);
    forall i | 0 <= i < r.len + |data|
      ensures i < r.len ==> out[At(r.start, i)] == buf[At(r.start, i)]
      ensures i >= r.len ==> out[At(r.start, i)] == data[i - r.len]
    {
      var o := Offset(End(r), At(r.start, i));
      assert i < r.len ==> o >= |data|;
      assert i >= r.len ==> o == i - r.len;
    }
  }

  // Iovecs

  datatype Iovec = Iovec(base: nat, len: nat)

  ghost function Positions(iov: seq<Iovec>): seq<nat> {
    if iov == [] then []
    else seq(iov[0].len, i requires 0 <= i < iov[0].len => iov[0].base + i) + Positions(iov[1..])
  }

  lemma NoIovec()
    ensures Positions([]) == []
  {
  }

  lemma OneIovec(a: Iovec)
    ensures Positions([a]) == seq(a.len, i requires 0 <= i < a.len => a.base + i)
  {
  }

  lemma TwoIovecs(a: Iovec, b: Iovec)
    ensures Positions([a, b]) == seq(a.len, i requires 0 <= i < a.len => a.base + i)
                               + seq(b.len, i requires 0 <= i < b.len => b.base + i)
  {
    assert [a, b][1..] == [b];
    OneIovec(b);
  }

  // The iovecs of the used part visit exactly the used cells, in ring order.
  function SetIovecUsed(r: Range): (iov: seq<Iovec>)
    requires Legal(r)
    ensures 1 <= |iov| <= 2
    ensures Positions(iov) == Cells(r.start, r.len)
  {
    var end := r.start + r.len;
    if end <= N then
      OneIovec(Iovec(r.start, r.len));
      [Iovec(r.start, r.len)]
    else
      var untilEnd := N - r.start;
      TwoIovecs(Iovec(r.start, untilEnd), Iovec(0, r.len - untilEnd));
      [Iovec(r.start, untilEnd), Iovec(0, r.len - untilEnd)]
  }

  // `set_iovec_unused` first moves an empty range to the start of the buffer.
  function Rewind(r: Range): Range {
    if r.len == 0 then r.(start := 0) else r
  }

  // The iovecs of the unused part visit exactly the free cells, in ring order,
  // beginning behind the last used byte.
  function SetIovecUnused(r: Range): (iov: seq<Iovec>)
    requires Legal(r) && r == Rewind(r)
    ensures 1 <= |iov| <= 2
    ensures Positions(iov) == Cells(End(r), N - r.len)
  {
    var end := r.start + r.len;
    if r.start == 0 then
      OneIovec(Iovec(r.len, N - r.len));
      [Iovec(r.len, N - r.len)]
    else if end >= N then
      var skip := end - N;
      OneIovec(Iovec(skip, r.start - skip));
      [Iovec(skip, r.start - skip)]
    else
      TwoIovecs(Iovec(end, N - end), Iovec(0, r.start));
      [Iovec(end, N - end), Iovec(0, r.start)]
  }

  // Used and unused iovecs together visit every byte of the ring exactly once.
  lemma IovecsTile(r: Range)
    requires Legal(r) && r == Rewind(r)
    ensures var all := Positions(SetIovecUsed(r)) + Positions(SetIovecUnused(r));
            && all == Cells(r.start, N)
            && (forall j :: 0 <= j < N ==> j in all)
            && (forall i, k :: 0 <= i < k < |all| ==> all[i] != all[k])
  {
    var all := Positions(SetIovecUsed(r)) + Positions(SetIovecUnused(r));
    assert all == Cells(r.start, N);
    forall j | 0 <= j < N
      ensures j in all
    {
      assert all[Offset(r.start, j)] == j;
    }
  }

  // Consuming `m` bytes of the first iovec drops the first `m` positions.
  lemma AdvanceIovec(iov: seq<Iovec>, i: nat, m: nat)
    requires i < |iov| && m <= iov[i].len
    ensures var next := iov[i := Iovec(iov[i].base + m, iov[i].len - m)];
            && |Positions(iov[i..])| >= m
            && Positions(next[i..]) == Positions(iov[i..])[m..]
            && (m == iov[i].len ==> Positions(next[i + 1..]) == Positions(iov[i + 1..]) == Positions(iov[i..])[m..])
    ensures forall k :: 0 <= k < m ==> Positions(iov[i..])[k] == iov[i].base + k
  {
    var next := iov[i := Iovec(iov[i].base + m, iov[i].len - m)];
    assert next[i..][1..] == iov[i..][1..] == iov[i + 1..] == next[i + 1..];
  }

  // ltrim

  function RingBufferLtrim(r: Range, size: nat): (out: Range)
    requires Legal(r)
    ensures Legal(out) && out.len == (if size < r.len then r.len - size else 0)
    ensures out.shutdown == r.shutdown
  {
    if size >= r.len then r.(start := 0, len := 0)
    else r.(start := (r.start + size) % N, len := r.len - size)
  }

  // The cells that stay are the last ones, so trimming drops a prefix.
  lemma LtrimCells(r: Range, size: nat)
    requires Legal(r)
    ensures var t := RingBufferLtrim(r, size);
            forall i :: 0 <= i < t.len ==> size + i <= N && At(t.start, i) == At(r.start, size + i)
  {
    if size < r.len {
      AtIsMod(r.start, size);
    }
  }

  lemma LtrimDrops(buf: Bytes, r: Range, size: nat)
    requires |buf| == N && Legal(r)
    ensures Contents(buf, RingBufferLtrim(r, size)) == if size <= r.len then Contents(buf, r)[size..] else []
  {
    LtrimCells(r, size);
  }

  // `t` is what is left of `a` after consuming from its front.
  ghost predicate TrimmedFrom(a: Range, t: Range) {
    && Legal(a) && Legal(t) && t.len <= a.len && t.shutdown == a.shutdown
    && t.start == if t.len == 0 then 0 else At(a.start, a.len - t.len)
  }

  // Writes

  method Memcpy(dst: array<char>, d: nat, src: Bytes, s: nat, n: nat)
    requires d + n <= dst.Length && s + n <= |src|
    modifies dst
    ensures forall j :: 0 <= j < dst.Length ==> dst[j] == if d <= j < d + n then src[s + j - d] else old(dst[j])
  {
    for i := 0 to n
      invariant forall j :: 0 <= j < dst.Length ==> dst[j] == if d <= j < d + i then src[s + j - d] else old(dst[j])
    {
      dst[d + i] := src[s + i];
    }
  }

  // One step of a scattered write: bytes `data[copied..copied + len]` go to the
  // next free positions.
  lemma OverlayChunk(before: Bytes, start: nat, data: Bytes, copied: nat, len: nat, base: nat, was: Bytes, now: Bytes)
    requires |before| == |was| == |now| == N && start < N && copied + len <= |data| <= N
    requires was == Overlay(before, start, data[..copied])
    requires base + len <= N && forall i :: copied <= i < copied + len ==> base + i - copied == At(start, i)
    requires forall j :: 0 <= j < N ==> now[j] == if base <= j < base + len then data[copied + j - base] else was[j]
    ensures now == Overlay(before, start, data[..copied + len])
  {
    forall j | 0 <= j < N
      ensures now[j] == Overlay(before, start, data[..copied + len])[j]
    {
      var o := Offset(start, j);
      if base <= j < base + len {
        assert At(start, copied + j - base) == j;
        assert o == copied + j - base;
      }
      assert copied <= o < copied + len ==> base + o - copied == At(start, o);
    }
  }

  // Copies the first `len` bytes of iovec `i`, whose positions continue the
  // positions written so far.
  method CopyChunk(buf: array<char>, iov: seq<Iovec>, i: nat, src: Bytes, s: nat, len: nat,
                   ghost before: Bytes, ghost start: nat, ghost free: nat, ghost data: Bytes, ghost copied: nat)
    requires buf.Length == |before| == N && start < N && copied <= free <= N
    requires i < |iov| && len <= iov[i].len
    requires Positions(iov[i..]) == Cells(start, free)[copied..]
    requires copied + len <= |data| <= N
    requires len > 0 ==> s + len <= |src| && forall k :: copied <= k < copied + len ==> src[s + k - copied] == data[k]
    requires buf[..] == Overlay(before, start, data[..copied])
    modifies buf
    ensures copied + len <= free
    ensures buf[..] == Overlay(before, start, data[..copied + len])
  {
    AdvanceIovec(iov, i, len);
    ghost var rest, base := Positions(iov[i..]), iov[i].base;
    forall k | copied <= k < copied + len
      ensures base + k - copied == At(start, k)
    {
      assert rest[k - copied] == base + (k - copied);
    }
    if len > 0 {
      assert base + (copied + len - 1) - copied == At(start, copied + len - 1);
      ghost var was := buf[..];
      Memcpy(buf, iov[i].base, src, s, len);
      forall j | base <= j < base + len
        ensures buf[j] == data[copied + j - base]
      {
        assert src[s + (copied + j - base) - copied] == data[copied + j - base];
      }
      OverlayChunk(before, start, data, copied, len, base, was, buf[..]);
    }
  }

  lemma AppendDone(before: Bytes, after: Bytes, r: Range, data: Bytes)
    requires |before| == |after| == N && Legal(r) && r.len + |data| <= N
    requires after == Overlay(before, End(Rewind(r)), data)
    ensures Contents(after, Rewind(r).(len := r.len + |data|)) == Contents(before, r) + data
    ensures SameUsed(after, before, r)
  {
    OverlayAppends(before, Rewind(r), data);
    assert Contents(before, Rewind(r)) == Contents(before, r);
  }

  // Writes `data` over the iovecs until one of them is used up: the loop of
  // `ring_buffer_append`, and what the kernel does with the iovecs of a receive.
  method Scatter(buf: array<char>, iov: seq<Iovec>, data: Bytes, ghost start: nat, ghost free: nat) returns (copied: nat)
    requires buf.Length == N && start < N && free <= N
    requires Positions(iov) == Cells(start, free)
    modifies buf
    ensures copied == if |data| < free then |data| else free
    ensures buf[..] == Overlay(old(buf[..]), start, data[..copied])
  {
    hide Overlay, Positions, Contents, Cells, At;
    ghost var fits := if |data| < free then data else data[..free];
    copied := 0;
    var size: nat := |data|;
    var i := 0;
    assert iov[0..] == iov && fits[..0] == [];
    OverlayNothing(buf[..], start);
    while i < |iov| && size > 0
      invariant 0 <= i <= |iov|
      invariant copied + size == |data| && copied <= |fits|
      invariant size > 0 ==> Positions(iov[i..]) == Cells(start, free)[copied..]
      invariant buf[..] == Overlay(old(buf[..]), start, fits[..copied])
    {
      AdvanceIovec(iov, i, iov[i].len);
      var len := if size < iov[i].len then size else iov[i].len;
      CopyChunk(buf, iov, i, data, copied, len, old(buf[..]), start, free, fits, copied);
      size := size - len;
      copied := copied + len;
      i := i + 1;
    }
    NoIovec();
    assert i == |iov| ==> iov[i..] == [];
    assert fits[..copied] == data[..copied];
  }

  // Appends as much of `tail` as fits. The caller adds the returned count to `len`.
  method RingBufferAppend(buf: array<char>, range: Range, tail: Bytes) returns (out: Range, copied: nat)
    requires buf.Length == N && Legal(range)
    modifies buf
    ensures out == Rewind(range)
    ensures copied == if |tail| < N - range.len then |tail| else N - range.len
    ensures Contents(buf[..], out.(len := out.len + copied)) == Contents(old(buf[..]), range) + tail[..copied]
    ensures SameUsed(buf[..], old(buf[..]), range)
  {
    out := Rewind(range);
    copied := Scatter(buf, SetIovecUnused(out), tail, End(out), N - out.len);
    AppendDone(old(buf[..]), buf[..], range, tail[..copied]);
  }

  // The bytes under the iovecs, in order: what the kernel reads for a send.
  function Gather(buf: Bytes, iov: seq<Iovec>): (data: Bytes)
    requires forall i :: 0 <= i < |iov| ==> iov[i].base + iov[i].len <= |buf|
  {
    if iov == [] then [] else buf[iov[0].base..iov[0].base + iov[0].len] + Gather(buf, iov[1..])
  }

  lemma GatherUsed(buf: Bytes, r: Range)
    requires |buf| == N && Legal(r)
    ensures forall i :: 0 <= i < |SetIovecUsed(r)| ==> SetIovecUsed(r)[i].base + SetIovecUsed(r)[i].len <= N
    ensures Gather(buf, SetIovecUsed(r)) == Contents(buf, r)
  {
    var iov := SetIovecUsed(r);
    var first := buf[iov[0].base..iov[0].base + iov[0].len];
    if |iov| == 1 {
      assert iov[1..] == [];
      assert Gather(buf, iov) == first + [];
    } else {
      assert iov[1..][0] == iov[1] && iov[1..][1..] == [];
      assert Gather(buf, iov[1..]) == buf[..iov[1].len] + [];
    }
    assert Gather(buf, iov) == Contents(buf, r);
  }

  // Moves as many bytes as fit from the front of `src` to the end of `dst`.
  method RingBufferMove(dstBuf: array<char>, dst: Range, srcBuf: array<char>, src: Range)
      returns (dst': Range, src': Range, copied: nat)
    requires dstBuf.Length == srcBuf.Length == N && dstBuf != srcBuf && Legal(dst) && Legal(src)
    modifies dstBuf
    ensures copied == if src.len < N - dst.len then src.len else N - dst.len
    ensures dst' == Rewind(dst).(len := dst.len + copied) && src' == RingBufferLtrim(src, copied)
    ensures Contents(dstBuf[..], dst') == Contents(old(dstBuf[..]), dst) + Contents(srcBuf[..], src)[..copied]
    ensures Contents(srcBuf[..], src') == Contents(srcBuf[..], src)[copied..]
    ensures SameUsed(dstBuf[..], old(dstBuf[..]), dst)
  {
    hide Overlay, Positions, Contents, Cells, At, Offset, SetIovecUsed, SetIovecUnused, RingBufferLtrim, SameUsed;
    dst' := Rewind(dst);
    ghost var data := Contents(srcBuf[..], src);
    ghost var start, free := End(dst'), N - dst'.len;
    var vDst, vSrc := SetIovecUnused(dst'), SetIovecUsed(src);
    var iDst, iSrc := 0, 0;
    copied := 0;
    assert vDst[0..] == vDst && vSrc[0..] == vSrc && data[..0] == [];
    OverlayNothing(dstBuf[..], start);
    while iDst < |vDst| && iSrc < |vSrc|
      invariant 0 <= iDst <= |vDst| && 0 <= iSrc <= |vSrc|
      invariant copied <= free && copied <= src.len
      invariant Positions(vDst[iDst..]) == Cells(start, free)[copied..]
      invariant Positions(vSrc[iSrc..]) == Cells(src.start, src.len)[copied..]
      // Every store so far hit free cells only.
      invariant dstBuf[..] == Overlay(old(dstBuf[..]), start, data[..copied])
      decreases |vDst| - iDst + |vSrc| - iSrc
    {
      var min := if vDst[iDst].len <= vSrc[iSrc].len then vDst[iDst].len else vSrc[iSrc].len;
      AdvanceIovec(vDst, iDst, min);
      AdvanceIovec(vSrc, iSrc, min);
      SourceChunk(srcBuf[..], src, vSrc, iSrc, copied, min);
      CopyChunk(dstBuf, vDst, iDst, srcBuf[..], vSrc[iSrc].base, min, old(dstBuf[..]), start, free, data, copied);
      copied := copied + min;
      vDst := vDst[iDst := Iovec(vDst[iDst].base + min, vDst[iDst].len - min)];
      iDst := iDst + if vDst[iDst].len == 0 then 1 else 0;
      vSrc := vSrc[iSrc := Iovec(vSrc[iSrc].base + min, vSrc[iSrc].len - min)];
      iSrc := iSrc + if vSrc[iSrc].len == 0 then 1 else 0;
    }
    NoIovec();
    assert iDst == |vDst| ==> vDst[iDst..] == [];
    assert iSrc == |vSrc| ==> vSrc[iSrc..] == [];
    AppendDone(old(dstBuf[..]), dstBuf[..], dst, data[..copied]);
    LtrimDrops(srcBuf[..], src, copied);
    dst' := dst'.(len := dst'.len + copied);
    src' := RingBufferLtrim(src, copied);
  }

  // The next chunk of the used part is the next piece of the contents.
  lemma SourceChunk(buf: Bytes, r: Range, iov: seq<Iovec>, i: nat, copied: nat, len: nat)
    requires |buf| == N && Legal(r) && copied <= r.len
    requires i < |iov| && len <= iov[i].len
    requires Positions(iov[i..]) == Cells(r.start, r.len)[copied..]
    ensures copied + len <= r.len
    ensures len > 0 ==> iov[i].base + len <= N
    ensures forall k :: copied <= k < copied + len ==> buf[iov[i].base + k - copied] == Contents(buf, r)[k]
  {
    hide Positions, Contents, Cells, At;
    AdvanceIovec(iov, i, len);
    ghost var rest, base := Positions(iov[i..]), iov[i].base;
    forall k | copied <= k < copied + len
      ensures base + k - copied == At(r.start, k)
    {
      assert rest[k - copied] == Cells(r.start, r.len)[k];
    }
    if len > 0 {
      assert base + (copied + len - 1) - copied == At(r.start, copied + len - 1);
    }
  }

  // The contents of the range as one string, copied only if they wrap.
  method LinearizeRingBuffer(buf: array<char>, range: Range) returns (linear: Bytes)
    requires buf.Length == N && Legal(range)
    ensures linear == Contents(buf[..], range)
    ensures range.len <= N - range.start ==> linear == buf[range.start..range.start + range.len]
  {
    if range.len <= N - range.start {
      return buf[range.start..range.start + range.len];
    }
    var firstLen := N - range.start;
    linear := buf[range.start..] + buf[..range.len - firstLen];
  }
}
