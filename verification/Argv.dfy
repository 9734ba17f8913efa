/**
The argument vector a process is executed with, in a single heap block: the
NULL-terminated pointers first, the strings behind them. Appending an argument
moves the strings by one pointer, and the whole block to wherever `realloc` puts it.
*/
module Argv {
  import opened RingBuffer
  import opened Text

  // `sizeof(char *)`
  const WORD := 8

  // A byte of the block: a character, or the first or a later byte of a pointer.
  datatype Cell = Byte(c: char) | Pointer(to: nat) | Rest

  function Chunk(s: Bytes): (r: seq<Cell>)
    ensures |r| == |s| + 1
  {
    seq(|s|, k requires 0 <= k < |s| => Byte(s[k])) + [Byte(NUL)]
  }

  // The strings one after the other.
  function Packing(strs: seq<Bytes>): seq<Cell> {
    if strs == [] then [] else Packing(strs[..|strs| - 1]) + Chunk(strs[|strs| - 1])
  }

  // Where string `k` begins.
  function StringOffset(strs: seq<Bytes>, k: nat): nat
    requires k <= |strs|
  {
    WORD * (|strs| + 1) + |Packing(strs[..k])|
  }

  ghost predicate IsPointer(cells: seq<Cell>, at: nat, to: nat) {
    && at + WORD <= |cells| && cells[at] == Pointer(to)
    && forall j :: at < j < at + WORD ==> cells[j] == Rest
  }

  // The block at address `base` holds exactly these arguments.
  ghost predicate Packed(base: nat, cells: seq<Cell>, strs: seq<Bytes>) {
    var n := |strs|;
    && base > 0 && (forall k :: 0 <= k < n ==> NUL !in strs[k])
    && |cells| == StringOffset(strs, n)
    && (forall k :: 0 <= k < n ==> IsPointer(cells, WORD * k, base + StringOffset(strs, k)))
    && IsPointer(cells, WORD * n, 0)
    && cells[WORD * (n + 1)..] == Packing(strs)
  }

  lemma {:induction false} PackingMonotone(strs: seq<Bytes>, k: nat)
    requires k < |strs|
    ensures |Packing(strs[..k])| + |strs[k]| + 1 <= |Packing(strs)|
    ensures Packing(strs)[|Packing(strs[..k])|..][..|strs[k]| + 1] == Chunk(strs[k])
  {
    var most := strs[..|strs| - 1];
    if k < |strs| - 1 {
      PackingMonotone(most, k);
      assert most[..k] == strs[..k];
    }
  }

  // Every argument reads back, inside the block, behind the pointers, and behind
  // the end of the argument before it.
  lemma ReadsBack(base: nat, cells: seq<Cell>, strs: seq<Bytes>, k: nat)
    requires Packed(base, cells, strs) && k < |strs|
    ensures var at := StringOffset(strs, k);
            && IsPointer(cells, WORD * k, base + at)
            && WORD * (|strs| + 1) <= at && at + |strs[k]| + 1 <= |cells|
            && cells[at..at + |strs[k]| + 1] == Chunk(strs[k])
            && at + |strs[k]| + 1 == StringOffset(strs, k + 1)
  {
    PackingMonotone(strs, k);
    assert strs[..k + 1][..k] == strs[..k];
    var at := StringOffset(strs, k);
    assert cells[at..at + |strs[k]| + 1] == cells[WORD * (|strs| + 1)..][|Packing(strs[..k])|..][..|strs[k]| + 1];
  }

  lemma AppendedOffsets(strs: seq<Bytes>, s: Bytes, k: nat)
    requires k <= |strs|
    ensures StringOffset(strs + [s], k) == StringOffset(strs, k) + WORD
    ensures Packing(strs + [s]) == Packing(strs) + Chunk(s)
  {
    assert (strs + [s])[..k] == strs[..k];
    assert (strs + [s])[..|strs|] == strs;
  }

  lemma NothingPacked(strs: seq<Bytes>)
    ensures strs == [] ==> Packing(strs) == []
  {
  }

  lemma OffsetsGrow(strs: seq<Bytes>, j: nat, k: nat)
    requires j < k <= |strs|
    ensures StringOffset(strs, j) < StringOffset(strs, k) <= StringOffset(strs, |strs|)
  {
    assert strs[..k][..j] == strs[..j];
    PackingMonotone(strs[..k], j);
    assert strs[..|strs|] == strs;
    if k < |strs| {
      PackingMonotone(strs, k);
    }
  }

  method Strlen(block: array<Cell>, at: nat, ghost s: Bytes) returns (len: nat)
    requires NUL !in s && at + |s| + 1 <= block.Length && block[at..at + |s| + 1] == Chunk(s)
    ensures len == |s|
  {
    len := 0;
    assert block[at] == block[at..at + |s| + 1][0];
    while block[at + len] != Byte(NUL)
      invariant len <= |s| && block[at + len] == Chunk(s)[len]
      decreases |s| - len
    {
      len := len + 1;
      assert block[at + len] == block[at..at + |s| + 1][len];
    }
  }

  method StorePointer(block: array<Cell>, at: nat, to: nat)
    requires at + WORD <= block.Length
    modifies block
    ensures IsPointer(block[..], at, to)
    ensures block[..at] == old(block[..at]) && block[at + WORD..] == old(block[at + WORD..])
  {
    forall j | at < j < at + WORD {
      block[j] := Rest;
    }
    block[at] := Pointer(to);
  }

  // Counts the arguments and measures the strings, from the last pointer alone.
  method Measure(base: nat, block: array<Cell>, ghost strs: seq<Bytes>) returns (argc: nat, size: nat)
    requires Packed(base, block[..], strs)
    ensures argc == |strs| && size == |Packing(strs)|
  {
    hide StringOffset, Packing, Chunk;
    argc := 0;
    var last := 0;
    while block[WORD * argc] != Pointer(0)
      invariant argc <= |strs|
      invariant last == if argc == 0 then 0 else base + StringOffset(strs, argc - 1)
      invariant IsPointer(block[..], WORD * argc, if argc < |strs| then base + StringOffset(strs, argc) else 0)
      decreases |strs| - argc
    {
      if block[WORD * argc].to > last {
        last := block[WORD * argc].to;
      }
      if argc > 0 {
        OffsetsGrow(strs, argc - 1, argc);
      }
      argc := argc + 1;
    }
    if last == 0 {
      WholeOffset(strs);
      NothingPacked(strs);
      return argc, 0;
    }
    ReadsBack(base, block[..], strs, argc - 1);
    var len := Strlen(block, last - base, strs[argc - 1]);
    WholeOffset(strs);
    size := last + len + 1 - (base + WORD * (argc + 1));
  }

  // Writes the new string behind the old ones, which move by one pointer.
  method MoveStrings(block: array<Cell>, argc: nat, size: nat, s: Bytes)
    requires block.Length == WORD * (argc + 2) + size + |s| + 1
    modifies block
    ensures block[..WORD * (argc + 1)] == old(block[..WORD * (argc + 1)])
    ensures block[WORD * (argc + 2)..] == old(block[WORD * (argc + 1)..WORD * (argc + 1) + size]) + Chunk(s)
  {
    var src, dst := WORD * (argc + 1), WORD * (argc + 2);
    var chunk := Chunk(s);
    forall j | 0 <= j <= |s| {
      block[dst + size + j] := chunk[j];
    }
    // `memmove`
    forall j | 0 <= j < size {
      block[dst + j] := block[src + j];
    }
  }

  // Makes the old pointers point into the moved block.
  method FixPointers(block: array<Cell>, argc: nat, size: nat, from: nat, to: nat, ghost strs: seq<Bytes>)
    requires argc == |strs| && size == |Packing(strs)| && WORD * (argc + 1) <= block.Length
    requires forall k :: 0 <= k < argc ==> IsPointer(block[..], WORD * k, from + StringOffset(strs, k))
    modifies block
    ensures forall k :: 0 <= k < argc ==> IsPointer(block[..], WORD * k, to + StringOffset(strs, k) + WORD)
    ensures block[WORD * argc..] == old(block[WORD * argc..])
  {
    hide StringOffset, IsPointer;
    var strings := from + WORD * (argc + 1);
    for i := 0 to argc
      invariant forall k :: 0 <= k < i ==> IsPointer(block[..], WORD * k, to + StringOffset(strs, k) + WORD)
      invariant forall k :: i <= k < argc ==> IsPointer(block[..], WORD * k, from + StringOffset(strs, k))
      invariant block[WORD * argc..] == old(block[WORD * argc..])
    {
      ghost var before := block[..];
      assert IsPointer(block[..], WORD * i, from + StringOffset(strs, i));
      PointerAt(block[..], WORD * i, from + StringOffset(strs, i));
      OffsetInStrings(strs, i);
      var p := block[WORD * i].to;
      if strings <= p < strings + size {
        StorePointer(block, WORD * i, to + (p - from) + WORD);
      }
      PointersKept(before, block[..], WORD * i);
    }
  }

  lemma PointerAt(cells: seq<Cell>, at: nat, to: nat)
    requires IsPointer(cells, at, to)
    ensures at + WORD <= |cells| && cells[at] == Pointer(to)
  {
  }

  lemma OffsetInStrings(strs: seq<Bytes>, k: nat)
    requires k < |strs|
    ensures WORD * (|strs| + 1) <= StringOffset(strs, k) < WORD * (|strs| + 1) + |Packing(strs)|
  {
    PackingMonotone(strs, k);
  }

  lemma PointersKept(before: seq<Cell>, after: seq<Cell>, at: nat)
    requires |before| == |after| && at + WORD <= |before|
    requires before[..at] == after[..at] && before[at + WORD..] == after[at + WORD..]
    ensures forall b: nat, to: nat :: (b + WORD <= at || at + WORD <= b) ==> (IsPointer(before, b, to) <==> IsPointer(after, b, to))
  {
    assert forall j :: 0 <= j < at ==> before[j] == before[..at][j] == after[j];
    assert forall j :: at + WORD <= j < |before| ==> before[j] == before[at + WORD..][j - at - WORD] == after[j];
  }

  lemma PointersInPrefix(before: seq<Cell>, after: seq<Cell>, n: nat)
    requires n <= |before| && n <= |after| && before[..n] == after[..n]
    ensures forall b: nat, to: nat :: b + WORD <= n ==> (IsPointer(before, b, to) <==> IsPointer(after, b, to))
  {
    assert forall j :: 0 <= j < n ==> before[j] == before[..n][j] == after[j];
  }

  lemma WholeOffset(strs: seq<Bytes>)
    ensures StringOffset(strs, |strs|) == WORD * (|strs| + 1) + |Packing(strs)|
  {
    assert strs[..|strs|] == strs;
  }

  // The parts of a block that is complete.
  lemma Assembled(base: nat, cells: seq<Cell>, strs: seq<Bytes>, s: Bytes)
    requires base > 0 && NUL !in s && forall k :: 0 <= k < |strs| ==> NUL !in strs[k]
    requires |cells| == WORD * (|strs| + 2) + |Packing(strs)| + |s| + 1
    requires forall k :: 0 <= k < |strs| ==> IsPointer(cells, WORD * k, base + StringOffset(strs, k) + WORD)
    requires IsPointer(cells, WORD * |strs|, base + WORD * (|strs| + 2) + |Packing(strs)|)
    requires IsPointer(cells, WORD * (|strs| + 1), 0)
    requires cells[WORD * (|strs| + 2)..] == Packing(strs) + Chunk(s)
    ensures Packed(base, cells, strs + [s])
  {
    hide IsPointer, StringOffset, Packing, Chunk;
    var all := strs + [s];
    WholeOffset(strs);
    WholeOffset(all);
    AppendedOffsets(strs, s, |strs|);
    forall k | 0 <= k < |all|
      ensures IsPointer(cells, WORD * k, base + StringOffset(all, k))
      ensures NUL !in all[k]
    {
      if k < |strs| {
        AppendedOffsets(strs, s, k);
      }
    }
  }

  // Stores the pointer to the new string and the final NULL.
  method StoreLast(block: array<Cell>, argc: nat, last: nat)
    requires WORD * (argc + 2) <= block.Length
    modifies block
    ensures forall b: nat, to: nat :: b + WORD <= WORD * argc ==>
              (old(IsPointer(block[..], b, to)) <==> IsPointer(block[..], b, to))
    ensures IsPointer(block[..], WORD * argc, last) && IsPointer(block[..], WORD * (argc + 1), 0)
    ensures block[WORD * (argc + 2)..] == old(block[WORD * (argc + 2)..])
  {
    hide IsPointer;
    ghost var b0 := block[..];
    StorePointer(block, WORD * argc, last);
    ghost var b1 := block[..];
    PointersKept(b0, b1, WORD * argc);
    StorePointer(block, WORD * (argc + 1), 0);
    PointersKept(b1, block[..], WORD * (argc + 1));
    BothStored(b0, b1, block[..], WORD * argc);
  }

  lemma BothStored(b0: seq<Cell>, b1: seq<Cell>, b2: seq<Cell>, at: nat)
    requires |b0| == |b1| == |b2| && at + 2 * WORD <= |b0|
    requires b0[at + WORD..] == b1[at + WORD..] && b1[at + 2 * WORD..] == b2[at + 2 * WORD..]
    ensures b0[at + 2 * WORD..] == b2[at + 2 * WORD..]
  {
    assert b0[at + 2 * WORD..] == b0[at + WORD..][WORD..];
    assert b1[at + 2 * WORD..] == b1[at + WORD..][WORD..];
  }

  // What `argv_append` does in the block it has got from `realloc`.
  method FillBlock(block: array<Cell>, argc: nat, size: nat, from: nat, to: nat, s: Bytes, ghost strs: seq<Bytes>)
    requires argc == |strs| && size == |Packing(strs)| && to > 0 && NUL !in s
    requires block.Length == WORD * (argc + 2) + size + |s| + 1 && Kept(from, block[..], strs)
    modifies block
    ensures Packed(to, block[..], strs + [s])
  {
    hide Packed, IsPointer, StringOffset, Packing, Chunk;
    ghost var b0 := block[..];
    MoveStrings(block, argc, size, s);
    ghost var b1 := block[..];
    assert b0[..WORD * (argc + 1)] == b1[..WORD * (argc + 1)];
    PointersInPrefix(b0, b1, WORD * (argc + 1));
    FixPointers(block, argc, size, from, to, strs);
    ghost var b2 := block[..];
    StoreLast(block, argc, to + WORD * (argc + 2) + size);
    TailKept(b1, b2, WORD * argc, 2 * WORD);
    Assembled(to, block[..], strs, s);
  }

  lemma TailKept(b1: seq<Cell>, b2: seq<Cell>, at: nat, n: nat)
    requires |b1| == |b2| && at + n <= |b1| && b1[at..] == b2[at..]
    ensures b1[at + n..] == b2[at + n..]
  {
    assert b1[at + n..] == b1[at..][n..] && b2[at + n..] == b2[at..][n..];
  }

  lemma PackedLength(base: nat, cells: seq<Cell>, strs: seq<Bytes>)
    requires Packed(base, cells, strs)
    ensures |cells| == WORD * (|strs| + 1) + |Packing(strs)|
  {
    WholeOffset(strs);
  }

  // What `argv_append` relies on in the grown block.
  ghost predicate Kept(from: nat, cells: seq<Cell>, strs: seq<Bytes>) {
    && WORD * (|strs| + 1) + |Packing(strs)| <= |cells|
    && (forall k :: 0 <= k < |strs| ==> NUL !in strs[k] && IsPointer(cells, WORD * k, from + StringOffset(strs, k)))
    && cells[WORD * (|strs| + 1)..WORD * (|strs| + 1) + |Packing(strs)|] == Packing(strs)
  }

  lemma PackedIsKept(base: nat, packed: seq<Cell>, cells: seq<Cell>, strs: seq<Bytes>)
    requires Packed(base, packed, strs) && |packed| <= |cells| && cells[..|packed|] == packed
    ensures Kept(base, cells, strs)
  {
    hide Packing, Chunk, IsPointer;
    WholeOffset(strs);
    PointersInPrefix(packed, cells, |packed|);
    forall k | 0 <= k < |strs|
      ensures IsPointer(cells, WORD * k, base + StringOffset(strs, k))
    {
      assert IsPointer(packed, WORD * k, base + StringOffset(strs, k));
    }
  }

  /** `char **argv`, NULL (address 0) before the first argument. */
  class ArgumentVector {
    var base: nat
    var block: array<Cell>

    constructor ()
      ensures base == 0
    {
      base, block := 0, new Cell[0];
    }

    ghost predicate Holds(strs: seq<Bytes>)
      reads this, block
    {
      if base == 0 then strs == [] else Packed(base, block[..], strs)
    }

    // `argv_append`. `to` is where `realloc` moves the block, 0 if it fails.
    method Append(s: Bytes, to: nat, ghost strs: seq<Bytes>) returns (ok: bool)
      requires Holds(strs) && NUL !in s
      modifies this
      ensures ok <==> to != 0
      ensures Holds(if ok then strs + [s] else strs)
      ensures !ok ==> base == old(base) && block == old(block)
      ensures ok ==> base == to && fresh(block)
    {
      hide Packing, StringOffset, IsPointer, Packed, Kept;
      NothingPacked(strs);
      var argc, size := 0, 0;
      if base != 0 {
        argc, size := Measure(base, block, strs);
      }
      if to == 0 {
        return false;
      }
      var moved := Realloc(argc, size, s, strs);
      FillBlock(moved, argc, size, base, to, s, strs);
      base, block := to, moved;
      return true;
    }

    // `realloc` keeps what was in the block.
    method Realloc(argc: nat, size: nat, s: Bytes, ghost strs: seq<Bytes>) returns (moved: array<Cell>)
      requires Holds(strs) && argc == |strs| && size == |Packing(strs)|
      ensures fresh(moved) && moved.Length == WORD * (argc + 2) + size + |s| + 1
      ensures Kept(base, moved[..], strs)
    {
      hide Packing, StringOffset, IsPointer, Packed;
      NothingPacked(strs);
      ghost var was := block[..];
      moved := new Cell[WORD * (argc + 2) + size + |s| + 1](_ => Rest);
      if base != 0 {
        PackedLength(base, was, strs);
        forall j | 0 <= j < block.Length {
          moved[j] := block[j];
        }
        PackedIsKept(base, was, moved[..], strs);
      }
    }

    /** Any number of arguments, with the block moving every time. */
    method AppendAll(args: seq<Bytes>, to: seq<nat>) returns (ok: bool)
      requires Holds([]) && |to| == |args| && forall i :: 0 <= i < |args| ==> NUL !in args[i]
      modifies this
      ensures ok <==> 0 !in to
      ensures ok ==> Holds(args)
    {
      for i := 0 to |args|
        invariant Holds(args[..i]) && 0 !in to[..i]
      {
        ok := Append(args[i], to[i], args[..i]);
        assert args[..i + 1] == args[..i] + [args[i]];
        if !ok {
          return;
        }
      }
      assert args[..|args|] == args && to[..|args|] == to;
      ok := true;
    }
  }
}
