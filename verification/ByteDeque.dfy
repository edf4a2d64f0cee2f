/** The growable byte deque `HVLBuf`: it keeps its bytes somewhere inside a larger buffer and
    compacts them to either end, or reallocates, when one side runs out of room. */
module ByteDeque {
  import opened Common

  /** One operation on the deque, and what it does to a plain byte sequence. */
  datatype Op =
    | PushFront(data: seq<byte>)
    | PushBack(data: seq<byte>)
    | PopFront(n: nat)
    | PopBack(n: nat)
    | Clear

  function Apply(s: seq<byte>, op: Op): seq<byte>
  {
    match op
    case PushFront(data) => data + s
    case PushBack(data) => s + data
    case PopFront(n) => if n <= |s| then s[n..] else s
    case PopBack(n) => if n <= |s| then s[..|s| - n] else s
    case Clear => []
  }

  function ApplyAll(s: seq<byte>, ops: seq<Op>): seq<byte>
    decreases |ops|
  {
    if ops == [] then s else ApplyAll(Apply(s, ops[0]), ops[1..])
  }

  lemma {:induction false} ApplyAllSnoc(s: seq<byte>, ops: seq<Op>, op: Op)
    ensures ApplyAll(s, ops + [op]) == Apply(ApplyAll(s, ops), op)
    decreases |ops|
  {
    if ops == [] {
      assert ops + [op] == [op];
      assert ApplyAll(s, [op]) == ApplyAll(Apply(s, op), []);
    } else {
      assert (ops + [op])[1..] == ops[1..] + [op];
      ApplyAllSnoc(Apply(s, ops[0]), ops[1..], op);
    }
  }

  lemma ApplyAllNext(s: seq<byte>, ops: seq<Op>, i: nat)
    requires i < |ops|
    ensures ApplyAll(s, ops[..i + 1]) == Apply(ApplyAll(s, ops[..i]), ops[i])
  {
    hide Apply, ApplyAll;
    ApplyAllSnoc(s, ops[..i], ops[i]);
    assert ops[..i + 1] == ops[..i] + [ops[i]];
  }

  /** `safe_realloc`: a larger buffer that starts with the old bytes. */
  method Realloc(from: array<byte>, cap: nat) returns (to: array<byte>)
    requires cap >= from.Length
    ensures fresh(to) && to.Length == cap
    ensures forall i :: 0 <= i < from.Length ==> to[i] == from[i]
  {
    to := new byte[cap];
    forall i | 0 <= i < from.Length {
      to[i] := from[i];
    }
  }

  /** `memmove`: source and target may overlap. */
  method MemMove(a: array<byte>, dst: nat, src: nat, n: nat)
    requires dst + n <= a.Length && src + n <= a.Length
    modifies a
    ensures a[dst..dst + n] == old(a[src..src + n])
  {
    forall i | 0 <= i < n {
      a[dst + i] := a[src + i];
    }
  }

  /** `s` with `data` written over it at `at`. */
  function Written(s: seq<byte>, at: nat, data: seq<byte>): seq<byte>
    requires at + |data| <= |s|
  {
    s[..at] + data + s[at + |data|..]
  }

  method MemCpy(a: array<byte>, dst: nat, data: seq<byte>)
    requires dst + |data| <= a.Length
    modifies a
    ensures a[..] == Written(old(a[..]), dst, data)
  {
    forall i | 0 <= i < |data| {
      a[dst + i] := data[i];
    }
  }

  lemma WrittenBefore(was: seq<byte>, at: nat, data: seq<byte>, n: nat)
    requires at + |data| + n <= |was|
    ensures |Written(was, at, data)| == |was|
    ensures Written(was, at, data)[at..at + |data| + n] == data + was[at + |data|..at + |data| + n]
  {
  }

  lemma WrittenAfter(was: seq<byte>, at: nat, data: seq<byte>, n: nat)
    requires n <= at && at + |data| <= |was|
    ensures |Written(was, at, data)| == |was|
    ensures Written(was, at, data)[at - n..at + |data|] == was[at - n..at] + data
  {
  }

  class HVLBuf {
    var base: array<byte>
    var offset: nat
    var size: nat

    ghost predicate Valid()
      reads this
    {
      offset + size <= base.Length
    }

    function Contents(): seq<byte>
      requires Valid()
      reads this, base
    {
      base[offset..offset + size]
    }

    constructor (cap: nat)
      ensures Valid() && fresh(base) && base.Length == cap && Contents() == []
    {
      base := new byte[cap];
      offset, size := 0, 0;
    }

    /** Reallocates to twice the larger of the capacity and `n`; the bytes stay where they are. */
    method Grow(n: nat)
      requires Valid()
      modifies this`base
      ensures Valid() && fresh(base) && unchanged(`offset) && unchanged(`size)
      ensures base.Length == Max(old(base.Length), n) * 2
      ensures Contents() == old(Contents())
    {
      base := Realloc(base, Max(base.Length, n) * 2);
    }

    /** Moves the bytes to offset `to`, through an overlapping copy. */
    method Shift(to: nat)
      requires Valid() && to + size <= base.Length
      modifies this`offset, base
      ensures Valid() && offset == to && Contents() == old(Contents())
    {
      MemMove(base, to, offset, size);
      offset := to;
    }

    method CopyBefore(data: seq<byte>)
      requires Valid() && |data| <= offset
      modifies this`offset, this`size, base
      ensures Valid() && Contents() == data + old(Contents()) && offset == old(offset) - |data|
    {
      hide Written;
      ghost var was := base[..];
      WrittenBefore(was, offset - |data|, data, size);
      assert was[offset..offset + size] == Contents();
      MemCpy(base, offset - |data|, data);
      offset := offset - |data|;
      size := size + |data|;
      assert base[offset..offset + size] == base[..][offset..offset + size];
    }

    method CopyAfter(data: seq<byte>)
      requires Valid() && offset + size + |data| <= base.Length
      modifies this`size, base
      ensures Valid() && Contents() == old(Contents()) + data
    {
      hide Written;
      ghost var was := base[..];
      WrittenAfter(was, offset + size, data, size);
      assert was[offset..offset + size] == Contents();
      MemCpy(base, offset + size, data);
      size := size + |data|;
      assert base[offset..offset + size] == base[..][offset..offset + size];
    }

    method PushFront(data: seq<byte>)
      requires Valid()
      modifies this, base
      ensures Valid() && (base == old(base) || fresh(base))
      ensures Contents() == data + old(Contents())
      ensures base.Length == if |data| <= old(base.Length - size) then old(base.Length)
                             else Max(old(base.Length), |data|) * 2
      ensures offset + |data| == if old(offset) < |data| then base.Length - old(size) else old(offset)
    {
      if |data| > base.Length - size {
        Grow(|data|);
      }
      if offset < |data| {
        // move => end
        Shift(base.Length - size);
      }
      CopyBefore(data);
    }

    method PushBack(data: seq<byte>)
      requires Valid()
      modifies this, base
      ensures Valid() && (base == old(base) || fresh(base))
      ensures Contents() == old(Contents()) + data
      ensures base.Length == if |data| <= old(base.Length - size) then old(base.Length)
                             else Max(old(base.Length), |data|) * 2
      ensures offset == if old(base.Length - offset - size) < |data| <= old(base.Length - size) then 0 else old(offset)
    {
      if |data| > base.Length - size {
        // No move: twice the larger length leaves room behind the bytes.
        Grow(|data|);
      } else if |data| > base.Length - offset - size {
        // move => start
        Shift(0);
      }
      CopyAfter(data);
    }

    /** `None` when more bytes are asked for than there are: nothing happens then. */
    method PopFront(n: nat) returns (taken: Option<seq<byte>>)
      requires Valid()
      modifies this`offset, this`size
      ensures Valid()
      ensures taken == if n <= |old(Contents())| then Some(old(Contents())[..n]) else None
      ensures Contents() == if n <= |old(Contents())| then old(Contents())[n..] else old(Contents())
      ensures offset == if n > old(size) then old(offset) else if old(offset) + n == base.Length then 0 else old(offset) + n
    {
      taken := None;
      if n <= size {
        taken := Some(base[offset..offset + n]);
        assert base[offset..offset + n] == Contents()[..n];
        offset := offset + n;
        if offset >= base.Length {
          offset := 0;
        }
        size := size - n;
      }
    }

    method PopBack(n: nat) returns (taken: Option<seq<byte>>)
      requires Valid()
      modifies this`size
      ensures Valid()
      ensures var s := old(Contents()); taken == if n <= |s| then Some(s[|s| - n..]) else None
      ensures var s := old(Contents()); Contents() == if n <= |s| then s[..|s| - n] else s
    {
      taken := None;
      if n <= size {
        taken := Some(base[offset + size - n..offset + size]);
        assert base[offset + size - n..offset + size] == Contents()[size - n..];
        size := size - n;
      }
    }

    method Clear()
      requires Valid()
      modifies this`offset, this`size
      ensures Valid() && Contents() == [] && offset == 0
    {
      offset, size := 0, 0;
    }

    method Perform(op: Op)
      requires Valid()
      modifies this, base
      ensures Valid() && (base == old(base) || fresh(base))
      ensures Contents() == Apply(old(Contents()), op)
      ensures base.Length >= old(base.Length)
    {
      match op {
        case PushFront(data) => PushFront(data);
        case PushBack(data) => PushBack(data);
        case PopFront(n) => var _ := PopFront(n);
        case PopBack(n) => var _ := PopBack(n);
        case Clear => Clear();
      }
    }

    /** Over any run of operations the deque holds what a plain sequence would hold, and its
        capacity never shrinks. */
    method Replay(ops: seq<Op>)
      requires Valid()
      modifies this, base
      ensures Valid() && (base == old(base) || fresh(base))
      ensures Contents() == ApplyAll(old(Contents()), ops)
      ensures base.Length >= old(base.Length)
    {
      ghost var start := Contents();
      assert ApplyAll(start, ops[..0]) == start;
      hide Apply, ApplyAll;
      for i := 0 to |ops|
        invariant Valid() && (base == old(base) || fresh(base))
        invariant Contents() == ApplyAll(start, ops[..i])
        invariant base.Length >= old(base.Length)
      {
        ApplyAllNext(start, ops, i);
        Perform(ops[i]);
      }
      assert ops[..|ops|] == ops;
    }
  }
}
