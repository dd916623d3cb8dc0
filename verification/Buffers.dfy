/** Byte buffers that encoders fill in place. A slice is a view into a shared array, as in Go; what
    an encoder may rely on is stated by `Patch`: the bytes it wrote, and everything else as it was. */
module Buffers {
  import opened Base
  import opened Wire

  /** `b` with `s` written over it from position `at` on. */
  function Patch(b: Bytes, at: nat, s: Bytes): (r: Bytes)
    requires at + |s| <= |b|
    ensures |r| == |b|
  {
    b[..at] + s + b[at + |s|..]
  }

  lemma PatchNothing(b: Bytes, at: nat)
    requires at <= |b|
    ensures Patch(b, at, []) == b
  {
  }

  lemma PatchAfter(b: Bytes, at: nat, s: Bytes, t: Bytes)
    requires at + |s| + |t| <= |b|
    ensures Patch(Patch(b, at, s), at + |s|, t) == Patch(b, at, s + t)
  {
    var p := Patch(b, at, s);
    assert p[..at + |s|] == b[..at] + s;
    assert p[at + |s| + |t|..] == b[at + |s| + |t|..];
  }

  lemma PatchBefore(b: Bytes, at: nat, s: Bytes, t: Bytes)
    requires at + |s| + |t| <= |b|
    ensures Patch(Patch(b, at + |s|, t), at, s) == Patch(b, at, s + t)
  {
    var p := Patch(b, at + |s|, t);
    assert p[..at] == b[..at];
    assert p[at + |s|..] == t + b[at + |s| + |t|..];
  }

  lemma PatchRead(b: Bytes, at: nat, s: Bytes)
    requires at + |s| <= |b|
    ensures Patch(b, at, s)[at..at + |s|] == s
  {
  }

  datatype Slice = Slice(arr: array<byte>, off: nat, len: nat)

  predicate Valid(s: Slice) {
    s.off + s.len <= s.arr.Length
  }

  function Capacity(s: Slice): int {
    s.arr.Length - s.off
  }

  function Content(s: Slice): Bytes
    requires Valid(s)
    reads s.arr
  {
    s.arr[s.off..s.off + s.len]
  }

  /** `dst[:size]` if the capacity allows it, a new array otherwise. */
  method Resize(dst: Slice, size: nat) returns (out: Slice)
    requires Valid(dst)
    ensures Valid(out) && out.len == size
    ensures Capacity(dst) >= size ==> out == Slice(dst.arr, dst.off, size)
    ensures Capacity(dst) < size ==> fresh(out.arr) && out.off == 0
  {
    if Capacity(dst) < size {
      var arr := new byte[size](_ => 0);
      return Slice(arr, 0, size);
    }
    return Slice(dst.arr, dst.off, size);
  }

  /** Go's `copy` for a destination that is long enough. */
  method Copy(arr: array<byte>, at: nat, s: Bytes)
    requires at + |s| <= arr.Length
    modifies arr
    ensures arr[..] == Patch(old(arr[..]), at, s)
  {
    var i := 0;
    while i < |s|
      invariant i <= |s|
      invariant arr[..] == Patch(old(arr[..]), at, s[..i])
    {
      ghost var before := arr[..];
      arr[at + i] := s[i];
      assert arr[..] == before[at + i := s[i]] == Patch(before, at + i, [s[i]]);
      PatchAfter(old(arr[..]), at, s[..i], [s[i]]);
      assert s[..i] + [s[i]] == s[..i + 1];
      i := i + 1;
    }
    assert s[..i] == s;
  }

  /** Writes the fields of a record one after the other. */
  method PutRecord(arr: array<byte>, at: nat, r: Record, layout: Layout)
    requires Matches(r, layout) && at + |RecordBytes(r, layout)| <= arr.Length
    modifies arr
    ensures arr[..] == Patch(old(arr[..]), at, RecordBytes(r, layout))
  {
    hide CellBytes, Patch, Fits;
    var i, pos := 0, at;
    PatchNothing(arr[..], at);
    while i < |r|
      invariant i <= |r|
      invariant pos == at + |Written(r, layout, i)| <= arr.Length
      invariant arr[..] == Patch(old(arr[..]), at, Written(r, layout, i))
    {
      WrittenGrows(r, layout, i + 1, |r|);
      var bytes := CellBytes(r[i], layout[i]);
      PatchAfter(old(arr[..]), at, Written(r, layout, i), bytes);
      Copy(arr, pos, bytes);
      pos := pos + |bytes|;
      i := i + 1;
    }
  }

  lemma {:induction false} WrittenGrows(r: Record, layout: Layout, i: nat, n: nat)
    requires Matches(r, layout) && i <= n <= |r|
    ensures |Written(r, layout, i)| <= |Written(r, layout, n)|
    decreases n
  {
    hide Matches, CellBytes;
    if i < n {
      WrittenGrows(r, layout, i, n - 1);
    }
  }

  lemma {:induction false} ListedGrows(rs: seq<Record>, layout: Layout, i: nat, n: nat)
    requires AllMatch(rs, layout) && i <= n <= |rs|
    ensures |Listed(rs, layout, i)| <= |Listed(rs, layout, n)|
    decreases n
  {
    hide RecordBytes;
    if i < n {
      ListedGrows(rs, layout, i, n - 1);
    }
  }
}
