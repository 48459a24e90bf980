/** Dynamic strings (`sds.c`): length, free space and terminator kept in place over a buffer
    that is reallocated when an append does not fit. */
module Strings {
  import opened Bytes

  /** What `sdsrange` keeps: negative positions count from the end, and an end before the
      beginning is taken to be position 0. */
  function Slice(s: bytes, start: int, end: int): (r: bytes)
    ensures |r| <= |s|
  {
    var lo := if start < 0 then if |s| + start < 0 then 0 else |s| + start else start;
    var hi := if end < 0 then if |s| + end < 0 then 0 else |s| + end else end;
    var last := if hi >= |s| then |s| - 1 else hi;
    if lo > last then [] else s[lo..last + 1]
  }

  /** Dropping the first p bytes, as the reader and the output buffer do. */
  lemma SliceDrops(s: bytes, p: nat)
    requires p <= |s|
    ensures Slice(s, p, -1) == s[p..]
  {
  }

  /** Which bytes a slice keeps: those from the start to the end, both included; a negative position
      counts from the end of the string, and no position is taken to be outside it but a start
      behind the last byte, which leaves nothing. */
  lemma SliceExact(s: bytes, start: int, end: int)
    ensures 0 <= start <= end < |s| ==> Slice(s, start, end) == s[start..end + 1]
    ensures 0 <= end < start ==> Slice(s, start, end) == []
    ensures -|s| <= start < 0 ==> Slice(s, start, end) == Slice(s, |s| + start, end)
    ensures start < -|s| ==> Slice(s, start, end) == Slice(s, 0, end)
    ensures -|s| <= end < 0 ==> Slice(s, start, end) == Slice(s, start, |s| + end)
    ensures end < -|s| ==> Slice(s, start, end) == Slice(s, start, 0)
    ensures start >= |s| ==> Slice(s, start, end) == []
    ensures |s| <= end ==> Slice(s, start, end) == if s == [] then [] else Slice(s, start, |s| - 1)
  {
  }

  class Sds {
    var len: nat
    var free: nat
    var buf: array<byte>

    /** The header describes the buffer, and a NUL follows the last byte. */
    ghost predicate Valid()
      reads this, buf
    {
      buf.Length == len + free + 1 && buf[len] == NUL
    }

    ghost function Contents(): bytes
      requires Valid()
      reads this, buf
    {
      buf[..len]
    }

    /** `sdsnewlen`. */
    constructor (init: bytes)
      ensures Valid() && fresh(buf)
      ensures Contents() == init && free == 0
    {
      len, free := |init|, 0;
      buf := new byte[|init| + 1](i => if 0 <= i < |init| then init[i] else NUL);
      new;
      assert buf[..len] == init;
    }

    /** `sdsMakeRoomFor`: the contents stay, and at least addlen more bytes fit. */
    method MakeRoomFor(addlen: nat)
      requires Valid()
      modifies this
      ensures Valid() && Contents() == old(Contents()) && len == old(len)
      ensures free >= addlen
      ensures buf == old(buf) || fresh(buf)
      ensures old(free) >= addlen ==> buf == old(buf) && free == old(free)
      ensures old(free) < addlen ==> len + free == 2 * (len + addlen)
    {
      if free >= addlen { return; }
      var newlen := (len + addlen) * 2;
      var oldBuf, n := buf, len;
      buf := new byte[newlen + 1](i requires 0 <= i reads oldBuf => if i < n < oldBuf.Length then oldBuf[i] else NUL);
      free := newlen - len;
    }

    /** `memcpy` of t behind the contents. */
    method CopyIn(t: bytes)
      requires len + |t| < buf.Length
      modifies buf
      ensures buf[..len + |t|] == old(buf[..len]) + t
    {
      forall i | 0 <= i < |t| {
        buf[len + i] := t[i];
      }
      assert buf[..len] == old(buf[..len]) && buf[len..len + |t|] == t;
      assert buf[..len + |t|] == buf[..len] + buf[len..len + |t|];
    }

    /** `sdscatlen`. */
    method CatLen(t: bytes)
      requires Valid()
      modifies this, buf
      ensures Valid() && Contents() == old(Contents()) + t
      ensures buf == old(buf) || fresh(buf)
    {
      MakeRoomFor(|t|);
      CopyIn(t);
      len := len + |t|;
      free := free - |t|;
      Terminate();
    }

    method Terminate()
      requires len < buf.Length
      modifies buf
      ensures buf[len] == NUL && buf[..len] == old(buf[..len])
    {
      buf[len] := NUL;
    }

    /** The bounds that `sdsrange` computes: newlen bytes from lo on. */
    method Bounds(start: int, end: int) returns (lo: int, newlen: int)
      requires Valid() && len > 0
      ensures 0 <= newlen <= len && (newlen > 0 ==> 0 <= lo && lo + newlen <= len)
      ensures Slice(Contents(), start, end) == if newlen == 0 then [] else Contents()[lo..lo + newlen]
    {
      lo := start;
      var hi := end;
      if lo < 0 {
        lo := len + lo;
        if lo < 0 { lo := 0; }
      }
      if hi < 0 {
        hi := len + hi;
        if hi < 0 { hi := 0; }
      }
      newlen := if lo > hi then 0 else hi - lo + 1;
      if newlen != 0 {
        if lo >= len {
          newlen := 0;
        } else if hi >= len {
          hi := len - 1;
          newlen := if lo > hi then 0 else hi - lo + 1;
        }
      } else {
        lo := 0;
      }
    }

    /** `sdsrange`: keeps a slice, moved to the front of the same buffer. */
    method Range(start: int, end: int)
      requires Valid()
      modifies this, buf
      ensures Valid() && buf == old(buf)
      ensures Contents() == Slice(old(Contents()), start, end)
      ensures len + free == old(len + free)
    {
      if len == 0 { return; }
      var lo, newlen := Bounds(start, end);
      if newlen != 0 {
        SliceOfSlice(buf[..], 0, len, lo, lo + newlen);
        if lo != 0 {
          MoveDown(lo, newlen);
        }
      }
      Cut(newlen);
    }

    /** The new length and terminator. */
    method Cut(newlen: nat)
      requires buf.Length == len + free + 1 && newlen <= len
      modifies this`len, this`free, buf
      ensures Valid() && len == newlen && buf[..newlen] == old(buf[..newlen]) && len + free == old(len + free)
    {
      buf[newlen] := NUL;
      free := free + (len - newlen);
      len := newlen;
    }

    /** `memmove` towards the front. */
    method MoveDown(from: nat, n: nat)
      requires Valid() && from + n <= len
      modifies buf
      ensures buf[..n] == old(buf[from..from + n])
    {
      for i := 0 to n
        invariant forall j :: 0 <= j < i ==> buf[j] == old(buf[from + j])
        invariant forall j :: i <= j < buf.Length ==> buf[j] == old(buf[j])
      {
        buf[i] := buf[from + i];
      }
    }
  }
}
