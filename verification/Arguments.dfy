/** Walking a formatted command argument by argument (`nextArgument` in `async.c`), as the
    asynchronous client does to find the command's name and the channels it subscribes to. */
module Arguments {
  import opened Bytes
  import opened Resp
  import opened RespRoundTrip
  import opened Formatter

  /** C's `strchr` from position `from`: -1 when a NUL comes first. */
  function Find(mem: bytes, from: nat, c: byte): (p: int)
    ensures p == -1 || (from <= p < |mem| && mem[p] == c)
    decreases |mem| - from
  {
    if from >= |mem| then -1
    else if mem[from] == c then from
    else if mem[from] == NUL then -1
    else Find(mem, from + 1, c)
  }

  /** The number the digits at `from` spell, behind v. */
  function Value(mem: bytes, from: nat, v: nat): nat
    decreases |mem| - from
  {
    if from < |mem| && IsDigit(mem[from]) then Value(mem, from + 1, v * 10 + (mem[from] - ZERO)) else v
  }

  /** C's `strtol` in base 10. */
  function StrToL(mem: bytes, from: nat): int
    decreases |mem| - from
  {
    if from >= |mem| then 0
    else if IsSpace(mem[from]) then StrToL(mem, from + 1)
    else if mem[from] == MINUS then -1 * Value(mem, from + 1, 0)
    else if mem[from] == PLUS then Value(mem, from + 1, 0)
    else Value(mem, from, 0)
  }

  /** No further argument; an argument at str, len bytes long, with the next one at `next`; or
      the assertion failure of a string that is no command. */
  datatype Next = End | Arg(str: nat, len: int, next: int) | Abort

  function NextOf(mem: bytes, start: nat): Next
    requires start < |mem|
  {
    var p := if mem[start] == DOLLAR then start else Find(mem, start, DOLLAR);
    if p == -1 then End
    else
      var len := StrToL(mem, p + 1);
      var q := Find(mem, p, CR);
      if q == -1 then Abort else Arg(q + 2, len, q + 2 + len + 2)
  }

  // ---------------------------------------------------------------- in place

  method StrChr(mem: array<byte>, from: nat, c: byte) returns (p: int)
    requires from < mem.Length && mem[mem.Length - 1] == NUL
    ensures p == Find(mem[..], from, c)
  {
    p := from;
    while mem[p] != c && mem[p] != NUL
      invariant from <= p < mem.Length && Find(mem[..], p, c) == Find(mem[..], from, c)
      decreases mem.Length - p
    {
      p := p + 1;
    }
    if mem[p] != c { p := -1; }
  }

  method ReadNumber(mem: array<byte>, from: nat) returns (v: int)
    requires from < mem.Length && mem[mem.Length - 1] == NUL
    ensures v == StrToL(mem[..], from)
  {
    var p := from;
    while IsSpace(mem[p])
      invariant from <= p < mem.Length && StrToL(mem[..], p) == StrToL(mem[..], from)
      decreases mem.Length - p
    {
      p := p + 1;
    }
    var mult: int := if mem[p] == MINUS then -1 else 1;
    if mem[p] == MINUS || mem[p] == PLUS { p := p + 1; }
    ghost var first := p;
    var n: nat := 0;
    while IsDigit(mem[p])
      invariant first <= p < mem.Length && Value(mem[..], p, n) == Value(mem[..], first, 0)
      decreases mem.Length - p
    {
      n := n * 10 + (mem[p] - ZERO);
      p := p + 1;
    }
    v := mult * n;
  }

  /** `nextArgument`. */
  method NextArgument(mem: array<byte>, start: nat) returns (r: Next)
    requires start < mem.Length && mem[mem.Length - 1] == NUL
    ensures r == NextOf(mem[..], start)
  {
    var p := start;
    if mem[p] != DOLLAR {
      p := StrChr(mem, p, DOLLAR);
      if p == -1 { return End; }
    }
    var len := ReadNumber(mem, p + 1);
    var q := StrChr(mem, p, CR);
    if q == -1 { return Abort; }
    r := Arg(q + 2, len, q + 2 + len + 2);
  }

  // ---------------------------------------------------------------- on formatted commands

  lemma {:induction false} FindAt(mem: bytes, from: nat, to: nat, c: byte)
    requires from <= to < |mem| && mem[to] == c
    requires forall i :: from <= i < to ==> mem[i] != c && mem[i] != NUL
    ensures Find(mem, from, c) == to
    decreases |mem| - from
  {
    if from < to {
      FindAt(mem, from + 1, to, c);
    }
  }

  lemma {:induction false} FindNone(mem: bytes, from: nat, to: nat, c: byte)
    requires from <= to < |mem| && mem[to] == NUL && c != NUL
    requires forall i :: from <= i < to ==> mem[i] != c && mem[i] != NUL
    ensures Find(mem, from, c) == -1
    decreases |mem| - from
  {
    if from < to {
      FindNone(mem, from + 1, to, c);
    }
  }

  lemma {:induction false} ValueIsDigits(mem: bytes, from: nat, to: nat, v: nat)
    requires from <= to < |mem| && !IsDigit(mem[to])
    requires forall i :: from <= i < to ==> IsDigit(mem[i])
    ensures Value(mem, from, v) == Digits(mem[from..to], v)
    decreases |mem| - from
  {
    if from < to {
      assert mem[from..to][1..] == mem[from + 1..to];
      ValueIsDigits(mem, from + 1, to, v * 10 + (mem[from] - ZERO));
    }
  }

  /** The memory behind a formatted command: its bytes and the terminator. */
  function Memory(args: seq<bytes>): bytes {
    Command(args) + [NUL]
  }

  /** Where the j-th argument's length line begins. */
  function Offset(args: seq<bytes>, j: nat): (p: nat)
    requires j <= |args|
    ensures p < |Memory(args)|
  {
    CommandIs(args);
    BulksGrow(args, j, |args|);
    |Formatter.Header(|args|)| + |Bulks(args, j)|
  }

  lemma {:induction false} BulksSplit(args: seq<bytes>, j: nat)
    requires j <= |args|
    ensures exists tail :: Bulks(args, |args|) == Bulks(args, j) + tail
    decreases |args| - j
  {
    if j < |args| {
      BulksNext(args, j);
      BulksSplit(args, j + 1);
      var tail :| Bulks(args, |args|) == Bulks(args, j + 1) + tail;
      assert Bulks(args, |args|) == Bulks(args, j) + (Encode(Str(args[j])) + tail);
    } else {
      assert Bulks(args, |args|) == Bulks(args, j) + [];
    }
  }

  /** The memory around argument j: what comes before it, its bulk string, and what follows. */
  lemma MemoryAt(args: seq<bytes>, j: nat) returns (pre: bytes, post: bytes)
    requires j < |args|
    ensures |pre| == Offset(args, j) && |pre| + |Encode(Str(args[j]))| == Offset(args, j + 1) && post != []
    ensures Memory(args) == pre + Encode(Str(args[j])) + post
  {
    CommandIs(args);
    BulksNext(args, j);
    BulksSplit(args, j + 1);
    var tail :| Bulks(args, |args|) == Bulks(args, j + 1) + tail;
    var h, b, e := Formatter.Header(|args|), Bulks(args, j), Encode(Str(args[j]));
    pre, post := h + b, tail + [NUL];
    FiveParts(h, b, e, tail, [NUL]);
  }

  lemma FiveParts(h: bytes, b: bytes, e: bytes, t: bytes, n: bytes)
    ensures h + ((b + e) + t) + n == (h + b) + e + (t + n)
  {
    Assoc(h, (b + e) + t, n);
    Assoc(b + e, t, n);
    Assoc(h, b + e, t + n);
    Assoc(h, b, e);
  }

  /** A length line anywhere in memory. */
  lemma LengthLine(mem: bytes, at: nat, n: nat)
    requires var d := |Decimal(n)|;
             && at + 1 + d < |mem| && mem[at] == DOLLAR
             && mem[at + 1..at + 1 + d] == Decimal(n) && mem[at + 1 + d] == CR
    ensures NextOf(mem, at) == Arg(at + 1 + |Decimal(n)| + 2, n, at + 1 + |Decimal(n)| + 2 + n + 2)
  {
    var digits := Decimal(n);
    var d := |digits|;
    assert forall i :: at + 1 <= i < at + 1 + d ==> mem[i] == digits[i - at - 1];
    assert forall i :: at + 1 <= i < at + 1 + d ==> IsDigit(mem[i]);
    FindAt(mem, at, at + 1 + d, CR);
    ValueIsDigits(mem, at + 1, at + 1 + d, 0);
    DigitsOfDecimal(n);
  }

  lemma Middle(a: bytes, b: bytes, c: bytes)
    ensures (a + b + c)[|a|..|a| + |b|] == b
  {
  }

  /** A bulk string anywhere in memory is taken apart as it was put together. */
  lemma NextInBulk(pre: bytes, s: bytes, post: bytes)
    requires post != []
    ensures var mem, d := pre + Encode(Str(s)) + post, |Decimal(|s|)|;
            && NextOf(mem, |pre|) == Arg(|pre| + 1 + d + 2, |s|, |pre| + |Encode(Str(s))|)
            && mem[|pre| + 1 + d + 2..|pre| + 1 + d + 2 + |s|] == s
  {
    var digits := Decimal(|s|);
    BulkParts(pre, digits, s, post);
    var mem := pre + Encode(Str(s)) + post;
    var a, b := pre + [DOLLAR], CRLF + (s + CRLF + post);
    Middle(a, digits, b);
    assert (a + digits + b)[|a| + |digits|] == b[0] == CR;
    assert (a + digits + b)[|pre|] == DOLLAR;
    LengthLine(mem, |pre|, |s|);
    Middle(pre + [DOLLAR] + digits + CRLF, s, CRLF + post);
  }

  /** Two ways to see a bulk string in memory: around its length, and around its bytes. */
  lemma BulkParts(pre: bytes, digits: bytes, s: bytes, post: bytes)
    ensures pre + ([DOLLAR] + digits + CRLF + s + CRLF) + post == (pre + [DOLLAR]) + digits + (CRLF + (s + CRLF + post))
    ensures pre + ([DOLLAR] + digits + CRLF + s + CRLF) + post == (pre + [DOLLAR] + digits + CRLF) + s + (CRLF + post)
  {
    var d := [DOLLAR];
    Assoc(pre, d + digits + CRLF + s, CRLF);
    Assoc(pre, d + digits + CRLF, s);
    Assoc(pre, d + digits, CRLF);
    Assoc(pre, d, digits);
    var c := pre + d + digits;
    Assoc(c + CRLF + s, CRLF, post);
    Assoc(c, CRLF, s);
    Assoc(c, CRLF + s, CRLF + post);
    Assoc(CRLF, s, CRLF + post);
    Assoc(s, CRLF, post);
  }

  /** One step: from the offset of argument j to that of argument j + 1, with its bytes. */
  lemma NextAt(args: seq<bytes>, j: nat)
    requires j < |args|
    ensures var mem := Memory(args);
            && Offset(args, j) < |mem|
            && var r := NextOf(mem, Offset(args, j));
               && r.Arg? && r.len == |args[j]| && r.next == Offset(args, j + 1)
               && r.str + r.len <= |mem| && mem[r.str..r.str + r.len] == args[j]
  {
    var pre, post := MemoryAt(args, j);
    NextInBulk(pre, args[j], post);
  }

  /** Behind the last argument there is none, and at the start the first one is found. */
  lemma NextAtEnds(args: seq<bytes>)
    ensures Offset(args, |args|) == |Memory(args)| - 1 && NextOf(Memory(args), Offset(args, |args|)) == End
    ensures args == [] ==> NextOf(Memory(args), 0) == End
    ensures args != [] ==> NextOf(Memory(args), 0) == NextOf(Memory(args), Offset(args, 0))
  {
    var mem, h := Memory(args), Formatter.Header(|args|);
    CommandIs(args);
    assert Bulks(args, 0) == [] && Offset(args, 0) == |h|;
    assert forall i :: 0 <= i < |h| ==> mem[i] == h[i];
    assert forall i :: 0 <= i < |h| ==> h[i] != DOLLAR && h[i] != NUL;
    if args == [] {
      FindNone(mem, 0, |h|, DOLLAR);
    } else {
      var pre, post := MemoryAt(args, 0);
      assert mem[|pre|] == Encode(Str(args[0]))[0] == DOLLAR;
      FindAt(mem, 0, |h|, DOLLAR);
    }
  }

  /** `nextArgument` at the place of argument j; a walk begins at the command's start. */
  method NextName(mem: array<byte>, p: nat, ghost args: seq<bytes>, ghost j: nat)
    returns (more: bool, name: bytes, next: nat)
    requires mem[..] == Memory(args) && j <= |args| && (p == Offset(args, j) || (p == 0 && j == 0))
    ensures more == (j < |args|)
    ensures if more then name == args[j] && next == Offset(args, j + 1) else next == p
  {
    NextAtEnds(args);
    if j < |args| {
      NextAt(args, j);
    }
    assert mem[..][mem.Length - 1] == NUL;
    var r := NextArgument(mem, p);
    if !r.Arg? {
      return false, [], p;
    }
    name := mem[r.str..r.str + r.len];
    assert name == mem[..][r.str..r.str + r.len];
    return true, name, r.next;
  }

  /** Walking over a formatted command yields exactly its arguments, in order, and then none,
      whatever bytes they contain. */
  method Walk(mem: array<byte>, ghost args: seq<bytes>) returns (found: seq<bytes>)
    requires mem[..] == Memory(args)
    ensures found == args
  {
    found := [];
    var p, more, name := 0, true, [];
    while more
      invariant |found| <= |args| && found == args[..|found|]
      invariant p == Offset(args, |found|) || (p == 0 && found == [])
      invariant !more ==> found == args
      decreases more, |args| - |found|
    {
      ghost var j := |found|;
      more, name, p := NextName(mem, p, args, j);
      if more {
        TakeOneMore(args, j);
        found := found + [name];
      }
    }
  }
}
