/** Quoting a string (`sdscatrepr`) and splitting a line into arguments (`sdssplitargs`). */
module Repr {
  import opened Bytes
  import opened Strings

  const BEL: byte := 7
  const BS: byte := 8
  const TAB: byte := 9
  const SPACE: byte := 32
  const QUOTE: byte := 34
  const BACKSLASH: byte := 92
  const LETTER_A: byte := 97
  const LETTER_B: byte := 98
  const LETTER_N: byte := 110
  const LETTER_R: byte := 114
  const LETTER_T: byte := 116
  const LETTER_X: byte := 120

  /** `isprint` in the C locale. */
  predicate IsPrint(b: byte) {
    32 <= b <= 126
  }

  function HexDigit(n: nat): byte
    requires n < 16
  {
    if n < 10 then ZERO + n else LETTER_A + (n - 10)
  }

  // ---------------------------------------------------------------- quoting

  /** How a byte is written inside quotes. */
  function Quoted(b: byte): bytes {
    if b == BACKSLASH || b == QUOTE then [BACKSLASH, b]
    else if b == LF then [BACKSLASH, LETTER_N]
    else if b == CR then [BACKSLASH, LETTER_R]
    else if b == TAB then [BACKSLASH, LETTER_T]
    else if b == BEL then [BACKSLASH, LETTER_A]
    else if b == BS then [BACKSLASH, LETTER_B]
    else if IsPrint(b) then [b]
    else [BACKSLASH, LETTER_X, HexDigit(b / 16), HexDigit(b % 16)]
  }

  function Body(s: bytes): bytes {
    if s == [] then [] else Quoted(s[0]) + Body(s[1..])
  }

  function Repr(s: bytes): bytes {
    [QUOTE] + Body(s) + [QUOTE]
  }

  function HexValue(c: byte): int {
    if '0' as int <= c <= '9' as int then c - '0' as int
    else if 'a' as int <= c <= 'f' as int then c - 'a' as int + 10
    else -1
  }

  /** A printable byte is written as it is, behind a backslash if it is a quote or a backslash; LF, CR,
      TAB, BEL and BS are written with their letters, and every other byte in two digits of base 16. */
  lemma QuotedExact(b: byte)
    ensures var q := Quoted(b);
            if b == '"' as int || b == '\\' as int then q == ['\\' as int, b]
            else if 32 <= b <= 126 then q == [b]
            else
              && |q| >= 2 && q[0] == '\\' as int
              && (b == 10 ==> q[1..] == ['n' as int]) && (b == 13 ==> q[1..] == ['r' as int])
              && (b == 9 ==> q[1..] == ['t' as int]) && (b == 7 ==> q[1..] == ['a' as int])
              && (b == 8 ==> q[1..] == ['b' as int])
              && (b !in {7, 8, 9, 10, 13} ==>
                    |q| == 4 && q[1] == 'x' as int && b == 16 * HexValue(q[2]) + HexValue(q[3]))
  {
  }

  lemma QuotedDiffers(a: byte, b: byte, x: bytes, y: bytes)
    requires Quoted(a) + x == Quoted(b) + y
    ensures a == b && x == y
  {
    var p, q := Quoted(a), Quoted(b);
    QuotedExact(a);
    QuotedExact(b);
    assert (p + x)[0] == p[0] && (q + y)[0] == q[0];
    assert |p| > 1 && |q| > 1 ==> (p + x)[1] == p[1] && (q + y)[1] == q[1];
    if |p| == 4 && |q| == 4 {
      assert (p + x)[2] == p[2] && (q + y)[2] == q[2] && (p + x)[3] == p[3] && (q + y)[3] == q[3];
    }
    assert (p + x)[|p|..] == x && (q + y)[|q|..] == y;
  }

  /** Different strings are quoted differently, whatever follows. */
  lemma {:induction false} ReprDiffers(s: bytes, t: bytes, x: bytes, y: bytes)
    requires Body(s) + ([QUOTE] + x) == Body(t) + ([QUOTE] + y)
    ensures s == t && x == y
    decreases |s|
  {
    NothingBefore([QUOTE] + x);
    NothingBefore([QUOTE] + y);
    if s == [] && t == [] {
      ConsParts(QUOTE, x);
      ConsParts(QUOTE, y);
    } else if s == [] {
      Assoc(Quoted(t[0]), Body(t[1..]), [QUOTE] + y);
      QuotedStart(t[0], Body(t[1..]) + ([QUOTE] + y));
    } else if t == [] {
      Assoc(Quoted(s[0]), Body(s[1..]), [QUOTE] + x);
      QuotedStart(s[0], Body(s[1..]) + ([QUOTE] + x));
    } else {
      Assoc(Quoted(s[0]), Body(s[1..]), [QUOTE] + x);
      Assoc(Quoted(t[0]), Body(t[1..]), [QUOTE] + y);
      QuotedDiffers(s[0], t[0], Body(s[1..]) + ([QUOTE] + x), Body(t[1..]) + ([QUOTE] + y));
      ReprDiffers(s[1..], t[1..], x, y);
      assert s == [s[0]] + s[1..] && t == [t[0]] + t[1..];
    }
  }

  lemma QuotedStart(b: byte, x: bytes)
    ensures (Quoted(b) + x)[0] != QUOTE
  {
  }

  lemma {:induction false} BodySnoc(s: bytes, b: byte)
    ensures Body(s + [b]) == Body(s) + Quoted(b)
    decreases |s|
  {
    if s == [] {
      assert ([] + [b])[1..] == [];
    } else {
      assert (s + [b])[1..] == s[1..] + [b];
      BodySnoc(s[1..], b);
    }
  }

  /** The loop of `sdscatrepr`. */
  method CatBody(s: Sds, p: bytes)
    requires s.Valid()
    modifies s, s.buf
    ensures s.Valid() && s.Contents() == old(s.Contents()) + Body(p)
    ensures s.buf == old(s.buf) || fresh(s.buf)
  {
    ghost var before := s.Contents();
    var i := 0;
    assert p[..0] == [] && before + [] == before;
    while i < |p|
      invariant 0 <= i <= |p| && s.Valid() && (s.buf == old(s.buf) || fresh(s.buf))
      invariant s.Contents() == before + Body(p[..i])
    {
      BodySnoc(p[..i], p[i]);
      assert p[..i + 1] == p[..i] + [p[i]];
      Assoc(before, Body(p[..i]), Quoted(p[i]));
      s.CatLen(Quoted(p[i]));
      i := i + 1;
    }
    assert p[..i] == p;
  }

  lemma ReprParts(x: bytes, p: bytes)
    ensures x + [QUOTE] + Body(p) + [QUOTE] == x + Repr(p)
  {
    Assoc(x, [QUOTE], Body(p));
    Assoc(x, [QUOTE] + Body(p), [QUOTE]);
  }

  /** `sdscatrepr`. */
  method CatRepr(s: Sds, p: bytes)
    requires s.Valid()
    modifies s, s.buf
    ensures s.Valid() && s.Contents() == old(s.Contents()) + Repr(p)
    ensures s.buf == old(s.buf) || fresh(s.buf)
  {
    s.CatLen([QUOTE]);
    CatBody(s, p);
    s.CatLen([QUOTE]);
    ReprParts(old(s.Contents()), p);
  }

  // ---------------------------------------------------------------- splitting a line

  /** A line in memory ends with a NUL; no read goes past it. */
  predicate Terminated(mem: bytes) {
    mem != [] && mem[|mem| - 1] == NUL
  }

  function SkipBlanks(mem: bytes, p: nat): (q: nat)
    requires Terminated(mem) && p < |mem|
    ensures p <= q < |mem| && (mem[q] == NUL || !IsSpace(mem[q]))
    decreases |mem| - p
  {
    if mem[p] != NUL && IsSpace(mem[p]) then SkipBlanks(mem, p + 1) else p
  }

  /** What an escaped byte stands for. */
  function Unescaped(b: byte): byte {
    if b == LETTER_N then LF
    else if b == LETTER_R then CR
    else if b == LETTER_T then TAB
    else if b == LETTER_B then BS
    else if b == LETTER_A then BEL
    else b
  }

  datatype Token = Fault | Done(token: bytes, next: nat)

  /** A token from position p on, of which `current` is already there. */
  function Scan(mem: bytes, p: nat, inq: bool, current: bytes): (r: Token)
    requires Terminated(mem) && p < |mem|
    ensures r.Done? ==> p <= r.next < |mem| && (mem[p] != NUL ==> p < r.next)
    decreases |mem| - p
  {
    var c := mem[p];
    if inq then
      if c == BACKSLASH && mem[p + 1] != NUL then Scan(mem, p + 2, true, current + [Unescaped(mem[p + 1])])
      else if c == QUOTE then (if mem[p + 1] != NUL && !IsSpace(mem[p + 1]) then Fault else Done(current, p + 1))
      else if c == NUL then Fault
      else Scan(mem, p + 1, true, current + [c])
    else if c == SPACE || c == LF || c == CR || c == TAB then Done(current, p + 1)
    else if c == NUL then Done(current, p)
    else if c == QUOTE then Scan(mem, p + 1, true, current)
    else Scan(mem, p + 1, false, current + [c])
  }

  /** All arguments from position p on; none on a quoting error. */
  function Args(mem: bytes, p: nat): Option<seq<bytes>>
    requires Terminated(mem) && p < |mem|
    decreases |mem| - p
  {
    var q := SkipBlanks(mem, p);
    if mem[q] == NUL then Some([])
    else
      match Scan(mem, q, false, [])
      case Fault => None
      case Done(token, next) => After([token], Args(mem, next))
  }

  function After(vector: seq<bytes>, rest: Option<seq<bytes>>): Option<seq<bytes>> {
    match rest
    case None => None
    case Some(more) => Some(vector + more)
  }

  lemma AfterNothing(rest: Option<seq<bytes>>)
    ensures After([], rest) == rest
  {
    assert rest.Some? ==> [] + rest.value == rest.value;
  }

  lemma AfterMore(vector: seq<bytes>, token: bytes, rest: Option<seq<bytes>>)
    ensures After(vector, After([token], rest)) == After(vector + [token], rest)
  {
    assert rest.Some? ==> vector + ([token] + rest.value) == vector + [token] + rest.value;
  }

  // ---------------------------------------------------------------- splitting in place

  /** The inner loop of `sdssplitargs`. */
  method GetToken(mem: array<byte>, start: nat) returns (r: Token)
    requires Terminated(mem[..]) && start < mem.Length
    ensures r == Scan(mem[..], start, false, [])
  {
    var p, inq, done := start, false, false;
    var current := new Sds([]);
    ghost var all := Scan(mem[..], start, false, []);
    while !done
      invariant start <= p < mem.Length && current.Valid() && fresh(current) && fresh(current.buf)
      invariant !done ==> Scan(mem[..], p, inq, current.Contents()) == all
      invariant done ==> Done(current.Contents(), p) == all
      decreases !done, mem.Length - p
    {
      if inq {
        if mem[p] == BACKSLASH && mem[p + 1] != NUL {
          p := p + 1;
          current.CatLen([Unescaped(mem[p])]);
        } else if mem[p] == QUOTE {
          if mem[p + 1] != NUL && !IsSpace(mem[p + 1]) {
            return Fault;
          }
          done := true;
        } else if mem[p] == NUL {
          return Fault;
        } else {
          current.CatLen([mem[p]]);
        }
      } else {
        if mem[p] == SPACE || mem[p] == LF || mem[p] == CR || mem[p] == TAB || mem[p] == NUL {
          done := true;
        } else if mem[p] == QUOTE {
          inq := true;
        } else {
          current.CatLen([mem[p]]);
        }
      }
      if mem[p] != NUL {
        p := p + 1;
      }
    }
    return Done(current.buf[..current.len], p);
  }

  /** `sdssplitargs`: the vector is NULL both on an error and without arguments; argc tells the two
      apart, as it counts down to -1 on an error. */
  method SplitArgs(mem: array<byte>) returns (vector: Option<seq<bytes>>, argc: int)
    requires Terminated(mem[..])
    ensures match Args(mem[..], 0)
            case None => vector == None && argc == -1
            case Some(args) => argc == |args| && vector == if args == [] then None else Some(args)
  {
    var p, found: seq<bytes> := 0, [];
    AfterNothing(Args(mem[..], 0));
    while true
      invariant 0 <= p < mem.Length
      invariant Args(mem[..], 0) == After(found, Args(mem[..], p))
      decreases mem.Length - p
    {
      ghost var p0 := p;
      while mem[p] != NUL && IsSpace(mem[p])
        invariant p0 <= p < mem.Length && SkipBlanks(mem[..], p) == SkipBlanks(mem[..], p0)
        decreases mem.Length - p
      {
        p := p + 1;
      }
      if mem[p] == NUL {
        NothingAfter(found);
        return if found == [] then None else Some(found), |found|;
      }
      var t := GetToken(mem, p);
      if t.Fault? {
        return None, -1;
      }
      AfterMore(found, t.token, Args(mem[..], t.next));
      found := found + [t.token];
      p := t.next;
    }
  }

  // ---------------------------------------------------------------- what the pair does to strings

  /** What is read back for a byte: itself, or the letters of its code if it has no other form. */
  function ReadBack(b: byte): bytes {
    if IsPrint(b) || b in {LF, CR, TAB, BEL, BS} then [b]
    else [LETTER_X, HexDigit(b / 16), HexDigit(b % 16)]
  }

  function AllReadBack(s: bytes): bytes {
    if s == [] then [] else ReadBack(s[0]) + AllReadBack(s[1..])
  }

  /** Printable characters and the five escapes only. */
  predicate Clean(s: bytes) {
    forall i :: 0 <= i < |s| ==> IsPrint(s[i]) || s[i] in {LF, CR, TAB, BEL, BS}
  }

  lemma {:induction false} ReadBackExact(s: bytes)
    ensures |AllReadBack(s)| >= |s|
    ensures |AllReadBack(s)| == |s| <==> Clean(s)
    ensures AllReadBack(s) == s <==> Clean(s)
    decreases |s|
  {
    if s != [] {
      ReadBackExact(s[1..]);
      assert Clean(s) <==> Clean(s[..1]) && Clean(s[1..]) by {
        assert forall i :: 1 <= i < |s| ==> s[i] == s[1..][i - 1];
        assert forall i :: 0 <= i < |s[1..]| ==> s[1..][i] == s[i + 1];
      }
      assert s == [s[0]] + s[1..];
    }
  }

  /** A line of quoted strings with a space between any two, and its NUL. */
  function Line(strings: seq<bytes>): bytes {
    if strings == [] then [NUL]
    else if |strings| == 1 then Repr(strings[0]) + [NUL]
    else Repr(strings[0]) + [SPACE] + Line(strings[1..])
  }

  lemma {:induction false} LineTerminated(strings: seq<bytes>)
    ensures Terminated(Line(strings))
    decreases |strings|
  {
    if |strings| > 1 {
      LineTerminated(strings[1..]);
    }
  }

  /** The bytes x are in memory at p, and not at its end. */
  ghost predicate Reads(mem: bytes, p: nat, x: bytes) {
    p + |x| < |mem| && forall i {:trigger x[i]} :: 0 <= i < |x| ==> mem[p + i] == x[i]
  }

  lemma ReadsPart(mem: bytes, p: nat, x: bytes, y: bytes)
    requires Reads(mem, p, x + y)
    ensures Reads(mem, p, x) && Reads(mem, p + |x|, y)
  {
    forall i | 0 <= i < |x| ensures mem[p + i] == x[i] {
      assert (x + y)[i] == x[i];
    }
    forall i | 0 <= i < |y| ensures mem[p + |x| + i] == y[i] {
      assert (x + y)[|x| + i] == y[i];
    }
  }

  lemma ReadsAt(mem: bytes, p: nat, x: bytes, i: nat)
    requires Reads(mem, p, x) && i < |x|
    ensures mem[p + i] == x[i]
  {
  }

  /** One quoted byte is scanned to what is read back for it. */
  lemma ScanByte(mem: bytes, p: nat, b: byte, current: bytes)
    requires Terminated(mem) && Reads(mem, p, Quoted(b))
    ensures Scan(mem, p, true, current) == Scan(mem, p + |Quoted(b)|, true, current + ReadBack(b))
  {
    var q := Quoted(b);
    ReadsAt(mem, p, q, 0);
    if |q| == 4 {
      ReadsAt(mem, p, q, 1);
      ReadsAt(mem, p, q, 2);
      ReadsAt(mem, p, q, 3);
      HexPlain(b / 16);
      HexPlain(b % 16);
      ScanPlain(mem, p + 2, current + [LETTER_X]);
      ScanPlain(mem, p + 3, current + [LETTER_X] + [q[2]]);
      assert current + [LETTER_X] + [q[2]] + [q[3]] == current + ReadBack(b);
    } else if |q| == 2 {
      ReadsAt(mem, p, q, 1);
    }
  }

  lemma ScanPlain(mem: bytes, p: nat, current: bytes)
    requires Terminated(mem) && p < |mem| && mem[p] != NUL && mem[p] != QUOTE && mem[p] != BACKSLASH
    ensures Scan(mem, p, true, current) == Scan(mem, p + 1, true, current + [mem[p]])
  {
  }

  lemma HexPlain(n: nat)
    requires n < 16
    ensures HexDigit(n) != NUL && HexDigit(n) != QUOTE && HexDigit(n) != BACKSLASH
  {
  }

  lemma {:induction false} ScanBody(mem: bytes, p: nat, s: bytes, current: bytes)
    requires Terminated(mem) && Reads(mem, p, Body(s))
    ensures Scan(mem, p, true, current) == Scan(mem, p + |Body(s)|, true, current + AllReadBack(s))
    decreases |s|
  {
    if s == [] {
      NothingAfter(current);
    } else {
      var q, e := Quoted(s[0]), p + |Quoted(s[0])|;
      ReadsPart(mem, p, q, Body(s[1..]));
      ScanByte(mem, p, s[0], current);
      ScanBody(mem, e, s[1..], current + ReadBack(s[0]));
      ScanOn(mem, p, e, s, current);
    }
  }

  lemma ScanOn(mem: bytes, p: nat, e: nat, s: bytes, current: bytes)
    requires Terminated(mem) && s != [] && e == p + |Quoted(s[0])| && e + |Body(s[1..])| < |mem|
    requires Scan(mem, p, true, current) == Scan(mem, e, true, current + ReadBack(s[0]))
    requires Scan(mem, e, true, current + ReadBack(s[0])) ==
             Scan(mem, e + |Body(s[1..])|, true, (current + ReadBack(s[0])) + AllReadBack(s[1..]))
    ensures p + |Body(s)| == e + |Body(s[1..])|
    ensures Scan(mem, p, true, current) == Scan(mem, p + |Body(s)|, true, current + AllReadBack(s))
  {
    Assoc(current, ReadBack(s[0]), AllReadBack(s[1..]));
  }

  lemma ScanOpens(mem: bytes, p: nat)
    requires Terminated(mem) && p + 1 < |mem| && mem[p] == QUOTE
    ensures Scan(mem, p, false, []) == Scan(mem, p + 1, true, [])
  {
  }

  lemma ScanCloses(mem: bytes, p: nat, current: bytes)
    requires Terminated(mem) && p + 1 < |mem| && mem[p] == QUOTE && (mem[p + 1] == NUL || IsSpace(mem[p + 1]))
    ensures Scan(mem, p, true, current) == Done(current, p + 1)
  {
  }

  /** A quoted string followed by a blank or the end is one token. */
  lemma ScanRepr(mem: bytes, p: nat, s: bytes)
    requires Terminated(mem) && Reads(mem, p, Repr(s))
    requires mem[p + |Repr(s)|] == NUL || IsSpace(mem[p + |Repr(s)|])
    ensures Scan(mem, p, false, []) == Done(AllReadBack(s), p + |Repr(s)|) && mem[p] == QUOTE
  {
    var end := p + 1 + |Body(s)|;
    QuotesAround(mem, p, s);
    ScanOpens(mem, p);
    ScanBody(mem, p + 1, s, []);
    NothingBefore(AllReadBack(s));
    ScanCloses(mem, end, AllReadBack(s));
  }

  lemma QuotesAround(mem: bytes, p: nat, s: bytes)
    requires Reads(mem, p, Repr(s))
    ensures |Repr(s)| == |Body(s)| + 2 && p + |Body(s)| + 2 < |mem|
    ensures mem[p] == QUOTE && mem[p + 1 + |Body(s)|] == QUOTE && Reads(mem, p + 1, Body(s)) == true
  {
    ReadsAt(mem, p, Repr(s), 0);
    ReadsAt(mem, p, Repr(s), 1 + |Body(s)|);
    ReadsBody(mem, p, s);
  }

  lemma ReadsBody(mem: bytes, p: nat, s: bytes)
    requires Reads(mem, p, Repr(s))
    ensures Reads(mem, p + 1, Body(s))
  {
    Assoc([QUOTE], Body(s), [QUOTE]);
    ReadsPart(mem, p, [QUOTE], Body(s) + [QUOTE]);
    ReadsPart(mem, p + 1, Body(s), [QUOTE]);
  }

  function MapReadBack(strings: seq<bytes>): seq<bytes> {
    if strings == [] then [] else [AllReadBack(strings[0])] + MapReadBack(strings[1..])
  }

  /** What follows the first quoted string on a line. */
  function Following(strings: seq<bytes>): bytes {
    if |strings| <= 1 then [NUL] else [SPACE] + Line(strings[1..])
  }

  /** The line of a list of strings is in memory from p to the end. */
  ghost predicate Holds(mem: bytes, p: nat, strings: seq<bytes>) {
    && p + |Line(strings)| == |mem|
    && forall i {:trigger Line(strings)[i]} :: 0 <= i < |Line(strings)| ==> mem[p + i] == Line(strings)[i]
  }

  lemma HoldsFirst(mem: bytes, p: nat, strings: seq<bytes>)
    requires Holds(mem, p, strings) && strings != []
    ensures Reads(mem, p, Repr(strings[0]))
    ensures |strings| > 1 ==>
              mem[p + |Repr(strings[0])|] == SPACE && Holds(mem, p + |Repr(strings[0])| + 1, strings[1..])
    ensures |strings| == 1 ==> mem[p + |Repr(strings[0])|] == NUL
  {
    var line, x, y := Line(strings), Repr(strings[0]), Following(strings);
    Assoc(x, [SPACE], Line(strings[1..]));
    assert line == x + y;
    forall i | 0 <= i < |x| ensures mem[p + i] == x[i] {
      assert Line(strings)[i] == x[i];
    }
    assert Line(strings)[|x|] == y[0];
    if |strings| > 1 {
      var rest := Line(strings[1..]);
      forall i | 0 <= i < |rest| ensures mem[p + |x| + 1 + i] == rest[i] {
        assert Line(strings)[|x| + 1 + i] == y[1 + i] == rest[i];
      }
    }
  }

  /** The same, string by string. */
  ghost predicate Laid(mem: bytes, p: nat, strings: seq<bytes>)
    decreases |strings|
  {
    p < |mem|
    && if strings == [] then mem[p] == NUL
       else
         var q := p + |Repr(strings[0])|;
         && Reads(mem, p, Repr(strings[0]))
         && if |strings| == 1 then mem[q] == NUL else mem[q] == SPACE && Laid(mem, q + 1, strings[1..])
  }

  lemma {:induction false} LineLaid(mem: bytes, p: nat, strings: seq<bytes>)
    requires Holds(mem, p, strings)
    ensures Laid(mem, p, strings)
    decreases |strings|
  {
    if strings == [] {
      assert Line(strings)[0] == NUL;
    } else {
      var r := Repr(strings[0]);
      HoldsFirst(mem, p, strings);
      if |strings| > 1 {
        LineLaid(mem, p + |r| + 1, strings[1..]);
      }
      LaidFirst(mem, p, strings, r);
    }
  }

  lemma LaidFirst(mem: bytes, p: nat, strings: seq<bytes>, r: bytes)
    requires strings != [] && r == Repr(strings[0]) && Reads(mem, p, r)
    requires |strings| == 1 ==> mem[p + |r|] == NUL
    requires |strings| > 1 ==> mem[p + |r|] == SPACE && Laid(mem, p + |r| + 1, strings[1..])
    ensures Laid(mem, p, strings)
  {
  }

  /** For every list of strings, the line of their quoted forms is split into what is read back
      for each of them. */
  lemma {:induction false} ArgsOfLine(mem: bytes, p: nat, strings: seq<bytes>)
    requires Laid(mem, p, strings) && Terminated(mem)
    ensures Args(mem, p) == Some(MapReadBack(strings))
    decreases |strings|
  {
    if strings == [] {
      ArgsEnd(mem, p);
    } else {
      var q := p + |Repr(strings[0])|;
      if |strings| > 1 {
        ArgsOfLine(mem, q + 1, strings[1..]);
        ArgsBlank(mem, q);
      } else {
        ArgsEnd(mem, q);
        assert strings[1..] == [];
      }
      ArgsFirst(mem, p, strings[0], q, MapReadBack(strings[1..]));
    }
  }

  lemma ArgsEnd(mem: bytes, q: nat)
    requires Terminated(mem) && q < |mem| && mem[q] == NUL
    ensures Args(mem, q) == Some([])
  {
  }

  lemma ArgsBlank(mem: bytes, q: nat)
    requires Terminated(mem) && q + 1 < |mem| && mem[q] == SPACE
    ensures Args(mem, q) == Args(mem, q + 1)
  {
    assert SkipBlanks(mem, q) == SkipBlanks(mem, q + 1);
  }

  lemma ArgsFirst(mem: bytes, p: nat, s: bytes, q: nat, rest: seq<bytes>)
    requires Terminated(mem) && Reads(mem, p, Repr(s)) && q == p + |Repr(s)| && (mem[q] == NUL || mem[q] == SPACE)
    requires Args(mem, q) == Some(rest)
    ensures Args(mem, p) == Some([AllReadBack(s)] + rest)
  {
    ScanRepr(mem, p, s);
    ArgsStep(mem, p, AllReadBack(s), q, rest);
  }

  lemma ArgsStep(mem: bytes, p: nat, token: bytes, next: nat, rest: seq<bytes>)
    requires Terminated(mem) && p < |mem| && next < |mem| && mem[p] == QUOTE
    requires Scan(mem, p, false, []) == Done(token, next) && Args(mem, next) == Some(rest)
    ensures Args(mem, p) == Some([token] + rest)
  {
    assert SkipBlanks(mem, p) == p;
  }

  lemma {:induction false} MapReadBackAt(strings: seq<bytes>)
    ensures |MapReadBack(strings)| == |strings|
    ensures MapReadBack(strings) == strings <==> forall i :: 0 <= i < |strings| ==> Clean(strings[i])
    decreases |strings|
  {
    if strings != [] {
      MapReadBackAt(strings[1..]);
      ReadBackExact(strings[0]);
      var back, rest := MapReadBack(strings), strings[1..];
      assert back[1..] == MapReadBack(rest);
      assert strings == [strings[0]] + rest;
      assert (forall i :: 0 <= i < |strings| ==> Clean(strings[i])) ==> forall i :: 0 <= i < |rest| ==> Clean(rest[i]);
    }
  }

  /** Quoting and splitting give a list of strings back if and only if its strings consist of
      printable characters, LF, CR, TAB, BEL and BS. */
  lemma RoundTripIff(strings: seq<bytes>)
    ensures Terminated(Line(strings))
    ensures Args(Line(strings), 0) == Some(strings) <==> forall i :: 0 <= i < |strings| ==> Clean(strings[i])
  {
    LineTerminated(strings);
    LineLaid(Line(strings), 0, strings);
    ArgsOfLine(Line(strings), 0, strings);
    MapReadBackAt(strings);
  }

  /** A NUL byte is read back as the three characters x00. */
  lemma NonPrintableChanges()
    ensures Terminated(Line([[NUL]])) && Args(Line([[NUL]]), 0) == Some([[LETTER_X, ZERO, ZERO]])
  {
    LineTerminated([[NUL]]);
    LineLaid(Line([[NUL]]), 0, [[NUL]]);
    ArgsOfLine(Line([[NUL]]), 0, [[NUL]]);
    assert AllReadBack([NUL]) == ReadBack(NUL) + AllReadBack([]) == [LETTER_X, ZERO, ZERO];
    assert MapReadBack([[NUL]]) == [[LETTER_X, ZERO, ZERO]];
  }
}
