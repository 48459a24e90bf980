/** Encoding and recursive descent are inverse to each other exactly on the readable trees. */
module RespRoundTrip {
  import opened Bytes
  import opened Resp

  // ---------------------------------------------------------------- numerals

  lemma {:induction false} DigitsSnoc(a: bytes, d: byte, v: nat)
    requires forall i :: 0 <= i < |a| ==> IsDigit(a[i])
    requires IsDigit(d)
    ensures Digits(a, v) >= 0
    ensures Digits(a + [d], v) == Digits(a, v) * 10 + (d - ZERO)
  {
    if a == [] {
      assert (a + [d])[1..] == [];
    } else {
      assert (a + [d])[1..] == a[1..] + [d];
      DigitsSnoc(a[1..], d, v * 10 + (a[0] - ZERO));
    }
  }

  lemma {:induction false} DigitsOfDecimal(n: nat)
    ensures Digits(Decimal(n), 0) == n
  {
    if n < 10 {
      assert [ZERO + n][1..] == [];
    } else {
      DigitsOfDecimal(n / 10);
      DigitsSnoc(Decimal(n / 10), ZERO + n % 10, 0);
    }
  }

  lemma AllDigitsRun(a: bytes)
    requires forall i :: 0 <= i < |a| ==> IsDigit(a[i])
    ensures IsDigitRun(a)
  {
  }

  /** `readLongLong` inverts `%d`. */
  lemma NumberOfSignedDecimal(i: int)
    ensures Number(SignedDecimal(i)) == i
  {
    if i < 0 {
      assert SignedDecimal(i)[1..] == Decimal(-i);
      AllDigitsRun(Decimal(-i));
      DigitsOfDecimal(-i);
    } else {
      assert IsDigit(Decimal(i)[0]);
      DigitsOfDecimal(i);
    }
  }

  predicate AllDigits(a: bytes) {
    forall i :: 0 <= i < |a| ==> IsDigit(a[i])
  }

  /** Digits are read in base ten, after either sign or none, and no digit counts as 0. */
  lemma NumberOfDigits(a: bytes, d: byte)
    requires AllDigits(a) && IsDigit(d)
    ensures Number([]) == 0 && Number(a + [d]) == 10 * Number(a) + (d - '0' as int)
    ensures Number([PLUS] + a) == Number(a) && Number([MINUS] + a) == -Number(a)
  {
    DigitsSnoc(a, d, 0);
    AllDigitsRun(a);
    ConsParts(PLUS, a);
    ConsParts(MINUS, a);
    assert a == [] ==> a + [d] == [d];
  }

  /** A plus sign is allowed. */
  lemma NumberPlus(n: nat)
    ensures Number([PLUS] + Decimal(n)) == n && Number([PLUS] + Decimal(n)) == Number(Decimal(n))
  {
    NumberOfDigits(Decimal(n), ZERO);
    DigitsOfDecimal(n);
  }

  predicate IsSign(b: byte) {
    b == '+' as int || b == '-' as int
  }

  /** At the first byte, behind the sign, that is no digit the number ends if it is a CR; if it is
      any other, the result is -1, as for the number -1. */
  lemma NumberStops(line: bytes, i: nat)
    requires i < |line| && !IsDigit(line[i]) && (i == 0 ==> !IsSign(line[0]))
    requires forall j :: 0 <= j < i ==> IsDigit(line[j]) || (j == 0 && IsSign(line[0]))
    ensures Number(line) == if line[i] == CR then Number(line[..i]) else -1
  {
    if i > 0 && IsSign(line[0]) {
      assert line[..i][1..] == line[1..][..i - 1];
      DigitsStop(line[1..], i - 1, 0);
    } else {
      DigitsStop(line, i, 0);
    }
  }

  lemma {:induction false} DigitsStop(a: bytes, i: nat, v: nat)
    requires i < |a| && !IsDigit(a[i]) && forall j :: 0 <= j < i ==> IsDigit(a[j])
    ensures Digits(a, v) == if a[i] == CR then Digits(a[..i], v) else -1
    ensures IsDigitRun(a) <==> a[i] == CR
    ensures IsDigitRun(a[..i])
    decreases i
  {
    if i > 0 {
      assert a[..i][0] == a[0] && a[..i][1..] == a[1..][..i - 1];
      DigitsStop(a[1..], i - 1, v * 10 + (a[0] - ZERO));
    }
  }

  /** A line ends at its terminator exactly when it has no "\r\n" of its own. */
  lemma LineEnd(line: bytes, rest: bytes)
    ensures Newline(line) == -1 ==> Newline(line + CRLF + rest) == |line|
    ensures Newline(line) != -1 ==> Newline(line + CRLF + rest) == Newline(line) < |line|
  {
    var s := line + CRLF + rest;
    if Newline(line) == -1 {
      forall q | 0 <= q < |line| ensures !NewlineAt(s, q) {
        assert !NewlineAt(line, q);
      }
      NewlineIs(s, |line|);
    } else {
      NewlineMonotone(line, CRLF + rest);
      assert s == line + (CRLF + rest);
    }
  }

  lemma NumeralLine(i: int, rest: bytes)
    ensures Newline(SignedDecimal(i) + CRLF + rest) == |SignedDecimal(i)|
  {
    var d := SignedDecimal(i);
    assert forall i :: 0 <= i < |d| ==> d[i] == MINUS || IsDigit(d[i]);
    LineEnd(d, rest);
  }

  // ---------------------------------------------------------------- leaves

  lemma ParseLine(k: Kind, b: byte, line: bytes, rest: bytes, level: nat)
    requires KindOf(b) == Some(k) && (k == KError || k == KStatus)
    ensures Newline(line) == -1 ==>
              Parse([b] + line + CRLF + rest, level) == Done(if k == KStatus then Status(line) else Error(line), rest)
    ensures Newline(line) != -1 ==>
              var p := Parse([b] + line + CRLF + rest, level);
              p.Done? && p.reply != Status(line) && p.reply != Error(line)
  {
    var s := [b] + line + CRLF + rest;
    assert s[1..] == line + CRLF + rest;
    LineEnd(line, rest);
    assert s[1..][..|line|] == line;
    assert s[1..][|line| + 2..] == rest;
  }

  lemma ParseNumeral(b: byte, i: int, rest: bytes, level: nat)
    requires b == COLON || (b == DOLLAR && i < 0) || (b == STAR && i <= 0)
    ensures var p := Parse([b] + SignedDecimal(i) + CRLF + rest, level);
            if b == COLON then p == Done(Integer(i), rest)
            else if b == DOLLAR then p == Done(Nil, rest)
            else if level >= MAX_LEVEL then p == Failed(TooDeep)
            else p == Done(if i == -1 then Nil else if i == 0 then Array([]) else Hollow(i), rest)
  {
    var d := SignedDecimal(i);
    var s := [b] + d + CRLF + rest;
    assert s[1..] == d + CRLF + rest;
    NumeralLine(i, rest);
    NumberOfSignedDecimal(i);
    assert s[1..][..|d|] == d;
    assert s[1..][|d| + 2..] == rest;
  }

  lemma ParseBulk(str: bytes, rest: bytes, level: nat)
    ensures Parse(Encode(Str(str)) + rest, level) == Done(Str(str), rest)
  {
    var d := SignedDecimal(|str|);
    var tail := str + CRLF + rest;
    var s := Encode(Str(str)) + rest;
    assert s[1..] == d + CRLF + tail;
    NumeralLine(|str|, tail);
    NumberOfSignedDecimal(|str|);
    assert s[1..][..|d|] == d;
    assert s[1..][|d| + 2..|d| + 2 + |str|] == str;
    assert s[1..][|d| + 2 + |str| + 2..] == rest;
  }

  /** An array header of n > 0 leads to the parsing of n elements. */
  lemma ParseHeader(n: nat, rest: bytes, level: nat)
    requires n > 0
    ensures Parse([STAR] + Decimal(n) + CRLF + rest, level) ==
            if level >= MAX_LEVEL then Failed(TooDeep) else ParseElements(n, [], rest, level + 1)
  {
    var d := SignedDecimal(n);
    var s := [STAR] + d + CRLF + rest;
    assert s[1..] == d + CRLF + rest;
    NumeralLine(n, rest);
    NumberOfSignedDecimal(n);
    assert s[1..][..|d|] == d;
    assert s[1..][|d| + 2..] == rest;
  }

  lemma ArrayBytes(elems: seq<Reply>, rest: bytes)
    ensures Encode(Array(elems)) + rest == [STAR] + Decimal(|elems|) + CRLF + (EncodeAll(elems) + rest)
    ensures elems == [] ==> EncodeAll(elems) + rest == rest
  {
    Assoc([STAR] + Decimal(|elems|) + CRLF, EncodeAll(elems), rest);
    NothingBefore(rest);
  }

  /** What an array's encoding is parsed to. */
  lemma ParseArray(elems: seq<Reply>, rest: bytes, level: nat)
    ensures Parse(Encode(Array(elems)) + rest, level) ==
            if level >= MAX_LEVEL then Failed(TooDeep)
            else if elems == [] then Done(Array([]), rest)
            else ParseElements(|elems|, [], EncodeAll(elems) + rest, level + 1)
  {
    ArrayBytes(elems, rest);
    if elems == [] {
      ParseNumeral(STAR, 0, rest, level);
    } else {
      ParseHeader(|elems|, EncodeAll(elems) + rest, level);
    }
  }

  /** A reply begins with one of five characters; any other is an error, and named in it. */
  lemma BadTypeByteExact(b: byte, rest: bytes, level: nat)
    ensures Parse([b] + rest, level) == Failed(BadTypeByte(b)) <==>
            b !in {'-' as int, '+' as int, ':' as int, '$' as int, '*' as int}
  {
    ConsParts(b, rest);
    if KindOf(b).Some? {
      NotThatError([b] + rest, level, b);
    }
  }

  lemma NotThatError(s: bytes, level: nat, b: byte)
    requires KindOf(b).Some?
    ensures Parse(s, level) != Failed(BadTypeByte(b))
    decreases |s|, 0
  {
    if s != [] && KindOf(s[0]).Some? {
      var item := ReadItem(KindOf(s[0]).value, level, s[1..]);
      if item.Header? {
        NotThatErrorBelow(item.count, [], s[1..][item.size..], level + 1, b);
      }
    }
  }

  lemma NotThatErrorBelow(count: nat, acc: seq<Reply>, s: bytes, level: nat, b: byte)
    requires KindOf(b).Some?
    ensures ParseElements(count, acc, s, level) != Failed(BadTypeByte(b))
    decreases |s|, 1
  {
    if |acc| < count {
      NotThatError(s, level, b);
      var p := Parse(s, level);
      if p.Done? {
        NotThatErrorBelow(count, acc + [p.reply], p.rest, level, b);
      }
    }
  }

  // ---------------------------------------------------------------- trees

  /** Readable trees come back unchanged, and exactly their bytes are consumed. */
  lemma {:induction false} RoundTrip(t: Reply, rest: bytes, level: nat)
    requires Readable(t, level)
    ensures Parse(Encode(t) + rest, level) == Done(t, rest)
    decreases t, 1
  {
    match t
    case Str(s) => ParseBulk(s, rest, level);
    case Integer(i) => ParseNumeral(COLON, i, rest, level);
    case Nil => ParseNumeral(DOLLAR, -1, rest, level);
    case Status(s) => ParseLine(KStatus, PLUS, s, rest, level);
    case Error(s) => ParseLine(KError, MINUS, s, rest, level);
    case Hollow(n) => ParseNumeral(STAR, n, rest, level);
    case Array(elems) =>
      ParseArray(elems, rest, level);
      if elems != [] {
        RoundTripElements(t, elems, [], elems, rest, level + 1);
      }
  }

  lemma {:induction false} RoundTripElements(t: Reply, elems: seq<Reply>, acc: seq<Reply>, todo: seq<Reply>,
                                             rest: bytes, level: nat)
    requires t == Array(elems) && elems == acc + todo
    requires forall e :: e in elems ==> Readable(e, level)
    ensures ParseElements(|elems|, acc, EncodeAll(todo) + rest, level) == Done(t, rest)
    decreases t, 0, |todo|
  {
    if todo == [] {
      assert EncodeAll(todo) + rest == rest;
    } else {
      var e := todo[0];
      assert e == elems[|acc|];
      assert EncodeAll(todo) + rest == Encode(e) + (EncodeAll(todo[1..]) + rest);
      RoundTrip(e, EncodeAll(todo[1..]) + rest, level);
      assert acc + todo == (acc + [e]) + todo[1..];
      RoundTripElements(t, elems, acc + [e], todo[1..], rest, level);
    }
  }

  /** An unreadable tree never comes back: whatever the parser makes of its encoding, it is not
      that tree. */
  lemma {:induction false} NoRoundTrip(t: Reply, rest: bytes, level: nat)
    requires !Readable(t, level)
    ensures var p := Parse(Encode(t) + rest, level); p.Done? ==> p.reply != t
    decreases t, 1
  {
    match t
    case Status(s) => NoRoundTripLine(KStatus, PLUS, s, rest, level);
    case Error(s) => NoRoundTripLine(KError, MINUS, s, rest, level);
    case Hollow(n) => NoRoundTripHollow(n, rest, level);
    case Array(elems) => NoRoundTripArray(t, elems, rest, level);
  }

  lemma {:induction false} NoRoundTripArray(t: Reply, elems: seq<Reply>, rest: bytes, level: nat)
    requires t == Array(elems) && !Readable(t, level)
    ensures var p := Parse(Encode(t) + rest, level); p.Done? ==> p.reply != t
    decreases t, 0, |elems| + 1
  {
    ParseArray(elems, rest, level);
    if level < MAX_LEVEL {
      SomeUnreadable(elems, level);
      NothingBefore(elems);
      NoRoundTripElements(t, elems, [], elems, rest, level + 1);
    }
  }

  lemma SomeUnreadable(elems: seq<Reply>, level: nat)
    requires level < MAX_LEVEL && !Readable(Array(elems), level)
    ensures elems != [] && exists e :: e in elems && !Readable(e, level + 1)
  {
  }

  lemma NoRoundTripLine(k: Kind, b: byte, line: bytes, rest: bytes, level: nat)
    requires KindOf(b) == Some(k) && (k == KError || k == KStatus) && Newline(line) != -1
    ensures var p := Parse([b] + line + CRLF + rest, level);
            p.Done? ==> p.reply != Status(line) && p.reply != Error(line)
  {
    ParseLine(k, b, line, rest, level);
  }

  lemma NoRoundTripHollow(n: int, rest: bytes, level: nat)
    requires !Readable(Hollow(n), level)
    ensures var p := Parse(Encode(Hollow(n)) + rest, level); p.Done? ==> p.reply != Hollow(n)
  {
    if n > 0 {
      ParseHeader(n, rest, level);
      ElementsArray(n, [], rest, level + 1);
    } else {
      ParseNumeral(STAR, n, rest, level);
    }
  }

  lemma {:induction false} NoRoundTripElements(t: Reply, elems: seq<Reply>, acc: seq<Reply>, todo: seq<Reply>,
                                               rest: bytes, level: nat)
    requires t == Array(elems) && elems == acc + todo
    requires exists e :: e in todo && !Readable(e, level)
    ensures var p := ParseElements(|elems|, acc, EncodeAll(todo) + rest, level); p.Done? ==> p.reply != t
    decreases t, 0, |todo|
  {
    var e := todo[0];
    assert e == elems[|acc|];
    var more := EncodeAll(todo[1..]) + rest;
    assert EncodeAll(todo) + rest == Encode(e) + more;
    if Readable(e, level) {
      RoundTrip(e, more, level);
      assert acc + todo == (acc + [e]) + todo[1..];
      NoRoundTripElements(t, elems, acc + [e], todo[1..], rest, level);
    } else {
      NoRoundTrip(e, more, level);
      var p := Parse(EncodeAll(todo) + rest, level);
      if p.Done? {
        ElementsArray(|elems|, acc + [p.reply], p.rest, level);
      }
    }
  }

  /** Parsing elements yields an array that starts with the elements already read. */
  lemma {:induction false} ElementsArray(count: nat, acc: seq<Reply>, s: bytes, level: nat)
    ensures var p := ParseElements(count, acc, s, level);
            p.Done? ==>
              && p.reply.Array? && acc <= p.reply.elems
              && (|acc| <= count ==> |p.reply.elems| == count)
    decreases |s|
  {
    if |acc| < count {
      var p := Parse(s, level);
      if p.Done? {
        ElementsArray(count, acc + [p.reply], p.rest, level);
      }
    }
  }

  /** The wire format is faithful to a tree if and only if the tree is readable. */
  lemma RoundTripIff(t: Reply, rest: bytes, level: nat)
    ensures Parse(Encode(t) + rest, level) == Done(t, rest) <==> Readable(t, level)
  {
    if Readable(t, level) {
      RoundTrip(t, rest, level);
    } else {
      NoRoundTrip(t, rest, level);
    }
  }

  // ---------------------------------------------------------------- the wire, character by character

  /** The bytes are the characters. */
  predicate Spell(s: bytes, text: string) {
    |s| == |text| && forall i :: 0 <= i < |s| ==> s[i] == text[i] as int
  }

  lemma SpellAll(s: bytes, text: string, s': bytes, text': string)
    requires Spell(s, text) && Spell(s', text')
    ensures Spell(s + s', text + text')
  {
  }

  lemma WireNumber()
    ensures Spell(Encode(Integer(-1290)), ":-1290\r\n")
  {
    assert Decimal(12) == [49, 50] && Decimal(129) == [49, 50, 57];
  }

  lemma WireBulks()
    ensures Spell(Encode(Str([71, 69, 84])), "$3\r\nGET\r\n") && Spell(Encode(Str([107])), "$1\r\nk\r\n")
    ensures Spell(Encode(Nil), "$-1\r\n")
  {
    assert Decimal(3) == [51] && Decimal(1) == [49];
  }

  /** The characters of the protocol. */
  lemma Wire()
    ensures Spell(Encode(Array([Str([71, 69, 84]), Str([107])])), "*2\r\n" + ("$3\r\nGET\r\n" + "$1\r\nk\r\n"))
    ensures Spell(Encode(Integer(-1290)), ":-1290\r\n") && Spell(Encode(Nil), "$-1\r\n")
    ensures Spell(Encode(Status([79, 75])), "+OK\r\n") && Spell(Encode(Error([69, 82, 82])), "-ERR\r\n")
  {
    var get, k := Str([71, 69, 84]), Str([107]);
    WireBulks();
    WireNumber();
    assert Decimal(2) == [50] && [get, k][1..] == [k] && [k][1..] == [];
    NothingAfter(Encode(k));
    assert EncodeAll([k]) == Encode(k) + EncodeAll([]) == Encode(k);
    assert EncodeAll([get, k]) == Encode(get) + EncodeAll([k]);
    SpellAll(Encode(get), "$3\r\nGET\r\n", Encode(k), "$1\r\nk\r\n");
    SpellAll([STAR, 50, CR, LF], "*2\r\n", EncodeAll([get, k]), "$3\r\nGET\r\n" + "$1\r\nk\r\n");
    assert [STAR] + Decimal(2) + CRLF == [STAR, 50, CR, LF];
  }

  /** Arrays of one element, n deep. */
  function Nested(n: nat): Reply {
    if n == 0 then Nil else Array([Nested(n - 1)])
  }

  /** Eight levels of arrays are read, and no more. */
  lemma {:induction false} NestedExact(n: nat, level: nat)
    ensures Readable(Nested(n), level) <==> n == 0 || level + n <= 8
  {
    if n > 0 {
      NestedExact(n - 1, level + 1);
      assert Nested(n - 1) in [Nested(n - 1)];
    }
  }
}
