/** The grammar of server replies: reply trees, their encoding, and a recursive-descent parser.

    The parser here is the simple form that the stack machine of module Machine, and through it
    the imperative reader of module Reader, are proved to refine. */
module Resp {
  import opened Bytes

  /** A reply tree (`redisReply`). `Hollow(n)` is the array object the reader builds for a
      multi-bulk count n < -1: its `elements` field is n but it has no element vector. */
  datatype Reply =
    | Str(str: bytes)
    | Array(elems: seq<Reply>)
    | Integer(value: int)
    | Nil
    | Status(line: bytes)
    | Error(line: bytes)
    | Hollow(count: int)

  /** The five type bytes of the protocol. */
  datatype Kind = KError | KStatus | KInteger | KString | KArray

  /** The protocol errors the reader can raise. */
  datatype Fault = BadTypeByte(b: byte) | TooDeep

  /** Arrays may open at levels 0..7: the task stack has nine slots. */
  const MAX_LEVEL: nat := 8

  // ---------------------------------------------------------------- lines and numbers

  ghost predicate NewlineAt(s: bytes, p: int) {
    0 <= p && p + 1 < |s| && s[p] == CR && s[p + 1] == LF
  }

  /** The first position of "\r\n" at or after `from`, or -1. */
  function Newline(s: bytes, from: nat := 0): (p: int)
    ensures p == -1 || (from <= p && NewlineAt(s, p))
    ensures forall q :: from <= q && (p == -1 || q < p) ==> !NewlineAt(s, q)
    decreases |s| - from
  {
    if from + 1 >= |s| then -1
    else if s[from] == CR && s[from + 1] == LF then from
    else Newline(s, from + 1)
  }

  /** The characteristic property of the first newline. */
  lemma NewlineIs(s: bytes, p: nat)
    requires NewlineAt(s, p)
    requires forall q :: 0 <= q < p ==> !NewlineAt(s, q)
    ensures Newline(s) == p
  {
  }

  /** A newline found stays the first newline when more bytes arrive. */
  lemma NewlineMonotone(s: bytes, x: bytes)
    requires Newline(s) != -1
    ensures Newline(s + x) == Newline(s)
  {
    var p := Newline(s);
    forall q | 0 <= q < p ensures !NewlineAt(s + x, q) {
      assert !NewlineAt(s, q);
    }
    NewlineIs(s + x, p);
  }

  /** Reads digits up to the first CR or the end of the line; -1 on any other byte. */
  function Digits(line: bytes, v: nat): int {
    if line == [] || line[0] == CR then v
    else if IsDigit(line[0]) then Digits(line[1..], v * 10 + (line[0] - ZERO))
    else -1
  }

  predicate IsDigitRun(line: bytes) {
    if line == [] || line[0] == CR then true
    else IsDigit(line[0]) && IsDigitRun(line[1..])
  }

  /** `readLongLong` on a line (the bytes before "\r\n"). */
  function Number(line: bytes): int {
    if line != [] && line[0] == MINUS then
      if IsDigitRun(line[1..]) then -Digits(line[1..], 0) else -1
    else if line != [] && line[0] == PLUS then Digits(line[1..], 0)
    else Digits(line, 0)
  }

  // ---------------------------------------------------------------- one item

  /** What the bytes after a type byte amount to: not all there yet; a leaf of `size` bytes;
      the header, `size` bytes long, of an array of count > 0 elements; or an error. */
  datatype Item =
    | Incomplete
    | Leaf(reply: Reply, size: nat)
    | Header(count: nat, size: nat)
    | Overflow

  function KindOf(b: byte): Option<Kind> {
    if b == MINUS then Some(KError)
    else if b == PLUS then Some(KStatus)
    else if b == COLON then Some(KInteger)
    else if b == DOLLAR then Some(KString)
    else if b == STAR then Some(KArray)
    else None
  }

  function LineItem(k: Kind, line: bytes): Item
    requires k.KError? || k.KStatus? || k.KInteger?
  {
    var size := |line| + 2;
    if k == KInteger then Leaf(Integer(Number(line)), size)
    else if k == KStatus then Leaf(Status(line), size)
    else Leaf(Error(line), size)
  }

  function BulkItem(s: bytes, p: nat): Item
    requires p + 2 <= |s|
  {
    var len := Number(s[..p]);
    if len < 0 then Leaf(Nil, p + 2)
    else if p + 2 + len + 2 <= |s| then Leaf(Str(s[p + 2..p + 2 + len]), p + 2 + len + 2)
    else Incomplete
  }

  function MultiBulkItem(line: bytes): Item {
    var n := Number(line);
    var size := |line| + 2;
    if n == -1 then Leaf(Nil, size)
    else if n > 0 then Header(n, size)
    else if n == 0 then Leaf(Array([]), size)
    else Leaf(Hollow(n), size)
  }

  /** The item of kind k at the front of s, at nesting level `level`. */
  function ReadItem(k: Kind, level: nat, s: bytes): (item: Item)
    ensures item.Leaf? || item.Header? ==> 2 <= item.size <= |s|
    ensures item.Header? ==> item.count > 0 && level < MAX_LEVEL
  {
    if k == KArray && level >= MAX_LEVEL then Overflow
    else
      var p := Newline(s);
      if p == -1 then Incomplete
      else match k
        case KString => BulkItem(s, p)
        case KArray => MultiBulkItem(s[..p])
        case _ => LineItem(k, s[..p])
  }

  /** Once an item can be read, later bytes do not change it. */
  lemma ReadItemMonotone(k: Kind, level: nat, s: bytes, x: bytes)
    requires ReadItem(k, level, s) != Incomplete
    ensures ReadItem(k, level, s + x) == ReadItem(k, level, s)
  {
    if !(k == KArray && level >= MAX_LEVEL) {
      var p := Newline(s);
      NewlineMonotone(s, x);
      assert (s + x)[..p] == s[..p];
      if k == KString && Number(s[..p]) >= 0 {
        var len := Number(s[..p]);
        assert (s + x)[p + 2..p + 2 + len] == s[p + 2..p + 2 + len];
      }
    }
  }

  // ---------------------------------------------------------------- recursive descent

  datatype Parsed = Done(reply: Reply, rest: bytes) | NeedMore | Failed(fault: Fault)

  /** Parses one reply at nesting level `level`. */
  function Parse(s: bytes, level: nat): (r: Parsed)
    ensures r.Done? ==> |r.rest| < |s|
    decreases |s|, 0
  {
    if s == [] then NeedMore
    else match KindOf(s[0])
      case None => Failed(BadTypeByte(s[0]))
      case Some(k) =>
        match ReadItem(k, level, s[1..])
        case Incomplete => NeedMore
        case Overflow => Failed(TooDeep)
        case Leaf(reply, size) => Done(reply, s[1..][size..])
        case Header(count, size) => ParseElements(count, [], s[1..][size..], level + 1)
  }

  /** Parses the remaining elements of an array of `count` elements, `acc` being read already. */
  function ParseElements(count: nat, acc: seq<Reply>, s: bytes, level: nat): (r: Parsed)
    ensures r.Done? ==> |r.rest| <= |s|
    decreases |s|, 1
  {
    if |acc| >= count then Done(Array(acc), s)
    else match Parse(s, level)
      case Done(reply, rest) => ParseElements(count, acc + [reply], rest, level)
      case r => r
  }

  // ---------------------------------------------------------------- encoding

  /** The encoding of a reply tree by the protocol. */
  function Encode(t: Reply): bytes {
    match t
    case Str(s) => [DOLLAR] + Decimal(|s|) + CRLF + s + CRLF
    case Array(elems) => [STAR] + Decimal(|elems|) + CRLF + EncodeAll(elems)
    case Integer(i) => [COLON] + SignedDecimal(i) + CRLF
    case Nil => [DOLLAR] + SignedDecimal(-1) + CRLF
    case Status(s) => [PLUS] + s + CRLF
    case Error(s) => [MINUS] + s + CRLF
    case Hollow(n) => [STAR] + SignedDecimal(n) + CRLF
  }

  function EncodeAll(ts: seq<Reply>): bytes {
    if ts == [] then [] else Encode(ts[0]) + EncodeAll(ts[1..])
  }

  /** No line of the tree contains "\r\n", hollow counts are below -1, and every array sits at
      a level below 8: exactly the trees that survive the wire. */
  predicate Readable(t: Reply, level: nat) {
    match t
    case Status(s) => Newline(s) == -1
    case Error(s) => Newline(s) == -1
    case Array(elems) => level < MAX_LEVEL && forall e :: e in elems ==> Readable(e, level + 1)
    case Hollow(n) => n < -1 && level < MAX_LEVEL
    case _ => true
  }
}
