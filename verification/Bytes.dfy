/** Bytes, C characters and decimal numerals, shared by the protocol modules. */
module Bytes {

  /** An unsigned char. */
  type byte = x: int | 0 <= x < 256

  type bytes = seq<byte>

  const NUL: byte := 0
  const LF: byte := 10
  const CR: byte := 13
  const DOLLAR: byte := 36
  const STAR: byte := 42
  const PLUS: byte := 43
  const MINUS: byte := 45
  const ZERO: byte := 48
  const COLON: byte := 58

  const CRLF: bytes := [CR, LF]

  datatype Option<+T> = None | Some(value: T)

  predicate IsDigit(b: byte) {
    ZERO <= b < ZERO + 10
  }

  /** `isspace` in the C locale. */
  predicate IsSpace(b: byte) {
    b == 32 || 9 <= b <= 13
  }

  /** What `%d`/`%zu` prints for a non-negative number. */
  function Decimal(n: nat): (s: bytes)
    ensures |s| >= 1
    ensures forall i :: 0 <= i < |s| ==> IsDigit(s[i])
  {
    if n < 10 then [ZERO + n] else Decimal(n / 10) + [ZERO + n % 10]
  }

  /** What `%d` prints. */
  function SignedDecimal(i: int): bytes {
    if i < 0 then [MINUS] + Decimal(-i) else Decimal(i)
  }

  lemma Assoc<T>(x: seq<T>, y: seq<T>, z: seq<T>)
    ensures (x + y) + z == x + (y + z)
  {
  }

  lemma NothingBefore<T>(x: seq<T>)
    ensures [] + x == x
  {
  }

  lemma NothingAfter<T>(x: seq<T>)
    ensures x + [] == x
  {
  }

  lemma ConsParts<T>(x: T, y: seq<T>)
    ensures ([x] + y)[0] == x && ([x] + y)[1..] == y
  {
  }

  lemma TakeOneMore<T>(s: seq<T>, j: nat)
    requires j < |s|
    ensures s[..j + 1] == s[..j] + [s[j]]
  {
  }

  lemma SliceOfSlice<T>(s: seq<T>, lo: nat, hi: nat, i: nat, j: nat)
    requires lo <= hi <= |s| && i <= j <= hi - lo
    ensures s[lo..hi][i..j] == s[lo + i..lo + j]
  {
    var a, b := s[lo..hi][i..j], s[lo + i..lo + j];
    assert forall k :: 0 <= k < j - i ==> a[k] == b[k];
  }
}
