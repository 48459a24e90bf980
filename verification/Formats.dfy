/** What a format string of `redisFormatCommand` stands for: words of pieces, with spaces between
    them, and the values that its conversions take. */
module Formats {
  import opened Bytes

  const PERCENT: byte := 37
  const SPACE: byte := 32
  const LOWER_S: byte := 115
  const LOWER_B: byte := 98

  /** A piece of an argument: a character of the format; "%%"; a C string for `%s`, with whatever its
      memory holds from its NUL on; bytes for `%b`; or a lone '%' at the end of the format. */
  datatype Piece = Literal(b: byte) | Percent | Text(s: bytes, beyond: Option<bytes>) | Binary(s: bytes) | Lone

  /** How the piece is written in the format. */
  function Written(p: Piece): bytes {
    match p
    case Literal(b) => [b]
    case Percent => [PERCENT, PERCENT]
    case Text(_, _) => [PERCENT, LOWER_S]
    case Binary(_) => [PERCENT, LOWER_B]
    case Lone => [PERCENT]
  }

  /** The values that it takes. */
  function Taken(p: Piece): seq<bytes> {
    match p
    case Text(s, beyond) => [if beyond.Some? then s + [NUL] + beyond.value else s]
    case Binary(s) => [s]
    case _ => []
  }

  /** The bytes that it adds to its argument. */
  function Meant(p: Piece): bytes {
    match p
    case Literal(b) => [b]
    case Text(s, _) => s
    case Binary(s) => s
    case _ => [PERCENT]
  }

  predicate IsPiece(p: Piece) {
    && (p.Literal? ==> p.b != PERCENT && p.b != SPACE)
    && (p.Text? ==> NUL !in p.s)
  }

  function AllWritten(ps: seq<Piece>): bytes {
    if ps == [] then [] else Written(ps[0]) + AllWritten(ps[1..])
  }

  function AllTaken(ps: seq<Piece>): seq<bytes> {
    if ps == [] then [] else Taken(ps[0]) + AllTaken(ps[1..])
  }

  function AllMeant(ps: seq<Piece>): bytes {
    if ps == [] then [] else Meant(ps[0]) + AllMeant(ps[1..])
  }

  /** Pieces of one argument; only at the end of the format may a lone '%' be the last. */
  predicate ArePieces(ps: seq<Piece>, atEnd: bool) {
    ps == [] || (IsPiece(ps[0]) && (ps[0].Lone? ==> atEnd && |ps| == 1) && ArePieces(ps[1..], atEnd))
  }

  /** An argument, and how many spaces come after it. */
  datatype Word = Word(pieces: seq<Piece>, spaces: nat)

  function Spaces(n: nat): bytes {
    if n == 0 then [] else [SPACE] + Spaces(n - 1)
  }

  function Layout(words: seq<Word>): bytes {
    if words == [] then [] else AllWritten(words[0].pieces) + (Spaces(words[0].spaces) + Layout(words[1..]))
  }

  function Values(words: seq<Word>): seq<bytes> {
    if words == [] then [] else AllTaken(words[0].pieces) + Values(words[1..])
  }

  function Arguments(words: seq<Word>): seq<bytes> {
    if words == [] then [] else [AllMeant(words[0].pieces)] + Arguments(words[1..])
  }

  /** No word is without pieces, and only the last may be without spaces after it. */
  predicate AreWords(words: seq<Word>) {
    words == []
    || (var w := words[0];
        && w.pieces != [] && ArePieces(w.pieces, |words| == 1 && w.spaces == 0)
        && (|words| > 1 ==> w.spaces > 0) && AreWords(words[1..]))
  }

  /** The format, with its values in front of any that it leaves alone, is these words, with `lead`
      spaces in front of them. */
  ghost predicate Reads(fmt: bytes, ap: seq<bytes>, lead: nat, words: seq<Word>) {
    AreWords(words) && fmt == Spaces(lead) + Layout(words) && Values(words) <= ap
  }

  /** The format stands for the arguments. */
  ghost predicate Stands(fmt: bytes, ap: seq<bytes>, args: seq<bytes>) {
    exists lead, words :: Reads(fmt, ap, lead, words) && args == Arguments(words)
  }
}
