/** The lines that `sdssplitargs` accepts, as a grammar: words, quoted at their end or not, with
    blanks between them. */
module Lines {
  import opened Bytes
  import opened Repr

  /** A byte between quotes: one that stands for itself, or one behind a backslash. */
  datatype Quotable = Plain(b: byte) | Escaped(b: byte)

  /** A word: bytes outside quotes, and behind them perhaps a quoted part, which ends the word. */
  datatype Word = Word(bare: bytes, quote: Option<seq<Quotable>>)

  predicate IsQuotable(c: Quotable) {
    c.b != NUL && (c.Plain? ==> c.b != QUOTE && c.b != BACKSLASH)
  }

  function Written(c: Quotable): bytes {
    if c.Plain? then [c.b] else [BACKSLASH, c.b]
  }

  function Meant(c: Quotable): byte {
    if c.Plain? then c.b else Unescaped(c.b)
  }

  predicate AreQuotable(cs: seq<Quotable>) {
    cs == [] || (IsQuotable(cs[0]) && AreQuotable(cs[1..]))
  }

  function AllWritten(cs: seq<Quotable>): bytes {
    if cs == [] then [] else Written(cs[0]) + AllWritten(cs[1..])
  }

  function AllMeant(cs: seq<Quotable>): bytes {
    if cs == [] then [] else [Meant(cs[0])] + AllMeant(cs[1..])
  }

  /** The blanks that end a word outside quotes. */
  predicate IsBlank(b: byte) {
    b == SPACE || b == LF || b == CR || b == TAB
  }

  predicate IsBare(b: byte) {
    b != NUL && b != QUOTE && !IsBlank(b)
  }

  predicate AreBare(s: bytes) {
    s == [] || (IsBare(s[0]) && AreBare(s[1..]))
  }

  /** The part of a word behind its bare bytes. */
  function QuoteWritten(quote: Option<seq<Quotable>>): bytes {
    if quote.None? then [] else [QUOTE] + (AllWritten(quote.value) + [QUOTE])
  }

  function WordWritten(w: Word): bytes {
    w.bare + QuoteWritten(w.quote)
  }

  function WordMeant(w: Word): bytes {
    w.bare + if w.quote.None? then [] else AllMeant(w.quote.value)
  }

  predicate IsWord(w: Word) {
    && AreBare(w.bare) && (w.quote.Some? ==> AreQuotable(w.quote.value))
    && (w.bare != [] || w.quote.Some?)
  }

  /** The byte may follow the word. */
  predicate Ends(w: Word, b: byte) {
    b == NUL || (if w.quote.Some? then IsSpace(b) else IsBlank(b))
  }

  /** The bytes x are in memory at p, and not at its end. */
  ghost predicate Has(mem: bytes, p: nat, x: bytes) {
    p + |x| < |mem| && mem[p..p + |x|] == x
  }

  /** The memory from p to its NUL consists of these words, with blanks around them. */
  ghost predicate Consists(mem: bytes, p: nat, words: seq<Word>)
    decreases |mem| - p
  {
    && p < |mem|
    && if mem[p] == NUL then words == []
       else if IsSpace(mem[p]) then Consists(mem, p + 1, words)
       else
         && words != [] && IsWord(words[0]) && WordWritten(words[0]) != []
         && var q := p + |WordWritten(words[0])|;
            Has(mem, p, WordWritten(words[0])) && Ends(words[0], mem[q]) && Consists(mem, q, words[1..])
  }

  function Arguments(words: seq<Word>): seq<bytes> {
    if words == [] then [] else [WordMeant(words[0])] + Arguments(words[1..])
  }

  // ---------------------------------------------------------------- such lines are accepted

  lemma HasPart(mem: bytes, p: nat, x: bytes, y: bytes)
    requires Has(mem, p, x + y)
    ensures Has(mem, p, x) && Has(mem, p + |x|, y)
  {
    SliceOfSlice(mem, p, p + |x + y|, 0, |x|);
    SliceOfSlice(mem, p, p + |x + y|, |x|, |x + y|);
    assert (x + y)[0..|x|] == x && (x + y)[|x|..|x + y|] == y;
  }

  lemma HasFirst(mem: bytes, p: nat, b: byte, x: bytes)
    requires Has(mem, p, [b] + x)
    ensures p + 1 < |mem| && mem[p] == b && Has(mem, p + 1, x)
  {
    HasPart(mem, p, [b], x);
    assert mem[p] == mem[p..p + 1][0];
  }

  lemma HasOne(mem: bytes, p: nat, b: byte)
    requires p + 1 < |mem| && mem[p] == b
    ensures Has(mem, p, [b])
  {
  }

  lemma HasTwo(mem: bytes, p: nat, b: byte, c: byte)
    requires p + 2 < |mem| && mem[p] == b && mem[p + 1] == c
    ensures Has(mem, p, [b, c])
  {
  }

  lemma HasJoin(mem: bytes, p: nat, x: bytes, y: bytes)
    requires Has(mem, p, x) && Has(mem, p + |x|, y)
    ensures Has(mem, p, x + y)
  {
    assert mem[p..p + |x + y|] == mem[p..p + |x|] + mem[p + |x|..p + |x| + |y|];
  }

  lemma ScanQuotable(mem: bytes, p: nat, c: Quotable, current: bytes)
    requires Terminated(mem) && IsQuotable(c) && Has(mem, p, Written(c))
    ensures Scan(mem, p, true, current) == Scan(mem, p + |Written(c)|, true, current + [Meant(c)])
  {
    var x := mem[p..p + |Written(c)|];
    assert mem[p] == x[0] && (c.Escaped? ==> mem[p + 1] == x[1]);
  }

  lemma {:induction false} ScanQuote(mem: bytes, p: nat, cs: seq<Quotable>, current: bytes)
    requires Terminated(mem) && AreQuotable(cs) && Has(mem, p, AllWritten(cs))
    ensures Scan(mem, p, true, current) == Scan(mem, p + |AllWritten(cs)|, true, current + AllMeant(cs))
    decreases |cs|
  {
    if cs == [] {
      NothingAfter(current);
    } else {
      var c, e := cs[0], p + |Written(cs[0])|;
      HasPart(mem, p, Written(c), AllWritten(cs[1..]));
      ScanQuotable(mem, p, c, current);
      ScanQuote(mem, e, cs[1..], current + [Meant(c)]);
      ScanQuoteOn(mem, p, e, cs, current);
    }
  }

  lemma ScanQuoteOn(mem: bytes, p: nat, e: nat, cs: seq<Quotable>, current: bytes)
    requires Terminated(mem) && cs != [] && e == p + |Written(cs[0])| && e + |AllWritten(cs[1..])| < |mem|
    requires Scan(mem, p, true, current) == Scan(mem, e, true, current + [Meant(cs[0])])
    requires Scan(mem, e, true, current + [Meant(cs[0])]) ==
             Scan(mem, e + |AllWritten(cs[1..])|, true, (current + [Meant(cs[0])]) + AllMeant(cs[1..]))
    ensures p + |AllWritten(cs)| == e + |AllWritten(cs[1..])|
    ensures Scan(mem, p, true, current) == Scan(mem, p + |AllWritten(cs)|, true, current + AllMeant(cs))
  {
    Assoc(current, [Meant(cs[0])], AllMeant(cs[1..]));
  }

  lemma {:induction false} ScanBare(mem: bytes, p: nat, s: bytes, current: bytes)
    requires Terminated(mem) && AreBare(s) && Has(mem, p, s)
    ensures Scan(mem, p, false, current) == Scan(mem, p + |s|, false, current + s)
    decreases |s|
  {
    if s == [] {
      NothingAfter(current);
    } else {
      assert s == [s[0]] + s[1..];
      HasFirst(mem, p, s[0], s[1..]);
      ScanBare(mem, p + 1, s[1..], current + [s[0]]);
      Assoc(current, [s[0]], s[1..]);
    }
  }

  /** A word is scanned to what it means; a blank behind an unquoted word goes with it. */
  lemma ScanWord(mem: bytes, p: nat, w: Word)
    requires Terminated(mem) && IsWord(w) && Has(mem, p, WordWritten(w))
    requires Ends(w, mem[p + |WordWritten(w)|])
    ensures var q := p + |WordWritten(w)|;
            Scan(mem, p, false, []) == Done(WordMeant(w), if w.quote.None? && mem[q] != NUL then q + 1 else q)
  {
    HasPart(mem, p, w.bare, QuoteWritten(w.quote));
    if w.quote.Some? {
      ScanQuotedWord(mem, p, w.bare, w.quote.value);
    } else {
      NothingAfter(w.bare);
      ScanBareWord(mem, p, w.bare);
    }
  }

  lemma ScanBareWord(mem: bytes, p: nat, s: bytes)
    requires Terminated(mem) && AreBare(s) && Has(mem, p, s)
    requires var b := mem[p + |s|]; b == NUL || IsBlank(b)
    ensures var q := p + |s|; Scan(mem, p, false, []) == Done(s, if mem[q] != NUL then q + 1 else q)
  {
    ScanBare(mem, p, s, []);
    NothingBefore(s);
    BareEnds(mem, p + |s|, s);
  }

  lemma ScanQuotedWord(mem: bytes, p: nat, s: bytes, cs: seq<Quotable>)
    requires Terminated(mem) && AreBare(s) && AreQuotable(cs)
    requires Has(mem, p, s) && Has(mem, p + |s|, QuoteWritten(Some(cs)))
    requires var b := mem[p + |s| + |QuoteWritten(Some(cs))|]; b == NUL || IsSpace(b)
    ensures Scan(mem, p, false, []) == Done(s + AllMeant(cs), p + |s| + |QuoteWritten(Some(cs))|)
  {
    ScanBare(mem, p, s, []);
    NothingBefore(s);
    ScanQuoted(mem, p + |s|, cs, s);
  }

  lemma BareEnds(mem: bytes, p: nat, current: bytes)
    requires Terminated(mem) && p < |mem| && (mem[p] == NUL || IsBlank(mem[p]))
    ensures Scan(mem, p, false, current) == Done(current, if mem[p] != NUL then p + 1 else p)
  {
  }

  lemma QuoteOpens(mem: bytes, p: nat, current: bytes)
    requires Terminated(mem) && p + 1 < |mem| && mem[p] == QUOTE
    ensures Scan(mem, p, false, current) == Scan(mem, p + 1, true, current)
  {
  }

  lemma ScanQuoted(mem: bytes, p: nat, cs: seq<Quotable>, current: bytes)
    requires Terminated(mem) && AreQuotable(cs) == true && Has(mem, p, QuoteWritten(Some(cs))) == true
    requires var b := mem[p + |QuoteWritten(Some(cs))|]; b == NUL || IsSpace(b)
    ensures Scan(mem, p, false, current) == Done(current + AllMeant(cs), p + |QuoteWritten(Some(cs))|)
  {
    QuoteParts(mem, p, AllWritten(cs), QuoteWritten(Some(cs)));
    ScanBetween(mem, p, p + 1 + |AllWritten(cs)|, cs, current);
  }

  lemma ScanBetween(mem: bytes, p: nat, z: nat, cs: seq<Quotable>, current: bytes)
    requires Terminated(mem) && AreQuotable(cs) == true && z == p + 1 + |AllWritten(cs)| && z + 1 < |mem|
    requires mem[p] == QUOTE && mem[z] == QUOTE && Has(mem, p + 1, AllWritten(cs)) == true
    requires mem[z + 1] == NUL || IsSpace(mem[z + 1])
    ensures Scan(mem, p, false, current) == Done(current + AllMeant(cs), z + 1)
  {
    QuoteOpens(mem, p, current);
    ScanQuote(mem, p + 1, cs, current);
    ScanCloses(mem, z, current + AllMeant(cs));
  }

  lemma QuoteParts(mem: bytes, p: nat, x: bytes, y: bytes)
    requires y == [QUOTE] + (x + [QUOTE]) && Has(mem, p, y)
    ensures |y| == |x| + 2 && p + |y| < |mem| && mem[p] == QUOTE && mem[p + |x| + 1] == QUOTE
    ensures Has(mem, p + 1, x)
  {
    HasFirst(mem, p, QUOTE, x + [QUOTE]);
    HasPart(mem, p + 1, x, [QUOTE]);
    assert mem[p + 1 + |x|] == mem[p + 1 + |x|..p + 2 + |x|][0];
  }

  lemma ArgsSpace(mem: bytes, p: nat)
    requires Terminated(mem) && p < |mem| && IsSpace(mem[p])
    ensures p + 1 < |mem| && Args(mem, p) == Args(mem, p + 1)
  {
    assert SkipBlanks(mem, p) == SkipBlanks(mem, p + 1);
  }

  lemma {:induction false} ArgsOfWords(mem: bytes, p: nat, words: seq<Word>)
    requires Terminated(mem) && Consists(mem, p, words)
    ensures Args(mem, p) == Some(Arguments(words))
    decreases |mem| - p
  {
    if mem[p] == NUL {
      ArgsEnd(mem, p);
    } else if IsSpace(mem[p]) {
      ArgsSpace(mem, p);
      ArgsOfWords(mem, p + 1, words);
    } else {
      var w, q := words[0], p + |WordWritten(words[0])|;
      ScanWord(mem, p, w);
      if w.quote.None? && mem[q] != NUL {
        ArgsSpace(mem, q);
      }
      ArgsOfWords(mem, q, words[1..]);
      assert SkipBlanks(mem, p) == p;
    }
  }

  // ---------------------------------------------------------------- and no others

  /** The scan between quotes goes over cs and the closing quote. */
  ghost predicate QuoteScansAs(mem: bytes, p: nat, current: bytes, cs: seq<Quotable>)
    requires Terminated(mem) && p < |mem|
  {
    var q := p + |AllWritten(cs)| + 1;
    && AreQuotable(cs) && Has(mem, p, AllWritten(cs) + [QUOTE]) && (mem[q] == NUL || IsSpace(mem[q]))
    && Scan(mem, p, true, current) == Done(current + AllMeant(cs), q)
  }

  lemma {:induction false} ReadQuote(mem: bytes, p: nat, current: bytes) returns (cs: seq<Quotable>)
    requires Terminated(mem) && p < |mem| && Scan(mem, p, true, current).Done?
    ensures QuoteScansAs(mem, p, current, cs) == true
    decreases |mem| - p
  {
    var b := mem[p];
    if b == QUOTE {
      cs := [];
      HasOne(mem, p, QUOTE);
      NothingBefore([QUOTE]);
      NothingAfter(current);
    } else {
      BackslashAtEnd(mem, p, current);
      var c := if b == BACKSLASH then Escaped(mem[p + 1]) else Plain(b);
      if c.Escaped? { HasTwo(mem, p, b, mem[p + 1]); } else { HasOne(mem, p, b); }
      var more := ReadQuote(mem, p + |Written(c)|, current + [Meant(c)]);
      cs := [c] + more;
      QuotableFound(mem, p, current, c, more);
    }
  }

  lemma QuotableFound(mem: bytes, p: nat, current: bytes, c: Quotable, more: seq<Quotable>)
    requires Terminated(mem) && p + |Written(c)| < |mem| && IsQuotable(c) && Has(mem, p, Written(c))
    requires Scan(mem, p, true, current) == Scan(mem, p + |Written(c)|, true, current + [Meant(c)])
    requires QuoteScansAs(mem, p + |Written(c)|, current + [Meant(c)], more)
    ensures QuoteScansAs(mem, p, current, [c] + more)
  {
    ConsParts(c, more);
    HasJoin(mem, p, Written(c), AllWritten(more) + [QUOTE]);
    Assoc(Written(c), AllWritten(more), [QUOTE]);
    Assoc(current, [Meant(c)], AllMeant(more));
  }

  /** A backslash right before the NUL is no end of a quoted part. */
  lemma BackslashAtEnd(mem: bytes, p: nat, current: bytes)
    requires Terminated(mem) && p + 1 < |mem| && Scan(mem, p, true, current).Done?
    ensures !(mem[p] == BACKSLASH && mem[p + 1] == NUL)
  {
  }

  /** The scan from p, with `current` there already, goes over the word w, which ends at q. */
  ghost predicate ScansAs(mem: bytes, p: nat, current: bytes, w: Word, q: nat)
    requires Terminated(mem) && p < |mem|
  {
    && AreBare(w.bare) && (w.quote.Some? ==> AreQuotable(w.quote.value))
    && Has(mem, p, WordWritten(w)) && q == p + |WordWritten(w)| && Ends(w, mem[q])
    && Scan(mem, p, false, current) == Done(current + WordMeant(w), if w.quote.None? && mem[q] != NUL then q + 1 else q)
  }

  lemma {:induction false} ReadBare(mem: bytes, p: nat, current: bytes) returns (w: Word, q: nat)
    requires Terminated(mem) && p < |mem| && Scan(mem, p, false, current).Done?
    ensures ScansAs(mem, p, current, w, q) == true
    decreases |mem| - p
  {
    var b := mem[p];
    if IsBlank(b) || b == NUL {
      w, q := Word([], None), p;
      NothingAfter(current);
    } else if b == QUOTE {
      var cs := ReadQuote(mem, p + 1, current);
      w := Word([], Some(cs));
      q := p + |WordWritten(w)|;
      QuoteFound(mem, p, current, cs);
    } else {
      var more;
      more, q := ReadBare(mem, p + 1, current + [b]);
      w := Word([b] + more.bare, more.quote);
      BareFound(mem, p, current, more, q);
    }
  }

  lemma QuoteFound(mem: bytes, p: nat, current: bytes, cs: seq<Quotable>)
    requires Terminated(mem) && p + 1 < |mem| && mem[p] == QUOTE && AreQuotable(cs)
    requires Has(mem, p + 1, AllWritten(cs) + [QUOTE])
    requires var q := p + |AllWritten(cs)| + 2;
             (mem[q] == NUL || IsSpace(mem[q])) && Scan(mem, p + 1, true, current) == Done(current + AllMeant(cs), q)
    ensures ScansAs(mem, p, current, Word([], Some(cs)), p + |WordWritten(Word([], Some(cs)))|)
  {
    HasJoin(mem, p, [QUOTE], AllWritten(cs) + [QUOTE]);
    NothingBefore(QuoteWritten(Some(cs)));
    NothingBefore(AllMeant(cs));
  }

  lemma BareFound(mem: bytes, p: nat, current: bytes, w: Word, q: nat)
    requires Terminated(mem) && p + 1 < |mem| && IsBare(mem[p]) && ScansAs(mem, p + 1, current + [mem[p]], w, q)
    ensures ScansAs(mem, p, current, Word([mem[p]] + w.bare, w.quote), q)
  {
    var b := mem[p];
    ConsParts(b, w.bare);
    HasJoin(mem, p, [b], WordWritten(w));
    Assoc([b], w.bare, QuoteWritten(w.quote));
    Assoc([b], w.bare, if w.quote.None? then [] else AllMeant(w.quote.value));
    Assoc(current, [b], WordMeant(w));
  }

  lemma {:induction false} ReadWords(mem: bytes, p: nat) returns (words: seq<Word>)
    requires Terminated(mem) && p < |mem| && Args(mem, p).Some?
    ensures Consists(mem, p, words)
    decreases |mem| - p
  {
    if mem[p] == NUL {
      words := [];
    } else if IsSpace(mem[p]) {
      ArgsSpace(mem, p);
      words := ReadWords(mem, p + 1);
    } else {
      assert SkipBlanks(mem, p) == p;
      var w, q := ReadBare(mem, p, []);
      if w.quote.None? && mem[q] != NUL {
        ArgsSpace(mem, q);
      }
      assert q > p;
      var more := ReadWords(mem, q);
      words := [w] + more;
      ConsParts(w, more);
    }
  }

  /** A line is split into exactly the arguments that its words mean, and is refused exactly if it
      does not consist of words. */
  lemma ArgsExact(mem: bytes, p: nat, args: seq<bytes>)
    requires Terminated(mem) && p < |mem|
    ensures Args(mem, p) == Some(args) <==> exists words :: Consists(mem, p, words) && args == Arguments(words)
    ensures Args(mem, p) == None <==> forall words :: !Consists(mem, p, words)
  {
    if Args(mem, p).Some? {
      var words := ReadWords(mem, p);
      ArgsOfWords(mem, p, words);
    }
    forall words | Consists(mem, p, words) ensures Args(mem, p) == Some(Arguments(words)) {
      ArgsOfWords(mem, p, words);
    }
  }
}
