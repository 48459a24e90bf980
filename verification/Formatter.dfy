/** Command formatting (`hiredis.c`): the length of the command is computed first, then the
    buffer is filled. */
module Formatter {
  import opened Bytes
  import opened Resp
  import opened RespRoundTrip
  import opened Machine
  import opened Formats

  /** The arguments as bulk strings. */
  function Strs(args: seq<bytes>): (ts: seq<Reply>)
    ensures |ts| == |args|
    ensures forall i :: 0 <= i < |args| ==> ts[i] == Str(args[i])
  {
    seq(|args|, i requires 0 <= i < |args| => Str(args[i]))
  }

  /** The command with the given arguments, as the protocol has it. */
  function Command(args: seq<bytes>): bytes {
    Encode(Array(Strs(args)))
  }

  function Header(n: nat): bytes {
    [STAR] + Decimal(n) + CRLF
  }

  // ---------------------------------------------------------------- lengths

  /** `intlen`. */
  method IntLen(i: int) returns (len: nat)
    ensures len == |SignedDecimal(i)|
  {
    len := 0;
    var n := i;
    if n < 0 {
      len := len + 1;
      n := -n;
    }
    var more := true;
    while more
      invariant n >= 0
      invariant len + (if more then |Decimal(n)| else 0) == |SignedDecimal(i)|
      decreases more, n
    {
      len := len + 1;
      n := n / 10;
      more := n != 0;
    }
  }

  /** `bulklen`. */
  method BulkLen(len: nat) returns (n: nat)
    ensures forall s: bytes :: |s| == len ==> n == |Encode(Str(s))|
  {
    var d := IntLen(len);
    n := 1 + d + 2 + len + 2;
  }

  lemma {:induction false} EncodeAllAppend(a: seq<Reply>, b: seq<Reply>)
    ensures EncodeAll(a + b) == EncodeAll(a) + EncodeAll(b)
    decreases |a|
  {
    if a == [] {
      assert a + b == b;
    } else {
      EncodeAllAppend(a[1..], b);
      assert (a + b)[1..] == a[1..] + b;
    }
  }

  /** The bulk strings of the first j arguments. */
  function Bulks(args: seq<bytes>, j: nat): bytes
    requires j <= |args|
  {
    EncodeAll(Strs(args[..j]))
  }

  lemma BulksNext(args: seq<bytes>, j: nat)
    requires j < |args|
    ensures Bulks(args, j + 1) == Bulks(args, j) + Encode(Str(args[j]))
  {
    assert Strs(args[..j + 1]) == Strs(args[..j]) + [Str(args[j])];
    EncodeAllAppend(Strs(args[..j]), [Str(args[j])]);
    assert EncodeAll([Str(args[j])]) == Encode(Str(args[j])) + EncodeAll([]);
  }

  lemma {:induction false} BulksGrow(args: seq<bytes>, j: nat, k: nat)
    requires j <= k <= |args|
    ensures |Bulks(args, j)| <= |Bulks(args, k)|
    decreases k
  {
    if j < k {
      BulksGrow(args, j, k - 1);
      BulksNext(args, k - 1);
    }
  }

  lemma CommandIs(args: seq<bytes>)
    ensures Command(args) == Header(|args|) + Bulks(args, |args|)
  {
    assert args[..|args|] == args;
  }

  // ---------------------------------------------------------------- building

  /** `memcpy`/`sprintf` to position pos; there must be room. */
  method Write(cmd: array<byte>, pos: nat, s: bytes) returns (next: nat)
    requires pos + |s| <= cmd.Length
    modifies cmd
    ensures next == pos + |s|
    ensures cmd[..next] == old(cmd[..pos]) + s
  {
    for i := 0 to |s|
      invariant cmd[..pos + i] == old(cmd[..pos]) + s[..i]
    {
      cmd[pos + i] := s[i];
      assert cmd[..pos + i + 1] == cmd[..pos + i] + [s[i]];
    }
    next := pos + |s|;
  }

  /** One argument: its length line, its bytes and the end of line. */
  method WriteBulk(cmd: array<byte>, pos: nat, arg: bytes) returns (next: nat)
    requires pos + |Encode(Str(arg))| <= cmd.Length
    modifies cmd
    ensures next == pos + |Encode(Str(arg))|
    ensures cmd[..next] == old(cmd[..pos]) + Encode(Str(arg))
  {
    next := Write(cmd, pos, [DOLLAR] + Decimal(|arg|) + CRLF);
    next := Write(cmd, next, arg);
    next := Write(cmd, next, CRLF);
  }

  /** The second half of both formatters: fills a buffer of the computed length. */
  method Build(args: seq<bytes>, totlen: nat) returns (cmd: array<byte>)
    requires totlen == |Command(args)|
    ensures fresh(cmd) && cmd.Length == totlen + 1
    ensures cmd[..totlen] == Command(args) && cmd[totlen] == NUL
  {
    CommandIs(args);
    ghost var header := Header(|args|);
    cmd := new byte[totlen + 1];
    var pos := Write(cmd, 0, Header(|args|));
    assert Bulks(args, 0) == [];
    for j := 0 to |args|
      invariant 0 <= pos == |header + Bulks(args, j)| <= totlen
      invariant cmd[..pos] == header + Bulks(args, j)
    {
      BulksNext(args, j);
      BulksGrow(args, j + 1, |args|);
      assert header + Bulks(args, j + 1) == (header + Bulks(args, j)) + Encode(Str(args[j]));
      pos := WriteBulk(cmd, pos, args[j]);
    }
    assert pos == totlen;
    cmd[pos] := NUL;
  }

  /** C's `strlen`. */
  function StrLen(s: bytes): (n: nat)
    ensures n <= |s|
    ensures forall i :: 0 <= i < n ==> s[i] != NUL
    ensures n < |s| ==> s[n] == NUL
  {
    if s == [] || s[0] == NUL then 0 else 1 + StrLen(s[1..])
  }

  /** The arguments handed to `redisFormatCommandArgv`: pointers with lengths, or C strings. */
  function ArgBytes(arg: bytes, len: Option<nat>): bytes
    requires len.Some? ==> len.value <= |arg|
  {
    arg[..if len.Some? then len.value else StrLen(arg)]
  }

  function ArgvBytes(argv: seq<bytes>, argvlen: Option<seq<nat>>): (args: seq<bytes>)
    requires argvlen.Some? ==>
               |argvlen.value| == |argv| && forall j :: 0 <= j < |argv| ==> argvlen.value[j] <= |argv[j]|
    ensures |args| == |argv|
  {
    seq(|argv|, j requires 0 <= j < |argv| => ArgBytes(argv[j], if argvlen.Some? then Some(argvlen.value[j]) else None))
  }

  /** The string s is what the memory holds before its first NUL, or all of it if it has none. */
  ghost predicate CString(memory: bytes, s: bytes) {
    NUL !in s && (memory == s || s + [NUL] <= memory)
  }

  /** The caller has handed over these arguments: with lengths, that many bytes of each; without, C
      strings. */
  ghost predicate Handed(argv: seq<bytes>, argvlen: Option<seq<nat>>, args: seq<bytes>) {
    && |args| == |argv|
    && (argvlen.Some? ==> |argvlen.value| == |argv| &&
                          forall j :: 0 <= j < |argv| ==>
                            argvlen.value[j] <= |argv[j]| && args[j] == argv[j][..argvlen.value[j]])
    && (argvlen.None? ==> forall j :: 0 <= j < |argv| ==> CString(argv[j], args[j]))
  }

  lemma CStringOnce(memory: bytes, s: bytes, s': bytes)
    requires CString(memory, s) && CString(memory, s')
    ensures s == s'
  {
    CStringLongest(memory, s, s');
    CStringLongest(memory, s', s);
    assert s == memory[..|s|] && s' == memory[..|s'|];
  }

  lemma CStringLongest(memory: bytes, s: bytes, s': bytes)
    requires CString(memory, s) && CString(memory, s')
    ensures |s'| <= |s|
  {
    assert forall i :: 0 <= i < |s'| ==> memory[i] == s'[i] && s'[i] != NUL;
    assert memory != s ==> memory[|s|] == NUL;
  }

  lemma StrLenIs(memory: bytes)
    ensures CString(memory, memory[..StrLen(memory)])
  {
    var n := StrLen(memory);
    if n == |memory| {
      assert memory[..n] == memory;
    } else {
      assert memory[..n] + [NUL] == memory[..n + 1];
    }
  }

  /** Those and no others are the arguments of the command. */
  lemma ArgvBytesExact(argv: seq<bytes>, argvlen: Option<seq<nat>>, args: seq<bytes>)
    requires argvlen.Some? ==>
               |argvlen.value| == |argv| && forall j :: 0 <= j < |argv| ==> argvlen.value[j] <= |argv[j]|
    ensures Handed(argv, argvlen, args) <==> args == ArgvBytes(argv, argvlen)
  {
    var args' := ArgvBytes(argv, argvlen);
    forall j | 0 <= j < |argv|
      ensures argvlen.Some? ==> args'[j] == argv[j][..argvlen.value[j]]
      ensures argvlen.None? ==> CString(argv[j], args'[j])
      ensures argvlen.None? && Handed(argv, argvlen, args) ==> args[j] == args'[j]
    {
      StrLenIs(argv[j]);
      if argvlen.None? && Handed(argv, argvlen, args) {
        CStringOnce(argv[j], args[j], args'[j]);
      }
    }
  }

  /** `redisFormatCommandArgv`: writes exactly totlen bytes, and they are the command. */
  method FormatCommandArgv(argv: seq<bytes>, argvlen: Option<seq<nat>>) returns (totlen: nat, cmd: array<byte>)
    requires argvlen.Some? ==>
               |argvlen.value| == |argv| && forall j :: 0 <= j < |argv| ==> argvlen.value[j] <= |argv[j]|
    ensures fresh(cmd) && cmd.Length == totlen + 1 && cmd[totlen] == NUL
    ensures forall args :: Handed(argv, argvlen, args) <==> cmd[..totlen] == Command(args)
  {
    var args := ArgvBytes(argv, argvlen);
    forall args' ensures Handed(argv, argvlen, args') <==> Command(args) == Command(args') {
      ArgvBytesExact(argv, argvlen, args');
      if Command(args) == Command(args') {
        CommandsDiffer(args, [], args', []);
      }
    }
    var d := IntLen(|argv|);
    totlen := 1 + d + 2;
    for j := 0 to |argv|
      invariant totlen == |Header(|args|)| + |Bulks(args, j)|
    {
      var n := BulkLen(|args[j]|);
      totlen := totlen + n;
      BulksNext(args, j);
    }
    CommandIs(args);
    cmd := Build(args, totlen);
  }

  // ---------------------------------------------------------------- format strings

  /** The arguments a format string describes: literals, spaces, `%s`, `%b` and `%%`; None for
      the conversions that are delegated to printf and for missing arguments. `cur` is the
      argument being put together. */
  function Interpret(fmt: bytes, ap: seq<bytes>, cur: bytes, touched: bool): Option<seq<bytes>>
    decreases |fmt|
  {
    if fmt == [] then Some(if touched then [cur] else [])
    else if fmt[0] != PERCENT || |fmt| == 1 then
      if fmt[0] != SPACE then Interpret(fmt[1..], ap, cur + [fmt[0]], true)
      else if touched then
        match Interpret(fmt[1..], ap, [], false)
        case None => None
        case Some(more) => Some([cur] + more)
      else Interpret(fmt[1..], ap, cur, false)
    else if fmt[1] == PERCENT then Interpret(fmt[2..], ap, cur + [PERCENT], true)
    else if ap == [] then None
    else if fmt[1] == LOWER_S then Interpret(fmt[2..], ap[1..], cur + ArgBytes(ap[0], None), true)
    else if fmt[1] == LOWER_B then Interpret(fmt[2..], ap[1..], cur + ap[0], true)
    else None
  }

  /** The arguments already put together, in front of those to come. */
  function After(argv: seq<bytes>, r: Option<seq<bytes>>): Option<seq<bytes>> {
    match r case None => None case Some(more) => Some(argv + more)
  }

  /** The scanning loop of `redisvFormatCommand`. */
  method ScanFormat(fmt: bytes, ap: seq<bytes>) returns (r: Option<seq<bytes>>, totlen: nat)
    ensures r == Interpret(fmt, ap, [], false)
    ensures r.Some? ==> totlen == |Bulks(r.value, |r.value|)|
  {
    var c, va, cur, touched := 0, 0, [], false;
    var argv: seq<bytes> := [];
    totlen := 0;
    ghost var whole := Interpret(fmt, ap, [], false);
    assert fmt[0..] == fmt && ap[0..] == ap;
    assert whole.Some? ==> [] + whole.value == whole.value;
    while c < |fmt|
      invariant c <= |fmt| && va <= |ap| && (!touched ==> cur == [])
      invariant whole == After(argv, Interpret(fmt[c..], ap[va..], cur, touched))
      invariant totlen == |Bulks(argv, |argv|)|
      decreases |fmt| - c
    {
      ghost var f, a := fmt[c..], ap[va..];
      assert f[1..] == fmt[c + 1..];
      if fmt[c] != PERCENT || c + 1 == |fmt| {
        if fmt[c] == SPACE {
          if touched {
            argv, totlen := PushArg(argv, cur, totlen, Interpret(fmt[c + 1..], a, [], false));
            cur, touched := [], false;
          }
        } else {
          cur, touched := cur + [fmt[c]], true;
        }
      } else {
        assert f[2..] == fmt[c + 2..];
        if fmt[c + 1] == PERCENT {
          cur := cur + [PERCENT];
        } else if va == |ap| || (fmt[c + 1] != LOWER_S && fmt[c + 1] != LOWER_B) {
          return None, 0;
        } else {
          assert a[1..] == ap[va + 1..];
          cur := cur + if fmt[c + 1] == LOWER_S then ArgBytes(ap[va], None) else ap[va];
          va := va + 1;
        }
        touched := true;
        c := c + 1;
      }
      c := c + 1;
    }
    assert fmt[c..] == [];
    if touched {
      argv, totlen := PushArg(argv, cur, totlen, Some([]));
    }
    r := Some(argv);
    assert argv + [] == argv;
  }

  /** `curargv[argc++] = curarg`, with the length it will take. */
  method PushArg(argv: seq<bytes>, cur: bytes, totlen: nat, ghost more: Option<seq<bytes>>)
    returns (argv': seq<bytes>, totlen': nat)
    requires totlen == |Bulks(argv, |argv|)|
    ensures argv' == argv + [cur] && totlen' == |Bulks(argv', |argv'|)|
    ensures After(argv, After([cur], more)) == After(argv', more)
  {
    argv' := argv + [cur];
    var n := BulkLen(|cur|);
    totlen' := totlen + n;
    BulksNext(argv', |argv|);
    assert argv'[..|argv|] == argv[..|argv|];
    if more.Some? {
      assert argv + ([cur] + more.value) == argv' + more.value;
    }
  }

  // ---------------------------------------------------------------- what a format stands for

  lemma SplitFirst<T>(x: seq<T>, y: seq<T>)
    requires x != []
    ensures (x + y)[0] == x[0] && (x + y)[1..] == x[1..] + y
  {
  }

  lemma SplitSecond<T>(x: seq<T>, y: seq<T>)
    requires |x| > 1
    ensures (x + y)[0] == x[0] && (x + y)[1] == x[1] && (x + y)[2..] == x[2..] + y
  {
  }

  /** A piece of the format adds what it means to the argument, and takes its values. */
  lemma PieceStep(p: Piece, fmt: bytes, ap: seq<bytes>, cur: bytes, touched: bool)
    requires IsPiece(p) && (p.Lone? ==> fmt == [])
    ensures Interpret(Written(p) + fmt, Taken(p) + ap, cur, touched) == Interpret(fmt, ap, cur + Meant(p), true)
  {
    var f := Written(p) + fmt;
    NothingBefore(ap);
    NothingBefore(fmt);
    SplitFirst(Written(p), fmt);
    if |Written(p)| == 2 {
      SplitSecond(Written(p), fmt);
      if Taken(p) != [] {
        SplitFirst(Taken(p), ap);
        NothingBefore(ap);
      }
      if p.Text? { TextBytes(p); }
    }
  }

  /** `strlen` finds the string in its memory. */
  lemma TextBytes(p: Piece)
    requires p.Text? && IsPiece(p)
    ensures ArgBytes(Taken(p)[0], None) == p.s
  {
    var memory := Taken(p)[0];
    assert p.beyond.Some? ==> memory == (p.s + [NUL]) + p.beyond.value;
    assert CString(memory, p.s);
    StrLenIs(memory);
    CStringOnce(memory, p.s, memory[..StrLen(memory)]);
  }

  lemma {:induction false} PiecesStep(ps: seq<Piece>, fmt: bytes, ap: seq<bytes>, cur: bytes, touched: bool)
    requires ArePieces(ps, fmt == [])
    ensures Interpret(AllWritten(ps) + fmt, AllTaken(ps) + ap, cur, touched) ==
            Interpret(fmt, ap, cur + AllMeant(ps), touched || ps != [])
    decreases |ps|
  {
    if ps == [] {
      NothingBefore(fmt);
      NothingBefore(ap);
      NothingAfter(cur);
    } else {
      var p, rest := ps[0], ps[1..];
      Assoc(Written(p), AllWritten(rest), fmt);
      Assoc(Taken(p), AllTaken(rest), ap);
      Assoc(cur, Meant(p), AllMeant(rest));
      if p.Lone? {
        assert rest == [];
      }
      PieceStep(p, AllWritten(rest) + fmt, AllTaken(rest) + ap, cur, touched);
      PiecesStep(rest, fmt, ap, cur + Meant(p), true);
    }
  }

  /** Spaces where no argument has begun mean nothing. */
  lemma {:induction false} SpacesStep(n: nat, fmt: bytes, ap: seq<bytes>)
    ensures Interpret(Spaces(n) + fmt, ap, [], false) == Interpret(fmt, ap, [], false)
  {
    if n == 0 {
      NothingBefore(fmt);
    } else {
      Assoc([SPACE], Spaces(n - 1), fmt);
      ConsParts(SPACE, Spaces(n - 1) + fmt);
      SpacesStep(n - 1, fmt, ap);
    }
  }

  /** The first space ends the argument. */
  lemma WordEnds(cur: bytes, n: nat, fmt: bytes, ap: seq<bytes>)
    requires n > 0
    ensures Interpret(Spaces(n) + fmt, ap, cur, true) == After([cur], Interpret(fmt, ap, [], false))
  {
    Assoc([SPACE], Spaces(n - 1), fmt);
    ConsParts(SPACE, Spaces(n - 1) + fmt);
    SpacesStep(n - 1, fmt, ap);
  }

  lemma {:induction false} WordsStep(words: seq<Word>, ap: seq<bytes>)
    requires AreWords(words)
    ensures Interpret(Layout(words), Values(words) + ap, [], false) == Some(Arguments(words))
    decreases |words|
  {
    if words != [] {
      var w, rest, more := words[0], words[1..], Values(words[1..]) + ap;
      var tail := Spaces(w.spaces) + Layout(rest);
      Assoc(AllTaken(w.pieces), Values(rest), ap);
      assert ArePieces(w.pieces, tail == []) by { assert |words| == 1 ==> rest == []; }
      PiecesStep(w.pieces, tail, more, [], false);
      NothingBefore(AllMeant(w.pieces));
      WordsStep(rest, ap);
      if w.spaces > 0 {
        WordEnds(AllMeant(w.pieces), w.spaces, Layout(rest), more);
      } else {
        assert rest == [] && tail == [];
        NothingAfter([AllMeant(w.pieces)]);
      }
    }
  }

  /** Every format that is accepted is made of words: the rest of the argument that has begun, the
      spaces after it, and more words. */
  ghost predicate Rest(fmt: bytes, ap: seq<bytes>, ps: seq<Piece>, spaces: nat, words: seq<Word>) {
    && fmt == AllWritten(ps) + (Spaces(spaces) + Layout(words)) && ArePieces(ps, words == [] && spaces == 0)
    && AreWords(words) && (words != [] ==> spaces > 0) && AllTaken(ps) + Values(words) <= ap
  }

  /** The piece at the front of the format. */
  lemma FirstPiece(fmt: bytes, ap: seq<bytes>, cur: bytes, touched: bool) returns (p: Piece)
    requires Interpret(fmt, ap, cur, touched).Some? && fmt != [] && fmt[0] != SPACE
    ensures IsPiece(p) && Written(p) <= fmt && Taken(p) <= ap && (p.Lone? <==> fmt == [PERCENT])
    ensures Interpret(fmt, ap, cur, touched) ==
            Interpret(fmt[|Written(p)|..], ap[|Taken(p)|..], cur + Meant(p), true)
  {
    assert ap[0..] == ap;
    if fmt[0] != PERCENT {
      p := Literal(fmt[0]);
    } else if |fmt| == 1 {
      p := Lone;
    } else if fmt[1] == PERCENT {
      p := Percent;
    } else if fmt[1] == LOWER_S {
      var n := StrLen(ap[0]);
      StrLenIs(ap[0]);
      p := Text(ap[0][..n], if n == |ap[0]| then None else Some(ap[0][n + 1..]));
      assert n < |ap[0]| ==> ap[0] == ap[0][..n] + [NUL] + ap[0][n + 1..];
      assert n == |ap[0]| ==> ap[0] == ap[0][..n];
    } else {
      p := Binary(ap[0]);
    }
  }

  lemma RestPiece(fmt: bytes, ap: seq<bytes>, p: Piece, ps: seq<Piece>, spaces: nat, words: seq<Word>)
    requires IsPiece(p) && Written(p) <= fmt && Taken(p) <= ap && (p.Lone? <==> fmt == [PERCENT])
    requires Rest(fmt[|Written(p)|..], ap[|Taken(p)|..], ps, spaces, words)
    ensures Rest(fmt, ap, [p] + ps, spaces, words)
  {
    var ps', tail := [p] + ps, Spaces(spaces) + Layout(words);
    ConsParts(p, ps);
    Assoc(Written(p), AllWritten(ps), tail);
    Assoc(Taken(p), AllTaken(ps), Values(words));
    assert fmt == Written(p) + fmt[|Written(p)|..] && ap == Taken(p) + ap[|Taken(p)|..];
    if p.Lone? {
      assert |AllWritten(ps)| == 0 && |Spaces(spaces)| == 0 && |Layout(words)| == 0;
      WrittenSome(ps);
      assert spaces == 0;
    }
  }

  lemma WrittenSome(ps: seq<Piece>)
    ensures AllWritten(ps) == [] ==> ps == []
  {
  }

  lemma RestSpace(fmt: bytes, ap: seq<bytes>, ps: seq<Piece>, spaces: nat, words: seq<Word>)
    returns (spaces': nat, words': seq<Word>)
    requires fmt != [] && fmt[0] == SPACE && Rest(fmt[1..], ap, ps, spaces, words)
    ensures Rest(fmt, ap, [], spaces', words')
  {
    var tail := Spaces(spaces) + Layout(words);
    NothingBefore(tail);
    assert fmt == [SPACE] + fmt[1..];
    if ps == [] {
      spaces', words' := spaces + 1, words;
      Assoc([SPACE], Spaces(spaces), Layout(words));
      NothingBefore(Spaces(spaces + 1) + Layout(words));
    } else {
      spaces', words' := 1, [Word(ps, spaces)] + words;
      ConsParts(Word(ps, spaces), words);
      assert Spaces(1) == [SPACE] + Spaces(0);
      NothingAfter([SPACE]);
      NothingBefore(Spaces(1) + Layout(words'));
      NothingBefore(Values(words'));
    }
  }

  lemma {:induction false} ReadRest(fmt: bytes, ap: seq<bytes>, cur: bytes, touched: bool)
    returns (ps: seq<Piece>, spaces: nat, words: seq<Word>)
    requires Interpret(fmt, ap, cur, touched).Some?
    ensures Rest(fmt, ap, ps, spaces, words)
    decreases |fmt|
  {
    if fmt == [] {
      ps, spaces, words := [], 0, [];
    } else if fmt[0] == SPACE {
      ps, spaces, words := ReadRest(fmt[1..], ap, if touched then [] else cur, false);
      spaces, words := RestSpace(fmt, ap, ps, spaces, words);
      ps := [];
    } else {
      var p := FirstPiece(fmt, ap, cur, touched);
      ps, spaces, words := ReadRest(fmt[|Written(p)|..], ap[|Taken(p)|..], cur + Meant(p), true);
      RestPiece(fmt, ap, p, ps, spaces, words);
      ps := [p] + ps;
    }
  }

  lemma ReadWords(fmt: bytes, ap: seq<bytes>) returns (lead: nat, words: seq<Word>)
    requires Interpret(fmt, ap, [], false).Some?
    ensures Reads(fmt, ap, lead, words)
  {
    var ps, spaces, more := ReadRest(fmt, ap, [], false);
    if ps == [] {
      lead, words := spaces, more;
      NothingBefore(Spaces(spaces) + Layout(more));
      NothingBefore(Values(more));
    } else {
      lead, words := 0, [Word(ps, spaces)] + more;
      ConsParts(Word(ps, spaces), more);
      NothingBefore(Layout(words));
    }
  }

  lemma ReadsThem(fmt: bytes, ap: seq<bytes>, lead: nat, words: seq<Word>)
    requires Reads(fmt, ap, lead, words)
    ensures Interpret(fmt, ap, [], false) == Some(Arguments(words))
  {
    var more := ap[|Values(words)|..];
    assert ap == Values(words) + more;
    SpacesStep(lead, Layout(words), ap);
    WordsStep(words, more);
  }

  /** The formatter takes a format for exactly the arguments it stands for, and refuses exactly the
      formats that stand for none. */
  lemma StandsExact(fmt: bytes, ap: seq<bytes>, args: seq<bytes>)
    ensures Interpret(fmt, ap, [], false) == Some(args) <==> Stands(fmt, ap, args)
  {
    if Interpret(fmt, ap, [], false) == Some(args) {
      var lead, words := ReadWords(fmt, ap);
      ReadsThem(fmt, ap, lead, words);
    }
    if Stands(fmt, ap, args) {
      var lead, words :| Reads(fmt, ap, lead, words) && args == Arguments(words);
      ReadsThem(fmt, ap, lead, words);
    }
  }

  /** `redisvFormatCommand`: the command has exactly the arguments that the format stands for, and
      only a format that stands for none is refused. */
  method FormatCommand(fmt: bytes, ap: seq<bytes>) returns (totlen: int, cmd: array<byte>)
    ensures totlen == -1 <==> forall args :: !Stands(fmt, ap, args)
    ensures totlen != -1 ==>
              && 0 <= totlen <= cmd.Length
              && forall args :: Stands(fmt, ap, args) <==> cmd[..totlen] == Command(args)
    ensures match Interpret(fmt, ap, [], false)
            case None => totlen == -1
            case Some(args) =>
              fresh(cmd) && 0 <= totlen == cmd.Length - 1 && cmd[..totlen] == Command(args) && cmd[totlen] == NUL
  {
    var r, n := ScanFormat(fmt, ap);
    forall args ensures Stands(fmt, ap, args) <==> r.Some? && Command(args) == Command(r.value) {
      StandsExact(fmt, ap, args);
      if r.Some? && Command(args) == Command(r.value) {
        CommandsDiffer(args, [], r.value, []);
      }
    }
    if r == None {
      cmd := new byte[0];
      return -1, cmd;
    }
    var d := IntLen(|r.value|);
    CommandIs(r.value);
    totlen := n + 1 + d + 2;
    cmd := Build(r.value, totlen);
  }

  // ---------------------------------------------------------------- what the formatters are for

  /** A formatted command is read back as the array of its arguments, for all binary arguments,
      and nothing behind it is touched. */
  lemma FormatThenRead(args: seq<bytes>, rest: bytes)
    ensures Run(IDLE, Command(args) + rest) == Emit(Array(Strs(args)), rest)
  {
    ReadsEncodedTree(Array(Strs(args)), rest);
  }

  /** Different argument lists are different commands, even when one is followed by more bytes. */
  lemma CommandsDiffer(args: seq<bytes>, rest: bytes, args': seq<bytes>, rest': bytes)
    requires Command(args) + rest == Command(args') + rest'
    ensures args == args' && rest == rest'
  {
    FormatThenRead(args, rest);
    FormatThenRead(args', rest');
    assert Strs(args) == Strs(args');
    forall i | 0 <= i < |args| ensures args[i] == args'[i] {
      assert Strs(args)[i] == Strs(args')[i];
    }
  }

  /** The argv formatter is binary safe: with lengths, a reader gets that many bytes of each argument,
      whatever they are; with full lengths, exactly the arguments; without lengths, the C strings. */
  lemma ArgvThenRead(argv: seq<bytes>, argvlen: Option<seq<nat>>, cmd: bytes, rest: bytes)
    requires argvlen.Some? ==>
               |argvlen.value| == |argv| && forall j :: 0 <= j < |argv| ==> argvlen.value[j] <= |argv[j]|
    requires forall args :: Handed(argv, argvlen, args) ==> cmd == Command(args)
    ensures var o := Run(IDLE, cmd + rest);
            && o.Emit? && o.rest == rest && o.reply.Array? && |o.reply.elems| == |argv|
            && (forall j :: 0 <= j < |argv| ==>
                  && o.reply.elems[j].Str?
                  && (argvlen.Some? ==> o.reply.elems[j].str == argv[j][..argvlen.value[j]])
                  && (argvlen.None? ==> CString(argv[j], o.reply.elems[j].str)))
            && ((argvlen.Some? && forall j :: 0 <= j < |argv| ==> argvlen.value[j] == |argv[j]|) ==>
                  o.reply == Array(Strs(argv)))
  {
    var args := ArgvBytes(argv, argvlen);
    ArgvBytesExact(argv, argvlen, args);
    FormatThenRead(args, rest);
    if argvlen.Some? && forall j :: 0 <= j < |argv| ==> argvlen.value[j] == |argv[j]| {
      assert forall j :: 0 <= j < |argv| ==> args[j] == argv[j];
      assert args == argv;
    }
  }

  /** "%b %b ... %b", n times. */
  function BinaryFormat(n: nat): bytes {
    if n == 0 then []
    else if n == 1 then [PERCENT, LOWER_B]
    else [PERCENT, LOWER_B, SPACE] + BinaryFormat(n - 1)
  }

  /** Space-separated `%b` items describe exactly their arguments. */
  lemma {:induction false} BinaryItems(args: seq<bytes>)
    ensures Interpret(BinaryFormat(|args|), args, [], false) == Some(args)
    decreases |args|
  {
    var f := BinaryFormat(|args|);
    if args != [] {
      var tail := f[2..];
      assert [] + args[0] == args[0];
      if |args| == 1 {
        assert tail == [] && args == [args[0]];
        assert Interpret(f, args, [], false) == Interpret(tail, args[1..], args[0], true);
      } else {
        assert tail[1..] == BinaryFormat(|args| - 1);
        BinaryItems(args[1..]);
        assert Interpret(f, args, [], false) == Interpret(tail, args[1..], args[0], true);
        assert [args[0]] + args[1..] == args;
      }
    }
  }

  /** Interpolated values never split or merge arguments: how many arguments a format yields, and
      whether it yields any, does not depend on the values. */
  lemma {:induction false} ValuesDoNotSplit(fmt: bytes, ap: seq<bytes>, ap': seq<bytes>, cur: bytes, cur': bytes,
                                            touched: bool)
    requires |ap| == |ap'|
    ensures match (Interpret(fmt, ap, cur, touched), Interpret(fmt, ap', cur', touched))
            case (Some(a), Some(b)) => |a| == |b|
            case (None, None) => true
            case _ => false
    decreases |fmt|
  {
    if fmt == [] {
    } else if fmt[0] != PERCENT || |fmt| == 1 {
      if fmt[0] != SPACE {
        ValuesDoNotSplit(fmt[1..], ap, ap', cur + [fmt[0]], cur' + [fmt[0]], true);
      } else if touched {
        ValuesDoNotSplit(fmt[1..], ap, ap', [], [], false);
      } else {
        ValuesDoNotSplit(fmt[1..], ap, ap', cur, cur', false);
      }
    } else if fmt[1] == PERCENT {
      ValuesDoNotSplit(fmt[2..], ap, ap', cur + [PERCENT], cur' + [PERCENT], true);
    } else if ap != [] && fmt[1] == LOWER_S {
      ValuesDoNotSplit(fmt[2..], ap[1..], ap'[1..], cur + ArgBytes(ap[0], None), cur' + ArgBytes(ap'[0], None), true);
    } else if ap != [] && fmt[1] == LOWER_B {
      ValuesDoNotSplit(fmt[2..], ap[1..], ap'[1..], cur + ap[0], cur' + ap'[0], true);
    }
  }
}
