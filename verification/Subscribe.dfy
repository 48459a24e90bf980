/** How `__redisAsyncCommand` files the callback of a command: by channel or pattern for
    (P)SUBSCRIBE, in a hash table, and else at the end of a queue. */
module Subscribe {
  import opened Bytes
  import opened Resp
  import opened Arguments
  import opened Async
  import opened HashDict

  const SUBSCRIBE: bytes := [115, 117, 98, 115, 99, 114, 105, 98, 101, 13, 10]             // "subscribe\r\n"
  const UNSUBSCRIBE: bytes := [117, 110, 115, 117, 98, 115, 99, 114, 105, 98, 101, 13, 10] // "unsubscribe\r\n"
  const MONITOR: bytes := [109, 111, 110, 105, 116, 111, 114, 13, 10]                      // "monitor\r\n"

  function ToLower(b: byte): byte {
    if 65 <= b <= 90 then b + 32 else b
  }

  /** The text begins with the literal, which is in lower case, case aside. */
  predicate Begins(text: bytes, literal: bytes) {
    |literal| <= |text| && forall k :: 0 <= k < |literal| ==> ToLower(text[k]) == literal[k]
  }

  /** The command's name, without the first letter if that is a P, and the line end behind it. */
  function Name(args: seq<bytes>): bytes
    requires args != []
  {
    (if IsPattern(args) then args[0][1..] else args[0]) + CRLF
  }

  /** The name's first letter is a P. */
  predicate IsPattern(args: seq<bytes>)
    requires args != []
  {
    args[0] != [] && ToLower(args[0][0]) == 112
  }

  datatype CommandKind = Subscribing | Unsubscribing | Monitoring | Ordinary

  function Purpose(args: seq<bytes>): CommandKind
    requires args != []
  {
    if |args| > 1 && Begins(Name(args), SUBSCRIBE) then Subscribing
    else if Begins(Name(args), UNSUBSCRIBE) then Unsubscribing
    else if Begins(Name(args), MONITOR) then Monitoring
    else Ordinary
  }

  /** A line end within the literal's length stops the comparison. */
  lemma TooShort(text: bytes, n: nat, literal: bytes)
    requires n < |literal| && n < |text| && text[n] == CR && CR !in literal
    ensures !Begins(text, literal + CRLF)
  {
    assert (literal + CRLF)[n] == literal[n] && literal[n] in literal;
  }

  /** For a name without line ends the test is for the whole name. */
  lemma BeginsExact(name: bytes, literal: bytes)
    requires CR !in name && CR !in literal
    ensures Begins(name + CRLF, literal + CRLF) <==> |name| == |literal| && Begins(name, literal)
  {
    var t, l := name + CRLF, literal + CRLF;
    if |name| < |literal| {
      TooShort(t, |name|, literal);
    } else if |literal| < |name| {
      assert l[|literal|] == CR && t[|literal|] == name[|literal|] && name[|literal|] in name;
    } else {
      assert t[|name|..] == l[|name|..] == CRLF;
      assert forall k :: 0 <= k < |name| ==> t[k] == name[k] && l[k] == literal[k];
      assert forall k :: |name| <= k < |t| ==> t[k] == CRLF[k - |name|] && l[k] == CRLF[k - |name|];
    }
  }

  // ---------------------------------------------------------------- the names, letter by letter

  /** The text begins with the word, which comes in both spellings, each letter in either case. */
  predicate Opens(text: bytes, lower: string, upper: string) {
    && |lower| == |upper| <= |text|
    && forall k :: 0 <= k < |lower| ==> text[k] == lower[k] as int || text[k] == upper[k] as int
  }

  /** The command has this name; one that only begins with it counts if a line end comes next. */
  predicate Named(args: seq<bytes>, lower: string, upper: string) {
    args != [] && Opens(args[0] + CRLF, lower + "\r\n", upper + "\r\n")
  }

  predicate Subscribes(args: seq<bytes>) {
    |args| > 1 && Named(args, "subscribe", "SUBSCRIBE")
  }

  predicate PatternSubscribes(args: seq<bytes>) {
    |args| > 1 && Named(args, "psubscribe", "PSUBSCRIBE")
  }

  predicate Unsubscribes(args: seq<bytes>) {
    Named(args, "unsubscribe", "UNSUBSCRIBE") || Named(args, "punsubscribe", "PUNSUBSCRIBE")
  }

  predicate Monitors(args: seq<bytes>) {
    Named(args, "monitor", "MONITOR") || Named(args, "pmonitor", "PMONITOR")
  }

  /** For a name without line ends that is: as many bytes as the word has letters, each of them the
      letter in upper or lower case. */
  lemma NamedExact(args: seq<bytes>, lower: string, upper: string)
    requires args != [] && CR !in args[0] && |lower| == |upper| && '\r' !in lower && '\r' !in upper
    ensures Named(args, lower, upper) <==>
            && |args[0]| == |lower|
            && forall k :: 0 <= k < |lower| ==> args[0][k] == lower[k] as int || args[0][k] == upper[k] as int
  {
    var name, l, u := args[0], lower + "\r\n", upper + "\r\n";
    var text := name + CRLF;
    assert l[|lower|] == u[|lower|] == '\r' && l[|lower| + 1] == u[|lower| + 1] == '\n';
    if |name| < |lower| {
      assert text[|name|] == CR && l[|name|] == lower[|name|] && lower[|name|] in lower;
      assert u[|name|] == upper[|name|] && upper[|name|] in upper;
    } else if |lower| < |name| {
      assert text[|lower|] == name[|lower|] && name[|lower|] in name;
    } else {
      assert text[|name|] == CR && text[|name| + 1] == LF;
      assert forall k :: 0 <= k < |name| ==> text[k] == name[k] && l[k] == lower[k] && u[k] == upper[k];
    }
  }

  /** The comparison takes exactly these two bytes for this letter of the literal. */
  predicate Letter(l: byte, c: char, d: char) {
    forall b: byte :: ToLower(b) == l <==> b == c as int || b == d as int
  }

  predicate AreLetters(literal: bytes, lower: string, upper: string) {
    |literal| == |lower| == |upper| && forall k :: 0 <= k < |literal| ==> Letter(literal[k], lower[k], upper[k])
  }

  lemma Letters()
    ensures AreLetters(SUBSCRIBE, "subscribe" + "\r\n", "SUBSCRIBE" + "\r\n")
    ensures AreLetters(UNSUBSCRIBE, "unsubscribe" + "\r\n", "UNSUBSCRIBE" + "\r\n")
    ensures AreLetters(MONITOR, "monitor" + "\r\n", "MONITOR" + "\r\n")
  {
  }

  lemma OpensExact(text: bytes, literal: bytes, lower: string, upper: string)
    requires AreLetters(literal, lower, upper)
    ensures Begins(text, literal) <==> Opens(text, lower, upper)
  {
    if |literal| <= |text| {
      forall k | 0 <= k < |literal|
        ensures ToLower(text[k]) == literal[k] <==> text[k] == lower[k] as int || text[k] == upper[k] as int
      {
        assert Letter(literal[k], lower[k], upper[k]);
      }
    }
  }

  /** A text with one more byte, against a word with one more letter. */
  lemma OpensCons(b: byte, text: bytes, c: char, lower: string, d: char, upper: string)
    requires |lower| == |upper|
    ensures Opens([b] + text, [c] + lower, [d] + upper) <==>
            (b == c as int || b == d as int) && Opens(text, lower, upper)
  {
    var t, l, u := [b] + text, [c] + lower, [d] + upper;
    if Opens(t, l, u) {
      assert t[0] == l[0] as int || t[0] == u[0] as int;
      forall k | 0 <= k < |lower| ensures text[k] == lower[k] as int || text[k] == upper[k] as int {
        assert t[k + 1] == l[k + 1] as int || t[k + 1] == u[k + 1] as int;
      }
    }
  }

  lemma BeginsNamed(args: seq<bytes>, literal: bytes, lower: string, upper: string)
    requires args != [] && AreLetters(literal, lower + "\r\n", upper + "\r\n") == true
    requires lower != "" && upper != "" && lower[0] !in "pP" && upper[0] !in "pP"
    ensures Begins(Name(args), literal) && !IsPattern(args) <==> Named(args, lower, upper)
    ensures Begins(Name(args), literal) && IsPattern(args) <==> Named(args, ['p'] + lower, ['P'] + upper)
  {
    var text, l, u := args[0] + CRLF, lower + "\r\n", upper + "\r\n";
    OpensExact(Name(args), literal, l, u);
    Assoc(['p'], lower, "\r\n");
    Assoc(['P'], upper, "\r\n");
    assert text == [text[0]] + text[1..];
    OpensCons(text[0], text[1..], 'p', l, 'P', u);
    if IsPattern(args) {
      assert text[1..] == Name(args);
    } else {
      assert text == Name(args);
      assert text[0] == if args[0] == [] then CR else args[0][0];
    }
  }

  lemma WithP()
    ensures ['p'] + "subscribe" == "psubscribe" && ['P'] + "SUBSCRIBE" == "PSUBSCRIBE"
    ensures ['p'] + "unsubscribe" == "punsubscribe" && ['P'] + "UNSUBSCRIBE" == "PUNSUBSCRIBE"
    ensures ['p'] + "monitor" == "pmonitor" && ['P'] + "MONITOR" == "PMONITOR"
  {
  }

  /** The tests on the name come out as the letters say. */
  lemma PurposeExact(args: seq<bytes>)
    requires args != []
    ensures Purpose(args) == Subscribing <==> Subscribes(args) || PatternSubscribes(args)
    ensures Purpose(args) == Unsubscribing <==> Unsubscribes(args)
    ensures Purpose(args) == Monitoring <==> Monitors(args)
    ensures Subscribes(args) ==> !IsPattern(args)
    ensures PatternSubscribes(args) ==> IsPattern(args)
  {
    Letters();
    WithP();
    BeginsNamed(args, SUBSCRIBE, "subscribe", "SUBSCRIBE");
    BeginsNamed(args, UNSUBSCRIBE, "unsubscribe", "UNSUBSCRIBE");
    BeginsNamed(args, MONITOR, "monitor", "MONITOR");
    OneLiteral(args);
  }

  lemma OneLiteral(args: seq<bytes>)
    requires args != []
    ensures Begins(Name(args), SUBSCRIBE) ==> !Begins(Name(args), UNSUBSCRIBE) && !Begins(Name(args), MONITOR)
    ensures Begins(Name(args), UNSUBSCRIBE) ==> !Begins(Name(args), MONITOR)
  {
    var name := Name(args);
    assert SUBSCRIBE[0] != UNSUBSCRIBE[0] && SUBSCRIBE[0] != MONITOR[0] && UNSUBSCRIBE[0] != MONITOR[0];
  }

  /** The callback cb is filed under exactly the names; under other names nothing has changed. */
  ghost predicate Filed(m: map<bytes, Callback>, m': map<bytes, Callback>, names: seq<bytes>, cb: Callback) {
    && (forall name :: name in m' <==> name in m || name in names)
    && (forall name :: name in m' ==> m'[name] == if name in names then cb else m[name])
  }

  /** A map with cb under one name after the other. */
  function FiledUnder(m: map<bytes, Callback>, names: seq<bytes>, cb: Callback): map<bytes, Callback> {
    if names == [] then m else FiledUnder(m, names[..|names| - 1], cb)[names[|names| - 1] := cb]
  }

  lemma {:induction false} FiledExact(m: map<bytes, Callback>, names: seq<bytes>, cb: Callback)
    ensures Filed(m, FiledUnder(m, names, cb), names, cb)
    decreases |names|
  {
    if names != [] {
      var init, last := names[..|names| - 1], names[|names| - 1];
      FiledExact(m, init, cb);
      assert names == init + [last];
    }
  }

  lemma FiledAll(m: map<bytes, Callback>, args: seq<bytes>, cb: Callback)
    requires args != []
    ensures Filed(m, FiledUnder(m, args[1..|args|], cb), args[1..], cb) == true
  {
    assert args[1..|args|] == args[1..];
    FiledExact(m, args[1..], cb);
  }

  lemma FiledOneMore(m: map<bytes, Callback>, args: seq<bytes>, j: nat, cb: Callback)
    requires 1 <= j < |args|
    ensures FiledUnder(m, args[1..j + 1], cb) == FiledUnder(m, args[1..j], cb)[args[j] := cb]
  {
    var names := args[1..j + 1];
    assert names[..|names| - 1] == args[1..j] && names[|names| - 1] == args[j];
  }

  /** The memory at the name of a formatted command, and at its second argument. */
  lemma NameInMemory(args: seq<bytes>)
    requires args != []
    ensures var mem := Memory(args);
            var r := NextOf(mem, 0);
            && r.Arg? && r.next == Offset(args, 1) < |mem|
            && r.str + |args[0]| + 2 <= |mem| && mem[r.str..r.str + |args[0]| + 2] == args[0] + CRLF
            && (mem[Offset(args, 1)] == DOLLAR <==> |args| > 1)
  {
    var pre, post := NameAt(args);
    NameParts(pre, args[0], post);
    SecondArgument(args);
  }

  lemma NameAt(args: seq<bytes>) returns (pre: bytes, post: bytes)
    requires args != []
    ensures Memory(args) == pre + Encode(Str(args[0])) + post
    ensures NextOf(Memory(args), 0) == Arg(|pre| + 1 + |Decimal(|args[0]|)| + 2, |args[0]|, Offset(args, 1))
  {
    NextAtEnds(args);
    pre, post := MemoryAt(args, 0);
    NextInBulk(pre, args[0], post);
  }

  lemma NameParts(pre: bytes, name: bytes, post: bytes)
    ensures var at := |pre| + 1 + |Decimal(|name|)| + 2;
            var mem := pre + Encode(Str(name)) + post;
            at + |name| + 2 <= |mem| && mem[at..at + |name| + 2] == name + CRLF
  {
    var a := [DOLLAR] + Decimal(|name|) + CRLF;
    Assoc(a, name, CRLF);
    Assoc(pre, a, name + CRLF);
    Middle(pre + a, name + CRLF, post);
  }

  lemma SecondArgument(args: seq<bytes>)
    requires args != []
    ensures Offset(args, 1) < |Memory(args)| && (Memory(args)[Offset(args, 1)] == DOLLAR <==> |args| > 1)
  {
    NextAtEnds(args);
    if |args| > 1 {
      var pre, post := MemoryAt(args, 1);
      assert (pre + Encode(Str(args[1])) + post)[|pre|] == Encode(Str(args[1]))[0] == DOLLAR;
    }
  }

  /** C's `strncasecmp` with a literal in lower case, for equality. */
  method Matches(mem: array<byte>, from: nat, literal: bytes) returns (r: bool)
    requires from <= mem.Length && (mem.Length > 0 ==> mem[mem.Length - 1] == NUL) && NUL !in literal
    ensures r == Begins(mem[from..], literal)
  {
    var k := 0;
    while k < |literal|
      invariant 0 <= k <= |literal| && from + k <= mem.Length
      invariant forall j :: 0 <= j < k ==> ToLower(mem[from + j]) == literal[j]
    {
      if from + k == mem.Length {
        return false;
      }
      if ToLower(mem[from + k]) != literal[k] {
        return false;
      }
      k := k + 1;
    }
    return true;
  }

  /** Only the name and its line end decide. */
  lemma BeginsEither(text: bytes, rest: bytes, literal: bytes)
    requires CR !in literal
    ensures Begins(text + CRLF + rest, literal + CRLF) <==> Begins(text + CRLF, literal + CRLF)
  {
    var t, u := text + CRLF + rest, text + CRLF;
    if |text| < |literal| {
      TooShort(t, |text|, literal);
      TooShort(u, |text|, literal);
    } else {
      assert forall k :: 0 <= k < |literal| + 2 ==> t[k] == u[k];
    }
  }

  /** What came of a command. */
  datatype Outcome = Accepted | Refused | Crashed

  /** The table keeps up with n more entries. */
  ghost predicate HasRoomFor(d: Dict<bytes, Callback>, n: nat)
    reads d
  {
    2 * d.size < LONG_MAX && 16 * (d.used + n + 1) < LONG_MAX
  }

  /** The filing of one callback. */
  method FileOne(d: Dict<bytes, Callback>, name: bytes, cb: Callback, ghost n: nat)
    requires d.Valid() == true && HasRoomFor(d, n + 1) == true
    modifies d.Repr
    ensures d.Valid() == true && fresh(d.Repr - old(d.Repr)) && HasRoomFor(d, n) == true
    ensures d.Contents() == old(d.Contents())[name := cb]
  {
    var added := d.Replace(name, cb);
  }

  /** The loop that files the callback in a table under every name from position p on. */
  method FileUnder(d: Dict<bytes, Callback>, mem: array<byte>, p: nat, cb: Callback, ghost args: seq<bytes>)
    requires d.Valid() == true && mem !in d.Repr && HasRoomFor(d, |args|) == true
    requires mem[..] == Memory(args) && args != [] && p == Offset(args, 1)
    modifies d.Repr
    ensures d.Valid() == true && fresh(d.Repr - old(d.Repr))
    ensures Filed(old(d.Contents()), d.Contents(), args[1..], cb) == true
  {
    ghost var j, was := 1, d.Contents();
    var q, more, name := p, true, [];
    while more
      invariant 1 <= j <= |args| && q == Offset(args, j) && mem[..] == Memory(args)
      invariant d.Valid() == true && mem !in d.Repr && fresh(d.Repr - old(d.Repr))
      invariant d.Contents() == FiledUnder(was, args[1..j], cb)
      invariant HasRoomFor(d, |args| - j) == true
      invariant !more ==> j == |args|
      decreases more, |args| - j
    {
      more, name, q := NextName(mem, q, args, j);
      if more {
        FiledOneMore(was, args, j, cb);
        FileOne(d, name, cb, |args| - j - 1);
        j := j + 1;
      }
    }
    FiledAll(was, args, cb);
  }

  /** What a client keeps between commands: the callbacks, what is still to be sent, and its flags. */
  datatype Books = Books(channels: map<bytes, Callback>, patterns: map<bytes, Callback>, replies: seq<Callback>,
                         invalid: seq<Callback>, obuf: bytes, subscribed: bool, monitoring: bool, closing: bool)

  /** The tables have the callback under the names of a subscription, and are otherwise the same. */
  ghost predicate Tables(b: Books, b': Books, subscribing: bool, pattern: bool, names: seq<bytes>, cb: Callback) {
    && (if subscribing && pattern then Filed(b.patterns, b'.patterns, names, cb) else b'.patterns == b.patterns)
    && (if subscribing && !pattern then Filed(b.channels, b'.channels, names, cb) else b'.channels == b.channels)
  }

  /** The callback of a command of this kind is where it belongs, its text is to be sent, and nothing else has
      changed. */
  ghost predicate Placed(b: Books, b': Books, kind: CommandKind, pattern: bool, names: seq<bytes>, cb: Callback,
                         text: bytes)
  {
    && Tables(b, b', kind == Subscribing, pattern, names, cb) == true
    && b'.obuf == b.obuf + text && b'.closing == b.closing
    && b'.subscribed == (b.subscribed || kind == Subscribing)
    && b'.monitoring == (b.monitoring || kind == Monitoring)
    && b'.replies == b.replies + (if kind == Monitoring || (kind == Ordinary && !b.subscribed) then [cb] else [])
    && b'.invalid == b.invalid + (if kind == Ordinary && b.subscribed then [cb] else [])
  }

  /** The callback of the command is where its name says: for a subscription under every name given,
      in the table of channels or of patterns; for an unsubscription nowhere; and else in a queue. */
  ghost predicate FiledByName(b: Books, b': Books, args: seq<bytes>, cb: Callback, text: bytes)
    requires args != []
  {
    var other := !Subscribes(args) && !PatternSubscribes(args) && !Unsubscribes(args) && !Monitors(args);
    && (if Subscribes(args) then Filed(b.channels, b'.channels, args[1..], cb) else b'.channels == b.channels)
    && (if PatternSubscribes(args) then Filed(b.patterns, b'.patterns, args[1..], cb) else b'.patterns == b.patterns)
    && b'.subscribed == (b.subscribed || Subscribes(args) || PatternSubscribes(args))
    && b'.monitoring == (b.monitoring || Monitors(args))
    && b'.replies == b.replies + (if Monitors(args) || (other && !b.subscribed) then [cb] else [])
    && b'.invalid == b.invalid + (if other && b.subscribed then [cb] else [])
    && b'.obuf == b.obuf + text && b'.closing == b.closing
  }

  lemma PlacedByName(b: Books, b': Books, args: seq<bytes>, cb: Callback, text: bytes)
    requires args != []
    ensures Placed(b, b', Purpose(args), IsPattern(args), args[1..], cb, text) <==> FiledByName(b, b', args, cb, text)
  {
    PurposeExact(args);
  }

  lemma PlacedWith(b: Books, b': Books, kind: CommandKind, pattern: bool, names: seq<bytes>, cb: Callback, text: bytes)
    requires Placed(b, b', kind, pattern, names, cb, []) == true
    ensures Placed(b, b'.(obuf := b'.obuf + text), kind, pattern, names, cb, text) == true
  {
  }

  class Client {
    var closing: bool         // REDIS_DISCONNECTING or REDIS_FREEING
    var subscribed: bool      // REDIS_SUBSCRIBED
    var monitoring: bool      // REDIS_MONITORING
    var replies: seq<Callback>
    var invalid: seq<Callback>
    const channels: Dict<bytes, Callback>
    const patterns: Dict<bytes, Callback>
    var obuf: bytes

    ghost predicate Valid()
      reads channels, channels.Repr, patterns, patterns.Repr
    {
      && channels.Valid() == true && patterns.Valid() == true
      && channels.Repr !! patterns.Repr && this !in channels.Repr + patterns.Repr
    }

    constructor (hash: bytes -> nat)
      ensures Valid() && fresh(channels.Repr) && fresh(patterns.Repr)
      ensures !closing && !subscribed && !monitoring && replies == invalid == [] && obuf == []
      ensures channels.Contents() == patterns.Contents() == map[]
    {
      closing, subscribed, monitoring := false, false, false;
      replies, invalid, obuf := [], [], [];
      channels := new Dict(hash);
      patterns := new Dict(hash);
    }

    /** Everything the client keeps. */
    ghost function Now(): Books
      reads this, channels, patterns
    {
      Books(channels.Contents(), patterns.Contents(), replies, invalid, obuf, subscribed, monitoring, closing)
    }

    /** The filing of a subscription to channels. */
    method FileChannels(mem: array<byte>, next: nat, cb: Callback, ghost args: seq<bytes>)
      requires Valid() == true && mem !in channels.Repr && HasRoomFor(channels, |args|)
      requires mem[..] == Memory(args) && args != [] && next == Offset(args, 1)
      modifies channels.Repr
      ensures Valid() == true && fresh(channels.Repr - old(channels.Repr)) && patterns.Repr == old(patterns.Repr)
      ensures Tables(old(Now()), Now(), true, false, args[1..], cb) == true
    {
      FileUnder(channels, mem, next, cb, args);
    }

    /** The filing of a subscription to patterns. */
    method FilePatterns(mem: array<byte>, next: nat, cb: Callback, ghost args: seq<bytes>)
      requires Valid() == true && mem !in patterns.Repr && HasRoomFor(patterns, |args|)
      requires mem[..] == Memory(args) && args != [] && next == Offset(args, 1)
      modifies patterns.Repr
      ensures Valid() == true && fresh(patterns.Repr - old(patterns.Repr)) && channels.Repr == old(channels.Repr)
      ensures Tables(old(Now()), Now(), true, true, args[1..], cb) == true
    {
      FileUnder(patterns, mem, next, cb, args);
    }

    /** The filing of a subscription. */
    method FileNames(mem: array<byte>, pattern: bool, next: nat, cb: Callback, ghost args: seq<bytes>)
      requires Valid() == true && mem !in channels.Repr + patterns.Repr
      requires HasRoomFor(channels, |args|) && HasRoomFor(patterns, |args|)
      requires mem[..] == Memory(args) && args != [] && next == Offset(args, 1)
      modifies channels.Repr, patterns.Repr
      ensures Valid() == true && fresh(channels.Repr - old(channels.Repr)) && fresh(patterns.Repr - old(patterns.Repr))
      ensures Tables(old(Now()), Now(), true, pattern, args[1..], cb) == true
    {
      if pattern {
        FilePatterns(mem, next, cb, args);
      } else {
        FileChannels(mem, next, cb, args);
      }
    }

    /** The branches for other commands. */
    method Enqueue(kind: CommandKind, cb: Callback) returns (r: Outcome)
      requires kind != Subscribing
      modifies this`monitoring, this`replies, this`invalid
      ensures r == if kind == Unsubscribing && !subscribed then Refused else Accepted
      ensures r == Refused ==> replies == old(replies) && invalid == old(invalid) && monitoring == old(monitoring)
      ensures r == Accepted ==> monitoring == (old(monitoring) || kind == Monitoring)
      ensures r == Accepted ==>
                replies == old(replies) + if kind == Monitoring || (kind == Ordinary && !subscribed) then [cb] else []
      ensures r == Accepted ==> invalid == old(invalid) + if kind == Ordinary && subscribed then [cb] else []
    {
      r := Accepted;
      if kind == Unsubscribing {
        if !subscribed {
          return Refused;
        }
      } else if kind == Monitoring {
        monitoring := true;
        replies := replies + [cb];
      } else if subscribed {
        invalid := invalid + [cb];
      } else {
        replies := replies + [cb];
      }
    }

    /** A subscription: the callback goes under every name, and the connection counts as subscribed. */
    method FileSubscription(mem: array<byte>, pattern: bool, next: nat, cb: Callback, ghost args: seq<bytes>)
      requires Valid() == true && mem !in channels.Repr + patterns.Repr
      requires HasRoomFor(channels, |args|) && HasRoomFor(patterns, |args|)
      requires mem[..] == Memory(args) && args != [] && next == Offset(args, 1)
      modifies this`subscribed, channels.Repr, patterns.Repr
      ensures Valid() == true && fresh(channels.Repr - old(channels.Repr)) && fresh(patterns.Repr - old(patterns.Repr))
      ensures Placed(old(Now()), Now(), Subscribing, pattern, args[1..], cb, []) == true
    {
      subscribed := true;
      FileNames(mem, pattern, next, cb, args);
    }

    /** The part of `__redisAsyncCommand` after the tests on the name. */
    method Place(mem: array<byte>, kind: CommandKind, pattern: bool, next: nat, cb: Callback, ghost args: seq<bytes>)
      returns (r: Outcome)
      requires Valid() == true && mem !in channels.Repr + patterns.Repr
      requires HasRoomFor(channels, |args|) && HasRoomFor(patterns, |args|)
      requires mem[..] == Memory(args) && args != [] && next == Offset(args, 1)
      modifies this`subscribed, this`monitoring, this`replies, this`invalid, channels.Repr, patterns.Repr
      ensures Valid() == true && fresh(channels.Repr - old(channels.Repr)) && fresh(patterns.Repr - old(patterns.Repr))
      ensures r == if kind == Unsubscribing && !old(subscribed) then Refused else Accepted
      ensures r == Refused ==> Now() == old(Now())
      ensures r == Accepted ==> Placed(old(Now()), Now(), kind, pattern, args[1..], cb, []) == true
    {
      if kind == Subscribing {
        FileSubscription(mem, pattern, next, cb, args);
        r := Accepted;
      } else {
        r := Enqueue(kind, cb);
      }
    }

    /** All that follows the tests on the name. */
    method Carry(mem: array<byte>, kind: CommandKind, pattern: bool, next: nat, cb: Callback, ghost args: seq<bytes>)
      returns (r: Outcome)
      requires Valid() == true && mem !in channels.Repr + patterns.Repr
      requires HasRoomFor(channels, |args|) && HasRoomFor(patterns, |args|)
      requires mem[..] == Memory(args) && mem.Length > 0 && args != [] && next == Offset(args, 1)
      modifies this, channels.Repr, patterns.Repr
      ensures Valid() == true && fresh(channels.Repr - old(channels.Repr)) && fresh(patterns.Repr - old(patterns.Repr))
      ensures r == if kind == Unsubscribing && !old(subscribed) then Refused else Accepted
      ensures r == Refused ==> Now() == old(Now())
      ensures r == Accepted ==>
                Placed(old(Now()), Now(), kind, pattern, args[1..], cb, mem[..mem.Length - 1]) == true
    {
      r := Place(mem, kind, pattern, next, cb, args);
      if r == Accepted {
        ghost var b := Now();
        obuf := obuf + mem[..mem.Length - 1];
        PlacedWith(old(Now()), b, kind, pattern, args[1..], cb, mem[..mem.Length - 1]);
        assert Now() == b.(obuf := b.obuf + mem[..mem.Length - 1]);
      }
    }

    /** A command that is not refused outright. */
    method Take(mem: array<byte>, cb: Callback, ghost args: seq<bytes>) returns (r: Outcome)
      requires Valid() == true && mem !in channels.Repr + patterns.Repr
      requires HasRoomFor(channels, |args|) && HasRoomFor(patterns, |args|)
      requires mem[..] == Memory(args)
      modifies this, channels.Repr, patterns.Repr
      ensures Valid() == true && fresh(channels.Repr - old(channels.Repr)) && fresh(patterns.Repr - old(patterns.Repr))
      ensures r == if args == [] then Crashed
                   else if Purpose(args) == Unsubscribing && !old(subscribed) then Refused else Accepted
      ensures r != Accepted ==> Now() == old(Now())
      ensures r == Accepted ==>
                Placed(old(Now()), Now(), Purpose(args), IsPattern(args), args[1..], cb, mem[..mem.Length - 1]) == true
    {
      var known, kind, pattern, next := Recognise(mem, args);
      if !known {
        return Crashed;
      }
      assert Now() == old(Now());
      r := Carry(mem, kind, pattern, next, cb, args);
    }

    /** `__redisAsyncCommand` on a formatted command. */
    method AsyncCommand(mem: array<byte>, cb: Callback, ghost args: seq<bytes>) returns (r: Outcome)
      requires Valid() == true && mem !in channels.Repr + patterns.Repr
      requires HasRoomFor(channels, |args|) && HasRoomFor(patterns, |args|)
      requires mem[..] == Memory(args)
      modifies this, channels.Repr, patterns.Repr
      ensures Valid() == true && fresh(channels.Repr - old(channels.Repr)) && fresh(patterns.Repr - old(patterns.Repr))
      ensures r == if old(closing) then Refused
                   else if args == [] then Crashed
                   else if Unsubscribes(args) && !old(subscribed) then Refused else Accepted
      ensures r != Accepted ==> Now() == old(Now())
      ensures r == Accepted ==> FiledByName(old(Now()), Now(), args, cb, mem[..mem.Length - 1]) == true
    {
      if closing {
        return Refused;
      }
      r := Take(mem, cb, args);
      if args != [] {
        PurposeExact(args);
        PlacedByName(old(Now()), Now(), args, cb, mem[..mem.Length - 1]);
      }
    }
  }

  /** The first part of `__redisAsyncCommand`: which command it is, and where its second argument is. */
  method Recognise(mem: array<byte>, ghost args: seq<bytes>)
    returns (known: bool, kind: CommandKind, pattern: bool, next: nat)
    requires mem[..] == Memory(args)
    ensures known == (args != []) && mem.Length > 0
    ensures known ==> kind == Purpose(args) && pattern == IsPattern(args) && next == Offset(args, 1)
  {
    FirstArgument(args);
    assert mem[..][mem.Length - 1] == NUL;
    var first := NextArgument(mem, 0);
    known, kind, pattern, next := first.Arg?, Ordinary, false, 0;
    if known {
      kind, pattern := Classify(mem, first, args);
      next := first.next;
    }
  }

  lemma FirstArgument(args: seq<bytes>)
    ensures var mem := Memory(args); mem[|mem| - 1] == NUL && (NextOf(mem, 0).Arg? <==> args != [])
  {
    NextAtEnds(args);
    if args != [] {
      NextAt(args, 0);
    }
  }

  /** Where the name is, and what it begins with. */
  lemma NameSlice(mem: bytes, at: nat, args: seq<bytes>) returns (str: nat)
    requires args != [] && at + |args[0]| + 2 <= |mem| && mem[at..at + |args[0]| + 2] == args[0] + CRLF
    ensures (ToLower(mem[at]) == 112 <==> IsPattern(args)) && str == at + (if IsPattern(args) then 1 else 0) <= |mem|
    ensures Begins(mem[str..], SUBSCRIBE) == Begins(Name(args), SUBSCRIBE)
    ensures Begins(mem[str..], UNSUBSCRIBE) == Begins(Name(args), UNSUBSCRIBE)
    ensures Begins(mem[str..], MONITOR) == Begins(Name(args), MONITOR)
  {
    var text := args[0] + CRLF;
    assert mem[at] == text[0];
    str := at + if IsPattern(args) then 1 else 0;
    var rest := mem[at + |text|..];
    assert mem[at..] == text + rest;
    assert mem[str..] == mem[at..][str - at..];
    assert text[str - at..] == Name(args);
    assert mem[str..] == Name(args) + rest;
    NameBegins(args, rest);
  }

  /** The tests of `__redisAsyncCommand` on the command's name. */
  method Classify(mem: array<byte>, first: Next, ghost args: seq<bytes>) returns (kind: CommandKind, pattern: bool)
    requires mem[..] == Memory(args) && args != [] && first == NextOf(mem[..], 0)
    ensures first.Arg? && first.next == Offset(args, 1)
    ensures kind == Purpose(args) && pattern == IsPattern(args)
  {
    NameInMemory(args);
    assert mem[..][mem.Length - 1] == NUL by { NextAtEnds(args); }
    ghost var str' := NameSlice(mem[..], first.str, args);
    var str := first.str;
    var hasnext := mem[first.next] == DOLLAR;
    pattern := ToLower(mem[str]) == 112;
    if pattern {
      str := str + 1;
    }
    assert mem[str..] == mem[..][str'..];
    var s := Matches(mem, str, SUBSCRIBE);
    var u := Matches(mem, str, UNSUBSCRIBE);
    var m := Matches(mem, str, MONITOR);
    kind := if hasnext && s then Subscribing else if u then Unsubscribing else if m then Monitoring else Ordinary;
  }

  lemma NameBegins(args: seq<bytes>, rest: bytes)
    requires args != []
    ensures Begins(Name(args) + rest, SUBSCRIBE) == Begins(Name(args), SUBSCRIBE)
    ensures Begins(Name(args) + rest, UNSUBSCRIBE) == Begins(Name(args), UNSUBSCRIBE)
    ensures Begins(Name(args) + rest, MONITOR) == Begins(Name(args), MONITOR)
  {
    var text := if IsPattern(args) then args[0][1..] else args[0];
    BeginsEither(text, rest, SUBSCRIBE[..9]);
    BeginsEither(text, rest, UNSUBSCRIBE[..11]);
    BeginsEither(text, rest, MONITOR[..7]);
    assert SUBSCRIBE[..9] + CRLF == SUBSCRIBE && UNSUBSCRIBE[..11] + CRLF == UNSUBSCRIBE;
    assert MONITOR[..7] + CRLF == MONITOR;
  }
}
