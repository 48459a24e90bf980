/** Splitting a string at a separator (`sdssplitlen` in `sds.c`), the inverse of joining. */
module Split {
  import opened Bytes

  /** The separator occurs at position k: `memcmp`. */
  predicate At(s: bytes, sep: bytes, k: int) {
    0 <= k && k + |sep| <= |s| && forall i :: 0 <= i < |sep| ==> s[k + i] == sep[i]
  }

  lemma AtSlice(s: bytes, sep: bytes, k: nat)
    requires k + |sep| <= |s|
    ensures At(s, sep, k) <==> s[k..k + |sep|] == sep
  {
    var t := s[k..k + |sep|];
    assert forall i :: 0 <= i < |sep| ==> t[i] == s[k + i];
  }

  /** The first place at or after j where sep occurs in s, or -1. */
  function Find(s: bytes, sep: bytes, j: nat): (p: int)
    ensures p == -1 || (j <= p && At(s, sep, p))
    decreases |s| - j
  {
    if At(s, sep, j) then j else if j < |s| then Find(s, sep, j + 1) else -1
  }

  ghost predicate Contains(s: bytes, sep: bytes) {
    exists k :: At(s, sep, k)
  }

  /** The tokens of s from `start` on, separators found from left to right without overlap. */
  function Tokens(s: bytes, sep: bytes, start: nat): (r: seq<bytes>)
    requires sep != [] && start <= |s|
    ensures r != []
    decreases |s| - start
  {
    var p := Find(s, sep, start);
    if p == -1 then [s[start..]] else [s[start..p]] + Tokens(s, sep, p + |sep|)
  }

  function Join(tokens: seq<bytes>, sep: bytes): bytes {
    if tokens == [] then []
    else if |tokens| == 1 then tokens[0]
    else tokens[0] + sep + Join(tokens[1..], sep)
  }

  // ---------------------------------------------------------------- from strings to tokens and back

  lemma {:induction false} FindLeast(s: bytes, sep: bytes, j: nat, k: nat)
    requires j <= k && At(s, sep, k)
    ensures j <= Find(s, sep, j) <= k
    decreases k - j
  {
    if !At(s, sep, j) {
      FindLeast(s, sep, j + 1, k);
    }
  }

  lemma TokensFound(s: bytes, sep: bytes, start: nat, p: nat, t: bytes)
    requires sep != [] && start <= |s| && Find(s, sep, start) == p && s[start..p] == t
    ensures Tokens(s, sep, start) == [t] + Tokens(s, sep, p + |sep|)
  {
  }

  lemma JoinCons(t: bytes, rest: seq<bytes>, sep: bytes)
    requires rest != []
    ensures Join([t] + rest, sep) == t + sep + Join(rest, sep)
  {
    ConsParts(t, rest);
  }

  lemma ThreeParts(s: bytes, i: nat, j: nat, k: nat)
    requires i <= j <= k <= |s|
    ensures s[i..] == s[i..j] + s[j..k] + s[k..]
  {
  }

  /** The tokens from `start` on, joined, are that part of s. */
  ghost predicate Rejoins(s: bytes, sep: bytes, start: nat)
    requires sep != [] && start <= |s|
  {
    Join(Tokens(s, sep, start), sep) == s[start..]
  }

  lemma JoinLast(s: bytes, sep: bytes, start: nat)
    requires sep != [] && start <= |s| && Find(s, sep, start) == -1
    ensures Rejoins(s, sep, start)
  {
  }

  lemma JoinStep(s: bytes, sep: bytes, start: nat, p: nat)
    requires sep != [] && start <= |s| && Find(s, sep, start) == p && Rejoins(s, sep, p + |sep|)
    ensures Rejoins(s, sep, start)
  {
    TokensFound(s, sep, start, p, s[start..p]);
    JoinCons(s[start..p], Tokens(s, sep, p + |sep|), sep);
    AtSlice(s, sep, p);
    ThreeParts(s, start, p, p + |sep|);
  }

  lemma {:induction false} TokensRejoin(s: bytes, sep: bytes, start: nat)
    requires sep != [] && start <= |s|
    ensures Rejoins(s, sep, start) == true
    decreases |s| - start
  {
    var p := Find(s, sep, start);
    if p != -1 {
      TokensRejoin(s, sep, p + |sep|);
      JoinStep(s, sep, start, p);
    } else {
      JoinLast(s, sep, start);
    }
  }

  /** Joining the tokens gives the string back. */
  lemma JoinTokens(s: bytes, sep: bytes, start: nat)
    requires sep != [] && start <= |s|
    ensures Join(Tokens(s, sep, start), sep) == s[start..]
  {
    TokensRejoin(s, sep, start);
    assert Rejoins(s, sep, start);
  }

  /** A part of s without any separator. */
  lemma PartFree(s: bytes, sep: bytes, start: nat, end: nat)
    requires start <= end <= |s| && sep != [] && (Find(s, sep, start) == -1 || end <= Find(s, sep, start))
    ensures !Contains(s[start..end], sep)
  {
    forall k ensures !At(s[start..end], sep, k) {
      if At(s[start..end], sep, k) {
        assert At(s, sep, start + k);
        FindLeast(s, sep, start, start + k);
      }
    }
  }

  /** No token contains the separator. */
  lemma {:induction false} TokensFree(s: bytes, sep: bytes, start: nat)
    requires sep != [] && start <= |s|
    ensures forall i :: 0 <= i < |Tokens(s, sep, start)| ==> !Contains(Tokens(s, sep, start)[i], sep)
    decreases |s| - start
  {
    var p := Find(s, sep, start);
    PartFree(s, sep, start, if p == -1 then |s| else p);
    if p != -1 {
      TokensFree(s, sep, p + |sep|);
    } else {
      assert s[start..|s|] == s[start..];
    }
  }

  // ---------------------------------------------------------------- from tokens to strings and back

  /** Each token but the last is followed by the first separator from its start on, and the last
      one holds none. */
  ghost predicate Separable(tokens: seq<bytes>, sep: bytes) {
    tokens != []
    && if |tokens| == 1 then Find(tokens[0], sep, 0) == -1
       else Find(tokens[0] + sep, sep, 0) == |tokens[0]| && Separable(tokens[1..], sep)
  }

  /** The bytes of y from n on are s. */
  ghost predicate Ends(y: bytes, n: nat, s: bytes) {
    |y| == n + |s| && forall i {:trigger s[i]} :: 0 <= i < |s| ==> y[n + i] == s[i]
  }

  lemma EndsParts(y: bytes, n: nat, s: bytes, j: nat, p: nat)
    requires Ends(y, n, s) && j <= p <= |s|
    ensures y[n + j..n + p] == s[j..p] && y[n + j..] == s[j..]
  {
    var a, b := y[n + j..], s[j..];
    forall i | 0 <= i < |b| ensures a[i] == b[i] {
      assert b[i] == s[j + i];
    }
    assert y[n + j..n + p] == a[..p - j] && s[j..p] == b[..p - j];
  }

  lemma AtShift(y: bytes, n: nat, s: bytes, sep: bytes, k: nat)
    requires Ends(y, n, s)
    ensures At(y, sep, n + k) <==> At(s, sep, k)
  {
    if k + |sep| <= |s| {
      EndsParts(y, n, s, k, k + |sep|);
      AtSlice(y, sep, n + k);
      AtSlice(s, sep, k);
    }
  }

  lemma {:induction false} FindShift(y: bytes, n: nat, s: bytes, sep: bytes, j: nat)
    requires Ends(y, n, s)
    ensures Find(y, sep, n + j) == if Find(s, sep, j) == -1 then -1 else n + Find(s, sep, j)
    decreases |s| - j
  {
    AtShift(y, n, s, sep, j);
    if j < |s| {
      FindShift(y, n, s, sep, j + 1);
    }
  }

  /** What comes before does not matter. */
  lemma {:induction false} TokensShift(y: bytes, n: nat, s: bytes, sep: bytes, j: nat)
    requires Ends(y, n, s) && sep != [] && j <= |s|
    ensures Tokens(y, sep, n + j) == Tokens(s, sep, j)
    decreases |s| - j
  {
    FindShift(y, n, s, sep, j);
    var p := Find(s, sep, j);
    if p == -1 {
      ShiftLast(y, n, s, sep, j);
    } else {
      TokensShift(y, n, s, sep, p + |sep|);
      ShiftToken(y, n, s, sep, j, p, n + (p + |sep|));
    }
  }

  lemma ShiftLast(y: bytes, n: nat, s: bytes, sep: bytes, j: nat)
    requires Ends(y, n, s) && sep != [] && j <= |s| && Find(y, sep, n + j) == Find(s, sep, j) == -1
    ensures Tokens(y, sep, n + j) == Tokens(s, sep, j)
  {
    EndsParts(y, n, s, j, |s|);
    SameLast(y, s, sep, n + j, j);
  }

  lemma ShiftToken(y: bytes, n: nat, s: bytes, sep: bytes, j: nat, p: nat, q: nat)
    requires Ends(y, n, s) && sep != [] && j <= |s| && Find(y, sep, n + j) == n + p && Find(s, sep, j) == p
    requires q == n + p + |sep| && Tokens(y, sep, q) == Tokens(s, sep, p + |sep|)
    ensures Tokens(y, sep, n + j) == Tokens(s, sep, j)
  {
    EndsParts(y, n, s, j, p);
    SameToken(y, s, sep, n + j, j, n + p, p);
  }

  lemma SameLast(y: bytes, s: bytes, sep: bytes, i: nat, j: nat)
    requires sep != [] && i <= |y| && j <= |s| && Find(y, sep, i) == Find(s, sep, j) == -1 && y[i..] == s[j..]
    ensures Tokens(y, sep, i) == Tokens(s, sep, j)
  {
  }

  lemma SameToken(y: bytes, s: bytes, sep: bytes, i: nat, j: nat, q: nat, p: nat)
    requires sep != [] && i <= |y| && j <= |s| && Find(y, sep, i) == q && Find(s, sep, j) == p && y[i..q] == s[j..p]
    requires Tokens(y, sep, q + |sep|) == Tokens(s, sep, p + |sep|)
    ensures Tokens(y, sep, i) == Tokens(s, sep, j)
  {
    TokensFound(y, sep, i, q, s[j..p]);
    TokensFound(s, sep, j, p, s[j..p]);
  }

  lemma AtPrefix(x: bytes, y: bytes, sep: bytes, k: int)
    requires k + |sep| <= |x|
    ensures At(x, sep, k) <==> At(x + y, sep, k)
  {
    if k >= 0 {
      assert (x + y)[k..k + |sep|] == x[k..k + |sep|];
      AtSlice(x, sep, k);
      AtSlice(x + y, sep, k);
    }
  }

  /** Where the first separator in t + sep is does not depend on what follows. */
  lemma FindPrefix(t: bytes, sep: bytes, rest: bytes)
    ensures 0 <= Find(t + sep + rest, sep, 0) == Find(t + sep, sep, 0) <= |t|
  {
    var x := t + sep;
    assert At(x, sep, |t|);
    AtPrefix(x, rest, sep, |t|);
    FindLeast(x, sep, 0, |t|);
    FindLeast(x + rest, sep, 0, |t|);
    var i, j := Find(x, sep, 0), Find(x + rest, sep, 0);
    AtPrefix(x, rest, sep, i);
    AtPrefix(x, rest, sep, j);
    FindLeast(x, sep, 0, j);
    FindLeast(x + rest, sep, 0, i);
  }

  lemma TokensOf(t: bytes, sep: bytes, rest: bytes)
    requires sep != []
    ensures var p, r := Find(t + sep, sep, 0), Tokens(t + sep + rest, sep, 0);
            0 <= p <= |t| && r[0] == t[..p] && (p == |t| ==> r[1..] == Tokens(rest, sep, 0))
  {
    FindPrefix(t, sep, rest);
    var p := Find(t + sep, sep, 0);
    FrontPart(t, sep, rest, p);
    FirstToken(t + sep + rest, sep, p, t[..p], |t| + |sep|, rest);
  }

  lemma FirstToken(s: bytes, sep: bytes, p: nat, t: bytes, n: nat, rest: bytes)
    requires sep != [] && Find(s, sep, 0) == p && s[0..p] == t && Ends(s, n, rest)
    ensures Tokens(s, sep, 0)[0] == t && (p + |sep| == n ==> Tokens(s, sep, 0)[1..] == Tokens(rest, sep, 0))
  {
    TokensHead(s, sep, p, t);
    if p + |sep| == n {
      TokensAfter(s, n, rest, sep);
    }
  }

  lemma TokensHead(s: bytes, sep: bytes, p: nat, t: bytes)
    requires sep != [] && Find(s, sep, 0) == p && s[0..p] == t
    ensures Tokens(s, sep, 0)[0] == t && Tokens(s, sep, 0)[1..] == Tokens(s, sep, p + |sep|)
  {
    TokensFound(s, sep, 0, p, t);
    ConsParts(t, Tokens(s, sep, p + |sep|));
  }

  lemma TokensAfter(y: bytes, n: nat, s: bytes, sep: bytes)
    requires Ends(y, n, s) && sep != []
    ensures Tokens(y, sep, n) == Tokens(s, sep, 0)
  {
    TokensShift(y, n, s, sep, 0);
  }

  lemma FrontPart(t: bytes, sep: bytes, rest: bytes, p: nat)
    requires p <= |t|
    ensures (t + sep + rest)[0..p] == t[..p]
  {
  }

  lemma Pairs(r: seq<bytes>, tokens: seq<bytes>)
    requires r != [] && tokens != []
    ensures r == tokens <==> r[0] == tokens[0] && r[1..] == tokens[1..]
  {
    assert r == [r[0]] + r[1..] && tokens == [tokens[0]] + tokens[1..];
  }

  /** Splitting gives back the tokens that were joined, if and only if they are separable. */
  lemma {:induction false} SplitJoin(tokens: seq<bytes>, sep: bytes)
    requires sep != [] && tokens != []
    ensures Tokens(Join(tokens, sep), sep, 0) == tokens <==> Separable(tokens, sep)
    decreases |tokens|
  {
    if |tokens| == 1 {
      var s := tokens[0];
      assert tokens == [s] && s[0..] == s;
      assert Find(s, sep, 0) != -1 ==> |Tokens(s, sep, 0)| >= 2;
    } else {
      var t, rest := tokens[0], Join(tokens[1..], sep);
      SplitJoin(tokens[1..], sep);
      TokensOf(t, sep, rest);
      Pairs(Tokens(t + sep + rest, sep, 0), tokens);
    }
  }

  // ---------------------------------------------------------------- the split in place

  /** Too near the end for a separator. */
  lemma {:induction false} NoMore(s: bytes, sep: bytes, j: nat)
    requires sep != [] && j + |sep| > |s|
    ensures Find(s, sep, j) == -1
    decreases |s| - j
  {
    if j < |s| {
      NoMore(s, sep, j + 1);
    }
  }

  /** The tokens up to `start` are done. */
  ghost predicate SoFar(s: bytes, sep: bytes, done: seq<bytes>, start: nat)
    requires sep != [] && start <= |s|
  {
    Tokens(s, sep, 0) == done + Tokens(s, sep, start)
  }

  /** From `start` on there is no separator before j. */
  ghost predicate NoneIn(s: bytes, sep: bytes, start: nat, j: nat) {
    forall k :: start <= k < j ==> !At(s, sep, k)
  }

  lemma NoneYet(s: bytes, sep: bytes, start: nat)
    ensures NoneIn(s, sep, start, start)
  {
  }

  lemma NotHere(s: bytes, sep: bytes, start: nat, j: nat)
    requires NoneIn(s, sep, start, j) == true && !At(s, sep, j)
    ensures NoneIn(s, sep, start, j + 1)
  {
  }

  lemma {:induction false} FindSkips(s: bytes, sep: bytes, start: nat, j: nat)
    requires start <= j <= |s| + 1 && NoneIn(s, sep, start, j)
    ensures Find(s, sep, start) == if j <= |s| then Find(s, sep, j) else -1
    decreases |s| + 1 - start
  {
    if start < j {
      assert !At(s, sep, start);
      if start < |s| {
        FindSkips(s, sep, start + 1, j);
      }
    }
  }

  lemma OneMore(s: bytes, sep: bytes, done: seq<bytes>, start: nat, j: nat)
    requires sep != [] && start <= j <= |s| && SoFar(s, sep, done, start)
    requires At(s, sep, j) && NoneIn(s, sep, start, j)
    ensures SoFar(s, sep, done + [s[start..j]], j + |sep|)
  {
    FindSkips(s, sep, start, j);
    TokensFound(s, sep, start, j, s[start..j]);
    Assoc(done, [s[start..j]], Tokens(s, sep, j + |sep|));
  }

  lemma LastOne(s: bytes, sep: bytes, done: seq<bytes>, start: nat, j: nat)
    requires sep != [] && start <= |s| && start <= j <= |s| && j + |sep| > |s|
    requires SoFar(s, sep, done, start) && NoneIn(s, sep, start, j)
    ensures Tokens(s, sep, 0) == done + [s[start..]]
  {
    FindSkips(s, sep, start, j);
    NoMore(s, sep, j);
  }

  /** Room for the next token and the final one: the slots are doubled when there are too few. */
  method Room(tokens: array<bytes>, elements: nat) returns (r: array<bytes>)
    requires elements < tokens.Length
    ensures r == tokens || fresh(r)
    ensures r.Length >= elements + 2 && r[..elements] == tokens[..elements]
  {
    var slots := tokens.Length;
    r := tokens;
    if slots < elements + 2 {
      slots := slots * 2;
      r := new bytes[slots](i requires 0 <= i reads tokens => if i < tokens.Length then tokens[i] else []);
    }
  }

  method Put(tokens: array<bytes>, k: nat, t: bytes)
    requires k < tokens.Length
    modifies tokens
    ensures tokens[..k + 1] == old(tokens[..k]) + [t]
  {
    tokens[k] := t;
  }

  /** The loop of `sdssplitlen`; every write stays inside the slots. */
  method SplitLoop(s: bytes, sep: bytes) returns (r: seq<bytes>)
    requires sep != []
    ensures r == Tokens(s, sep, 0)
  {
    var elements, start := 0, 0;
    var tokens := new bytes[5](_ => []);
    var j := 0;
    ghost var done: seq<bytes> := [];
    while j < |s| - (|sep| - 1)
      invariant 0 <= start <= |s| && start <= j && (j <= |s| - (|sep| - 1) || j == start)
      invariant 0 <= elements < tokens.Length && fresh(tokens)
      invariant tokens[..elements] == done && SoFar(s, sep, done, start) == true
      invariant NoneIn(s, sep, start, j) == true
      decreases |s| - j
    {
      tokens := Room(tokens, elements);
      if At(s, sep, j) {
        OneMore(s, sep, done, start, j);
        Put(tokens, elements, s[start..j]);
        done := done + [s[start..j]];
        elements := elements + 1;
        start := j + |sep|;
        j := j + |sep| - 1;
        NoneYet(s, sep, start);
      } else {
        NotHere(s, sep, start, j);
      }
      j := j + 1;
    }
    LastOne(s, sep, done, start, j);
    Put(tokens, elements, s[start..]);
    elements := elements + 1;
    r := tokens[..elements];
  }

  /** `sdssplitlen`: none for an empty separator, no tokens for an empty string, and else the
      tokens. */
  method SplitLen(s: bytes, sep: bytes) returns (r: Option<seq<bytes>>)
    ensures sep == [] ==> r == None
    ensures sep != [] && s == [] ==> r == Some([])
    ensures sep != [] && s != [] ==>
              r.Some? && Join(r.value, sep) == s && forall t :: t in r.value ==> !Contains(t, sep)
    ensures sep != [] && s != [] ==> r == Some(Tokens(s, sep, 0))
  {
    if |sep| < 1 {
      return None;
    }
    if |s| == 0 {
      return Some([]);
    }
    var tokens := SplitLoop(s, sep);
    JoinTokens(s, sep, 0);
    TokensFree(s, sep, 0);
    assert s[0..] == s;
    return Some(tokens);
  }
}
