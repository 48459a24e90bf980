/** The per-socket send queues of `lsendbuf.cc`: linked blocks that move between the chains of
    the sockets and 32 free lists, one for each power-of-two size. */
module SendBuf {
  import opened Bytes
  import opened Powers

  const MAX_SOCKET: nat := 65536
  const MAX_TABLE: nat := 32
  const HEADER: nat := 24         // sizeof(BBuf_Block)
  const MIN_BLOCK: nat := 4096
  const MAX_BLOCK: nat := 0x4000_0000  // the largest block an int can describe
  const MAX_SIZE: nat := 0x8000_0000   // the largest power of two that `hash` can shift to

  /** The address of a block, or NULL. */
  type Ptr = int

  const NULL: Ptr := -1

  /** `BBuf_Block`. */
  datatype Block = Block(next: Ptr, bufSize: nat, bufLen: nat, rptr: nat, buf: bytes)

  /** `BBuf`. */
  datatype BBuf = BBuf(head: Ptr, tail: Ptr)

  // ---------------------------------------------------------------- who has which block

  function First(c: seq<Ptr>): Ptr {
    if c == [] then NULL else c[0]
  }

  function Last(c: seq<Ptr>): Ptr {
    if c == [] then NULL else c[|c| - 1]
  }

  datatype Owner = FreeList(i: nat) | Socket(fd: nat)

  /** A block's place: its list and its number there; numbers do not change while it stays. */
  datatype Spot = Spot(owner: Owner, number: int)

  /** All blocks and all lists of blocks. The block at position k of list o is number base[o] + k
      of that list. */
  datatype World = World(blocks: seq<Block>, home: seq<Spot>, lists: map<Owner, seq<Ptr>>, base: map<Owner, int>)

  /** A block with room for n bytes is 2^i bytes in total. */
  ghost predicate Sized(n: nat, i: nat) {
    i < MAX_TABLE - 1 && n + HEADER == Pow2(i)
  }

  /** A block fits the list it is in: total size 2^i in free list i; in a chain, some power of
      two and cursors within bounds. */
  ghost predicate Fits(b: Block, o: Owner) {
    && |b.buf| == b.bufSize
    && match o
       case FreeList(i) => Sized(b.bufSize, i)
       case Socket(_) => b.rptr <= b.bufLen <= b.bufSize && exists i :: Sized(b.bufSize, i)
  }

  /** Block k of the list c points to the one after it. */
  ghost predicate NextOk(blocks: seq<Block>, c: seq<Ptr>, k: nat)
    requires k < |c| && 0 <= c[k] < |blocks|
  {
    blocks[c[k]].next == if k + 1 < |c| then c[k + 1] else NULL
  }

  /** The list o runs through exactly the blocks c, which know that they are in it. */
  ghost predicate ListOk(blocks: seq<Block>, home: seq<Spot>, o: Owner, base: int, c: seq<Ptr>) {
    && |home| == |blocks|
    && (forall k :: 0 <= k < |c| ==> 0 <= c[k] < |blocks| && home[c[k]] == Spot(o, base + k) && Fits(blocks[c[k]], o))
    && (forall k :: 0 <= k < |c| ==> NextOk(blocks, c, k))
  }

  /** The block p is where it says it is. */
  ghost predicate SpotOk(w: World, p: Ptr)
    requires w.lists.Keys == w.base.Keys && 0 <= p < |w.home|
  {
    var s := w.home[p];
    && s.owner in w.lists && 0 <= s.number - w.base[s.owner] < |w.lists[s.owner]|
    && w.lists[s.owner][s.number - w.base[s.owner]] == p
  }

  ghost predicate AtHome(w: World) {
    w.lists.Keys == w.base.Keys && |w.home| == |w.blocks| && forall p :: 0 <= p < |w.home| ==> SpotOk(w, p)
  }

  ghost predicate Ok(w: World) {
    AtHome(w)
    && forall o {:trigger ListOk(w.blocks, w.home, o, w.base[o], w.lists[o])} ::
         o in w.lists ==> ListOk(w.blocks, w.home, o, w.base[o], w.lists[o])
  }

  /** Ownership: every block ever made is in exactly one list, at exactly one position, and that
      list is a free list of its size or the chain of one socket. */
  lemma OneOwner(w: World, p: Ptr)
    requires Ok(w) && 0 <= p < |w.blocks|
    ensures exists o, k :: o in w.lists && 0 <= k < |w.lists[o]| && w.lists[o][k] == p
    ensures forall o, k :: o in w.lists && 0 <= k < |w.lists[o]| && w.lists[o][k] == p ==>
              o == w.home[p].owner && k == w.home[p].number - w.base[o]
    ensures w.home[p].owner.FreeList? ==> w.blocks[p].bufSize + HEADER == Pow2(w.home[p].owner.i)
  {
    var s := w.home[p];
    assert SpotOk(w, p);
    assert ListOk(w.blocks, w.home, s.owner, w.base[s.owner], w.lists[s.owner]);
    forall o, k | o in w.lists && 0 <= k < |w.lists[o]| && w.lists[o][k] == p
      ensures o == s.owner && k == s.number - w.base[s.owner]
    {
      assert ListOk(w.blocks, w.home, o, w.base[o], w.lists[o]);
    }
  }

  /** A list none of whose blocks changed. */
  lemma ListFrame(blocks: seq<Block>, home: seq<Spot>, blocks': seq<Block>, home': seq<Spot>, o: Owner, base: int,
                  c: seq<Ptr>)
    requires ListOk(blocks, home, o, base, c) && |blocks| <= |blocks'| == |home'|
    requires forall k :: 0 <= k < |c| ==> blocks'[c[k]] == blocks[c[k]] && home'[c[k]] == home[c[k]]
    ensures ListOk(blocks', home', o, base, c)
  {
    forall k | 0 <= k < |c| ensures 0 <= c[k] < |blocks'| && NextOk(blocks', c, k) {
      assert NextOk(blocks, c, k);
    }
  }

  lemma ListPop(blocks: seq<Block>, home: seq<Spot>, o: Owner, base: int, c: seq<Ptr>)
    requires ListOk(blocks, home, o, base, c) && c != []
    ensures ListOk(blocks, home, o, base + 1, c[1..]) && c[0] !in c[1..]
  {
    forall k | 0 <= k < |c[1..]| ensures 0 <= c[1..][k] < |blocks| && c[1..][k] != c[0] && NextOk(blocks, c[1..], k) {
      assert NextOk(blocks, c, k + 1) && home[c[k + 1]].number == base + k + 1;
    }
  }

  lemma ListPushFront(blocks: seq<Block>, home: seq<Spot>, o: Owner, base: int, c: seq<Ptr>, p: Ptr)
    requires ListOk(blocks, home, o, base, c) && 0 <= p < |blocks|
    requires home[p] == Spot(o, base - 1) && Fits(blocks[p], o) && blocks[p].next == if c == [] then NULL else c[0]
    ensures ListOk(blocks, home, o, base - 1, [p] + c)
  {
    forall k | 0 <= k < |[p] + c| ensures 0 <= ([p] + c)[k] < |blocks| && NextOk(blocks, [p] + c, k) {
      assert k > 0 ==> NextOk(blocks, c, k - 1);
    }
  }

  lemma ListPushBack(blocks: seq<Block>, home: seq<Spot>, o: Owner, base: int, c: seq<Ptr>, p: Ptr)
    requires ListOk(blocks, home, o, base, c) && 0 <= p < |blocks| && p !in c
    requires home[p] == Spot(o, base + |c|) && Fits(blocks[p], o) && blocks[p].next == NULL
    ensures c != [] ==> ListOk(blocks[c[|c| - 1] := blocks[c[|c| - 1]].(next := p)], home, o, base, c + [p])
    ensures c == [] ==> ListOk(blocks, home, o, base, c + [p])
  {
    if c != [] {
      var last := c[|c| - 1];
      var blocks' := blocks[last := blocks[last].(next := p)];
      forall k | 0 <= k < |c + [p]| ensures 0 <= (c + [p])[k] < |blocks'| && NextOk(blocks', c + [p], k) {
        assert k < |c| ==> NextOk(blocks, c, k) && home[c[k]].number == base + k;
      }
    }
  }

  // ---------------------------------------------------------------- how blocks move

  /** The first block of list `from` put, as b, at the front of list `to`. */
  function ToFront(w: World, from: Owner, to: Owner, b: Block): World
    requires from in w.lists && to in w.lists && w.lists.Keys == w.base.Keys && from != to
    requires w.lists[from] != [] && 0 <= w.lists[from][0] < |w.blocks| == |w.home|
  {
    var p := w.lists[from][0];
    var head := if w.lists[to] == [] then NULL else w.lists[to][0];
    World(w.blocks[p := b.(next := head)],
          w.home[p := Spot(to, w.base[to] - 1)],
          w.lists[from := w.lists[from][1..]][to := [p] + w.lists[to]],
          w.base[from := w.base[from] + 1][to := w.base[to] - 1])
  }

  /** The first block of list `from` put, as b, at the back of list `to`. */
  function ToBack(w: World, from: Owner, to: Owner, b: Block): World
    requires from in w.lists && to in w.lists && w.lists.Keys == w.base.Keys && from != to
    requires w.lists[from] != [] && 0 <= w.lists[from][0] < |w.blocks| == |w.home|
    requires forall k :: 0 <= k < |w.lists[to]| ==> 0 <= w.lists[to][k] < |w.blocks|
  {
    var p, c := w.lists[from][0], w.lists[to];
    var blocks := w.blocks[p := b.(next := NULL)];
    World(if c == [] then blocks else blocks[c[|c| - 1] := blocks[c[|c| - 1]].(next := p)],
          w.home[p := Spot(to, w.base[to] + |c|)],
          w.lists[from := w.lists[from][1..]][to := c + [p]],
          w.base[from := w.base[from] + 1])
  }

  /** Taking a block p off its list leaves all lists as they were, p apart, whatever becomes of it. */
  lemma Released(w: World, from: Owner, o: Owner, blocks': seq<Block>, home': seq<Spot>)
    requires Ok(w) && from in w.lists && w.lists[from] != [] && o in w.lists
    requires |blocks'| == |home'| == |w.blocks|
    requires forall q :: 0 <= q < |w.blocks| && q != w.lists[from][0] ==>
               blocks'[q] == w.blocks[q] && home'[q] == w.home[q]
    ensures o == from ==> ListOk(blocks', home', o, w.base[o] + 1, w.lists[o][1..])
    ensures o != from ==> ListOk(blocks', home', o, w.base[o], w.lists[o]) && w.lists[from][0] !in w.lists[o]
  {
    assert ListOk(w.blocks, w.home, o, w.base[o], w.lists[o]);
    assert ListOk(w.blocks, w.home, from, w.base[from], w.lists[from]);
    if o == from {
      ListPop(w.blocks, w.home, o, w.base[o], w.lists[o]);
      ListFrame(w.blocks, w.home, blocks', home', o, w.base[o] + 1, w.lists[o][1..]);
    } else {
      ListFrame(w.blocks, w.home, blocks', home', o, w.base[o], w.lists[o]);
    }
  }

  /** The conditions for a block to move. */
  ghost predicate Movable(w: World, from: Owner, to: Owner) {
    Ok(w) && from in w.lists && to in w.lists && from != to && w.lists[from] != []
  }

  lemma MovableBounds(w: World, from: Owner, to: Owner)
    requires Movable(w, from, to)
    ensures w.lists.Keys == w.base.Keys && 0 <= w.lists[from][0] < |w.blocks| == |w.home|
    ensures forall k :: 0 <= k < |w.lists[to]| ==> 0 <= w.lists[to][k] < |w.blocks|
  {
    assert ListOk(w.blocks, w.home, from, w.base[from], w.lists[from]);
    assert ListOk(w.blocks, w.home, to, w.base[to], w.lists[to]);
  }

  lemma ToFrontList(w: World, from: Owner, to: Owner, b: Block, o: Owner)
    requires Movable(w, from, to) && Fits(b, to) && o in w.lists
    requires w.lists.Keys == w.base.Keys && 0 <= w.lists[from][0] < |w.blocks| == |w.home|
    ensures var w' := ToFront(w, from, to, b); ListOk(w'.blocks, w'.home, o, w'.base[o], w'.lists[o])
  {
    var w' := ToFront(w, from, to, b);
    Released(w, from, o, w'.blocks, w'.home);
    if o == to {
      ListPushFront(w'.blocks, w'.home, to, w.base[to], w.lists[to], w.lists[from][0]);
    }
  }

  lemma ToFrontSpot(w: World, from: Owner, to: Owner, b: Block, q: Ptr)
    requires Movable(w, from, to) && 0 <= q < |w.home|
    requires w.lists.Keys == w.base.Keys && 0 <= w.lists[from][0] < |w.blocks| == |w.home|
    ensures SpotOk(ToFront(w, from, to, b), q)
  {
    assert SpotOk(w, q);
    assert ListOk(w.blocks, w.home, from, w.base[from], w.lists[from]);
  }

  lemma ToFrontOk(w: World, from: Owner, to: Owner, b: Block)
    requires Movable(w, from, to) && Fits(b, to)
    ensures w.lists.Keys == w.base.Keys && 0 <= w.lists[from][0] < |w.blocks| == |w.home|
    ensures Ok(ToFront(w, from, to, b))
  {
    MovableBounds(w, from, to);
    var w' := ToFront(w, from, to, b);
    forall o | o in w'.lists ensures ListOk(w'.blocks, w'.home, o, w'.base[o], w'.lists[o]) {
      ToFrontList(w, from, to, b, o);
    }
    forall q | 0 <= q < |w'.home| ensures SpotOk(w', q) {
      ToFrontSpot(w, from, to, b, q);
    }
  }

  /** Two lists have no block in common. */
  lemma Apart(w: World, o: Owner, o': Owner, x: Ptr)
    requires Ok(w) && o in w.lists && o' in w.lists && o != o' && x in w.lists[o]
    ensures x !in w.lists[o']
  {
    assert ListOk(w.blocks, w.home, o, w.base[o], w.lists[o]) && ListOk(w.blocks, w.home, o', w.base[o'], w.lists[o']);
  }

  /** Appending to list `to` leaves another list alone. */
  lemma ToBackOther(w: World, from: Owner, to: Owner, b: Block, o: Owner)
    requires Movable(w, from, to) && o in w.lists && o != to
    requires w.lists.Keys == w.base.Keys && 0 <= w.lists[from][0] < |w.blocks| == |w.home|
    requires forall k :: 0 <= k < |w.lists[to]| ==> 0 <= w.lists[to][k] < |w.blocks|
    ensures var w' := ToBack(w, from, to, b); ListOk(w'.blocks, w'.home, o, w'.base[o], w'.lists[o])
  {
    var c := w.lists[to];
    var w', blocks := ToBack(w, from, to, b), w.blocks[w.lists[from][0] := b.(next := NULL)];
    Released(w, from, o, blocks, w'.home);
    if c != [] {
      Apart(w, to, o, c[|c| - 1]);
      assert forall k :: 0 <= k < |w'.lists[o]| ==> w'.lists[o][k] in w.lists[o];
      ListFrame(blocks, w'.home, w'.blocks, w'.home, o, w'.base[o], w'.lists[o]);
    }
  }

  lemma ToBackList(w: World, from: Owner, to: Owner, b: Block, o: Owner)
    requires Movable(w, from, to) && Fits(b, to) && o in w.lists
    requires w.lists.Keys == w.base.Keys && 0 <= w.lists[from][0] < |w.blocks| == |w.home|
    requires forall k :: 0 <= k < |w.lists[to]| ==> 0 <= w.lists[to][k] < |w.blocks|
    ensures var w' := ToBack(w, from, to, b); ListOk(w'.blocks, w'.home, o, w'.base[o], w'.lists[o]) == true
  {
    if o != to {
      ToBackOther(w, from, to, b, o);
    } else {
      var w', blocks := ToBack(w, from, to, b), w.blocks[w.lists[from][0] := b.(next := NULL)];
      Released(w, from, to, blocks, w'.home);
      ListPushBack(blocks, w'.home, to, w.base[to], w.lists[to], w.lists[from][0]);
    }
  }

  lemma ToBackSpot(w: World, from: Owner, to: Owner, b: Block, q: Ptr)
    requires Movable(w, from, to) && 0 <= q < |w.home|
    requires w.lists.Keys == w.base.Keys && 0 <= w.lists[from][0] < |w.blocks| == |w.home|
    requires forall k :: 0 <= k < |w.lists[to]| ==> 0 <= w.lists[to][k] < |w.blocks|
    ensures SpotOk(ToBack(w, from, to, b), q)
  {
    assert SpotOk(w, q);
    assert ListOk(w.blocks, w.home, from, w.base[from], w.lists[from]);
  }

  lemma ToBackOk(w: World, from: Owner, to: Owner, b: Block)
    requires Movable(w, from, to) && Fits(b, to)
    ensures w.lists.Keys == w.base.Keys && 0 <= w.lists[from][0] < |w.blocks| == |w.home|
    ensures forall k :: 0 <= k < |w.lists[to]| ==> 0 <= w.lists[to][k] < |w.blocks|
    ensures Ok(ToBack(w, from, to, b))
  {
    MovableBounds(w, from, to);
    var w' := ToBack(w, from, to, b);
    forall o | o in w'.lists ensures ListOk(w'.blocks, w'.home, o, w'.base[o], w'.lists[o]) {
      ToBackList(w, from, to, b, o);
    }
    forall q | 0 <= q < |w'.home| ensures SpotOk(w', q) {
      ToBackSpot(w, from, to, b, q);
    }
  }

  /** A block just made, the only one of its free list. */
  function Made(w: World, i: nat, b: Block): World
    requires FreeList(i) in w.base
  {
    World(w.blocks + [b], w.home + [Spot(FreeList(i), w.base[FreeList(i)])], w.lists[FreeList(i) := [|w.blocks|]],
          w.base)
  }

  lemma MadeList(w: World, i: nat, b: Block, o: Owner)
    requires Ok(w) && FreeList(i) in w.lists && w.lists[FreeList(i)] == [] && Fits(b, FreeList(i)) && b.next == NULL
    requires o in w.lists && w.lists.Keys == w.base.Keys
    ensures var w' := Made(w, i, b); ListOk(w'.blocks, w'.home, o, w'.base[o], w'.lists[o])
  {
    var w' := Made(w, i, b);
    if o != FreeList(i) {
      ListFrame(w.blocks, w.home, w'.blocks, w'.home, o, w.base[o], w.lists[o]);
    }
  }

  lemma MadeOk(w: World, i: nat, b: Block)
    requires Ok(w) && FreeList(i) in w.lists && w.lists[FreeList(i)] == [] && Fits(b, FreeList(i)) && b.next == NULL
    ensures Ok(Made(w, i, b))
  {
    var w' := Made(w, i, b);
    forall o | o in w'.lists ensures ListOk(w'.blocks, w'.home, o, w'.base[o], w'.lists[o]) {
      MadeList(w, i, b, o);
    }
    forall q | 0 <= q < |w'.home| ensures SpotOk(w', q) {
      MadeSpot(w, i, b, q);
    }
  }

  lemma MadeSpot(w: World, i: nat, b: Block, q: Ptr)
    requires AtHome(w) && FreeList(i) in w.lists && w.lists[FreeList(i)] == [] && 0 <= q <= |w.home|
    ensures Made(w, i, b).lists.Keys == w.base.Keys && SpotOk(Made(w, i, b), q)
  {
    if q < |w.home| {
      assert SpotOk(w, q);
    }
  }

  /** A block whose cursors or bytes change where it is. */
  function Changed(w: World, p: Ptr, b: Block): World
    requires 0 <= p < |w.blocks|
  {
    w.(blocks := w.blocks[p := b])
  }

  lemma ChangedOk(w: World, p: Ptr, b: Block)
    requires Ok(w) && 0 <= p < |w.blocks| && b.next == w.blocks[p].next && Fits(b, w.home[p].owner)
    ensures Ok(Changed(w, p, b))
  {
    var w' := Changed(w, p, b);
    forall o | o in w'.lists ensures ListOk(w'.blocks, w'.home, o, w'.base[o], w'.lists[o]) {
      var c := w.lists[o];
      assert ListOk(w.blocks, w.home, o, w.base[o], c);
      forall k | 0 <= k < |c| ensures 0 <= c[k] < |w'.blocks| && NextOk(w'.blocks, c, k) {
        assert NextOk(w.blocks, c, k);
      }
    }
    forall q | 0 <= q < |w'.home| ensures SpotOk(w', q) {
      assert SpotOk(w, q);
    }
  }

  // ---------------------------------------------------------------- what is in the queues

  /** The unread bytes of a block. */
  function Chunk(b: Block): bytes {
    if b.rptr <= b.bufLen <= |b.buf| then b.buf[b.rptr..b.bufLen] else []
  }

  /** The unread bytes of a chain. */
  function Data(blocks: seq<Block>, c: seq<Ptr>): bytes {
    if c == [] then []
    else (if 0 <= c[0] < |blocks| then Chunk(blocks[c[0]]) else []) + Data(blocks, c[1..])
  }

  lemma {:induction false} DataFrame(blocks: seq<Block>, blocks': seq<Block>, c: seq<Ptr>)
    requires forall k :: 0 <= k < |c| ==>
               0 <= c[k] < |blocks| && c[k] < |blocks'| && Chunk(blocks'[c[k]]) == Chunk(blocks[c[k]])
    ensures Data(blocks', c) == Data(blocks, c)
    decreases |c|
  {
    if c != [] {
      DataFrame(blocks, blocks', c[1..]);
    }
  }

  lemma {:induction false} DataSnoc(blocks: seq<Block>, c: seq<Ptr>, p: nat)
    requires p < |blocks|
    ensures Data(blocks, c + [p]) == Data(blocks, c) + Chunk(blocks[p])
    decreases |c|
  {
    if c == [] {
      assert (c + [p])[1..] == [];
    } else {
      assert (c + [p])[1..] == c[1..] + [p];
      DataSnoc(blocks, c[1..], p);
    }
  }

  /** What socket fd has still to send. */
  function Pending(w: World, fd: nat): bytes {
    if Socket(fd) in w.lists then Data(w.blocks, w.lists[Socket(fd)]) else []
  }

  /** Every block of the chain has something to send. */
  ghost predicate AllFull(blocks: seq<Block>, c: seq<Ptr>) {
    c == [] || (0 <= c[0] < |blocks| && Chunk(blocks[c[0]]) != [] && AllFull(blocks, c[1..]))
  }

  lemma {:induction false} AllFullFrame(blocks: seq<Block>, blocks': seq<Block>, c: seq<Ptr>)
    requires forall k :: 0 <= k < |c| ==>
               0 <= c[k] < |blocks| && c[k] < |blocks'| && (Chunk(blocks[c[k]]) != [] ==> Chunk(blocks'[c[k]]) != [])
    ensures AllFull(blocks, c) ==> AllFull(blocks', c)
    decreases |c|
  {
    if c != [] {
      AllFullFrame(blocks, blocks', c[1..]);
    }
  }

  lemma AllFullAlike(blocks: seq<Block>, blocks': seq<Block>, c: seq<Ptr>)
    requires forall k :: 0 <= k < |c| ==>
               0 <= c[k] < |blocks| && c[k] < |blocks'| && Chunk(blocks[c[k]]) == Chunk(blocks'[c[k]])
    ensures AllFull(blocks, c) <==> AllFull(blocks', c)
  {
    AllFullFrame(blocks, blocks', c);
    AllFullFrame(blocks', blocks, c);
  }

  lemma {:induction false} AllFullSnoc(blocks: seq<Block>, c: seq<Ptr>, p: Ptr)
    ensures AllFull(blocks, c + [p]) <==> AllFull(blocks, c) && 0 <= p < |blocks| && Chunk(blocks[p]) != []
    decreases |c|
  {
    if c == [] {
      assert (c + [p])[1..] == [];
    } else {
      assert (c + [p])[1..] == c[1..] + [p];
      AllFullSnoc(blocks, c[1..], p);
    }
  }

  function ButLast(c: seq<Ptr>): seq<Ptr> {
    if c == [] then [] else c[..|c| - 1]
  }

  ghost predicate FullButLast(w: World, fd: nat) {
    Socket(fd) in w.lists ==> AllFull(w.blocks, ButLast(w.lists[Socket(fd)]))
  }

  ghost predicate Full(w: World, fd: nat) {
    Socket(fd) in w.lists ==> AllFull(w.blocks, w.lists[Socket(fd)])
  }

  /** The room left in the last block of socket fd's chain, or -1 without a block. */
  function RoomOf(w: World, fd: nat): int {
    if Socket(fd) in w.lists && w.lists[Socket(fd)] != [] && 0 <= Last(w.lists[Socket(fd)]) < |w.blocks|
    then w.blocks[Last(w.lists[Socket(fd)])].bufSize - w.blocks[Last(w.lists[Socket(fd)])].bufLen
    else -1
  }

  /** How many unread bytes the first block has. */
  function HeadLen(w: World, fd: nat): nat {
    if Socket(fd) in w.lists && w.lists[Socket(fd)] != [] && 0 <= w.lists[Socket(fd)][0] < |w.blocks|
    then |Chunk(w.blocks[w.lists[Socket(fd)][0]])| else 0
  }

  /** A block with the same unread bytes and the same room. */
  ghost predicate Alike(b: Block, b': Block) {
    Chunk(b') == Chunk(b) && b'.bufSize == b.bufSize && b'.bufLen == b.bufLen
  }

  /** Nothing has changed for socket fd. */
  ghost predicate Same(w: World, w': World, fd: nat) {
    && (Socket(fd) in w'.lists <==> Socket(fd) in w.lists)
    && Pending(w', fd) == Pending(w, fd) && RoomOf(w', fd) == RoomOf(w, fd) && HeadLen(w', fd) == HeadLen(w, fd)
    && (FullButLast(w, fd) <==> FullButLast(w', fd)) && (Full(w, fd) <==> Full(w', fd))
  }

  ghost predicate Elsewhere(w: World, w': World, fd: nat) {
    forall fd' :: fd' != fd ==> Same(w, w', fd')
  }

  lemma PendingFrame(w: World, w': World, fd: nat)
    requires Ok(w) && Socket(fd) in w.lists && Socket(fd) in w'.lists && w'.lists[Socket(fd)] == w.lists[Socket(fd)]
    requires |w.blocks| <= |w'.blocks|
    requires forall q :: 0 <= q < |w.blocks| && w.home[q].owner == Socket(fd) ==> Alike(w.blocks[q], w'.blocks[q])
    ensures Same(w, w', fd)
  {
    assert ListOk(w.blocks, w.home, Socket(fd), w.base[Socket(fd)], w.lists[Socket(fd)]);
    DataFrame(w.blocks, w'.blocks, w.lists[Socket(fd)]);
    AllFullAlike(w.blocks, w'.blocks, w.lists[Socket(fd)]);
    AllFullAlike(w.blocks, w'.blocks, ButLast(w.lists[Socket(fd)]));
  }

  lemma ToFrontElsewhere(w: World, fd: nat, i: nat, b: Block)
    requires Movable(w, Socket(fd), FreeList(i)) && w.lists.Keys == w.base.Keys
    requires 0 <= w.lists[Socket(fd)][0] < |w.blocks| == |w.home|
    ensures Elsewhere(w, ToFront(w, Socket(fd), FreeList(i), b), fd)
  {
    var w' := ToFront(w, Socket(fd), FreeList(i), b);
    assert ListOk(w.blocks, w.home, Socket(fd), w.base[Socket(fd)], w.lists[Socket(fd)]);
    forall fd' | fd' != fd ensures Same(w, w', fd') {
      if Socket(fd') in w.lists {
        PendingFrame(w, w', fd');
      }
    }
  }

  /** The first block of a chain goes to a free list: its bytes are gone, and only they. */
  lemma ToFrontPending(w: World, fd: nat, i: nat, b: Block)
    requires Movable(w, Socket(fd), FreeList(i)) && w.lists.Keys == w.base.Keys
    requires 0 <= w.lists[Socket(fd)][0] < |w.blocks| == |w.home|
    ensures var w' := ToFront(w, Socket(fd), FreeList(i), b);
            && Pending(w, fd) == Chunk(w.blocks[w.lists[Socket(fd)][0]]) + Pending(w', fd)
            && (Full(w, fd) ==> Full(w', fd)) && (FullButLast(w, fd) ==> FullButLast(w', fd))
  {
    var w', c := ToFront(w, Socket(fd), FreeList(i), b), w.lists[Socket(fd)];
    ListPop(w.blocks, w.home, Socket(fd), w.base[Socket(fd)], c);
    DataFrame(w.blocks, w'.blocks, c[1..]);
    AllFullFrame(w.blocks, w'.blocks, c[1..]);
    AllFullFrame(w.blocks, w'.blocks, ButLast(c[1..]));
    assert |c| > 1 ==> ButLast(c[1..]) == ButLast(c)[1..];
  }

  lemma ToBackElsewhere(w: World, fd: nat, i: nat, b: Block)
    requires Movable(w, FreeList(i), Socket(fd)) && w.lists.Keys == w.base.Keys
    requires 0 <= w.lists[FreeList(i)][0] < |w.blocks| == |w.home|
    requires forall k :: 0 <= k < |w.lists[Socket(fd)]| ==> 0 <= w.lists[Socket(fd)][k] < |w.blocks|
    ensures Elsewhere(w, ToBack(w, FreeList(i), Socket(fd), b), fd)
  {
    var w' := ToBack(w, FreeList(i), Socket(fd), b);
    assert ListOk(w.blocks, w.home, FreeList(i), w.base[FreeList(i)], w.lists[FreeList(i)]);
    assert ListOk(w.blocks, w.home, Socket(fd), w.base[Socket(fd)], w.lists[Socket(fd)]);
    forall fd' | fd' != fd ensures Same(w, w', fd') {
      if Socket(fd') in w.lists {
        PendingFrame(w, w', fd');
      }
    }
  }

  /** An empty block appended to a chain leaves its queue as it was. */
  lemma ToBackPending(w: World, fd: nat, i: nat, b: Block)
    requires Movable(w, FreeList(i), Socket(fd)) && w.lists.Keys == w.base.Keys && b.rptr == b.bufLen
    requires 0 <= w.lists[FreeList(i)][0] < |w.blocks| == |w.home|
    requires forall k :: 0 <= k < |w.lists[Socket(fd)]| ==> 0 <= w.lists[Socket(fd)][k] < |w.blocks|
    ensures Pending(ToBack(w, FreeList(i), Socket(fd), b), fd) == Pending(w, fd)
  {
    var w', p, c := ToBack(w, FreeList(i), Socket(fd), b), w.lists[FreeList(i)][0], w.lists[Socket(fd)];
    Apart(w, FreeList(i), Socket(fd), p);
    DataFrame(w.blocks, w'.blocks, c);
    DataSnoc(w'.blocks, c, p);
    assert Chunk(w'.blocks[p]) == [];
    assert Data(w.blocks, c) + [] == Data(w.blocks, c);
  }

  lemma ToBackFull(w: World, fd: nat, i: nat, b: Block)
    requires Movable(w, FreeList(i), Socket(fd)) && w.lists.Keys == w.base.Keys
    requires 0 <= w.lists[FreeList(i)][0] < |w.blocks| == |w.home|
    requires forall k :: 0 <= k < |w.lists[Socket(fd)]| ==> 0 <= w.lists[Socket(fd)][k] < |w.blocks|
    ensures FullButLast(ToBack(w, FreeList(i), Socket(fd), b), fd) <==> Full(w, fd)
  {
    var w', p, c := ToBack(w, FreeList(i), Socket(fd), b), w.lists[FreeList(i)][0], w.lists[Socket(fd)];
    Apart(w, FreeList(i), Socket(fd), p);
    AllFullAlike(w.blocks, w'.blocks, c);
    assert ButLast(c + [p]) == c;
  }

  /** A block just made changes no queue. */
  lemma MadePending(w: World, i: nat, b: Block, fd: nat)
    requires Ok(w) && FreeList(i) in w.base
    ensures Same(w, Made(w, i, b), fd)
  {
    if Socket(fd) in w.lists {
      PendingFrame(w, Made(w, i, b), fd);
    }
  }

  /** A change to a block of one socket leaves the queues of the others alone. */
  lemma ChangedElsewhere(w: World, fd: nat, p: Ptr, b: Block)
    requires Ok(w) && 0 <= p < |w.blocks| && w.home[p].owner == Socket(fd)
    ensures Elsewhere(w, Changed(w, p, b), fd)
  {
    forall fd' | fd' != fd ensures Same(w, Changed(w, p, b), fd') {
      if Socket(fd') in w.lists {
        PendingFrame(w, Changed(w, p, b), fd');
      }
    }
  }

  lemma ChangedLast(blocks: seq<Block>, home: seq<Spot>, o: Owner, base: int, c: seq<Ptr>, b: Block, data: bytes)
    requires ListOk(blocks, home, o, base, c) && c != []
    requires Chunk(b) == Chunk(blocks[Last(c)]) + data
    ensures home[Last(c)].owner == o && Data(blocks[Last(c) := b], c) == Data(blocks, c) + data
  {
    var init, p := c[..|c| - 1], Last(c);
    assert c == init + [p];
    DataSnoc(blocks, init, p);
    DataSnoc(blocks[p := b], init, p);
    assert forall k :: 0 <= k < |init| ==> init[k] != p by {
      assert forall k :: 0 <= k < |c| ==> home[c[k]].number == base + k;
    }
    DataFrame(blocks, blocks[p := b], init);
    Assoc(Data(blocks, init), Chunk(blocks[p]), data);
  }

  /** Bytes appended to the last block of a chain are appended to its queue. */
  lemma LastGrows(w: World, fd: nat, b: Block, data: bytes)
    requires Ok(w) && Socket(fd) in w.lists && w.lists[Socket(fd)] != []
    requires var p := Last(w.lists[Socket(fd)]); 0 <= p < |w.blocks| && Chunk(b) == Chunk(w.blocks[p]) + data
    ensures w.home[Last(w.lists[Socket(fd)])].owner == Socket(fd)
    ensures Pending(Changed(w, Last(w.lists[Socket(fd)]), b), fd) == Pending(w, fd) + data
  {
    ChangedLast(w.blocks, w.home, Socket(fd), w.base[Socket(fd)], w.lists[Socket(fd)], b, data);
  }

  lemma ChangedFirst(blocks: seq<Block>, home: seq<Spot>, o: Owner, base: int, c: seq<Ptr>, b: Block, n: nat)
    requires ListOk(blocks, home, o, base, c) && c != []
    requires n <= |Chunk(blocks[c[0]])| && Chunk(b) == Chunk(blocks[c[0]])[n..]
    ensures home[c[0]].owner == o && |Data(blocks, c)| >= n && Data(blocks[c[0] := b], c) == Data(blocks, c)[n..]
  {
    ListPop(blocks, home, o, base, c);
    DataFrame(blocks, blocks[c[0] := b], c[1..]);
    DropFirst(Chunk(blocks[c[0]]), Data(blocks, c[1..]), n);
  }

  lemma DropFirst(x: bytes, y: bytes, n: nat)
    requires n <= |x|
    ensures x[n..] + y == (x + y)[n..]
  {
  }

  /** The first n bytes of a chain's first block are skipped. */
  lemma FirstShrinks(w: World, fd: nat, b: Block, n: nat)
    requires Ok(w) && Socket(fd) in w.lists && w.lists[Socket(fd)] != []
    requires var p := w.lists[Socket(fd)][0];
             0 <= p < |w.blocks| && n <= |Chunk(w.blocks[p])| && Chunk(b) == Chunk(w.blocks[p])[n..]
    ensures w.home[w.lists[Socket(fd)][0]].owner == Socket(fd) && |Pending(w, fd)| >= n
    ensures Pending(Changed(w, w.lists[Socket(fd)][0], b), fd) == Pending(w, fd)[n..]
  {
    ChangedFirst(w.blocks, w.home, Socket(fd), w.base[Socket(fd)], w.lists[Socket(fd)], b, n);
  }

  // ---------------------------------------------------------------- the buffers in place

  /** The pointers to the list o match its contents c. */
  ghost predicate HeadOk(o: Owner, c: seq<Ptr>, table: seq<Ptr>, bbufs: seq<BBuf>, except: int) {
    match o
    case FreeList(i) => i < |table| && table[i] == First(c)
    case Socket(fd) => fd < |bbufs| && (fd == except || bbufs[fd] == BBuf(First(c), Last(c)))
  }

  /** The head and tail pointers match the lists, those of socket `except` aside. */
  ghost predicate Heads(w: World, table: seq<Ptr>, bbufs: seq<BBuf>, except: int) {
    && |table| == MAX_TABLE && |bbufs| == MAX_SOCKET
    && (forall i :: 0 <= i < MAX_TABLE ==> FreeList(i) in w.lists)
    && (forall o {:trigger HeadOk(o, w.lists[o], table, bbufs, except)} ::
          o in w.lists ==> HeadOk(o, w.lists[o], table, bbufs, except))
  }

  /** `hash`: the least index with 2^index >= size. */
  method Hash(size: nat) returns (index: nat)
    requires size <= MAX_SIZE
    ensures Pow2(index) >= size && (index == 0 || Pow2(index - 1) < size)
    ensures index < MAX_TABLE && (size <= MAX_BLOCK ==> index < MAX_TABLE - 1)
  {
    index := 0;
    while Pow2(index) < size
      invariant index == 0 || Pow2(index - 1) < size
      invariant index < MAX_TABLE && (size <= MAX_BLOCK ==> index < MAX_TABLE - 1)
      decreases 2 * MAX_SIZE - Pow2(index)
    {
      PowersBelow(index);
      index := index + 1;
    }
  }

  lemma PowersBelow(i: nat)
    requires i < MAX_TABLE && Pow2(i) < MAX_SIZE
    ensures i + 1 < MAX_TABLE && (Pow2(i) < MAX_BLOCK ==> i + 1 < MAX_TABLE - 1)
  {
    LargestPower();
  }

  lemma LargestPower()
    ensures Pow2(30) == MAX_BLOCK && Pow2(31) == MAX_SIZE
  {
    assert Pow2(10) == 1024;
    assert Pow2(20) == 1024 * 1024 by { assert Pow2(15) == 32768; }
    assert Pow2(30) == MAX_BLOCK by { assert Pow2(25) == 32 * 1024 * 1024; }
  }

  /** The index of a power of two is its exponent. */
  lemma HashExact(i: nat, index: nat)
    requires Pow2(index) >= Pow2(i) && (index == 0 || Pow2(index - 1) < Pow2(i))
    ensures index == i
  {
    if index < i {
      PowGrows(index, i);
    } else if i < index {
      PowGrows(i, index);
      if i < index - 1 { PowGrows(i, index - 1); }
    }
  }

  /** The size class of the first block of a chain. */
  lemma ClassOfFirst(w: World, fd: nat) returns (i: nat)
    requires Ok(w) && Socket(fd) in w.lists && w.lists[Socket(fd)] != []
    ensures 0 <= w.lists[Socket(fd)][0] < |w.blocks| && Fits(w.blocks[w.lists[Socket(fd)][0]], Socket(fd))
    ensures Sized(w.blocks[w.lists[Socket(fd)][0]].bufSize, i) && Pow2(i) <= MAX_BLOCK
  {
    assert ListOk(w.blocks, w.home, Socket(fd), w.base[Socket(fd)], w.lists[Socket(fd)]);
    i :| Sized(w.blocks[w.lists[Socket(fd)][0]].bufSize, i);
    if i < 30 { PowGrows(i, 30); }
    LargestPower();
  }

  lemma {:induction false} PowGrows(i: nat, j: nat)
    requires i < j
    ensures Pow2(i) < Pow2(j)
    decreases j
  {
    if i < j - 1 {
      PowGrows(i, j - 1);
    }
  }

  // ---------------------------------------------------------------- what each step does to the pointers

  lemma CreatedHeads(w: World, table: seq<Ptr>, bbufs: seq<BBuf>, fd: nat)
    requires Heads(w, table, bbufs, -1) && fd < MAX_SOCKET
    ensures Heads(Created(w, fd), table, bbufs[fd := BBuf(NULL, NULL)], -1)
  {
    forall o | o in Created(w, fd).lists
      ensures HeadOk(o, Created(w, fd).lists[o], table, bbufs[fd := BBuf(NULL, NULL)], -1)
    {
      assert o in w.lists ==> HeadOk(o, w.lists[o], table, bbufs, -1);
    }
  }

  /** A socket with no blocks yet. */
  function Created(w: World, fd: nat): World {
    w.(lists := w.lists[Socket(fd) := []], base := w.base[Socket(fd) := 0])
  }

  lemma CreatedOk(w: World, fd: nat)
    requires Ok(w) && Socket(fd) !in w.lists
    ensures Ok(Created(w, fd))
  {
    var w' := Created(w, fd);
    forall o | o in w'.lists ensures ListOk(w'.blocks, w'.home, o, w'.base[o], w'.lists[o]) {
      if o != Socket(fd) {
        assert ListOk(w.blocks, w.home, o, w.base[o], w.lists[o]);
      }
    }
    forall q | 0 <= q < |w'.home| ensures SpotOk(w', q) {
      assert SpotOk(w, q);
    }
  }

  /** The world without socket fd. */
  function Dropped(w: World, fd: nat): World {
    w.(lists := w.lists - {Socket(fd)}, base := w.base - {Socket(fd)})
  }

  lemma DroppedOk(w: World, table: seq<Ptr>, bbufs: seq<BBuf>, fd: nat) returns (w': World)
    requires Ok(w) && Socket(fd) in w.lists && First(w.lists[Socket(fd)]) == NULL
    requires Heads(w, table, bbufs, fd)
    ensures w' == Dropped(w, fd) && Ok(w') && Heads(w', table, bbufs, -1) && Elsewhere(w, w', fd)
  {
    EmptyChain(w, fd);
    w' := Dropped(w, fd);
    forall o | o in w'.lists ensures ListOk(w'.blocks, w'.home, o, w'.base[o], w'.lists[o]) {
      assert ListOk(w.blocks, w.home, o, w.base[o], w.lists[o]);
    }
    forall q | 0 <= q < |w'.home| ensures SpotOk(w', q) {
      assert SpotOk(w, q);
    }
    DroppedHeads(w, table, bbufs, fd);
    DroppedElsewhere(w, fd);
  }

  lemma DroppedHeads(w: World, table: seq<Ptr>, bbufs: seq<BBuf>, fd: nat)
    requires Heads(w, table, bbufs, fd)
    ensures Heads(Dropped(w, fd), table, bbufs, -1)
  {
    forall o | o in Dropped(w, fd).lists ensures HeadOk(o, Dropped(w, fd).lists[o], table, bbufs, -1) {
      assert HeadOk(o, w.lists[o], table, bbufs, fd);
    }
  }

  lemma ToFrontHeads(w: World, table: seq<Ptr>, bbufs: seq<BBuf>, fd: nat, i: nat, b: Block)
    requires Movable(w, Socket(fd), FreeList(i)) && w.lists.Keys == w.base.Keys
    requires 0 <= w.lists[Socket(fd)][0] < |w.blocks| == |w.home|
    requires Heads(w, table, bbufs, fd) && i < MAX_TABLE
    ensures Heads(ToFront(w, Socket(fd), FreeList(i), b), table[i := w.lists[Socket(fd)][0]], bbufs, fd)
  {
    var w', table' := ToFront(w, Socket(fd), FreeList(i), b), table[i := w.lists[Socket(fd)][0]];
    forall o | o in w'.lists ensures HeadOk(o, w'.lists[o], table', bbufs, fd) {
      assert HeadOk(o, w.lists[o], table, bbufs, fd);
    }
  }

  lemma ToBackHeads(w: World, table: seq<Ptr>, bbufs: seq<BBuf>, fd: nat, i: nat, b: Block)
    requires Movable(w, FreeList(i), Socket(fd)) && w.lists.Keys == w.base.Keys
    requires 0 <= w.lists[FreeList(i)][0] < |w.blocks| == |w.home|
    requires forall k :: 0 <= k < |w.lists[Socket(fd)]| ==> 0 <= w.lists[Socket(fd)][k] < |w.blocks|
    requires Heads(w, table, bbufs, -1)
    ensures fd < MAX_SOCKET && i < MAX_TABLE
    ensures var p := w.lists[FreeList(i)][0];
            Heads(ToBack(w, FreeList(i), Socket(fd), b), table[i := First(w.lists[FreeList(i)][1..])],
                  bbufs[fd := BBuf(First(w.lists[Socket(fd)] + [p]), p)], -1)
  {
    var c, p := w.lists[Socket(fd)], w.lists[FreeList(i)][0];
    assert HeadOk(FreeList(i), w.lists[FreeList(i)], table, bbufs, -1) && HeadOk(Socket(fd), c, table, bbufs, -1);
    var w' := ToBack(w, FreeList(i), Socket(fd), b);
    var table', bbufs' := table[i := First(w.lists[FreeList(i)][1..])], bbufs[fd := BBuf(First(c + [p]), p)];
    forall o | o in w'.lists ensures HeadOk(o, w'.lists[o], table', bbufs', -1) {
      assert HeadOk(o, w.lists[o], table, bbufs, -1);
    }
  }

  lemma MadeHeads(w: World, table: seq<Ptr>, bbufs: seq<BBuf>, i: nat, b: Block)
    requires Heads(w, table, bbufs, -1) && i < MAX_TABLE && w.lists.Keys == w.base.Keys
    ensures FreeList(i) in w.base
    ensures Heads(Made(w, i, b), table[i := |w.blocks|], bbufs, -1)
  {
    var w', table' := Made(w, i, b), table[i := |w.blocks|];
    forall o | o in w'.lists ensures HeadOk(o, w'.lists[o], table', bbufs, -1) {
      assert HeadOk(o, w.lists[o], table, bbufs, -1);
    }
  }

  /** The first block's successor is the second block. */
  lemma NextIsSecond(w: World, o: Owner)
    requires Ok(w) && o in w.lists && w.lists[o] != []
    ensures 0 <= w.lists[o][0] < |w.blocks| && w.blocks[w.lists[o][0]].next == First(w.lists[o][1..])
    ensures Last(w.lists[o][1..]) == if First(w.lists[o][1..]) == NULL then NULL else Last(w.lists[o])
  {
    assert ListOk(w.blocks, w.home, o, w.base[o], w.lists[o]);
    assert NextOk(w.blocks, w.lists[o], 0);
  }

  // ---------------------------------------------------------------- conservation

  /** For every socket, what was consumed and what is pending make up what was appended. */
  ghost predicate Conserved(w: World, appended: map<nat, bytes>, consumed: map<nat, bytes>) {
    forall fd {:trigger Pending(w, fd)} :: Socket(fd) in w.lists ==>
      fd in appended && fd in consumed && appended[fd] == consumed[fd] + Pending(w, fd)
  }

  /** With every pointer right but perhaps those of socket fd, and those right too, all are. */
  lemma HeadsAll(w: World, table: seq<Ptr>, bbufs: seq<BBuf>, fd: nat)
    requires Heads(w, table, bbufs, fd) && Socket(fd) in w.lists
    requires HeadOk(Socket(fd), w.lists[Socket(fd)], table, bbufs, -1)
    ensures Heads(w, table, bbufs, -1)
  {
    forall o | o in w.lists ensures HeadOk(o, w.lists[o], table, bbufs, -1) {
      assert HeadOk(o, w.lists[o], table, bbufs, fd);
    }
  }

  lemma HeadsDangling(w: World, table: seq<Ptr>, bbufs: seq<BBuf>, fd: nat, bbufs': seq<BBuf>)
    requires Heads(w, table, bbufs, -1) && Socket(fd) in w.lists
    requires |bbufs'| == |bbufs| && forall fd' :: 0 <= fd' < |bbufs| && fd' != fd ==> bbufs'[fd'] == bbufs[fd']
    ensures fd < MAX_SOCKET && bbufs[fd] == BBuf(First(w.lists[Socket(fd)]), Last(w.lists[Socket(fd)]))
    ensures Heads(w, table, bbufs', fd)
  {
    assert HeadOk(Socket(fd), w.lists[Socket(fd)], table, bbufs, -1);
    forall o | o in w.lists ensures HeadOk(o, w.lists[o], table, bbufs', fd) {
      assert HeadOk(o, w.lists[o], table, bbufs, -1);
    }
  }

  /** If only socket fd's queue changes, and its books are kept, all books are kept. */
  lemma ConservedStep(w: World, w': World, appended: map<nat, bytes>, consumed: map<nat, bytes>,
                      appended': map<nat, bytes>, consumed': map<nat, bytes>, fd: nat)
    requires Conserved(w, appended, consumed) && Elsewhere(w, w', fd)
    requires fd in appended' && fd in consumed' && appended' == appended[fd := appended'[fd]]
    requires consumed' == consumed[fd := consumed'[fd]]
    requires appended'[fd] == consumed'[fd] + Pending(w', fd)
    ensures Conserved(w', appended', consumed')
  {
    forall fd' | Socket(fd') in w'.lists
      ensures fd' in appended' && fd' in consumed' && appended'[fd'] == consumed'[fd'] + Pending(w', fd')
    {
      assert fd' != fd ==> Same(w, w', fd');
    }
  }

  lemma ConservedWithout(w: World, w': World, appended: map<nat, bytes>, consumed: map<nat, bytes>, fd: nat)
    requires Conserved(w, appended, consumed) && Elsewhere(w, w', fd) && Socket(fd) !in w'.lists
    ensures Conserved(w', appended, consumed)
  {
    forall fd' | Socket(fd') in w'.lists
      ensures fd' in appended && fd' in consumed && appended[fd'] == consumed[fd'] + Pending(w', fd')
    {
      assert Same(w, w', fd');
    }
  }

  lemma BooksKept(w: World, w': World, appended: map<nat, bytes>, consumed: map<nat, bytes>, fd: nat)
    requires Conserved(w, appended, consumed) && Elsewhere(w, w', fd)
    requires Socket(fd) in w.lists && Pending(w', fd) == Pending(w, fd)
    ensures Conserved(w', appended, consumed)
  {
    ConservedStep(w, w', appended, consumed, appended, consumed, fd);
  }

  class SendBufs {
    const table: array<Ptr>   // block_table
    const bbufs: array<BBuf>
    var blocks: seq<Block>

    ghost var w: World
    ghost var appended: map<nat, bytes>  // per socket, what has been appended since it was created
    ghost var consumed: map<nat, bytes>  // and what has been skipped

    ghost predicate Live(fd: nat)
      reads this
    {
      Socket(fd) in w.lists
    }

    /** Blocks and pointers agree, those of socket `except` aside. */
    ghost predicate Consistent(except: int)
      reads this, table, bbufs
    {
      w.blocks == blocks && Ok(w) == true && Heads(w, table[..], bbufs[..], except) == true
    }

    ghost predicate Valid()
      reads this, table, bbufs
    {
      Consistent(-1) && Conserved(w, appended, consumed) == true
    }

    constructor ()
      ensures Valid() && fresh(table) && fresh(bbufs)
      ensures forall fd :: !Live(fd)
    {
      table := new Ptr[MAX_TABLE](_ => NULL);
      bbufs := new BBuf[MAX_SOCKET](_ => BBuf(NULL, NULL));
      blocks := [];
      var lists := map i: nat | 0 <= i < MAX_TABLE :: FreeList(i) := [];
      w := World([], [], lists, map o | o in lists :: 0);
      appended, consumed := map[], map[];
    }

    /** `sendbuf_create`. */
    method Create(fd: nat)
      requires Valid() && fd < MAX_SOCKET && !Live(fd)
      modifies this, bbufs
      ensures Valid() && w == Created(old(w), fd)
      ensures appended == old(appended)[fd := []] && consumed == old(consumed)[fd := []]
    {
      CreatedOk(w, fd);
      CreatedHeads(w, table[..], bbufs[..], fd);
      CreatedElsewhere(w, fd);
      ConservedStep(w, Created(w, fd), appended, consumed, appended[fd := []], consumed[fd := []], fd);
      bbufs[fd] := BBuf(NULL, NULL);
      assert bbufs[..] == old(bbufs[..])[fd := BBuf(NULL, NULL)];
      w := Created(w, fd);
      appended, consumed := appended[fd := []], consumed[fd := []];
    }

    /** `bbuf_free_block`, on the first block of socket fd's chain, whose read cursor may have
        passed its end. */
    method FreeBlock(p: Ptr, ghost fd: nat, ghost rptr: nat) returns (ghost i: nat)
      requires Ok(w) && Heads(w, table[..], bbufs[..], fd) && Live(fd) && p != NULL && p == First(w.lists[Socket(fd)])
      requires 0 <= p < |w.blocks| && blocks == w.blocks[p := w.blocks[p].(rptr := rptr)]
      modifies this`blocks, this`w, table
      ensures Consistent(fd) && Popped(old(w), w, fd) == true && Freed(old(w), w, fd, rptr, i) == true
      ensures SameSizes(old(blocks), blocks) == true
    {
      ghost var w';
      i, w' := FreedOk(w, table[..], bbufs[..], fd, rptr);
      var idx := Hash(blocks[p].bufSize + HEADER);
      HashExact(i, idx);
      if table[idx] == NULL {
        blocks := blocks[p := blocks[p].(next := NULL)];
      } else {
        blocks := blocks[p := blocks[p].(next := table[idx])];
      }
      table[idx] := p;
      assert table[..] == old(table[..])[i := p];
      w := w';
      assert SameSizes(old(blocks), blocks);
    }

    /** `sendbuf_free`: the blocks go to the free lists; the socket's pointers are left dangling. */
    method Free(fd: nat)
      requires Valid() && Live(fd)
      modifies this`blocks, this`w, table
      ensures Valid() && !Live(fd) && Elsewhere(old(w), w, fd) == true && SameSizes(old(blocks), blocks) == true
    {
      HeadsDangling(w, table[..], bbufs[..], fd, bbufs[..]);
      var block := bbufs[fd].head;
      while block != NULL
        invariant Consistent(fd) && Live(fd) && block == First(w.lists[Socket(fd)])
        invariant Elsewhere(old(w), w, fd) == true && SameSizes(old(blocks), blocks) == true
        decreases |w.lists[Socket(fd)]|
      {
        NextIsSecond(w, Socket(fd));
        ghost var w0, blocks0 := w, blocks;
        var next := blocks[block].next;
        ghost var i := FreeBlock(block, fd, blocks[block].rptr);
        ElsewhereThrough(old(w), w0, w, fd);
        SizesThrough(old(blocks), blocks0, blocks);
        block := next;
      }
      ghost var w0 := w;
      w := DroppedOk(w, table[..], bbufs[..], fd);
      ElsewhereThrough(old(w), w0, w, fd);
      ConservedWithout(old(w), w, appended, consumed, fd);
    }

    /** The last part of `sendbuf_alloc`: the first free block of class idx is put at the end of
        the chain of socket fd. */
    method Link(fd: nat, idx: nat)
      requires fd < bbufs.Length && idx < table.Length && 0 <= table[idx] < |blocks|
      requires bbufs[fd].tail == NULL || 0 <= bbufs[fd].tail < |blocks|
      modifies this`blocks, table, bbufs
      ensures blocks == Linked(old(blocks), old(table[idx]), old(bbufs[fd].tail))
      ensures table[..] == old(table[..])[idx := old(blocks[table[idx]].next)]
      ensures bbufs[..] == old(bbufs[..])[fd := Extended(old(bbufs[fd]), old(table[idx]))]
    {
      var block := table[idx];
      table[idx] := blocks[block].next;
      blocks := blocks[block := blocks[block].(next := NULL, rptr := 0, bufLen := 0)];
      if bbufs[fd].tail == NULL {
        bbufs[fd] := BBuf(block, block);
      } else {
        var tail := bbufs[fd].tail;
        blocks := blocks[tail := blocks[tail].(next := block)];
        bbufs[fd] := bbufs[fd].(tail := block);
      }
    }

    /** Taking a free block for socket fd. */
    method Take(fd: nat, idx: nat, ghost room: nat)
      requires Valid() && Live(fd) && idx < MAX_TABLE && table[idx] != NULL && room + HEADER == Pow2(idx)
      modifies this`blocks, this`w, table, bbufs
      ensures Valid() && SameSizes(old(blocks), blocks) && Ready(old(w), w, fd, room) == true
      ensures RoomOf(w, fd) == room && (FullButLast(w, fd) <==> Full(old(w), fd))
    {
      ghost var w', table', bbufs' := TakenOk(w, table[..], bbufs[..], fd, idx, room, appended, consumed);
      Link(fd, idx);
      w := w';
    }

    /** The `malloc` of `sendbuf_alloc`; what the memory holds is anything. */
    method Make(idx: nat, memory: bytes)
      requires Valid() && idx < MAX_TABLE - 1 && |memory| + HEADER == Pow2(idx) && table[idx] == NULL
      modifies this`blocks, this`w, table
      ensures Valid() && table[idx] != NULL && blocks == old(blocks) + [Block(NULL, |memory|, 0, 0, memory)]
      ensures Untouched(old(w), w) == true
    {
      ghost var w' := MadeAll(w, table[..], bbufs[..], idx, memory, appended, consumed);
      table[idx] := |blocks|;
      assert table[..] == old(table[..])[idx := |blocks|];
      blocks := blocks + [Block(NULL, |memory|, 0, 0, memory)];
      w := w';
    }

    /** The slow part of `sendbuf_alloc`: a block is taken from a free list, or made. */
    method Grow(fd: nat, idx: nat, memory: bytes)
      requires Valid() && Live(fd) && idx < MAX_TABLE - 1 && |memory| + HEADER == Pow2(idx)
      modifies this`blocks, this`w, table, bbufs
      ensures Valid() && Ready(old(w), w, fd, |memory|) == true
      ensures RoomOf(w, fd) == |memory| && (FullButLast(w, fd) <==> Full(old(w), fd))
      ensures SameSizes(old(blocks), blocks) || SameSizes(old(blocks) + [Block(NULL, |memory|, 0, 0, memory)], blocks)
    {
      if table[idx] == NULL {
        Make(idx, memory);
        ghost var w1 := w;
        UntouchedLive(old(w), w, fd);
        Take(fd, idx, |memory|);
        ReadyThrough(old(w), w1, w, fd, |memory|);
      } else {
        Take(fd, idx, |memory|);
      }
    }

    /** `sendbuf_alloc`: the last block of the chain has room for `need` bytes, and no queue has
        changed. A block taken for it is less than twice as large as it has to be. An empty block is
        left behind in the chain if and only if the last block is empty and too small. */
    method Alloc(fd: nat, need: nat) returns (block: Ptr)
      requires Valid() && Live(fd) && need + HEADER <= MAX_BLOCK
      modifies this`blocks, this`w, table, bbufs
      ensures Valid() && Ready(old(w), w, fd, need) == true && block == Last(w.lists[Socket(fd)])
      ensures Retains(old(blocks), blocks) == true && |blocks| <= |old(blocks)| + 1
      ensures |blocks| == |old(blocks)| + 1 ==>
                RealSize(need) <= blocks[|old(blocks)|].bufSize + HEADER < 2 * RealSize(need)
      ensures RoomOf(w, fd) >= need
      ensures if RoomOf(old(w), fd) >= need then w == old(w)
              else RealSize(need) <= RoomOf(w, fd) + HEADER < 2 * RealSize(need)
      ensures FullButLast(old(w), fd) ==> (FullButLast(w, fd) <==> Full(old(w), fd) || RoomOf(old(w), fd) >= need)
    {
      TailOk(w, table[..], bbufs[..], fd);
      block := bbufs[fd].tail;
      if block != NULL && blocks[block].bufSize - blocks[block].bufLen >= need {
        ReadyNow(w, fd, need);
        return;
      }
      var idx, size := Class(need);
      var memory: bytes := seq(size - HEADER, _ => 0);
      Grow(fd, idx, memory);
      SizesGrow(old(blocks), blocks, Block(NULL, |memory|, 0, 0, memory));
      ReadyLess(old(w), w, fd, |memory|, need);
      TailOk(w, table[..], bbufs[..], fd);
      block := bbufs[fd].tail;
    }

    /** The caller's writing of data where `sendbuf_alloc` pointed it to. */
    method Write(fd: nat, block: Ptr, data: bytes)
      requires Valid() && Live(fd) && block != NULL && block == Last(w.lists[Socket(fd)])
      requires 0 <= block < |blocks| && blocks[block].bufSize - blocks[block].bufLen >= |data|
      modifies this`blocks, this`w
      ensures Valid() && Untouched(old(w), w) == true && Live(fd) && SameSizes(old(blocks), blocks) == true
      ensures HasRoom(w, fd, |data|) && Behind(w, fd, |data|) == data
      ensures blocks == old(blocks)[block := Written(old(blocks[block]), data)]
    {
      ghost var w' := WrittenOk(w, table[..], bbufs[..], fd, data, appended, consumed);
      SizesKept(blocks, block, Written(blocks[block], data));
      blocks := blocks[block := Written(blocks[block], data)];
      w := w';
    }

    /** `sendbuf_flush`: the n bytes after the last block's end become part of the queue; 1 if there
        is no last block or it has no room for them. */
    method Flush(fd: nat, n: nat) returns (r: int)
      requires Valid() && Live(fd)
      modifies this`blocks, this`w, this`appended
      ensures Valid() && r == if HasRoom(old(w), fd, n) then 0 else 1
      ensures r == 1 ==> w == old(w) && appended == old(appended)
      ensures r == 0 ==> Grown(old(w), w, fd, Behind(old(w), fd, n), old(appended), appended) == true
      ensures r == 0 && FullButLast(old(w), fd) ==> FullButLast(w, fd) && (n != 0 ==> Full(w, fd))
      ensures r == 0 && Full(old(w), fd) ==> Full(w, fd)
      ensures r == 0 ==> RoomOf(w, fd) == RoomOf(old(w), fd) - n
      ensures r == 0 && !FullButLast(old(w), fd) ==> HeadLen(w, fd) == HeadLen(old(w), fd)
      ensures SameSizes(old(blocks), blocks) == true
    {
      TailOk(w, table[..], bbufs[..], fd);
      var tail := bbufs[fd].tail;
      if tail == NULL {
        return 1;
      }
      if blocks[tail].bufSize - blocks[tail].bufLen < n {
        return 1;
      }
      Lengthen(fd, n);
      return 0;
    }

    /** `self->block_tail->buf_len += buf_len`. */
    method Lengthen(fd: nat, n: nat)
      requires Valid() && Live(fd) && HasRoom(w, fd, n)
      modifies this`blocks, this`w, this`appended
      ensures Valid() && SameSizes(old(blocks), blocks) == true
      ensures Grown(old(w), w, fd, Behind(old(w), fd, n), old(appended), appended) == true
      ensures FullButLast(old(w), fd) ==> FullButLast(w, fd) && (n != 0 ==> Full(w, fd))
      ensures Full(old(w), fd) ==> Full(w, fd)
      ensures RoomOf(w, fd) == RoomOf(old(w), fd) - n
      ensures !FullButLast(old(w), fd) ==> HeadLen(w, fd) == HeadLen(old(w), fd)
    {
      TailOk(w, table[..], bbufs[..], fd);
      var tail := bbufs[fd].tail;
      ghost var w', appended' := FlushedOk(w, table[..], bbufs[..], fd, n, appended, consumed);
      SizesKept(blocks, tail, blocks[tail].(bufLen := blocks[tail].bufLen + n));
      blocks := blocks[tail := blocks[tail].(bufLen := blocks[tail].bufLen + n)];
      w, appended := w', appended';
    }

    /** The rest of an append, after `sendbuf_alloc`: the writing of data and `sendbuf_flush`. With
        the room for it, it never fails. */
    method Commit(fd: nat, data: bytes) returns (r: int)
      requires Valid() && Live(fd) && RoomOf(w, fd) >= |data|
      modifies this`blocks, this`w, this`appended
      ensures Valid() && r == 0 && SameSizes(old(blocks), blocks) == true
      ensures Grown(old(w), w, fd, data, old(appended), appended) == true
      ensures RoomOf(w, fd) == RoomOf(old(w), fd) - |data|
      ensures FullButLast(old(w), fd) ==> FullButLast(w, fd) && (data != [] ==> Full(w, fd))
      ensures Full(old(w), fd) ==> Full(w, fd)
      ensures !FullButLast(old(w), fd) ==> HeadLen(w, fd) == HeadLen(old(w), fd)
    {
      TailOk(w, table[..], bbufs[..], fd);
      ghost var appended0 := appended;
      Write(fd, bbufs[fd].tail, data);
      ghost var w1, blocks1 := w, blocks;
      r := Flush(fd, |data|);
      CommittedOk(old(w), w1, w, fd, data, appended0, appended);
      SizesThrough(old(blocks), blocks1, blocks);
    }

    /** An append: `sendbuf_alloc`, the writing of data, `sendbuf_flush`. It never fails. */
    method Append(fd: nat, need: nat, data: bytes) returns (r: int)
      requires Valid() && Live(fd) && need + HEADER <= MAX_BLOCK && |data| <= need
      modifies this`blocks, this`w, this`appended, table, bbufs
      ensures Valid() && r == 0 && Retains(old(blocks), blocks) == true
      ensures Grown(old(w), w, fd, data, old(appended), appended) == true
      ensures data != [] && Full(old(w), fd) ==> Full(w, fd)
    {
      ghost var appended0 := appended;
      var block := Alloc(fd, need);
      ghost var w1, blocks1 := w, blocks;
      r := Commit(fd, data);
      AppendedOk(old(w), w1, w, fd, need, data, appended0, appended);
      SizesRetained(blocks1, blocks);
      RetainsThrough(old(blocks), blocks1, blocks);
    }

    /** `sendbuf_datalen`. */
    method DataLen(fd: nat) returns (len: nat)
      requires Valid() && Live(fd)
      ensures len == HeadLen(w, fd) <= |Pending(w, fd)|
      ensures FullButLast(w, fd) ==> (len == 0 <==> Pending(w, fd) == [])
      ensures len == 0 && Pending(w, fd) != [] <==> Stuck(w, fd)
    {
      DataLenExact(w, table[..], bbufs[..], fd);
      TailOk(w, table[..], bbufs[..], fd);
      var head := bbufs[fd].head;
      if head == NULL {
        return 0;
      }
      len := blocks[head].bufLen - blocks[head].rptr;
    }

    /** `sendbuf_get_read_ptr`, and the reading of the n bytes there. */
    method Peek(fd: nat, n: nat) returns (out: bytes)
      requires Valid() && Live(fd) && n <= HeadLen(w, fd)
      ensures n <= |Pending(w, fd)| && out == Pending(w, fd)[..n]
    {
      TailOk(w, table[..], bbufs[..], fd);
      var head := bbufs[fd].head;
      if head == NULL {
        return [];
      }
      out := blocks[head].buf[blocks[head].rptr..blocks[head].rptr + n];
      PrefixOf(blocks[head].buf, blocks[head].rptr, blocks[head].bufLen, n);
    }

    /** `sendbuf_skip_read_ptr`: the next `len` bytes, or those of the first block if it has fewer,
        have been sent; 1 if there is no block. */
    method Skip(fd: nat, len: nat) returns (r: int)
      requires Valid() && Live(fd)
      modifies this`blocks, this`w, this`consumed, table, bbufs
      ensures Valid() && r == if old(w.lists[Socket(fd)]) == [] then 1 else 0
      ensures Skipped(old(w), w, fd, Min(len, HeadLen(old(w), fd)), old(consumed), consumed) == true
      ensures SameSizes(old(blocks), blocks) == true
    {
      TailOk(w, table[..], bbufs[..], fd);
      var head := bbufs[fd].head;
      if head == NULL {
        SkippedNothing(w, fd, appended, consumed);
        return 1;
      }
      if blocks[head].rptr + len >= blocks[head].bufLen {
        PopHead(fd, len);
      } else {
        ghost var w', consumed' := CursorOk(w, table[..], bbufs[..], fd, len, appended, consumed);
        SizesKept(blocks, head, blocks[head].(rptr := blocks[head].rptr + len));
        blocks := blocks[head := blocks[head].(rptr := blocks[head].rptr + len)];
        w, consumed := w', consumed';
      }
      return 0;
    }

    /** The part of `sendbuf_skip_read_ptr` that drops a block read to its end. */
    method PopHead(fd: nat, len: nat)
      requires Valid() && Live(fd) && w.lists[Socket(fd)] != []
      modifies this`blocks, this`w, this`consumed, table, bbufs
      ensures Valid() && Skipped(old(w), w, fd, HeadLen(old(w), fd), old(consumed), consumed) == true
      ensures SameSizes(old(blocks), blocks) == true
    {
      TailOk(w, table[..], bbufs[..], fd);
      NextIsSecond(w, Socket(fd));
      ghost var w0 := w;
      var block := bbufs[fd].head;
      blocks := blocks[block := blocks[block].(rptr := blocks[block].rptr + len)];
      Unlink(fd, blocks[block].next);
      HeadsDangling(w, table[..], old(bbufs[..]), fd, bbufs[..]);
      SizesKept(old(blocks), block, blocks[block]);
      ghost var blocks1 := blocks;
      ghost var i := FreeBlock(block, fd, blocks[block].rptr);
      SizesThrough(old(blocks), blocks1, blocks);
      consumed := PoppedOk(w0, w, table[..], bbufs[..], fd, appended, consumed);
    }

    /** The socket's pointers after its first block has gone. */
    method Unlink(fd: nat, next: Ptr)
      requires fd < bbufs.Length
      modifies bbufs
      ensures bbufs[..] == old(bbufs[..])[fd := BBuf(next, if next == NULL then NULL else old(bbufs[fd].tail))]
    {
      bbufs[fd] := bbufs[fd].(head := next);
      if bbufs[fd].head == NULL {
        bbufs[fd] := bbufs[fd].(tail := NULL);
      }
    }
  }

  function Min(a: nat, b: nat): nat {
    if a < b then a else b
  }

  /** The first block is empty and some block behind it is not. */
  ghost predicate Stuck(w: World, fd: nat) {
    && Socket(fd) in w.lists && w.lists[Socket(fd)] != []
    && HeadLen(w, fd) == 0 && Data(w.blocks, w.lists[Socket(fd)][1..]) != []
  }

  lemma DataLenExact(w: World, table: seq<Ptr>, bbufs: seq<BBuf>, fd: nat)
    requires Ok(w) == true && Heads(w, table, bbufs, -1) == true && Socket(fd) in w.lists
    ensures HeadLen(w, fd) == 0 && Pending(w, fd) != [] <==> Stuck(w, fd)
    ensures FullButLast(w, fd) ==> (HeadLen(w, fd) == 0 <==> Pending(w, fd) == [])
  {
    TailOk(w, table, bbufs, fd);
    var c := w.lists[Socket(fd)];
    if c != [] {
      NothingBefore(Data(w.blocks, c[1..]));
      if |c| == 1 {
        NothingAfter(Chunk(w.blocks[c[0]]));
        assert c[1..] == [];
      } else {
        assert ButLast(c)[0] == c[0];
      }
    }
  }

  /** A block with data behind the bytes that count. */
  function Written(b: Block, data: bytes): Block {
    if b.bufLen + |data| <= |b.buf| then b.(buf := b.buf[..b.bufLen] + data + b.buf[b.bufLen + |data|..]) else b
  }

  /** The last block of socket fd's chain has room for n more bytes. */
  ghost predicate HasRoom(w: World, fd: nat, n: nat) {
    && Socket(fd) in w.lists && w.lists[Socket(fd)] != []
    && var p := Last(w.lists[Socket(fd)]); 0 <= p < |w.blocks| && w.blocks[p].bufSize - w.blocks[p].bufLen >= n
  }

  /** The n bytes after those that count in the last block. */
  ghost function Behind(w: World, fd: nat, n: nat): bytes
    requires HasRoom(w, fd, n)
  {
    var b := w.blocks[Last(w.lists[Socket(fd)])];
    if b.bufLen + n <= |b.buf| then b.buf[b.bufLen..b.bufLen + n] else []
  }

  /** Socket fd's queue and book have data at their ends; those of the others are as they were. */
  ghost predicate Grown(w: World, w': World, fd: nat, data: bytes, appended: map<nat, bytes>,
                        appended': map<nat, bytes>) {
    && Elsewhere(w, w', fd) && Socket(fd) in w.lists && Socket(fd) in w'.lists
    && Pending(w', fd) == Pending(w, fd) + data
    && fd in appended && appended' == appended[fd := appended[fd] + data]
  }

  /** The first n bytes of socket fd's queue have moved to its book; all else is as it was. */
  ghost predicate Skipped(w: World, w': World, fd: nat, n: nat, consumed: map<nat, bytes>, consumed': map<nat, bytes>) {
    && Elsewhere(w, w', fd) && Socket(fd) in w.lists && Socket(fd) in w'.lists
    && n <= |Pending(w, fd)| && Pending(w', fd) == Pending(w, fd)[n..]
    && (Full(w, fd) ==> Full(w', fd)) && (FullButLast(w, fd) ==> FullButLast(w', fd))
    && fd in consumed && consumed' == consumed[fd := consumed[fd] + Pending(w, fd)[..n]]
  }

  /** The total size asked for. */
  function RealSize(need: nat): nat {
    if need + HEADER <= MIN_BLOCK then MIN_BLOCK else need + HEADER
  }

  /** The size class of the block to allocate for `need` bytes. */
  method Class(need: nat) returns (idx: nat, size: nat)
    requires need + HEADER <= MAX_BLOCK
    ensures idx < MAX_TABLE - 1 && size == Pow2(idx) && RealSize(need) <= size < 2 * RealSize(need)
  {
    var realSize := need + HEADER;
    if realSize <= MIN_BLOCK {
      realSize := MIN_BLOCK;
    }
    idx := Hash(realSize);
    size := Pow2(idx);
  }

  /** No block has gone, and none has changed its size; there may be more. */
  ghost predicate Retains(blocks: seq<Block>, blocks': seq<Block>) {
    |blocks| <= |blocks'| && forall q :: 0 <= q < |blocks| ==> blocks'[q].bufSize == blocks[q].bufSize
  }

  lemma RetainsThrough(a: seq<Block>, b: seq<Block>, c: seq<Block>)
    requires Retains(a, b) == true && Retains(b, c) == true
    ensures Retains(a, c)
  {
  }

  lemma SizesThrough(a: seq<Block>, b: seq<Block>, c: seq<Block>)
    requires SameSizes(a, b) == true && SameSizes(b, c) == true
    ensures SameSizes(a, c)
  {
  }

  lemma SizesKept(blocks: seq<Block>, p: Ptr, b: Block)
    requires 0 <= p < |blocks| && b.bufSize == blocks[p].bufSize
    ensures SameSizes(blocks, blocks[p := b])
  {
  }

  lemma SizesGrow(blocks: seq<Block>, blocks': seq<Block>, b: Block)
    requires SameSizes(blocks, blocks') || SameSizes(blocks + [b], blocks')
    ensures Retains(blocks, blocks') && |blocks'| <= |blocks| + 1
    ensures |blocks'| == |blocks| + 1 ==> blocks'[|blocks|].bufSize == b.bufSize
  {
    assert forall q :: 0 <= q < |blocks| ==> (blocks + [b])[q] == blocks[q];
  }

  lemma SizesRetained(blocks: seq<Block>, blocks': seq<Block>)
    requires SameSizes(blocks, blocks') == true
    ensures Retains(blocks, blocks')
  {
  }

  ghost predicate SameSizes(blocks: seq<Block>, blocks': seq<Block>) {
    |blocks| == |blocks'| && forall q :: 0 <= q < |blocks| ==> blocks[q].bufSize == blocks'[q].bufSize
  }

  /** No queue has changed. */
  ghost predicate Untouched(w: World, w': World) {
    forall fd :: Same(w, w', fd)
  }

  /** The last block of socket fd's chain has room for `room` bytes; all queues are as they were. */
  ghost predicate Ready(w: World, w': World, fd: nat, room: int) {
    && Elsewhere(w, w', fd)
    && Socket(fd) in w.lists && Socket(fd) in w'.lists && w'.lists[Socket(fd)] != []
    && Pending(w', fd) == Pending(w, fd)
    && (Full(w, fd) ==> FullButLast(w', fd))
    && var p := Last(w'.lists[Socket(fd)]);
       0 <= p < |w'.blocks| && w'.blocks[p].bufSize - w'.blocks[p].bufLen >= room
  }

  lemma ReadyNow(w: World, fd: nat, room: int)
    requires Ok(w) && Socket(fd) in w.lists && w.lists[Socket(fd)] != []
    requires var p := Last(w.lists[Socket(fd)]); 0 <= p < |w.blocks| && w.blocks[p].bufSize - w.blocks[p].bufLen >= room
    ensures Ready(w, w, fd, room)
  {
    var c := w.lists[Socket(fd)];
    assert forall fd' :: Same(w, w, fd');
    assert ButLast(c) + [Last(c)] == c;
    AllFullSnoc(w.blocks, ButLast(c), Last(c));
  }

  lemma ReadyThrough(w: World, w': World, w'': World, fd: nat, room: int)
    requires Untouched(w, w') == true && Ready(w', w'', fd, room) == true
    ensures Ready(w, w'', fd, room)
  {
    forall fd' | fd' != fd ensures Same(w, w'', fd') {
      assert Same(w', w'', fd') && Same(w, w', fd');
    }
    assert Same(w, w', fd);
  }

  lemma ReadyLess(w: World, w': World, fd: nat, room: int, need: int)
    requires Ready(w, w', fd, room) == true && need <= room
    ensures Ready(w, w', fd, need)
  {
  }

  lemma UntouchedLive(w: World, w': World, fd: nat)
    requires Untouched(w, w') == true && Socket(fd) in w.lists
    ensures Socket(fd) in w'.lists && (Full(w', fd) <==> Full(w, fd))
  {
    assert Same(w, w', fd);
  }

  lemma UntouchedConserved(w: World, w': World, appended: map<nat, bytes>, consumed: map<nat, bytes>)
    requires Untouched(w, w') && Conserved(w, appended, consumed)
    ensures Conserved(w', appended, consumed)
  {
    forall fd | Socket(fd) in w'.lists
      ensures fd in appended && fd in consumed && appended[fd] == consumed[fd] + Pending(w', fd)
    {
      assert Same(w, w', fd);
    }
  }

  lemma TailOk(w: World, table: seq<Ptr>, bbufs: seq<BBuf>, fd: nat)
    requires Ok(w) == true && Heads(w, table, bbufs, -1) == true && Socket(fd) in w.lists
    ensures (RoomOf(w, fd) >= 0 <==> w.lists[Socket(fd)] != []) && RoomOf(w, fd) >= -1
    ensures HeadLen(w, fd) <= |Pending(w, fd)|
    ensures fd < |bbufs| && bbufs[fd] == BBuf(First(w.lists[Socket(fd)]), Last(w.lists[Socket(fd)]))
    ensures var c, p := w.lists[Socket(fd)], bbufs[fd].tail;
            if p == NULL then c == []
            else c != [] && 0 <= p < |w.blocks| && w.home[p].owner == Socket(fd) && Fits(w.blocks[p], Socket(fd))
    ensures var c, p := w.lists[Socket(fd)], bbufs[fd].head;
            if p == NULL then c == []
            else c != [] && 0 <= p < |w.blocks| && w.home[p].owner == Socket(fd) && Fits(w.blocks[p], Socket(fd))
                 && HeadLen(w, fd) == w.blocks[p].bufLen - w.blocks[p].rptr
  {
    assert HeadOk(Socket(fd), w.lists[Socket(fd)], table, bbufs, -1);
    assert ListOk(w.blocks, w.home, Socket(fd), w.base[Socket(fd)], w.lists[Socket(fd)]);
  }

  lemma MadeAll(w: World, table: seq<Ptr>, bbufs: seq<BBuf>, i: nat, memory: bytes,
                appended: map<nat, bytes>, consumed: map<nat, bytes>)
    returns (w': World)
    requires Ok(w) == true && Heads(w, table, bbufs, -1) == true && Conserved(w, appended, consumed) == true
    requires i < MAX_TABLE - 1 && |memory| + HEADER == Pow2(i) && table[i] == NULL
    ensures w'.blocks == w.blocks + [Block(NULL, |memory|, 0, 0, memory)]
    ensures Ok(w') && Heads(w', table[i := |w.blocks|], bbufs, -1) && Untouched(w, w')
    ensures Conserved(w', appended, consumed)
  {
    var b := Block(NULL, |memory|, 0, 0, memory);
    assert HeadOk(FreeList(i), w.lists[FreeList(i)], table, bbufs, -1);
    assert ListOk(w.blocks, w.home, FreeList(i), w.base[FreeList(i)], w.lists[FreeList(i)]);
    MadeOk(w, i, b);
    MadeHeads(w, table, bbufs, i, b);
    w' := Made(w, i, b);
    forall fd ensures Same(w, w', fd) {
      MadePending(w, i, b, fd);
    }
    UntouchedConserved(w, w', appended, consumed);
  }

  /** The blocks once block p, emptied, follows the block `tail`. */
  function Linked(blocks: seq<Block>, p: Ptr, tail: Ptr): seq<Block>
    requires 0 <= p < |blocks| && (tail == NULL || 0 <= tail < |blocks|)
  {
    var blocks' := blocks[p := blocks[p].(next := NULL, rptr := 0, bufLen := 0)];
    if tail == NULL then blocks' else blocks'[tail := blocks'[tail].(next := p)]
  }

  function Extended(bbuf: BBuf, p: Ptr): BBuf {
    if bbuf.tail == NULL then BBuf(p, p) else bbuf.(tail := p)
  }

  /** What the allocator relies on when it moves a block to a chain, and what comes of it. */
  lemma TakenOk(w: World, table: seq<Ptr>, bbufs: seq<BBuf>, fd: nat, i: nat, room: nat,
                appended: map<nat, bytes>, consumed: map<nat, bytes>)
    returns (w': World, table': seq<Ptr>, bbufs': seq<BBuf>)
    requires Ok(w) == true && Heads(w, table, bbufs, -1) == true && Conserved(w, appended, consumed) == true
    requires Socket(fd) in w.lists && i < MAX_TABLE && table[i] != NULL && room + HEADER == Pow2(i)
    ensures fd < MAX_SOCKET && 0 <= table[i] < |w.blocks|
    ensures (bbufs[fd].tail == NULL || 0 <= bbufs[fd].tail < |w.blocks|)
    ensures w'.blocks == Linked(w.blocks, table[i], bbufs[fd].tail)
    ensures table' == table[i := w.blocks[table[i]].next] && bbufs' == bbufs[fd := Extended(bbufs[fd], table[i])]
    ensures Ok(w') && Heads(w', table', bbufs', -1) && Conserved(w', appended, consumed) && Ready(w, w', fd, room)
    ensures RoomOf(w', fd) == room && (FullButLast(w', fd) <==> Full(w, fd))
  {
    var p, c := table[i], w.lists[Socket(fd)];
    assert HeadOk(FreeList(i), w.lists[FreeList(i)], table, bbufs, -1) && HeadOk(Socket(fd), c, table, bbufs, -1);
    assert ListOk(w.blocks, w.home, FreeList(i), w.base[FreeList(i)], w.lists[FreeList(i)]);
    var b := w.blocks[p].(rptr := 0, bufLen := 0, next := NULL);
    ToBackOk(w, FreeList(i), Socket(fd), b);
    ToBackHeads(w, table, bbufs, fd, i, b);
    NextIsSecond(w, FreeList(i));
    Apart(w, FreeList(i), Socket(fd), p);
    TakenReady(w, fd, i, b, room);
    w', table' := ToBack(w, FreeList(i), Socket(fd), b), table[i := w.blocks[p].next];
    bbufs' := bbufs[fd := Extended(bbufs[fd], p)];
    BooksKept(w, w', appended, consumed, fd);
  }

  lemma TakenReady(w: World, fd: nat, i: nat, b: Block, room: nat)
    requires Movable(w, FreeList(i), Socket(fd)) && w.lists.Keys == w.base.Keys
    requires 0 <= w.lists[FreeList(i)][0] < |w.blocks| == |w.home|
    requires forall k :: 0 <= k < |w.lists[Socket(fd)]| ==> 0 <= w.lists[Socket(fd)][k] < |w.blocks|
    requires b.rptr == b.bufLen == 0 && b.bufSize == room
    ensures var w' := ToBack(w, FreeList(i), Socket(fd), b);
            && Ready(w, w', fd, room) == true && Elsewhere(w, w', fd) == true && Pending(w', fd) == Pending(w, fd)
            && RoomOf(w', fd) == room && (FullButLast(w', fd) <==> Full(w, fd))
  {
    ToBackElsewhere(w, fd, i, b);
    ToBackPending(w, fd, i, b);
    ToBackFull(w, fd, i, b);
    Apart(w, FreeList(i), Socket(fd), w.lists[FreeList(i)][0]);
  }

  lemma ElsewhereThrough(w: World, w': World, w'': World, fd: nat)
    requires Elsewhere(w, w', fd) && Elsewhere(w', w'', fd)
    ensures Elsewhere(w, w'', fd)
  {
    forall fd' | fd' != fd ensures Same(w, w'', fd') {
      assert Same(w, w', fd') && Same(w', w'', fd');
    }
  }

  lemma DroppedElsewhere(w: World, fd: nat)
    ensures Elsewhere(w, Dropped(w, fd), fd)
  {
    forall fd' | fd' != fd ensures Same(w, Dropped(w, fd), fd') {
      assert Socket(fd') in w.lists ==> Dropped(w, fd).lists[Socket(fd')] == w.lists[Socket(fd')];
    }
  }

  lemma EmptyChain(w: World, fd: nat)
    requires Ok(w) && Socket(fd) in w.lists && First(w.lists[Socket(fd)]) == NULL
    ensures w.lists[Socket(fd)] == []
  {
    assert ListOk(w.blocks, w.home, Socket(fd), w.base[Socket(fd)], w.lists[Socket(fd)]);
  }

  lemma CreatedElsewhere(w: World, fd: nat)
    ensures Elsewhere(w, Created(w, fd), fd)
  {
    forall fd' | fd' != fd ensures Same(w, Created(w, fd), fd') {
      assert Socket(fd') in w.lists ==> Created(w, fd).lists[Socket(fd')] == w.lists[Socket(fd')];
    }
  }

  /** The first block of socket fd's chain is gone, and nothing else. */
  ghost predicate Popped(w: World, w': World, fd: nat) {
    && Elsewhere(w, w', fd)
    && Socket(fd) in w.lists && w.lists[Socket(fd)] != [] && Socket(fd) in w'.lists
    && w'.lists[Socket(fd)] == w.lists[Socket(fd)][1..]
    && 0 <= w.lists[Socket(fd)][0] < |w.blocks|
    && Pending(w, fd) == Chunk(w.blocks[w.lists[Socket(fd)][0]]) + Pending(w', fd)
    && (Full(w, fd) ==> Full(w', fd)) && (FullButLast(w, fd) ==> FullButLast(w', fd))
    && SameSizes(w.blocks, w'.blocks)
  }

  /** The first block of socket fd's chain heads free list i, which is that of its size. */
  ghost predicate Freed(w: World, w': World, fd: nat, rptr: nat, i: nat) {
    && Movable(w, Socket(fd), FreeList(i)) && w.lists.Keys == w.base.Keys
    && 0 <= w.lists[Socket(fd)][0] < |w.blocks| == |w.home|
    && var b := w.blocks[w.lists[Socket(fd)][0]];
       Sized(b.bufSize, i) && w' == ToFront(w, Socket(fd), FreeList(i), b.(rptr := rptr))
  }

  lemma FreedOk(w: World, table: seq<Ptr>, bbufs: seq<BBuf>, fd: nat, rptr: nat) returns (i: nat, w': World)
    requires Ok(w) && Heads(w, table, bbufs, fd) && Socket(fd) in w.lists && w.lists[Socket(fd)] != []
    ensures var p := w.lists[Socket(fd)][0];
            && 0 <= p < |w.blocks| && i < MAX_TABLE && w.blocks[p].bufSize + HEADER == Pow2(i) <= MAX_BLOCK
            && w'.blocks == w.blocks[p := w.blocks[p].(rptr := rptr, next := table[i])]
            && Ok(w') && Heads(w', table[i := p], bbufs, fd)
    ensures Popped(w, w', fd) && Freed(w, w', fd, rptr, i)
  {
    i := ClassOfFirst(w, fd);
    var p := w.lists[Socket(fd)][0];
    var b := w.blocks[p].(rptr := rptr);
    ToFrontOk(w, Socket(fd), FreeList(i), b);
    ToFrontHeads(w, table, bbufs, fd, i, b);
    ToFrontElsewhere(w, fd, i, b);
    ToFrontPending(w, fd, i, b);
    assert HeadOk(FreeList(i), w.lists[FreeList(i)], table, bbufs, fd);
    w' := ToFront(w, Socket(fd), FreeList(i), b);
  }

  // ---------------------------------------------------------------- what appends and skips do to the world

  /** The pointers do not depend on what is in the blocks. */
  lemma ChangedHeads(w: World, p: Ptr, b: Block, table: seq<Ptr>, bbufs: seq<BBuf>, except: int)
    requires Heads(w, table, bbufs, except) == true && 0 <= p < |w.blocks|
    ensures Heads(Changed(w, p, b), table, bbufs, except)
  {
    forall o | o in w.lists ensures HeadOk(o, Changed(w, p, b).lists[o], table, bbufs, except) {
      assert HeadOk(o, w.lists[o], table, bbufs, except);
    }
  }

  lemma WrittenOk(w: World, table: seq<Ptr>, bbufs: seq<BBuf>, fd: nat, data: bytes,
                  appended: map<nat, bytes>, consumed: map<nat, bytes>)
    returns (w': World)
    requires Ok(w) == true && Heads(w, table, bbufs, -1) == true && Conserved(w, appended, consumed) == true
    requires Socket(fd) in w.lists && w.lists[Socket(fd)] != []
    requires var p := Last(w.lists[Socket(fd)]);
             0 <= p < |w.blocks| && w.blocks[p].bufSize - w.blocks[p].bufLen >= |data|
    ensures var p := Last(w.lists[Socket(fd)]);
            w'.lists == w.lists && w'.blocks == w.blocks[p := Written(w.blocks[p], data)]
    ensures HasRoom(w', fd, |data|) && Behind(w', fd, |data|) == data
    ensures Ok(w') && Heads(w', table, bbufs, -1) && Conserved(w', appended, consumed) && Untouched(w, w')
  {
    TailOk(w, table, bbufs, fd);
    var p := Last(w.lists[Socket(fd)]);
    var b := Written(w.blocks[p], data);
    assert Alike(w.blocks[p], b);
    w' := Changed(w, p, b);
    ChangedOk(w, p, b);
    ChangedHeads(w, p, b, table, bbufs, -1);
    forall fd' ensures Same(w, w', fd') {
      if Socket(fd') in w.lists {
        PendingFrame(w, w', fd');
      }
    }
    UntouchedConserved(w, w', appended, consumed);
  }

  lemma FlushedOk(w: World, table: seq<Ptr>, bbufs: seq<BBuf>, fd: nat, n: nat,
                  appended: map<nat, bytes>, consumed: map<nat, bytes>)
    returns (w': World, appended': map<nat, bytes>)
    requires Ok(w) == true && Heads(w, table, bbufs, -1) == true && Conserved(w, appended, consumed) == true
    requires HasRoom(w, fd, n)
    ensures var p := Last(w.lists[Socket(fd)]);
            w'.blocks == w.blocks[p := w.blocks[p].(bufLen := w.blocks[p].bufLen + n)]
    ensures Grown(w, w', fd, Behind(w, fd, n), appended, appended')
    ensures FullButLast(w, fd) ==> FullButLast(w', fd) && (n != 0 ==> Full(w', fd))
    ensures Full(w, fd) ==> Full(w', fd)
    ensures RoomOf(w', fd) == RoomOf(w, fd) - n && (!FullButLast(w, fd) ==> HeadLen(w', fd) == HeadLen(w, fd))
    ensures Ok(w') && Heads(w', table, bbufs, -1) && Conserved(w', appended', consumed)
  {
    var p := Last(w.lists[Socket(fd)]);
    var b := FlushedBlock(w, table, bbufs, fd, n);
    w' := Changed(w, p, b);
    ChangedOk(w, p, b);
    ChangedHeads(w, p, b, table, bbufs, -1);
    FlushedQueue(w, fd, b, n);
    appended' := FlushBooks(w, w', appended, consumed, fd, Behind(w, fd, n));
  }

  lemma FlushedBlock(w: World, table: seq<Ptr>, bbufs: seq<BBuf>, fd: nat, n: nat) returns (b: Block)
    requires Ok(w) == true && Heads(w, table, bbufs, -1) == true && HasRoom(w, fd, n)
    ensures var p := Last(w.lists[Socket(fd)]);
            && |w.home| == |w.blocks| && b == w.blocks[p].(bufLen := w.blocks[p].bufLen + n)
            && Fits(b, w.home[p].owner) && Chunk(b) == Chunk(w.blocks[p]) + Behind(w, fd, n) && |Behind(w, fd, n)| == n
  {
    TailOk(w, table, bbufs, fd);
    var p := Last(w.lists[Socket(fd)]);
    b := w.blocks[p].(bufLen := w.blocks[p].bufLen + n);
    ChunkGrows(w.blocks[p], n);
  }

  lemma FlushedQueue(w: World, fd: nat, b: Block, n: nat)
    requires Ok(w) == true && HasRoom(w, fd, n) && |Behind(w, fd, n)| == n
    requires Chunk(b) == Chunk(w.blocks[Last(w.lists[Socket(fd)])]) + Behind(w, fd, n)
    ensures var w' := Changed(w, Last(w.lists[Socket(fd)]), b);
            && Elsewhere(w, w', fd) == true && Pending(w', fd) == Pending(w, fd) + Behind(w, fd, n)
            && (FullButLast(w, fd) ==> FullButLast(w', fd) && (n != 0 ==> Full(w', fd)))
            && (Full(w, fd) ==> Full(w', fd)) && (!FullButLast(w, fd) ==> HeadLen(w', fd) == HeadLen(w, fd))
  {
    FirstIsNotLast(w, fd);
    LastGrows(w, fd, b, Behind(w, fd, n));
    ChangedElsewhere(w, fd, Last(w.lists[Socket(fd)]), b);
    LastButFull(w, fd, b);
    if FullButLast(w, fd) && n != 0 { LastFull(w, fd, b); }
  }

  lemma FlushBooks(w: World, w': World, appended: map<nat, bytes>, consumed: map<nat, bytes>, fd: nat, data: bytes)
    returns (appended': map<nat, bytes>)
    requires Conserved(w, appended, consumed) == true && Elsewhere(w, w', fd) == true
    requires Socket(fd) in w.lists && Socket(fd) in w'.lists && Pending(w', fd) == Pending(w, fd) + data
    ensures Grown(w, w', fd, data, appended, appended') && Conserved(w', appended', consumed)
  {
    appended' := appended[fd := appended[fd] + data];
    Assoc(consumed[fd], Pending(w, fd), data);
    ConservedStep(w, w', appended, consumed, appended', consumed, fd);
  }

  lemma PrefixOf(s: bytes, i: nat, j: nat, n: nat)
    requires i + n <= j <= |s|
    ensures s[i..i + n] == s[i..j][..n]
  {
  }

  lemma ChunkGrows(b: Block, n: nat)
    requires b.rptr <= b.bufLen && b.bufLen + n <= |b.buf|
    ensures Chunk(b.(bufLen := b.bufLen + n)) == Chunk(b) + b.buf[b.bufLen..b.bufLen + n]
  {
  }

  lemma ChunkShrinks(b: Block, n: nat)
    requires b.rptr + n <= b.bufLen <= |b.buf|
    ensures Chunk(b.(rptr := b.rptr + n)) == Chunk(b)[n..]
  {
  }

  /** Only a chain of several blocks has an empty block before its last one. */
  lemma FirstIsNotLast(w: World, fd: nat)
    requires Ok(w) && Socket(fd) in w.lists && w.lists[Socket(fd)] != []
    ensures !FullButLast(w, fd) ==> w.lists[Socket(fd)][0] != Last(w.lists[Socket(fd)])
  {
    var c := w.lists[Socket(fd)];
    assert ListOk(w.blocks, w.home, Socket(fd), w.base[Socket(fd)], c);
    if |c| > 1 {
      assert w.home[c[0]].number != w.home[c[|c| - 1]].number;
    } else {
      assert ButLast(c) == [];
    }
  }

  /** With nothing pending, no block has anything to send. */
  lemma NothingPending(w: World, fd: nat)
    requires Ok(w) && Socket(fd) in w.lists && w.lists[Socket(fd)] != [] && Pending(w, fd) == []
    ensures !Full(w, fd) && HeadLen(w, fd) == 0
  {
    assert ListOk(w.blocks, w.home, Socket(fd), w.base[Socket(fd)], w.lists[Socket(fd)]);
  }

  lemma LastButFull(w: World, fd: nat, b: Block)
    requires Ok(w) && Socket(fd) in w.lists && w.lists[Socket(fd)] != []
    ensures 0 <= Last(w.lists[Socket(fd)]) < |w.blocks|
    ensures FullButLast(w, fd) ==> FullButLast(Changed(w, Last(w.lists[Socket(fd)]), b), fd)
    ensures Full(w, fd) && |Chunk(w.blocks[Last(w.lists[Socket(fd)])])| <= |Chunk(b)| ==>
              Full(Changed(w, Last(w.lists[Socket(fd)]), b), fd)
  {
    var c := w.lists[Socket(fd)];
    assert ListOk(w.blocks, w.home, Socket(fd), w.base[Socket(fd)], c);
    if |Chunk(w.blocks[Last(c)])| <= |Chunk(b)| { AllFullFrame(w.blocks, w.blocks[Last(c) := b], c); }
    assert forall k :: 0 <= k < |c| - 1 ==> c[k] != Last(c) by {
      assert forall k :: 0 <= k < |c| ==> w.home[c[k]].number == w.base[Socket(fd)] + k;
    }
    AllFullFrame(w.blocks, w.blocks[Last(c) := b], ButLast(c));
  }

  lemma LastFull(w: World, fd: nat, b: Block)
    requires Ok(w) && Socket(fd) in w.lists && w.lists[Socket(fd)] != [] && FullButLast(w, fd) && Chunk(b) != []
    ensures 0 <= Last(w.lists[Socket(fd)]) < |w.blocks| && Full(Changed(w, Last(w.lists[Socket(fd)]), b), fd)
  {
    var c := w.lists[Socket(fd)];
    assert ListOk(w.blocks, w.home, Socket(fd), w.base[Socket(fd)], c);
    var blocks' := w.blocks[Last(c) := b];
    AllFullFrame(w.blocks, blocks', ButLast(c));
    AllFullSnoc(blocks', ButLast(c), Last(c));
    assert ButLast(c) + [Last(c)] == c;
  }

  lemma CommittedOk(w: World, w1: World, w2: World, fd: nat, data: bytes, appended: map<nat, bytes>,
                    appended': map<nat, bytes>)
    requires Untouched(w, w1) == true && Grown(w1, w2, fd, data, appended, appended') == true
    ensures Grown(w, w2, fd, data, appended, appended') && RoomOf(w1, fd) == RoomOf(w, fd)
    ensures (FullButLast(w1, fd) <==> FullButLast(w, fd)) && (Full(w1, fd) <==> Full(w, fd))
    ensures HeadLen(w1, fd) == HeadLen(w, fd)
  {
    assert Same(w, w1, fd);
    forall fd' | fd' != fd ensures Same(w, w2, fd') {
      assert Same(w, w1, fd') && Same(w1, w2, fd');
    }
  }

  lemma AppendedOk(w: World, w1: World, w2: World, fd: nat, room: int, data: bytes,
                   appended: map<nat, bytes>, appended': map<nat, bytes>)
    requires Ready(w, w1, fd, room) == true && Grown(w1, w2, fd, data, appended, appended') == true
    ensures Grown(w, w2, fd, data, appended, appended') && (Full(w, fd) ==> FullButLast(w1, fd))
  {
    ElsewhereThrough(w, w1, w2, fd);
  }

  lemma SkippedNothing(w: World, fd: nat, appended: map<nat, bytes>, consumed: map<nat, bytes>)
    requires Socket(fd) in w.lists && Conserved(w, appended, consumed) == true
    ensures Skipped(w, w, fd, 0, consumed, consumed)
  {
    assert forall fd' :: Same(w, w, fd');
    var q := Pending(w, fd);
    assert consumed[fd] + q[..0] == consumed[fd];
  }

  lemma CursorOk(w: World, table: seq<Ptr>, bbufs: seq<BBuf>, fd: nat, len: nat,
                 appended: map<nat, bytes>, consumed: map<nat, bytes>)
    returns (w': World, consumed': map<nat, bytes>)
    requires Ok(w) == true && Heads(w, table, bbufs, -1) == true && Conserved(w, appended, consumed) == true
    requires Socket(fd) in w.lists && w.lists[Socket(fd)] != [] && len < HeadLen(w, fd)
    ensures var p := w.lists[Socket(fd)][0];
            0 <= p < |w.blocks| && w'.blocks == w.blocks[p := w.blocks[p].(rptr := w.blocks[p].rptr + len)]
    ensures Skipped(w, w', fd, len, consumed, consumed')
    ensures Ok(w') && Heads(w', table, bbufs, -1) && Conserved(w', appended, consumed')
  {
    var p := w.lists[Socket(fd)][0];
    var b := CursorBlock(w, table, bbufs, fd, len);
    w' := Changed(w, p, b);
    ChangedOk(w, p, b);
    ChangedHeads(w, p, b, table, bbufs, -1);
    CursorQueue(w, fd, b, len);
    consumed' := SkipBooks(w, w', appended, consumed, fd, len);
  }

  lemma CursorBlock(w: World, table: seq<Ptr>, bbufs: seq<BBuf>, fd: nat, len: nat) returns (b: Block)
    requires Ok(w) == true && Heads(w, table, bbufs, -1) == true
    requires Socket(fd) in w.lists && w.lists[Socket(fd)] != [] && len < HeadLen(w, fd)
    ensures var p := w.lists[Socket(fd)][0];
            && 0 <= p < |w.blocks| == |w.home| && b == w.blocks[p].(rptr := w.blocks[p].rptr + len)
            && Fits(b, w.home[p].owner) && len < |Chunk(w.blocks[p])| && Chunk(b) == Chunk(w.blocks[p])[len..]
  {
    TailOk(w, table, bbufs, fd);
    var p := w.lists[Socket(fd)][0];
    b := w.blocks[p].(rptr := w.blocks[p].rptr + len);
    ChunkShrinks(w.blocks[p], len);
  }

  lemma CursorQueue(w: World, fd: nat, b: Block, len: nat)
    requires Ok(w) == true && Socket(fd) in w.lists && w.lists[Socket(fd)] != []
    requires var p := w.lists[Socket(fd)][0];
             0 <= p < |w.blocks| && len < |Chunk(w.blocks[p])| && Chunk(b) == Chunk(w.blocks[p])[len..]
    ensures var w' := Changed(w, w.lists[Socket(fd)][0], b);
            && Elsewhere(w, w', fd) == true && len <= |Pending(w, fd)| && Pending(w', fd) == Pending(w, fd)[len..]
            && (Full(w, fd) ==> Full(w', fd)) && (FullButLast(w, fd) ==> FullButLast(w', fd))
  {
    FirstShrinks(w, fd, b, len);
    ChangedElsewhere(w, fd, w.lists[Socket(fd)][0], b);
    FirstFull(w, fd, b);
  }

  lemma FirstFull(w: World, fd: nat, b: Block)
    requires Ok(w) && Socket(fd) in w.lists && w.lists[Socket(fd)] != [] && Chunk(b) != []
    ensures 0 <= w.lists[Socket(fd)][0] < |w.blocks|
    ensures Full(w, fd) ==> Full(Changed(w, w.lists[Socket(fd)][0], b), fd)
    ensures FullButLast(w, fd) ==> FullButLast(Changed(w, w.lists[Socket(fd)][0], b), fd)
  {
    var c := w.lists[Socket(fd)];
    assert ListOk(w.blocks, w.home, Socket(fd), w.base[Socket(fd)], c);
    AllFullFrame(w.blocks, w.blocks[c[0] := b], c);
    AllFullFrame(w.blocks, w.blocks[c[0] := b], ButLast(c));
  }

  lemma SkipBooks(w: World, w': World, appended: map<nat, bytes>, consumed: map<nat, bytes>, fd: nat, n: nat)
    returns (consumed': map<nat, bytes>)
    requires Conserved(w, appended, consumed) == true && Elsewhere(w, w', fd) == true
    requires Socket(fd) in w.lists && Socket(fd) in w'.lists
    requires n <= |Pending(w, fd)| && Pending(w', fd) == Pending(w, fd)[n..]
    requires (Full(w, fd) ==> Full(w', fd)) && (FullButLast(w, fd) ==> FullButLast(w', fd))
    ensures Skipped(w, w', fd, n, consumed, consumed') && Conserved(w', appended, consumed')
  {
    consumed' := consumed[fd := consumed[fd] + Pending(w, fd)[..n]];
    Assoc(consumed[fd], Pending(w, fd)[..n], Pending(w, fd)[n..]);
    assert Pending(w, fd)[..n] + Pending(w, fd)[n..] == Pending(w, fd);
    ConservedStep(w, w', appended, consumed, appended, consumed', fd);
  }

  lemma PoppedOk(w: World, w': World, table: seq<Ptr>, bbufs: seq<BBuf>, fd: nat,
                 appended: map<nat, bytes>, consumed: map<nat, bytes>)
    returns (consumed': map<nat, bytes>)
    requires Popped(w, w', fd) == true && Heads(w', table, bbufs, fd) == true
    requires Conserved(w, appended, consumed) == true
    requires fd < |bbufs| && var c := w.lists[Socket(fd)][1..]; bbufs[fd] == BBuf(First(c), Last(c))
    ensures Heads(w', table, bbufs, -1) && Skipped(w, w', fd, HeadLen(w, fd), consumed, consumed')
    ensures Conserved(w', appended, consumed')
  {
    HeadsAll(w', table, bbufs, fd);
    consumed' := SkipBooks(w, w', appended, consumed, fd, HeadLen(w, fd));
  }
}
