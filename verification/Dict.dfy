/** The chained hash table of `dict.c`, in place: a bucket array of linked entries that is
    rehashed into a table of twice the size when it is full. */
module HashDict {
  import opened Powers

  const DICT_HT_INITIAL_SIZE: nat := 4
  const LONG_MAX: nat := 0x7FFF_FFFF_FFFF_FFFF

  // ---------------------------------------------------------------- sizes

  /** `_dictNextPower`: the least power of two that is at least 4 and at least `size`. */
  method NextPower(size: nat) returns (n: nat)
    ensures size >= LONG_MAX ==> n == LONG_MAX
    ensures size < LONG_MAX ==> IsPow2(n) && n >= size && n >= DICT_HT_INITIAL_SIZE
    ensures size < LONG_MAX ==> n == DICT_HT_INITIAL_SIZE || n < 2 * size
  {
    if size >= LONG_MAX { return LONG_MAX; }
    n := DICT_HT_INITIAL_SIZE;
    ghost var k := 2;
    assert Pow2(1) == 2 && Pow2(2) == 4;
    while n < size
      invariant n == Pow2(k) >= DICT_HT_INITIAL_SIZE && (n == DICT_HT_INITIAL_SIZE || n < 2 * size)
      decreases size - n
    {
      n := n * 2;
      k := k + 1;
    }
  }

  // ---------------------------------------------------------------- entries and chains

  /** The address of an entry, or NULL. */
  type Ptr = int

  const NULL: Ptr := -1

  /** `dictEntry`. */
  datatype Entry<K, V> = Entry(key: K, val: V, next: Ptr)

  /** The linked list at `head` runs through exactly the entries at the addresses c. */
  ghost predicate Links<K, V>(cells: seq<Entry<K, V>>, head: Ptr, c: seq<Ptr>) {
    && (forall i :: 0 <= i < |c| ==> 0 <= c[i] < |cells|)
    && head == (if c == [] then NULL else c[0])
    && (forall i :: 0 <= i < |c| ==> NextOk(cells, c, i))
  }

  /** Entry i of the chain points to the one after it. */
  ghost predicate NextOk<K, V>(cells: seq<Entry<K, V>>, c: seq<Ptr>, i: nat)
    requires i < |c| && 0 <= c[i] < |cells|
  {
    cells[c[i]].next == if i + 1 < |c| then c[i + 1] else NULL
  }

  lemma LinksFrame<K, V>(cells: seq<Entry<K, V>>, cells': seq<Entry<K, V>>, head: Ptr, c: seq<Ptr>)
    requires Links(cells, head, c) && |cells| <= |cells'|
    requires forall i :: 0 <= i < |c| ==> cells'[c[i]].next == cells[c[i]].next
    ensures Links(cells', head, c)
  {
    forall i | 0 <= i < |c| ensures 0 <= c[i] < |cells'| && NextOk(cells', c, i) {
      assert NextOk(cells, c, i);
    }
  }

  lemma LinksPush<K, V>(cells: seq<Entry<K, V>>, head: Ptr, c: seq<Ptr>, p: Ptr)
    requires Links(cells, head, c) && 0 <= p < |cells| && cells[p].next == head
    ensures Links(cells, p, [p] + c)
  {
    forall i | 0 <= i < |[p] + c| ensures 0 <= ([p] + c)[i] < |cells| && NextOk(cells, [p] + c, i) {
      assert i > 0 ==> NextOk(cells, c, i - 1);
    }
  }

  lemma LinksTail<K, V>(cells: seq<Entry<K, V>>, head: Ptr, c: seq<Ptr>)
    requires Links(cells, head, c) && c != []
    ensures Links(cells, cells[c[0]].next, c[1..])
  {
    assert NextOk(cells, c, 0);
    forall i | 0 <= i < |c[1..]| ensures 0 <= c[1..][i] < |cells| && NextOk(cells, c[1..], i) {
      assert NextOk(cells, c, i + 1);
    }
  }

  /** Entry i of a chain taken out. */
  lemma LinksUnlink<K, V>(cells: seq<Entry<K, V>>, head: Ptr, c: seq<Ptr>, i: nat)
    requires Links(cells, head, c) && i < |c| && forall j, k :: 0 <= j < k < |c| ==> c[j] != c[k]
    ensures var de := cells[c[i]];
            Links(if i == 0 then cells else cells[c[i - 1] := cells[c[i - 1]].(next := de.next)],
                  if i == 0 then de.next else head, c[..i] + c[i + 1..])
  {
    if i == 0 {
      LinksTail(cells, head, c);
      assert c[..i] + c[i + 1..] == c[1..];
    } else {
      var cells', c' := cells[c[i - 1] := cells[c[i - 1]].(next := cells[c[i]].next)], c[..i] + c[i + 1..];
      assert NextOk(cells, c, i);
      forall j | 0 <= j < |c'| ensures 0 <= c'[j] < |cells'| && NextOk(cells', c', j) {
        var k := if j < i then j else j + 1;
        assert c'[j] == c[k] && NextOk(cells, c, k);
        assert j + 1 < |c'| ==> c'[j + 1] == c[if j + 1 < i then j + 1 else j + 2];
      }
    }
  }

  /** Where the keys go in a table of `size` buckets. */
  ghost function IndexIn<K>(hash: K -> nat, size: nat): K -> nat {
    if size == 0 then k => 0 else k => hash(k) % size
  }

  /** A bucket: linked as c says, every entry belonging into bucket b and registered in `nodes`,
      none twice. */
  ghost predicate Chained<K, V>(idx: K -> nat, cells: seq<Entry<K, V>>, b: nat, head: Ptr, c: seq<Ptr>,
                                nodes: map<K, Ptr>) {
    && Links(cells, head, c)
    && (forall i :: 0 <= i < |c| ==>
          var k := cells[c[i]].key; idx(k) == b && k in nodes && nodes[k] == c[i])
    && (forall i, j {:trigger Differ(c, i, j)} :: 0 <= i < j < |c| ==> Differ(c, i, j))
  }

  /** Entries i and j of a chain are different ones. */
  ghost predicate Differ(c: seq<Ptr>, i: nat, j: nat)
    requires i < |c| && j < |c|
  {
    c[i] != c[j]
  }

  lemma AllDiffer<K, V>(idx: K -> nat, cells: seq<Entry<K, V>>, b: nat, head: Ptr, c: seq<Ptr>, nodes: map<K, Ptr>)
    requires Chained(idx, cells, b, head, c, nodes)
    ensures forall i, j :: 0 <= i < j < |c| ==> c[i] != c[j]
  {
    forall i, j | 0 <= i < j < |c| ensures c[i] != c[j] {
      assert Differ(c, i, j);
    }
  }

  /** The buckets from lo on. */
  ghost predicate AllChained<K, V>(idx: K -> nat, cells: seq<Entry<K, V>>, heads: seq<Ptr>, lo: nat,
                                   chains: seq<seq<Ptr>>,
                                nodes: map<K, Ptr>)
  {
    && |heads| == |chains|
    && forall b :: lo <= b < |heads| ==> Chained(idx, cells, b, heads[b], chains[b], nodes)
  }

  /** Every entry registered has its key and sits in its bucket. */
  ghost predicate Covered<K, V>(idx: K -> nat, cells: seq<Entry<K, V>>, chains: seq<seq<Ptr>>, nodes: map<K, Ptr>) {
    forall k :: k in nodes ==>
      && 0 <= nodes[k] < |cells| && cells[nodes[k]].key == k
      && idx(k) < |chains| && nodes[k] in chains[idx(k)]
  }

  /** A whole table. */
  ghost predicate Table<K, V>(idx: K -> nat, cells: seq<Entry<K, V>>, heads: seq<Ptr>, chains: seq<seq<Ptr>>,
                              nodes: map<K, Ptr>)
  {
    AllChained(idx, cells, heads, 0, chains, nodes) && Covered(idx, cells, chains, nodes)
  }

  /** The total length of the chains. */
  ghost function Total<T>(chains: seq<seq<T>>): nat {
    if chains == [] then 0 else |chains[0]| + Total(chains[1..])
  }

  lemma {:induction false} TotalUpdate<T>(chains: seq<seq<T>>, b: nat, c: seq<T>)
    requires b < |chains|
    ensures Total(chains[b := c]) == Total(chains) - |chains[b]| + |c|
    decreases |chains|
  {
    if b == 0 {
      assert chains[b := c][1..] == chains[1..];
    } else {
      assert chains[b := c][1..] == chains[1..][b - 1 := c];
      TotalUpdate(chains[1..], b - 1, c);
    }
  }

  lemma {:induction false} TotalEmpty<T>(chains: seq<seq<T>>)
    requires forall b :: 0 <= b < |chains| ==> chains[b] == []
    ensures Total(chains) == 0
    decreases |chains|
  {
    if chains != [] {
      TotalEmpty(chains[1..]);
    }
  }

  /** A bucket none of whose entries changed. */
  lemma BucketFrame<K, V>(idx: K -> nat, cells: seq<Entry<K, V>>, cells': seq<Entry<K, V>>, b: nat, head: Ptr,
                          c: seq<Ptr>, nodes: map<K, Ptr>, nodes': map<K, Ptr>)
    requires Chained(idx, cells, b, head, c, nodes) && |cells| <= |cells'|
    requires forall i :: 0 <= i < |c| ==> cells'[c[i]] == cells[c[i]]
    requires forall i :: 0 <= i < |c| ==> var k := cells[c[i]].key; k in nodes' && nodes'[k] == nodes[k]
    ensures Chained(idx, cells', b, head, c, nodes')
  {
    LinksFrame(cells, cells', head, c);
  }

  /** An entry at p pushed to the front of its bucket. */
  lemma BucketPush<K, V>(idx: K -> nat, cells: seq<Entry<K, V>>, b: nat, head: Ptr, c: seq<Ptr>, nodes: map<K, Ptr>,
                         p: Ptr)
    requires Chained(idx, cells, b, head, c, nodes) && 0 <= p < |cells| && p !in c
    requires var e := cells[p]; e.next == head && idx(e.key) == b && e.key in nodes && nodes[e.key] == p
    ensures Chained(idx, cells, b, p, [p] + c, nodes)
  {
    LinksPush(cells, head, c, p);
    var c' := [p] + c;
    forall i, j | 0 <= i < j < |c'| ensures Differ(c', i, j) {
      assert i > 0 ==> Differ(c, i - 1, j - 1);
    }
  }

  /** A new entry at the head of its bucket. */
  lemma InsertEntry<K, V>(idx: K -> nat, cells: seq<Entry<K, V>>, heads: seq<Ptr>, chains: seq<seq<Ptr>>,
                          nodes: map<K, Ptr>,
                          key: K, val: V)
    requires Table(idx, cells, heads, chains, nodes) && idx(key) < |heads| && key !in nodes
    ensures var h, p := idx(key), |cells|;
            Table(idx, cells + [Entry(key, val, heads[h])], heads[h := p], chains[h := [p] + chains[h]],
                  nodes[key := p])
  {
    var h, p := idx(key), |cells|;
    var cells', nodes' := cells + [Entry(key, val, heads[h])], nodes[key := p];
    forall b | 0 <= b < |heads| ensures Chained(idx, cells', b, heads[b], chains[b], nodes') {
      assert Chained(idx, cells, b, heads[b], chains[b], nodes);
      BucketFrame(idx, cells, cells', b, heads[b], chains[b], nodes, nodes');
    }
    assert Links(cells, heads[h], chains[h]);
    BucketPush(idx, cells', h, heads[h], chains[h], nodes', p);
  }

  /** Entry i of a bucket taken out. */
  lemma BucketUnlink<K, V>(idx: K -> nat, cells: seq<Entry<K, V>>, b: nat, head: Ptr, c: seq<Ptr>, nodes: map<K, Ptr>,
                           i: nat)
    requires Chained(idx, cells, b, head, c, nodes) && i < |c|
    ensures var de := cells[c[i]];
            Chained(idx, if i == 0 then cells else cells[c[i - 1] := cells[c[i - 1]].(next := de.next)], b,
                   if i == 0 then de.next else head, c[..i] + c[i + 1..], nodes - {de.key})
  {
    var de, c' := cells[c[i]], c[..i] + c[i + 1..];
    AllDiffer(idx, cells, b, head, c, nodes);
    LinksUnlink(cells, head, c, i);
    forall j, k | 0 <= j < k < |c'| ensures Differ(c', j, k) {
      assert c'[j] == c[if j < i then j else j + 1] && c'[k] == c[if k < i then k else k + 1];
    }
    forall j | 0 <= j < |c'| ensures cells[c'[j]].key != de.key {
      assert c'[j] == c[if j < i then j else j + 1];
    }
  }

  /** The cells after entry i of the chain c is unlinked. */
  function Unlinked<K, V>(cells: seq<Entry<K, V>>, c: seq<Ptr>, i: nat): seq<Entry<K, V>>
    requires i < |c| && forall j :: 0 <= j < |c| ==> 0 <= c[j] < |cells|
  {
    if i == 0 then cells else cells[c[i - 1] := cells[c[i - 1]].(next := cells[c[i]].next)]
  }

  /** The entry p, number i of bucket h, has been taken out. */
  ghost predicate Removed<K, V>(chains: seq<seq<Ptr>>, cells: seq<Entry<K, V>>, chains': seq<seq<Ptr>>,
                                cells': seq<Entry<K, V>>,
                                p: Ptr, h: nat, i: nat)
  {
    && h < |chains| && i < |chains[h]| && chains[h][i] == p
    && chains' == chains[h := chains[h][..i] + chains[h][i + 1..]]
    && (forall j :: 0 <= j < |chains[h]| ==> 0 <= chains[h][j] < |cells|) && cells' == Unlinked(cells, chains[h], i)
  }

  /** A bucket other than the one an entry is taken out of. */
  lemma OtherBucket<K, V>(idx: K -> nat, cells: seq<Entry<K, V>>, heads: seq<Ptr>, chains: seq<seq<Ptr>>,
                          nodes: map<K, Ptr>,
                          h: nat, i: nat, b: nat)
    requires AllChained(idx, cells, heads, 0, chains, nodes) && h < |heads| && i < |chains[h]| && b < |heads| && b != h
    ensures (forall j :: 0 <= j < |chains[h]| ==> 0 <= chains[h][j] < |cells|)
    ensures Chained(idx, Unlinked(cells, chains[h], i), b, heads[b], chains[b], nodes - {cells[chains[h][i]].key})
  {
    assert Chained(idx, cells, h, heads[h], chains[h], nodes);
    assert Chained(idx, cells, b, heads[b], chains[b], nodes);
    BucketFrame(idx, cells, Unlinked(cells, chains[h], i), b, heads[b], chains[b], nodes,
                nodes - {cells[chains[h][i]].key});
  }

  /** What is still registered is still in its bucket. */
  lemma StillCovered<K, V>(idx: K -> nat, cells: seq<Entry<K, V>>, heads: seq<Ptr>, chains: seq<seq<Ptr>>,
                           nodes: map<K, Ptr>,
                           h: nat, i: nat)
    requires Table(idx, cells, heads, chains, nodes) && h < |heads| && i < |chains[h]|
    ensures (forall j :: 0 <= j < |chains[h]| ==> 0 <= chains[h][j] < |cells|)
    ensures Covered(idx, Unlinked(cells, chains[h], i), chains[h := chains[h][..i] + chains[h][i + 1..]],
                    nodes - {cells[chains[h][i]].key})
  {
    var c := chains[h];
    assert Chained(idx, cells, h, heads[h], c, nodes);
    forall k | k in nodes && k != cells[c[i]].key && idx(k) == h ensures nodes[k] in c[..i] + c[i + 1..] {
      var j :| 0 <= j < |c| && c[j] == nodes[k];
      assert (c[..i] + c[i + 1..])[if j < i then j else j - 1] == nodes[k];
    }
  }

  /** Entry i of bucket h taken out of the table. */
  lemma UnlinkEntry<K, V>(idx: K -> nat, cells: seq<Entry<K, V>>, heads: seq<Ptr>, chains: seq<seq<Ptr>>,
                          nodes: map<K, Ptr>,
                          h: nat, i: nat)
    requires Table(idx, cells, heads, chains, nodes) && h < |heads| && i < |chains[h]|
    ensures var c := chains[h];
            && (forall j :: 0 <= j < |c| ==> 0 <= c[j] < |cells|)
            && Table(idx, Unlinked(cells, c, i), if i == 0 then heads[h := cells[c[i]].next] else heads,
                     chains[h := c[..i] + c[i + 1..]], nodes - {cells[c[i]].key})
  {
    var c := chains[h];
    assert Chained(idx, cells, h, heads[h], c, nodes);
    var cells', nodes' := Unlinked(cells, c, i), nodes - {cells[c[i]].key};
    var heads', chains' := if i == 0 then heads[h := cells[c[i]].next] else heads, chains[h := c[..i] + c[i + 1..]];
    forall b | 0 <= b < |heads'| ensures Chained(idx, cells', b, heads'[b], chains'[b], nodes') == true {
      if b == h {
        BucketUnlink(idx, cells, h, heads[h], c, nodes, i);
      } else {
        OtherBucket(idx, cells, heads, chains, nodes, h, i, b);
      }
    }
    StillCovered(idx, cells, heads, chains, nodes, h, i);
  }

  // ---------------------------------------------------------------- rehashing

  /** Both tables while bucket i of the old one is being emptied into the new one: the entries
      `rest` of bucket i and the buckets behind it are still linked as before, everything else
      is in the new table already. */
  datatype Move<!K, V> = Move(
    idx: K -> nat, heads: seq<Ptr>, chains: seq<seq<Ptr>>, i: nat, rest: seq<Ptr>,
    nidx: K -> nat, nheads: seq<Ptr>, nchains: seq<seq<Ptr>>, nodes: map<K, Ptr>)
  {
    ghost predicate Old(cells: seq<Entry<K, V>>, he: Ptr) {
      i < |heads| && AllChained(idx, cells, heads, i + 1, chains, nodes) && Chained(idx, cells, i, he, rest, nodes)
    }

    /** No entry of the chain c is among those still to be moved. */
    ghost predicate Apart(cells: seq<Entry<K, V>>, c: seq<Ptr>) {
      forall j :: 0 <= j < |c| ==>
        0 <= c[j] < |cells| && var k := cells[c[j]].key; idx(k) < i || (idx(k) == i && c[j] !in rest)
    }

    ghost predicate New(cells: seq<Entry<K, V>>) {
      && AllChained(nidx, cells, nheads, 0, nchains, nodes)
      && forall b :: 0 <= b < |nchains| ==> Apart(cells, nchains[b])
    }

    /** Where the entry of the key k is. */
    ghost predicate Located(cells: seq<Entry<K, V>>, k: K) {
      && k in nodes && 0 <= nodes[k] < |cells| && cells[nodes[k]].key == k
      && nidx(k) < |nchains| && idx(k) < |chains|
      && (idx(k) < i ==> nodes[k] in nchains[nidx(k)])
      && (idx(k) == i ==> nodes[k] in rest || nodes[k] in nchains[nidx(k)])
      && (idx(k) > i ==> nodes[k] in chains[idx(k)])
    }

    ghost predicate Placed(cells: seq<Entry<K, V>>) {
      |heads| == |chains| && forall k :: k in nodes ==> Located(cells, k)
    }

    /** The first of the remaining entries relinked into the new table. */
    ghost function Next(cells: seq<Entry<K, V>>): Move<K, V>
      requires rest != [] && 0 <= rest[0] < |cells| && nidx(cells[rest[0]].key) < |nheads| == |nchains|
    {
      var h := nidx(cells[rest[0]].key);
      this.(rest := rest[1..], nheads := nheads[h := rest[0]], nchains := nchains[h := [rest[0]] + nchains[h]])
    }
  }

  /** The cells after `he->next = n.table[h]`. */
  function Relinked<K, V>(cells: seq<Entry<K, V>>, he: nat, head: Ptr): seq<Entry<K, V>>
    requires he < |cells|
  {
    cells[he := cells[he].(next := head)]
  }

  lemma MoveOld<K, V>(m: Move<K, V>, cells: seq<Entry<K, V>>, he: Ptr)
    requires m.Old(cells, he) && m.New(cells) && m.rest != []
    requires m.nidx(cells[m.rest[0]].key) < |m.nheads|
    ensures m.Next(cells).Old(Relinked(cells, he, m.nheads[m.nidx(cells[he].key)]), cells[he].next)
  {
    var cells' := Relinked(cells, he, m.nheads[m.nidx(cells[he].key)]);
    forall b | m.i + 1 <= b < |m.heads| ensures Chained(m.idx, cells', b, m.heads[b], m.chains[b], m.nodes) {
      assert Chained(m.idx, cells, b, m.heads[b], m.chains[b], m.nodes);
      BucketFrame(m.idx, cells, cells', b, m.heads[b], m.chains[b], m.nodes, m.nodes);
    }
    LinksTail(cells, he, m.rest);
    AllDiffer(m.idx, cells, m.i, he, m.rest, m.nodes);
    assert Chained(m.idx, cells, m.i, cells[he].next, m.rest[1..], m.nodes);
    BucketFrame(m.idx, cells, cells', m.i, cells[he].next, m.rest[1..], m.nodes, m.nodes);
  }

  lemma MoveNew<K, V>(m: Move<K, V>, cells: seq<Entry<K, V>>, he: Ptr)
    requires m.Old(cells, he) && m.New(cells) && m.rest != []
    requires m.nidx(cells[m.rest[0]].key) < |m.nheads|
    ensures m.Next(cells).New(Relinked(cells, he, m.nheads[m.nidx(cells[he].key)]))
  {
    var h := m.nidx(cells[he].key);
    var cells' := Relinked(cells, he, m.nheads[h]);
    AllDiffer(m.idx, cells, m.i, he, m.rest, m.nodes);
    forall b | 0 <= b < |m.nheads| ensures Chained(m.nidx, cells', b, m.nheads[b], m.nchains[b], m.nodes) {
      assert Chained(m.nidx, cells, b, m.nheads[b], m.nchains[b], m.nodes);
      BucketFrame(m.nidx, cells, cells', b, m.nheads[b], m.nchains[b], m.nodes, m.nodes);
    }
    BucketPush(m.nidx, cells', h, m.nheads[h], m.nchains[h], m.nodes, he);
  }

  lemma MoveLocated<K, V>(m: Move<K, V>, cells: seq<Entry<K, V>>, he: nat, k: K)
    requires m.rest != [] && he == m.rest[0] && he < |cells| && |m.nheads| == |m.nchains|
    requires m.Located(cells, k) && m.nidx(cells[he].key) < |m.nheads|
    ensures m.Next(cells).Located(Relinked(cells, he, m.nheads[m.nidx(cells[he].key)]), k)
  {
    var h, n := m.nidx(cells[he].key), m.Next(cells);
    if m.nodes[k] == he {
      assert n.nchains[h][0] == he;
    } else if m.nodes[k] in m.rest {
      var j :| 0 <= j < |m.rest| && m.rest[j] == m.nodes[k];
      assert n.rest[j - 1] == m.nodes[k];
    }
    if m.nidx(k) == h && m.nodes[k] in m.nchains[h] {
      var j :| 0 <= j < |m.nchains[h]| && m.nchains[h][j] == m.nodes[k];
      assert n.nchains[h][j + 1] == m.nodes[k];
    }
  }

  /** One turn of the rehash loop. */
  lemma MoveEntry<K, V>(m: Move<K, V>, cells: seq<Entry<K, V>>, he: Ptr)
    requires m.Old(cells, he) && m.New(cells) && m.Placed(cells) && m.rest != []
    ensures he == m.rest[0] && 0 <= he < |cells| && m.nidx(cells[he].key) < |m.nheads|
    ensures var n, cells' := m.Next(cells), Relinked(cells, he, m.nheads[m.nidx(cells[he].key)]);
            n.Old(cells', cells[he].next) && n.New(cells') && n.Placed(cells')
  {
    assert cells[he].key in m.nodes && m.Located(cells, cells[he].key);
    MoveOld(m, cells, he);
    MoveNew(m, cells, he);
    forall k | k in m.nodes ensures m.Next(cells).Located(Relinked(cells, he, m.nheads[m.nidx(cells[he].key)]), k) {
      MoveLocated(m, cells, he, k);
    }
  }

  /** Bucket i emptied: on to the next one. */
  lemma MoveOn<K, V>(m: Move<K, V>, cells: seq<Entry<K, V>>, he: Ptr)
    requires m.Old(cells, he) && m.New(cells) && m.Placed(cells) && m.rest == [] && m.i + 1 < |m.heads|
    ensures var n := m.(i := m.i + 1, rest := m.chains[m.i + 1]);
            n.Old(cells, m.heads[m.i + 1]) && n.New(cells) && n.Placed(cells)
  {
    var n := m.(i := m.i + 1, rest := m.chains[m.i + 1]);
    assert Chained(m.idx, cells, m.i + 1, m.heads[m.i + 1], m.chains[m.i + 1], m.nodes);
    forall k | k in m.nodes ensures n.Located(cells, k) {
      assert m.Located(cells, k);
    }
  }

  /** No entry left in the old table: the new one is the table. */
  lemma MoveDone<K, V>(m: Move<K, V>, cells: seq<Entry<K, V>>)
    requires m.New(cells) && m.Placed(cells) && m.rest == []
    requires forall b :: m.i < b < |m.chains| ==> m.chains[b] == []
    ensures Table(m.nidx, cells, m.nheads, m.nchains, m.nodes)
  {
    forall k | k in m.nodes ensures m.nodes[k] in m.nchains[m.nidx(k)] {
      assert m.Located(cells, k);
    }
  }

  lemma {:induction false} TotalZero<T>(chains: seq<seq<T>>, b: nat)
    requires Total(chains) == 0 && b < |chains|
    ensures chains[b] == []
    decreases |chains|
  {
    if b > 0 {
      TotalZero(chains[1..], b - 1);
    }
  }

  // ---------------------------------------------------------------- tables as wholes

  /** The keys of bucket b are in its chain. */
  ghost predicate CoveredAt<K, V>(idx: K -> nat, cells: seq<Entry<K, V>>, b: nat, c: seq<Ptr>, nodes: map<K, Ptr>) {
    forall k :: k in nodes && idx(k) == b ==> 0 <= nodes[k] < |cells| && cells[nodes[k]].key == k && nodes[k] in c
  }

  /** The buckets from lo on are as they should be. */
  ghost predicate Good<K, V>(idx: K -> nat, cells: seq<Entry<K, V>>, heads: seq<Ptr>, chains: seq<seq<Ptr>>,
                             nodes: map<K, Ptr>, lo: nat)
    decreases |heads| - lo
  {
    && |heads| == |chains|
    && if lo >= |heads| then forall k :: k in nodes ==> idx(k) < |heads|
       else
         && Chained(idx, cells, lo, heads[lo], chains[lo], nodes) && CoveredAt(idx, cells, lo, chains[lo], nodes)
         && Good(idx, cells, heads, chains, nodes, lo + 1)
  }

  lemma {:induction false} GoodBucket<K, V>(idx: K -> nat, cells: seq<Entry<K, V>>, heads: seq<Ptr>,
                                            chains: seq<seq<Ptr>>,
                                            nodes: map<K, Ptr>, lo: nat, b: nat)
    requires Good(idx, cells, heads, chains, nodes, lo) && lo <= b
    ensures forall k :: k in nodes ==> idx(k) < |heads|
    ensures b < |heads| ==>
              Chained(idx, cells, b, heads[b], chains[b], nodes) && CoveredAt(idx, cells, b, chains[b], nodes)
    decreases |heads| - lo
  {
    if lo < |heads| {
      GoodBucket(idx, cells, heads, chains, nodes, lo + 1, if b == lo then lo + 1 else b);
    }
  }

  lemma GoodIsTable<K, V>(idx: K -> nat, cells: seq<Entry<K, V>>, heads: seq<Ptr>, chains: seq<seq<Ptr>>,
                          nodes: map<K, Ptr>)
    requires Good(idx, cells, heads, chains, nodes, 0)
    ensures Table(idx, cells, heads, chains, nodes)
  {
    GoodBucket(idx, cells, heads, chains, nodes, 0, 0);
    forall b | 0 <= b < |heads|
      ensures Chained(idx, cells, b, heads[b], chains[b], nodes) && CoveredAt(idx, cells, b, chains[b], nodes)
    {
      GoodBucket(idx, cells, heads, chains, nodes, 0, b);
    }
    forall k | k in nodes
      ensures 0 <= nodes[k] < |cells| && cells[nodes[k]].key == k && idx(k) < |chains| && nodes[k] in chains[idx(k)]
    {
      assert CoveredAt(idx, cells, idx(k), chains[idx(k)], nodes);
    }
  }

  lemma {:induction false} TableIsGood<K, V>(idx: K -> nat, cells: seq<Entry<K, V>>, heads: seq<Ptr>,
                                             chains: seq<seq<Ptr>>,
                                             nodes: map<K, Ptr>, lo: nat)
    requires Table(idx, cells, heads, chains, nodes)
    ensures Good(idx, cells, heads, chains, nodes, lo)
    decreases |heads| - lo
  {
    if lo < |heads| {
      TableIsGood(idx, cells, heads, chains, nodes, lo + 1);
    }
  }

  /** The finite map a table stands for. */
  ghost function Meaning<K, V>(cells: seq<Entry<K, V>>, nodes: map<K, Ptr>): map<K, V> {
    map k | k in nodes && 0 <= nodes[k] < |cells| :: cells[nodes[k]].val
  }

  /** Every key registered has an entry with that key. */
  ghost predicate Backed<K, V>(cells: seq<Entry<K, V>>, nodes: map<K, Ptr>) {
    forall k :: k in nodes ==> 0 <= nodes[k] < |cells| && cells[nodes[k]].key == k
  }

  lemma GoodBacked<K, V>(idx: K -> nat, cells: seq<Entry<K, V>>, heads: seq<Ptr>, chains: seq<seq<Ptr>>,
                         nodes: map<K, Ptr>)
    requires Good(idx, cells, heads, chains, nodes, 0)
    ensures |heads| == |chains| && Backed(cells, nodes)
  {
    GoodIsTable(idx, cells, heads, chains, nodes);
  }

  lemma MeaningInsert<K, V>(cells: seq<Entry<K, V>>, nodes: map<K, Ptr>, key: K, val: V, next: Ptr)
    requires Backed(cells, nodes)
    ensures Meaning(cells + [Entry(key, val, next)], nodes[key := |cells|]) == Meaning(cells, nodes)[key := val]
  {
  }

  lemma MeaningUnlink<K, V>(cells: seq<Entry<K, V>>, cells': seq<Entry<K, V>>, nodes: map<K, Ptr>, key: K)
    requires |cells| == |cells'| && forall p :: 0 <= p < |cells| ==> cells'[p].val == cells[p].val
    ensures Meaning(cells', nodes - {key}) == Meaning(cells, nodes) - {key}
  {
  }

  /** A new entry in a table. */
  lemma GoodInsert<K, V>(idx: K -> nat, cells: seq<Entry<K, V>>, heads: seq<Ptr>, chains: seq<seq<Ptr>>,
                         nodes: map<K, Ptr>,
                         key: K, val: V)
    requires Good(idx, cells, heads, chains, nodes, 0) && idx(key) < |heads| == |chains| && key !in nodes
    ensures var h, p := idx(key), |cells|;
            Good(idx, cells + [Entry(key, val, heads[h])], heads[h := p], chains[h := [p] + chains[h]],
                 nodes[key := p], 0)
  {
    var h, p := idx(key), |cells|;
    GoodIsTable(idx, cells, heads, chains, nodes);
    InsertEntry(idx, cells, heads, chains, nodes, key, val);
    TableIsGood(idx, cells + [Entry(key, val, heads[h])], heads[h := p], chains[h := [p] + chains[h]], nodes[key := p],
                0);
  }

  /** The addresses of bucket h are addresses of entries, and entry i is registered. */
  lemma GoodChain<K, V>(idx: K -> nat, cells: seq<Entry<K, V>>, heads: seq<Ptr>, chains: seq<seq<Ptr>>,
                        nodes: map<K, Ptr>,
                        h: nat, i: nat)
    requires Good(idx, cells, heads, chains, nodes, 0) && h < |heads| == |chains| && i < |chains[h]|
    ensures forall j :: 0 <= j < |chains[h]| ==> 0 <= chains[h][j] < |cells|
    ensures cells[chains[h][i]].key in nodes && nodes[cells[chains[h][i]].key] == chains[h][i]
    ensures i > 0 ==> chains[h][i - 1] != chains[h][i]
  {
    GoodBucket(idx, cells, heads, chains, nodes, 0, h);
    assert i > 0 ==> Differ(chains[h], i - 1, i);
  }

  /** An entry taken out of a table. */
  lemma GoodUnlink<K, V>(idx: K -> nat, cells: seq<Entry<K, V>>, heads: seq<Ptr>, chains: seq<seq<Ptr>>,
                         nodes: map<K, Ptr>,
                         h: nat, i: nat)
    requires Good(idx, cells, heads, chains, nodes, 0) && h < |heads| == |chains| && i < |chains[h]|
    requires forall j :: 0 <= j < |chains[h]| ==> 0 <= chains[h][j] < |cells|
    ensures var c := chains[h];
            Good(idx, Unlinked(cells, c, i), if i == 0 then heads[h := cells[c[i]].next] else heads,
                 chains[h := c[..i] + c[i + 1..]], nodes - {cells[c[i]].key}, 0)
  {
    var c := chains[h];
    GoodIsTable(idx, cells, heads, chains, nodes);
    UnlinkEntry(idx, cells, heads, chains, nodes, h, i);
    TableIsGood(idx, Unlinked(cells, c, i), if i == 0 then heads[h := cells[c[i]].next] else heads,
                chains[h := c[..i] + c[i + 1..]], nodes - {cells[c[i]].key}, 0);
  }

  /** Everything a deletion changes, and that it leaves a table behind. */
  /** The table without entry i of bucket h. */
  lemma UnlinkFacts<K, V>(idx: K -> nat, cells: seq<Entry<K, V>>, heads: seq<Ptr>, chains: seq<seq<Ptr>>,
                          nodes: map<K, Ptr>,
                          h: nat, i: nat)
    returns (cells': seq<Entry<K, V>>, heads': seq<Ptr>, chains': seq<seq<Ptr>>, nodes': map<K, Ptr>)
    requires Good(idx, cells, heads, chains, nodes, 0) == true && h < |heads| == |chains| && i < |chains[h]|
    ensures forall j :: 0 <= j < |chains[h]| ==> 0 <= chains[h][j] < |cells|
    ensures cells' == Unlinked(cells, chains[h], i)
    ensures heads' == if i == 0 then heads[h := cells[chains[h][i]].next] else heads
    ensures nodes' == nodes - {cells[chains[h][i]].key} && |nodes'| == |nodes| - 1
    ensures |chains'| == |chains| && Total(chains') == Total(chains) - 1
    ensures Good(idx, cells', heads', chains', nodes', 0) == true
    ensures Meaning(cells', nodes') == Meaning(cells, nodes) - {cells[chains[h][i]].key}
    ensures Removed(chains, cells, chains', cells', chains[h][i], h, i) == true
  {
    var c := chains[h];
    GoodChain(idx, cells, heads, chains, nodes, h, i);
    GoodUnlink(idx, cells, heads, chains, nodes, h, i);
    MeaningUnlink(cells, Unlinked(cells, c, i), nodes, cells[c[i]].key);
    TotalUpdate(chains, h, c[..i] + c[i + 1..]);
    cells', heads' := Unlinked(cells, c, i), if i == 0 then heads[h := cells[c[i]].next] else heads;
    chains', nodes' := chains[h := c[..i] + c[i + 1..]], nodes - {cells[c[i]].key};
  }

  // ---------------------------------------------------------------- rehashing whole tables

  /** The rehash that moves the table given into one of m empty buckets is about to empty bucket 0. */
  lemma MoveStart<K, V>(m: Move<K, V>, cells: seq<Entry<K, V>>)
    requires Good(m.idx, cells, m.heads, m.chains, m.nodes, 0) && m.i == 0 < |m.heads| == |m.chains|
    requires m.rest == m.chains[0]
    requires |m.nheads| == |m.nchains| && forall b :: 0 <= b < |m.nheads| ==> m.nheads[b] == NULL && m.nchains[b] == []
    requires forall k :: k in m.nodes ==> m.nidx(k) < |m.nchains|
    ensures m.Old(cells, m.heads[0]) && m.New(cells) && m.Placed(cells)
  {
    GoodIsTable(m.idx, cells, m.heads, m.chains, m.nodes);
    forall k | k in m.nodes ensures m.Located(cells, k) {
    }
  }

  /** In the middle of a rehash: the invariant of its loops, bucket by bucket of the new table. */
  ghost predicate Moving<K, V>(m: Move<K, V>, cells: seq<Entry<K, V>>, he: Ptr, lo: nat)
    decreases |m.nheads| - lo
  {
    && |m.nheads| == |m.nchains|
    && if lo >= |m.nheads| then m.Old(cells, he) && m.Placed(cells)
       else
         && Chained(m.nidx, cells, lo, m.nheads[lo], m.nchains[lo], m.nodes) && m.Apart(cells, m.nchains[lo])
         && Moving(m, cells, he, lo + 1)
  }

  lemma {:induction false} MovingBucket<K, V>(m: Move<K, V>, cells: seq<Entry<K, V>>, he: Ptr, lo: nat, b: nat)
    requires Moving(m, cells, he, lo) && lo <= b
    ensures m.Old(cells, he) && m.Placed(cells)
    ensures b < |m.nheads| ==>
              Chained(m.nidx, cells, b, m.nheads[b], m.nchains[b], m.nodes) && m.Apart(cells, m.nchains[b])
    decreases |m.nheads| - lo
  {
    if lo < |m.nheads| {
      MovingBucket(m, cells, he, lo + 1, if b == lo then lo + 1 else b);
    }
  }

  lemma MovingParts<K, V>(m: Move<K, V>, cells: seq<Entry<K, V>>, he: Ptr)
    requires Moving(m, cells, he, 0)
    ensures m.Old(cells, he) && m.New(cells) && m.Placed(cells)
  {
    MovingBucket(m, cells, he, 0, 0);
    forall b | 0 <= b < |m.nheads|
      ensures Chained(m.nidx, cells, b, m.nheads[b], m.nchains[b], m.nodes) && m.Apart(cells, m.nchains[b])
    {
      MovingBucket(m, cells, he, 0, b);
    }
  }

  lemma {:induction false} PartsMoving<K, V>(m: Move<K, V>, cells: seq<Entry<K, V>>, he: Ptr, lo: nat)
    requires m.Old(cells, he) && m.New(cells) && m.Placed(cells)
    ensures Moving(m, cells, he, lo)
    decreases |m.nheads| - lo
  {
    if lo < |m.nheads| {
      PartsMoving(m, cells, he, lo + 1);
      assert m.Apart(cells, m.nchains[lo]);
    }
    assert Moving(m, cells, he, lo) == true;
  }

  /** A chain has an entry left exactly when its head is not NULL. */
  lemma MovingHead<K, V>(m: Move<K, V>, cells: seq<Entry<K, V>>, he: Ptr)
    requires Moving(m, cells, he, 0)
    ensures he == NULL <==> m.rest == []
    ensures he != NULL ==> he == m.rest[0] && 0 <= he < |cells| && m.nidx(cells[he].key) < |m.nheads|
    ensures |m.nheads| == |m.nchains|
  {
    MovingParts(m, cells, he);
    if he != NULL {
      assert m.Located(cells, cells[he].key);
    }
  }

  /** One relinking in the rehash loop. */
  lemma MovingNext<K, V>(m: Move<K, V>, cells: seq<Entry<K, V>>, he: Ptr)
    requires Moving(m, cells, he, 0) && m.rest != [] && he == m.rest[0] && 0 <= he < |cells|
    requires m.nidx(cells[he].key) < |m.nheads| == |m.nchains|
    ensures Moving(m.Next(cells), Relinked(cells, he, m.nheads[m.nidx(cells[he].key)]), cells[he].next, 0)
  {
    MovingParts(m, cells, he);
    MoveEntry(m, cells, he);
    PartsMoving(m.Next(cells), Relinked(cells, he, m.nheads[m.nidx(cells[he].key)]), cells[he].next, 0);
  }

  lemma RelinkedMeaning<K, V>(cells: seq<Entry<K, V>>, he: nat, head: Ptr, nodes: map<K, Ptr>)
    requires he < |cells|
    ensures Meaning(Relinked(cells, he, head), nodes) == Meaning(cells, nodes)
  {
  }

  /** On to the next bucket. */
  lemma MovingOn<K, V>(m: Move<K, V>, cells: seq<Entry<K, V>>)
    requires Moving(m, cells, NULL, 0) && m.i + 1 < |m.heads| == |m.chains|
    ensures Moving(m.(i := m.i + 1, rest := m.chains[m.i + 1]), cells, m.heads[m.i + 1], 0)
  {
    MovingHead(m, cells, NULL);
    MovingParts(m, cells, NULL);
    MoveOn(m, cells, NULL);
    PartsMoving(m.(i := m.i + 1, rest := m.chains[m.i + 1]), cells, m.heads[m.i + 1], 0);
  }

  /** The rehash is over when no entries are left behind. */
  lemma MovingDone<K, V>(m: Move<K, V>, cells: seq<Entry<K, V>>, he: Ptr)
    requires Moving(m, cells, he, 0) && m.rest == [] && m.i < |m.chains|
    requires Total(m.chains[m.i + 1..]) == 0
    ensures Good(m.nidx, cells, m.nheads, m.nchains, m.nodes, 0)
  {
    forall b | m.i < b < |m.chains| ensures m.chains[b] == [] {
      TotalZero(m.chains[m.i + 1..], b - m.i - 1);
    }
    MovingParts(m, cells, he);
    MoveDone(m, cells);
    TableIsGood(m.nidx, cells, m.nheads, m.nchains, m.nodes, 0);
  }

  /** A table of empty buckets. */
  lemma {:induction false} GoodEmpty<K, V>(idx: K -> nat, cells: seq<Entry<K, V>>, heads: seq<Ptr>,
                                           chains: seq<seq<Ptr>>, lo: nat)
    requires |heads| == |chains| && forall b :: 0 <= b < |heads| ==> heads[b] == NULL && chains[b] == []
    ensures Good(idx, cells, heads, chains, map[], lo)
    decreases |heads| - lo
  {
    if lo < |heads| {
      GoodEmpty(idx, cells, heads, chains, lo + 1);
    }
  }

  /** A value replaced. */
  lemma GoodSetVal<K, V>(idx: K -> nat, cells: seq<Entry<K, V>>, heads: seq<Ptr>, chains: seq<seq<Ptr>>,
                         nodes: map<K, Ptr>,
                         key: K, val: V)
    requires Good(idx, cells, heads, chains, nodes, 0) && key in nodes
    ensures 0 <= nodes[key] < |cells|
    ensures var cells' := cells[nodes[key] := cells[nodes[key]].(val := val)];
            Good(idx, cells', heads, chains, nodes, 0) && Meaning(cells', nodes) == Meaning(cells, nodes)[key := val]
  {
    GoodBacked(idx, cells, heads, chains, nodes);
    var p := nodes[key];
    var cells' := cells[p := cells[p].(val := val)];
    GoodSameLinks(idx, cells, cells', heads, chains, nodes, 0);
  }

  lemma {:induction false} GoodSameLinks<K, V>(idx: K -> nat, cells: seq<Entry<K, V>>, cells': seq<Entry<K, V>>,
                                               heads: seq<Ptr>,
                                               chains: seq<seq<Ptr>>, nodes: map<K, Ptr>, lo: nat)
    requires Good(idx, cells, heads, chains, nodes, lo) && |cells| == |cells'|
    requires forall p :: 0 <= p < |cells| ==> cells'[p].key == cells[p].key && cells'[p].next == cells[p].next
    ensures Good(idx, cells', heads, chains, nodes, lo)
    decreases |heads| - lo
  {
    if lo < |heads| {
      LinksFrame(cells, cells', heads[lo], chains[lo]);
      GoodSameLinks(idx, cells, cells', heads, chains, nodes, lo + 1);
    }
  }

  // ---------------------------------------------------------------- the table in place

  class Dict<!K(==), V> {
    const hash: K -> nat
    var table: array<Ptr>
    var size: nat
    var sizemask: nat
    var used: nat
    var cells: seq<Entry<K, V>>

    ghost var idx: K -> nat          // the bucket of each key
    ghost var chains: seq<seq<Ptr>>  // the entries of each bucket, in order
    ghost var nodes: map<K, Ptr>     // the entry of each key
    ghost var Repr: set<object>

    /** The table is well formed for whatever `idx` says. (`Good` is stated as an equation, so
        that the verifier takes it as one fact.) */
    ghost predicate Shape()
      reads this, Repr
    {
      && this in Repr && table in Repr && size == table.Length == |chains|
      && Good(idx, cells, table[..], chains, nodes, 0) == true
      && used == Total(chains) == |nodes| <= size
    }

    ghost predicate Valid()
      reads this, Repr
    {
      && Shape() && idx == IndexIn(hash, size)
      && (size > 0 ==> IsPow2(size) && sizemask == size - 1 && size >= DICT_HT_INITIAL_SIZE)
    }

    /** The finite map the table stands for. */
    ghost function Contents(): map<K, V>
      reads this
    {
      Meaning(cells, nodes)
    }

    /** `dictCreate`. */
    constructor (hash: K -> nat)
      ensures Valid() && fresh(Repr) && this.hash == hash
      ensures Contents() == map[] && size == 0
    {
      this.hash := hash;
      var t := new Ptr[0];
      table, size, sizemask, used, cells := t, 0, 0, 0, [];
      chains, nodes, Repr := [], map[], {this, t};
      idx := IndexIn(hash, 0);
    }

    /** `dictHashKey(ht, key) & mask` for a table of n buckets. */
    method Slot(key: K, n: nat, mask: nat) returns (h: nat)
      requires n > 0 && IsPow2(n) && mask == n - 1
      ensures h == IndexIn(hash, n)(key) < n
    {
      ghost var k: nat :| n == Pow2(k);
      MaskIsMod(hash(key), k);
      h := And(hash(key), mask);
    }

    /** The search loop of `dictFind`, `_dictKeyIndex` and `dictDelete`: the entry of the key and
        the one before it in its chain. */
    method Search(key: K, h: nat) returns (he: Ptr, prev: Ptr, ghost i: nat)
      requires Shape() && h == idx(key) < size
      ensures he == NULL <==> key !in nodes
      ensures he != NULL ==> he == nodes[key] && i < |chains[h]| && chains[h][i] == he
      ensures he != NULL ==> prev == if i == 0 then NULL else chains[h][i - 1]
    {
      he, prev, i := table[h], NULL, 0;
      ghost var c := chains[h];
      GoodBucket(idx, cells, table[..], chains, nodes, 0, h);
      while he != NULL
        invariant 0 <= i <= |c| && he == (if i < |c| then c[i] else NULL)
        invariant prev == if i == 0 then NULL else c[i - 1]
        invariant forall j :: 0 <= j < i ==> cells[c[j]].key != key
        decreases |c| - i
      {
        if cells[he].key == key { return; }
        assert NextOk(cells, c, i);
        prev := he;
        he := cells[he].next;
        i := i + 1;
      }
      assert forall j :: 0 <= j < |c| ==> cells[c[j]].key != key;
    }

    /** `dictFind`. */
    method Find(key: K) returns (he: Ptr)
      requires Valid()
      ensures he == NULL <==> key !in Contents()
      ensures he != NULL ==> 0 <= he < |cells| && cells[he].key == key && cells[he].val == Contents()[key]
    {
      if size == 0 {
        assert nodes == map[];
        return NULL;
      }
      var h := Slot(key, size, sizemask);
      var found, prev, i := Search(key, h);
      GoodBacked(idx, cells, table[..], chains, nodes);
      return found;
    }

    /** The end of `dictAdd`: a new entry at the head of its bucket. */
    method Insert(key: K, val: V, h: nat)
      requires Shape() && used < size && h == idx(key) < size && key !in nodes
      modifies table, `cells, `used, `chains, `nodes
      ensures Shape() == true && used == old(used) + 1
      ensures Contents() == old(Contents())[key := val]
    {
      var p := |cells|;
      GoodInsert(idx, cells, table[..], chains, nodes, key, val);
      GoodBacked(idx, cells, table[..], chains, nodes);
      MeaningInsert(cells, nodes, key, val, table[h]);
      TotalUpdate(chains, h, [p] + chains[h]);
      ghost var heads := table[..][h := p];
      cells := cells + [Entry(key, val, table[h])];
      table[h] := p;
      assert table[..] == heads;
      used := used + 1;
      chains, nodes := chains[h := [p] + chains[h]], nodes[key := p];
    }

    /** The changes that take the entry de out of the chain at bucket h. */
    method Splice(h: nat, de: Ptr, prevde: Ptr, ghost i: nat, ghost chains': seq<seq<Ptr>>, ghost nodes': map<K, Ptr>)
      requires h < table.Length && h < |chains| && i < |chains[h]| && de == chains[h][i] && used > 0
      requires forall j :: 0 <= j < |chains[h]| ==> 0 <= chains[h][j] < |cells|
      requires prevde == if i == 0 then NULL else chains[h][i - 1]
      modifies table, `cells, `used, `chains, `nodes
      ensures cells == Unlinked(old(cells), old(chains)[h], i)
      ensures table[..] == if i == 0 then old(table[..])[h := old(cells)[de].next] else old(table[..])
      ensures used == old(used) - 1 && chains == chains' && nodes == nodes'
    {
      if prevde != NULL {
        cells := cells[prevde := cells[prevde].(next := cells[de].next)];
      } else {
        table[h] := cells[de].next;
      }
      used := used - 1;
      chains, nodes := chains', nodes';
    }

    /** Takes entry i out of bucket h. */
    method Unlink(h: nat, de: Ptr, prevde: Ptr, ghost i: nat)
      requires Shape() && h < size && i < |chains[h]| && de == chains[h][i] && 0 <= de < |cells|
      requires prevde == if i == 0 then NULL else chains[h][i - 1]
      modifies table, `cells, `used, `chains, `nodes
      ensures Shape() == true && 0 <= de < |old(cells)| && used == old(used) - 1
      ensures nodes == old(nodes) - {old(cells)[de].key} && Contents() == old(Contents()) - {old(cells)[de].key}
      ensures Removed(old(chains), old(cells), chains, cells, de, h, i) == true
    {
      ghost var cells', heads', chains', nodes' := UnlinkFacts(idx, cells, table[..], chains, nodes, h, i);
      Splice(h, de, prevde, i, chains', nodes');
    }

    /** `dictDelete`; h and i are where the entry was. */
    method Delete(key: K) returns (ok: bool, ghost h: nat, ghost i: nat)
      requires Valid()
      modifies table, `cells, `used, `chains, `nodes
      ensures Valid() && used <= old(used)
      ensures ok == (key in old(Contents()))
      ensures Contents() == old(Contents()) - {key}
      ensures ok ==> key in old(nodes) && Removed(old(chains), old(cells), chains, cells, old(nodes)[key], h, i)
    {
      h, i := 0, 0;
      if size == 0 {
        assert nodes == map[];
        return false, h, i;
      }
      var b := Slot(key, size, sizemask);
      var de, prevde, at := Search(key, b);
      GoodBacked(idx, cells, table[..], chains, nodes);
      if de == NULL { return false, h, i; }
      Unlink(b, de, prevde, at);
      return true, b, at;
    }

    /** The inner loop of `dictExpand`: bucket i is relinked, entry by entry, into the new table. */
    method EmptyBucket(i: nat, ntable: array<Ptr>, nmask: nat, ghost m: Move<K, V>) returns (ghost m': Move<K, V>)
      requires i < table.Length && ntable != table && IsPow2(ntable.Length) && nmask == ntable.Length - 1
      requires m.nidx == IndexIn(hash, ntable.Length) && m.nheads == ntable[..]
      requires Moving(m, cells, table[i], 0) && used >= |m.rest|
      modifies ntable, `cells, `used
      ensures Moving(m', cells, NULL, 0) == true && m'.nheads == ntable[..]
      ensures m'.(rest := m.rest, nheads := m.nheads, nchains := m.nchains) == m
      ensures used == old(used) - |m.rest| && used + Total(m'.nchains) == old(used) + Total(m.nchains)
      ensures Meaning(cells, m.nodes) == old(Meaning(cells, m.nodes))
    {
      m' := m;
      var he := table[i];
      while he != NULL
        invariant Moving(m', cells, he, 0) == true && m'.nheads == ntable[..]
        invariant m'.(rest := m.rest, nheads := m.nheads, nchains := m.nchains) == m
        invariant used >= |m'.rest| && used - |m'.rest| == old(used) - |m.rest|
        invariant used + Total(m'.nchains) == old(used) + Total(m.nchains)
        invariant Meaning(cells, m.nodes) == old(Meaning(cells, m.nodes))
        decreases |m'.rest|
      {
        m', he := MoveOne(he, ntable, nmask, m');
      }
      MovingHead(m', cells, NULL);
    }

    /** The body of that loop. */
    method MoveOne(he: Ptr, ntable: array<Ptr>, nmask: nat, ghost m: Move<K, V>)
      returns (ghost m': Move<K, V>, nextHe: Ptr)
      requires ntable != table && IsPow2(ntable.Length) && nmask == ntable.Length - 1
      requires m.nidx == IndexIn(hash, ntable.Length) && m.nheads == ntable[..]
      requires Moving(m, cells, he, 0) && used >= |m.rest| && he != NULL
      modifies ntable, `cells, `used
      ensures Moving(m', cells, nextHe, 0) == true && m'.nheads == ntable[..]
      ensures m'.(rest := m.rest, nheads := m.nheads, nchains := m.nchains) == m
      ensures |m'.rest| == |m.rest| - 1 && used == old(used) - 1 && Total(m'.nchains) == Total(m.nchains) + 1
      ensures Meaning(cells, m.nodes) == old(Meaning(cells, m.nodes))
    {
      MovingHead(m, cells, he);
      MovingNext(m, cells, he);
      var h := Slot(cells[he].key, ntable.Length, nmask);
      RelinkedMeaning(cells, he, ntable[h], m.nodes);
      TotalUpdate(m.nchains, h, [he] + m.nchains[h]);
      m' := m.Next(cells);
      nextHe := cells[he].next;
      cells := cells[he := cells[he].(next := ntable[h])];
      ntable[h] := he;
      assert m'.nheads == ntable[..];
      used := used - 1;
    }

    /** The rehash m is about to empty bucket i, or has emptied the last one. */
    ghost predicate Rehashing(m: Move<K, V>, i: nat, n: nat)
      reads this, table
    {
      && size == table.Length == |chains| && size > 0 && i <= size && m.idx == idx && m.heads == table[..]
      && m.chains == chains
      && m.nodes == nodes && m.nidx == IndexIn(hash, |m.nheads|)
      && m.i == (if i < size then i else size - 1) && (i < size ==> m.rest == chains[i])
      && Moving(m, cells, if i < size then table[i] else NULL, 0) == true
      && used == Total(chains[i..]) && used + Total(m.nchains) == n
    }

    /** One turn of the outer loop of `dictExpand`. */
    method NextBucket(i: nat, ntable: array<Ptr>, nmask: nat, ghost m: Move<K, V>, ghost n: nat)
      returns (ghost m': Move<K, V>)
      requires i < size && Rehashing(m, i, n) && ntable != table
      requires IsPow2(ntable.Length) && nmask == ntable.Length - 1 && m.nheads == ntable[..]
      modifies ntable, `cells, `used
      ensures Rehashing(m', i + 1, n) && m'.nheads == ntable[..] && Contents() == old(Contents())
    {
      assert chains[i..][1..] == chains[i + 1..];
      m' := EmptyBucket(i, ntable, nmask, m);
      if i + 1 < size {
        MovingOn(m', cells);
        m' := m'.(i := i + 1, rest := chains[i + 1]);
      }
    }

    /** The outer loop of `dictExpand`: every entry ends up in the new table, and none is left. */
    method MoveAll(ntable: array<Ptr>, nmask: nat) returns (ghost nchains: seq<seq<Ptr>>)
      requires Shape() && size > 0 && ntable !in Repr && IsPow2(ntable.Length) && nmask == ntable.Length - 1
      requires forall b :: 0 <= b < ntable.Length ==> ntable[b] == NULL
      modifies ntable, `cells, `used
      ensures used == 0 && Total(nchains) == old(used)
      ensures Good(IndexIn(hash, ntable.Length), cells, ntable[..], nchains, nodes, 0) == true
      ensures Contents() == old(Contents())
    {
      ghost var m := Start(ntable[..]);
      var i := 0;
      assert chains[0..] == chains;
      while i < size && used > 0
        invariant 0 <= i <= size && Rehashing(m, i, old(used)) && m.nheads == ntable[..]
        invariant Contents() == old(Contents())
      {
        m := NextBucket(i, ntable, nmask, m, old(used));
        i := i + 1;
      }
      Finish(m, if i < size then table[i] else NULL, i);
      nchains := m.nchains;
    }

    /** The state of the rehash before its first step. */
    ghost function Start(nheads: seq<Ptr>): (m: Move<K, V>)
      requires Shape() && size > 0 && |nheads| > 0
      requires forall b :: 0 <= b < |nheads| ==> nheads[b] == NULL
      reads this, Repr
      ensures m == Move(idx, table[..], chains, 0, chains[0], IndexIn(hash, |nheads|), nheads, m.nchains, nodes)
      ensures Moving(m, cells, table[0], 0) && Total(m.nchains) == 0
    {
      var m := Move(idx, table[..], chains, 0, chains[0], IndexIn(hash, |nheads|), nheads, seq(|nheads|, _ => []),
                    nodes);
      MoveStart(m, cells);
      PartsMoving(m, cells, table[0], 0);
      TotalEmpty(m.nchains);
      m
    }

    /** After its last step. */
    lemma Finish(m: Move<K, V>, he: Ptr, i: nat)
      requires size == |chains| && m.chains == chains && |m.heads| == size > 0 && i <= size
      requires Moving(m, cells, he, 0)
      requires if i < size then m.i == i && m.rest == chains[i] && Total(chains[i..]) == 0
               else m.i == size - 1 && he == NULL
      ensures Good(m.nidx, cells, m.nheads, m.nchains, m.nodes, 0)
    {
      MovingHead(m, cells, he);
      if i < size {
        TotalZero(chains[i..], 0);
        assert chains[i..][1..] == chains[i + 1..];
      } else {
        assert chains[m.i + 1..] == [];
      }
      MovingDone(m, cells, he);
    }

    /** `*ht = n`. */
    method Adopt(ntable: array<Ptr>, nused: nat, ghost nchains: seq<seq<Ptr>>)
      requires this in Repr && IsPow2(ntable.Length) && ntable.Length >= DICT_HT_INITIAL_SIZE
      requires |nodes| == nused <= ntable.Length
      requires Good(IndexIn(hash, ntable.Length), cells, ntable[..], nchains, nodes, 0) && Total(nchains) == nused
      modifies `table, `size, `sizemask, `used, `idx, `chains, `Repr
      ensures Valid() && Repr == old(Repr) + {ntable}
      ensures table == ntable && size == ntable.Length && used == nused
    {
      GoodBacked(IndexIn(hash, ntable.Length), cells, ntable[..], nchains, nodes);
      table, size, sizemask, used := ntable, ntable.Length, ntable.Length - 1, nused;
      idx, chains, Repr := IndexIn(hash, ntable.Length), nchains, Repr + {ntable};
    }

    /** The entries moved to a new table; the old one is left empty. */
    method Rehash(ntable: array<Ptr>) returns (ghost nchains: seq<seq<Ptr>>)
      requires Valid() && ntable !in Repr && IsPow2(ntable.Length)
      requires forall b :: 0 <= b < ntable.Length ==> ntable[b] == NULL
      modifies ntable, `cells, `used
      ensures used == 0 && Total(nchains) == old(used)
      ensures Good(IndexIn(hash, ntable.Length), cells, ntable[..], nchains, nodes, 0) == true
      ensures Contents() == old(Contents())
    {
      if size > 0 {
        nchains := MoveAll(ntable, ntable.Length - 1);
      } else {
        nchains := seq(ntable.Length, _ => []);
        assert nodes == map[];
        GoodEmpty(IndexIn(hash, ntable.Length), cells, ntable[..], nchains, 0);
        TotalEmpty(nchains);
      }
    }

    /** `dictExpand`: a larger table with the very same entries. */
    method Expand(want: nat) returns (ok: bool)
      requires Valid() && want < LONG_MAX
      modifies this
      ensures Valid() && fresh(Repr - old(Repr))
      ensures ok == (old(used) <= want) && Contents() == old(Contents()) && used == old(used)
      ensures ok ==> fresh(table) && size >= want && (size == DICT_HT_INITIAL_SIZE || size < 2 * want)
      ensures !ok ==> size == old(size)
    {
      var realsize := NextPower(want);
      if used > want { return false; }
      var nused := used;
      var ntable := new Ptr[realsize](_ => NULL);
      ghost var nchains := Rehash(ntable);
      assert used == 0;
      Adopt(ntable, nused, nchains);
      return true;
    }

    /** `_dictExpandIfNeeded`: never fails. */
    method ExpandIfNeeded() returns (ok: bool)
      requires Valid() && 2 * size < LONG_MAX
      modifies this
      ensures Valid() && fresh(Repr - old(Repr)) && (table == old(table) || fresh(table))
      ensures ok && Contents() == old(Contents()) && used == old(used) < size
      ensures size == old(size) || size < 8 * (old(used) + 1)
    {
      if size == 0 {
        ok := Expand(DICT_HT_INITIAL_SIZE);
      } else if used == size {
        ok := Expand(size * 2);
      } else {
        ok := true;
      }
    }

    /** `_dictKeyIndex`: the bucket for a new entry, or -1 if the key is there. */
    method KeyIndex(key: K) returns (index: int)
      requires Valid() && 2 * size < LONG_MAX
      modifies this
      ensures Valid() && fresh(Repr - old(Repr)) && (table == old(table) || fresh(table))
      ensures Contents() == old(Contents()) && used == old(used) < size
      ensures size == old(size) || size < 8 * (old(used) + 1)
      ensures if key in Contents() then index == -1 else 0 <= index == idx(key) < size && key !in nodes
    {
      var ok := ExpandIfNeeded();
      if !ok { return -1; }
      var h := Slot(key, size, sizemask);
      var he, prev, i := Search(key, h);
      GoodBacked(idx, cells, table[..], chains, nodes);
      if he != NULL { return -1; }
      return h;
    }

    /** `dictAdd`. */
    method Add(key: K, val: V) returns (ok: bool)
      requires Valid() && 2 * size < LONG_MAX
      modifies Repr
      ensures Valid() && fresh(Repr - old(Repr))
      ensures ok == (key !in old(Contents()))
      ensures Contents() == if ok then old(Contents())[key := val] else old(Contents())
      ensures (size == old(size) || size < 8 * (old(used) + 1)) && used <= old(used) + 1
    {
      var index := KeyIndex(key);
      if index == -1 { return false; }
      Insert(key, val, index);
      return true;
    }

    /** `dictReplace`. */
    method Replace(key: K, val: V) returns (added: bool)
      requires Valid() && 2 * size < LONG_MAX
      modifies Repr
      ensures Valid() && fresh(Repr - old(Repr))
      ensures added == (key !in old(Contents())) && Contents() == old(Contents())[key := val]
      ensures (size == old(size) || size < 8 * (old(used) + 1)) && used <= old(used) + 1
    {
      added := Add(key, val);
      if !added {
        SetVal(key, val);
      }
    }

    /** The value update of `dictReplace`. */
    method SetVal(key: K, val: V)
      requires Valid() && key in Contents()
      modifies `cells
      ensures Valid() && Contents() == old(Contents())[key := val]
    {
      var h := Slot(key, size, sizemask);
      var he, prev, i := Search(key, h);
      GoodSetVal(idx, cells, table[..], chains, nodes, key, val);
      cells := cells[he := cells[he].(val := val)];
    }
  }
}
