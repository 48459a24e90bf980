/** The iterator of `dict.c`: it saves the next entry before it hands one out, so that the caller
    may delete the entry just returned. */
module DictIterator {
  import opened HashDict

  /** All entries of the buckets, bucket after bucket. */
  ghost function Flatten(chains: seq<seq<Ptr>>): seq<Ptr> {
    if chains == [] then [] else chains[0] + Flatten(chains[1..])
  }

  ghost predicate Distinct<T>(s: seq<T>) {
    forall i, j :: 0 <= i < j < |s| ==> s[i] != s[j]
  }

  lemma DistinctAppend<T>(a: seq<T>, b: seq<T>)
    requires Distinct(a) && Distinct(b) && forall x :: x in a ==> x !in b
    ensures Distinct(a + b)
  {
    forall i, j | 0 <= i < |a| <= j < |a| + |b| ensures (a + b)[i] != (a + b)[j] {
      assert a[i] in a && b[j - |a|] in b;
    }
  }

  /** p is the registered entry of a key that belongs into a bucket from lo on. */
  ghost predicate Member<K, V>(idx: K -> nat, cells: seq<Entry<K, V>>, nodes: map<K, Ptr>, lo: nat, p: Ptr) {
    0 <= p < |cells| && var k := cells[p].key; k in nodes && nodes[k] == p && idx(k) >= lo
  }

  /** The buckets from lo on hold the entry of every key that belongs there, once. */
  lemma {:induction false} FlattenExact<K, V>(idx: K -> nat, cells: seq<Entry<K, V>>, heads: seq<Ptr>,
                                              chains: seq<seq<Ptr>>,
                                              nodes: map<K, Ptr>, lo: nat)
    requires Good(idx, cells, heads, chains, nodes, lo) && lo <= |chains|
    ensures Distinct(Flatten(chains[lo..]))
    ensures forall p :: p in Flatten(chains[lo..]) ==> Member(idx, cells, nodes, lo, p)
    ensures forall k :: k in nodes && idx(k) >= lo ==> nodes[k] in Flatten(chains[lo..])
    decreases |chains| - lo
  {
    if lo < |heads| {
      var c, rest := chains[lo], Flatten(chains[lo + 1..]);
      assert chains[lo..][1..] == chains[lo + 1..];
      FlattenExact(idx, cells, heads, chains, nodes, lo + 1);
      forall x | x in c ensures Member(idx, cells, nodes, lo, x) && x !in rest {
        var i :| 0 <= i < |c| && c[i] == x;
      }
      AllDiffer(idx, cells, lo, heads[lo], c, nodes);
      DistinctAppend(c, rest);
    }
  }

  /** An iterator in the middle of its bucket: the saved next entry begins what is left of it. */
  ghost predicate On(chains: seq<seq<Ptr>>, index: int, entry: Ptr, nextEntry: Ptr, rest: seq<Ptr>) {
    && -1 <= index <= |chains|
    && (entry == NULL ==> rest == [])
    && (entry != NULL ==>
          && 0 <= index < |chains| && |rest| <= |chains[index]|
          && rest == chains[index][|chains[index]| - |rest|..]
          && nextEntry == if rest == [] then NULL else rest[0])
  }

  /** `rest` is what is left of bucket `index`, and there is something left. */
  ghost predicate At(chains: seq<seq<Ptr>>, index: int, rest: seq<Ptr>) {
    && 0 <= index < |chains| && 0 < |rest| <= |chains[index]|
    && rest == chains[index][|chains[index]| - |rest|..]
  }

  /** The entries still to be handed out. */
  ghost function Ahead(chains: seq<seq<Ptr>>, index: int, rest: seq<Ptr>): seq<Ptr>
    requires -1 <= index <= |chains|
  {
    if index < |chains| then rest + Flatten(chains[index + 1..]) else []
  }

  /** The entry just handed out is the one in front of what is left of its bucket. */
  ghost predicate AtEntry(chains: seq<seq<Ptr>>, index: int, entry: Ptr, rest: seq<Ptr>) {
    && 0 <= index < |chains| && entry != NULL
    && |rest| < |chains[index]| && chains[index][|chains[index]| - |rest| - 1] == entry
  }

  /** The links of a chain, at position i. */
  lemma ChainStep<K, V>(idx: K -> nat, cells: seq<Entry<K, V>>, heads: seq<Ptr>, chains: seq<seq<Ptr>>,
                        nodes: map<K, Ptr>,
                        b: nat, i: nat)
    requires Good(idx, cells, heads, chains, nodes, 0) && b < |heads| == |chains| && i <= |chains[b]|
    ensures var c := chains[b];
            && heads[b] == (if c == [] then NULL else c[0])
            && (i < |c| ==> 0 <= c[i] < |cells| && cells[c[i]].next == if i + 1 < |c| then c[i + 1] else NULL)
  {
    GoodBucket(idx, cells, heads, chains, nodes, 0, b);
    assert i < |chains[b]| ==> NextOk(cells, chains[b], i);
  }

  lemma AheadNextBucket(chains: seq<seq<Ptr>>, index: int)
    requires -1 <= index < |chains|
    ensures index + 1 == |chains| ==> Ahead(chains, index, []) == []
    ensures index + 1 < |chains| ==> Ahead(chains, index, []) == Ahead(chains, index + 1, chains[index + 1])
  {
    if index + 1 < |chains| {
      assert chains[index + 1..][1..] == chains[index + 2..];
    }
  }

  class Iterator<!K(==), V> {
    const ht: Dict<K, V>
    var index: int
    var entry: Ptr
    var nextEntry: Ptr
    ghost var rest: seq<Ptr>  // what is left of the current bucket

    ghost predicate Valid()
      reads this, ht, ht.Repr
    {
      ht.Shape() && On(ht.chains, index, entry, nextEntry, rest)
    }

    ghost function Todo(): seq<Ptr>
      requires Valid()
      reads this, ht, ht.Repr
    {
      Ahead(ht.chains, index, rest)
    }

    /** `dictGetIterator`. */
    constructor (d: Dict<K, V>)
      requires d.Shape()
      ensures Valid() && ht == d && Todo() == Flatten(d.chains) && entry == NULL
    {
      ht := d;
      index, entry, nextEntry, rest := -1, NULL, NULL, [];
      new;
      assert ht.chains[0..] == ht.chains;
    }

    /** The first half of a turn of the loop of `dictNext`: the candidate for the next entry. */
    method Candidate()
      requires Valid() && index < ht.size
      modifies `index, `entry, `rest
      ensures -1 <= index <= ht.size && Ahead(ht.chains, index, rest) == old(Todo())
      ensures entry != NULL ==> At(ht.chains, index, rest) && rest[0] == entry
      ensures entry == NULL ==> rest == [] && index == old(if entry == NULL then index + 1 else index)
    {
      if entry == NULL {
        AheadNextBucket(ht.chains, index);
        index := index + 1;
        if index < ht.size {
          ChainStep(ht.idx, ht.cells, ht.table[..], ht.chains, ht.nodes, index, 0);
          entry := ht.table[index];
          rest := ht.chains[index];
        }
      } else {
        ghost var c := ht.chains[index];
        ChainStep(ht.idx, ht.cells, ht.table[..], ht.chains, ht.nodes, index, |c| - |rest|);
        entry := nextEntry;
      }
    }

    /** The second half: the next entry is saved before this one is handed out. */
    method Save()
      requires ht.Shape() && At(ht.chains, index, rest) && entry == rest[0]
      modifies `nextEntry, `rest
      ensures Valid() && AtEntry(ht.chains, index, entry, rest)
      ensures Todo() == old(Ahead(ht.chains, index, rest))[1..]
    {
      ghost var c := ht.chains[index];
      ChainStep(ht.idx, ht.cells, ht.table[..], ht.chains, ht.nodes, index, |c| - |rest|);
      nextEntry := ht.cells[entry].next;
      rest := rest[1..];
    }

    /** `dictNext`: the next entry to be handed out, or NULL when there is none. */
    method Next() returns (he: Ptr)
      requires Valid() == true
      modifies this
      ensures Valid() == true
      ensures old(Todo()) == [] ==> he == NULL && Todo() == []
      ensures old(Todo()) != [] ==> he == old(Todo())[0] && Todo() == old(Todo())[1..]
      ensures he != NULL ==> he == entry && AtEntry(ht.chains, index, entry, rest)
    {
      ghost var todo := Todo();
      while index < ht.size
        invariant Valid() == true && Todo() == todo
        decreases ht.size - index, entry != NULL
      {
        Candidate();
        if entry != NULL {
          Save();
          return entry;
        }
      }
      return NULL;
    }
  }

  /** Taking the entry just handed out from its chain leaves what is ahead as it was. */
  lemma DeleteBehind(chains: seq<seq<Ptr>>, index: nat, entry: Ptr, nextEntry: Ptr, rest: seq<Ptr>, i: nat)
    requires On(chains, index, entry, nextEntry, rest) && AtEntry(chains, index, entry, rest)
    requires i == |chains[index]| - |rest| - 1
    ensures var chains' := chains[index := chains[index][..i] + chains[index][i + 1..]];
            On(chains', index, entry, nextEntry, rest) && Ahead(chains', index, rest) == Ahead(chains, index, rest)
  {
    var chains' := chains[index := chains[index][..i] + chains[index][i + 1..]];
    assert chains'[index + 1..] == chains[index + 1..];
  }

  /** In a table an entry is in one place only. */
  lemma OnePlace<K, V>(idx: K -> nat, cells: seq<Entry<K, V>>, heads: seq<Ptr>, chains: seq<seq<Ptr>>,
                       nodes: map<K, Ptr>,
                       b: nat, i: nat, b': nat, i': nat)
    requires Good(idx, cells, heads, chains, nodes, 0) && b < |heads| == |chains| && b' < |heads|
    requires i < |chains[b]| && i' < |chains[b']| && chains[b][i] == chains[b'][i']
    ensures b == b' && i == i'
  {
    GoodBucket(idx, cells, heads, chains, nodes, 0, b);
    GoodBucket(idx, cells, heads, chains, nodes, 0, b');
    AllDiffer(idx, cells, b, heads[b], chains[b], nodes);
  }

  /** Links change, keys do not. */
  ghost predicate SameKeys<K, V>(cells: seq<Entry<K, V>>, cells': seq<Entry<K, V>>) {
    |cells| == |cells'| && forall p :: 0 <= p < |cells| ==> cells'[p].key == cells[p].key
  }

  /** The entry just handed out is registered. */
  lemma CurrentRegistered<K, V>(idx: K -> nat, cells: seq<Entry<K, V>>, heads: seq<Ptr>, chains: seq<seq<Ptr>>,
                                nodes: map<K, Ptr>,
                                index: nat, entry: Ptr, rest: seq<Ptr>)
    requires Good(idx, cells, heads, chains, nodes, 0) && |heads| == |chains| && AtEntry(chains, index, entry, rest)
    ensures 0 <= entry < |cells| && cells[entry].key in nodes && nodes[cells[entry].key] == entry
  {
    GoodChain(idx, cells, heads, chains, nodes, index, |chains[index]| - |rest| - 1);
  }

  /** What its deletion does to the iterator: nothing. */
  lemma CurrentRemoved<K, V>(idx: K -> nat, cells: seq<Entry<K, V>>, heads: seq<Ptr>, chains: seq<seq<Ptr>>,
                             nodes: map<K, Ptr>,
                             index: nat, entry: Ptr, nextEntry: Ptr, rest: seq<Ptr>,
                             chains': seq<seq<Ptr>>, cells': seq<Entry<K, V>>, h: nat, i: nat)
    requires Good(idx, cells, heads, chains, nodes, 0) && |heads| == |chains|
    requires On(chains, index, entry, nextEntry, rest) && AtEntry(chains, index, entry, rest)
    requires Removed(chains, cells, chains', cells', entry, h, i)
    ensures On(chains', index, entry, nextEntry, rest) && Ahead(chains', index, rest) == Ahead(chains, index, rest)
    ensures SameKeys(cells, cells')
  {
    OnePlace(idx, cells, heads, chains, nodes, h, i, index, |chains[index]| - |rest| - 1);
    DeleteBehind(chains, index, entry, nextEntry, rest, i);
  }

  /** The caller deletes the entry it was just given. */
  method DeleteCurrent<K, V>(it: Iterator<K, V>)
    requires it.Valid() && it.ht.Valid() && it !in it.ht.Repr && AtEntry(it.ht.chains, it.index, it.entry, it.rest)
    modifies it.ht.table, it.ht`cells, it.ht`used, it.ht`chains, it.ht`nodes
    ensures it.Valid() && it.ht.Valid() && it.Todo() == old(it.Todo())
    ensures 0 <= it.entry < |old(it.ht.cells)|
    ensures it.ht.Contents() == old(it.ht.Contents()) - {old(it.ht.cells)[it.entry].key}
    ensures SameKeys(old(it.ht.cells), it.ht.cells)
  {
    var d := it.ht;
    ghost var idx, cells, heads, chains, nodes := d.idx, d.cells, d.table[..], d.chains, d.nodes;
    CurrentRegistered(idx, cells, heads, chains, nodes, it.index, it.entry, it.rest);
    GoodBacked(idx, cells, heads, chains, nodes);
    var ok, h, i := d.Delete(d.cells[it.entry].key);
    CurrentRemoved(idx, cells, heads, chains, nodes, it.index, it.entry, it.nextEntry, it.rest, d.chains, d.cells, h,
                   i);
  }

  /** The keys of the entries ps. */
  ghost function Keys<K, V>(cells: seq<Entry<K, V>>, ps: seq<Ptr>): (ks: seq<K>)
    requires forall i :: 0 <= i < |ps| ==> 0 <= ps[i] < |cells|
    ensures |ks| == |ps| && forall i :: 0 <= i < |ps| ==> ks[i] == cells[ps[i]].key
  {
    seq(|ps|, i requires 0 <= i < |ps| => cells[ps[i]].key)
  }

  /** The entries of a table, listed, have each key of the table exactly once. */
  lemma KeysExact<K, V>(idx: K -> nat, cells: seq<Entry<K, V>>, heads: seq<Ptr>, chains: seq<seq<Ptr>>,
                        nodes: map<K, Ptr>)
    requires Good(idx, cells, heads, chains, nodes, 0)
    ensures var ps := Flatten(chains); forall i :: 0 <= i < |ps| ==> 0 <= ps[i] < |cells|
    ensures var ks := Keys(cells, Flatten(chains));
            Distinct(ks) && forall k :: k in ks <==> k in Meaning(cells, nodes)
  {
    assert chains[0..] == chains;
    FlattenExact(idx, cells, heads, chains, nodes, 0);
    GoodBacked(idx, cells, heads, chains, nodes);
    var ps := Flatten(chains);
    assert forall i :: 0 <= i < |ps| ==> ps[i] in ps;
    var ks := Keys(cells, ps);
    forall i | 0 <= i < |ps| ensures ks[i] in nodes && nodes[ks[i]] == ps[i] {
      assert Member(idx, cells, nodes, 0, ps[i]);
    }
    forall k | k in nodes ensures k in ks {
      var i :| 0 <= i < |ps| && ps[i] == nodes[k];
      assert ks[i] == k;
    }
  }

  /** The iterator has just returned he, and `todo` are he and the entries after it. */
  ghost predicate Paused<K, V>(it: Iterator<K, V>, he: Ptr, todo: seq<Ptr>)
    reads it, it.ht, it.ht.Repr
  {
    && it.Valid() && it.ht.Valid() && it !in it.ht.Repr
    && if todo == [] then he == NULL
       else he == todo[0] == it.entry && AtEntry(it.ht.chains, it.index, it.entry, it.rest) && it.Todo() == todo[1..]
  }

  /** The caller deletes the entry it was just given, if it is doomed. */
  method Consider<K, V>(it: Iterator<K, V>, doomed: K -> bool) returns (key: K)
    requires it.Valid() && it.ht.Valid() && it !in it.ht.Repr && AtEntry(it.ht.chains, it.index, it.entry, it.rest)
    requires 0 <= it.entry < |it.ht.cells|
    modifies it.ht.table, it.ht`cells, it.ht`used, it.ht`chains, it.ht`nodes
    ensures it.Valid() && it.ht.Valid() && it.Todo() == old(it.Todo())
    ensures key == old(it.ht.cells)[it.entry].key && SameKeys(old(it.ht.cells), it.ht.cells) == true
    ensures it.ht.Contents() == if doomed(key) then old(it.ht.Contents()) - {key} else old(it.ht.Contents())
  {
    key := it.ht.cells[it.entry].key;
    if doomed(key) {
      DeleteCurrent(it);
    }
  }

  /** One turn of the caller's loop. */
  method VisitOne<K, V>(it: Iterator<K, V>, he: Ptr, doomed: K -> bool, ghost todo: seq<Ptr>)
    returns (key: K, next: Ptr)
    requires Paused(it, he, todo) && todo != [] && 0 <= he < |it.ht.cells|
    requires forall i :: 0 <= i < |todo| ==> todo[i] != NULL
    modifies it, it.ht.table, it.ht`cells, it.ht`used, it.ht`chains, it.ht`nodes
    ensures Paused(it, next, todo[1..]) && SameKeys(old(it.ht.cells), it.ht.cells) == true
    ensures key == old(it.ht.cells)[he].key
    ensures it.ht.Contents() == if doomed(key) then old(it.ht.Contents()) - {key} else old(it.ht.Contents())
  {
    key := Consider(it, doomed);
    next := it.Next();
  }

  /** What is left of m when the doomed ones among the keys visited are deleted. */
  ghost function Kept<K, V>(m: map<K, V>, visited: seq<K>, doomed: K -> bool): map<K, V> {
    map k | k in m && !(k in visited && doomed(k)) :: m[k]
  }

  /** m without its doomed keys. */
  ghost function Spared<K, V>(m: map<K, V>, doomed: K -> bool): map<K, V> {
    map k | k in m && !doomed(k) :: m[k]
  }

  lemma KeptAll<K, V>(m: map<K, V>, visited: seq<K>, doomed: K -> bool)
    requires forall k :: k in m ==> k in visited
    ensures Kept(m, visited, doomed) == Spared(m, doomed)
  {
  }

  lemma KeptCons<K, V>(m: map<K, V>, key: K, more: seq<K>, doomed: K -> bool)
    ensures Kept(m, [key] + more, doomed) == Kept(if doomed(key) then m - {key} else m, more, doomed)
  {
  }

  lemma KeysCons<K, V>(cells: seq<Entry<K, V>>, cells': seq<Entry<K, V>>, ps: seq<Ptr>)
    requires ps != [] && SameKeys(cells, cells') && forall i :: 0 <= i < |ps| ==> 0 <= ps[i] < |cells|
    ensures Keys(cells, ps) == [cells[ps[0]].key] + Keys(cells', ps[1..])
  {
  }

  lemma ListedAddresses<K, V>(idx: K -> nat, cells: seq<Entry<K, V>>, heads: seq<Ptr>, chains: seq<seq<Ptr>>,
                              nodes: map<K, Ptr>)
    requires Good(idx, cells, heads, chains, nodes, 0)
    ensures var ps := Flatten(chains); forall i :: 0 <= i < |ps| ==> 0 <= ps[i] < |cells|
  {
    KeysExact(idx, cells, heads, chains, nodes);
  }

  /** The caller's loop from the entry he on: all entries are returned, in order. */
  method VisitFrom<K, V>(it: Iterator<K, V>, he: Ptr, doomed: K -> bool, ghost todo: seq<Ptr>) returns (keys: seq<K>)
    requires Paused(it, he, todo) && forall i :: 0 <= i < |todo| ==> 0 <= todo[i] < |it.ht.cells|
    modifies it, it.ht.table, it.ht`cells, it.ht`used, it.ht`chains, it.ht`nodes
    ensures it.ht.Valid() && keys == Keys(old(it.ht.cells), todo)
    ensures it.ht.Contents() == Kept(old(it.ht.Contents()), keys, doomed)
    decreases |todo|
  {
    ghost var cells, was := it.ht.cells, it.ht.Contents();
    if he == NULL {
      assert Kept(was, [], doomed) == was;
      return [];
    }
    var key, next := VisitOne(it, he, doomed, todo);
    KeysCons(cells, it.ht.cells, todo);
    keys := VisitFrom(it, next, doomed, todo[1..]);
    KeptCons(was, key, keys, doomed);
    keys := [key] + keys;
  }

  /** Iterating over a table and deleting whichever entries the caller does not want, each right
      after it was returned: every key present at the start is visited exactly once, the doomed
      ones are gone at the end and the others are untouched. */
  method Visit<K, V>(d: Dict<K, V>, doomed: K -> bool) returns (keys: seq<K>)
    requires d.Valid()
    modifies d.table, d`cells, d`used, d`chains, d`nodes
    ensures d.Valid()
    ensures Distinct(keys) && forall k :: k in keys <==> k in old(d.Contents())
    ensures d.Contents() == Spared(old(d.Contents()), doomed)
  {
    ListedAddresses(d.idx, d.cells, d.table[..], d.chains, d.nodes);
    var it := new Iterator(d);
    ghost var idx, cells, heads, chains, nodes := d.idx, d.cells, d.table[..], d.chains, d.nodes;
    var he := it.Next();
    keys := VisitFrom(it, he, doomed, Flatten(chains));
    KeysExact(idx, cells, heads, chains, nodes);
    KeptAll(Meaning(cells, nodes), keys, doomed);
  }
}
