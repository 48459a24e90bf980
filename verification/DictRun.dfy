/** Whole runs of the hash table: it answers every sequence of operations as a finite map does. */
module DictRun {
  import opened HashDict

  datatype Op<K, V> = Add(key: K, val: V) | Replace(key: K, val: V) | Delete(key: K) | Find(key: K)

  /** What an operation says: whether it added or deleted something, or the value found. */
  datatype Answer<V> = Flag(ok: bool) | Value(val: V) | Missing

  function Applied<K, V>(m: map<K, V>, op: Op<K, V>): map<K, V> {
    match op
    case Add(key, val) => if key in m then m else m[key := val]
    case Replace(key, val) => m[key := val]
    case Delete(key) => m - {key}
    case Find(_) => m
  }

  function AnswerOf<K, V>(m: map<K, V>, op: Op<K, V>): Answer<V> {
    match op
    case Add(key, _) => Flag(key !in m)
    case Replace(key, _) => Flag(key !in m)
    case Delete(key) => Flag(key in m)
    case Find(key) => if key in m then Value(m[key]) else Missing
  }

  /** The map after a run that starts with none. */
  function Final<K, V>(ops: seq<Op<K, V>>): map<K, V> {
    if ops == [] then map[] else Applied(Final(ops[..|ops| - 1]), ops[|ops| - 1])
  }

  /** One operation. */
  method Perform<K(==), V>(d: Dict<K, V>, op: Op<K, V>) returns (r: Answer<V>)
    requires d.Valid() && 2 * d.size < LONG_MAX
    modifies d.Repr
    ensures d.Valid() && fresh(d.Repr - old(d.Repr))
    ensures d.Contents() == Applied(old(d.Contents()), op) && r == AnswerOf(old(d.Contents()), op)
    ensures (d.size == old(d.size) || d.size < 8 * (old(d.used) + 1)) && d.used <= old(d.used) + 1
  {
    match op {
      case Add(key, val) =>
        var ok := d.Add(key, val);
        r := Flag(ok);
      case Replace(key, val) =>
        var ok := d.Replace(key, val);
        r := Flag(ok);
      case Delete(key) =>
        var ok, h, i := d.Delete(key);
        r := Flag(ok);
      case Find(key) =>
        var he := d.Find(key);
        r := if he == NULL then Missing else Value(d.cells[he].val);
    }
  }

  /** The answers to a run. */
  function Answers<K(==), V>(ops: seq<Op<K, V>>): seq<Answer<V>> {
    if ops == [] then [] else Answers(ops[..|ops| - 1]) + [AnswerOf(Final(ops[..|ops| - 1]), ops[|ops| - 1])]
  }

  lemma OneMore<K, V>(ops: seq<Op<K, V>>, k: nat)
    requires k < |ops|
    ensures Final(ops[..k + 1]) == Applied(Final(ops[..k]), ops[k])
    ensures Answers(ops[..k + 1]) == Answers(ops[..k]) + [AnswerOf(Final(ops[..k]), ops[k])]
  {
    assert ops[..k + 1][..k] == ops[..k];
  }

  /** Every run, of a length that the table's size can keep up with, is answered as the finite map
      would, and leaves it behind; the table's invariant holds throughout. */
  method Replay<K(==), V>(hash: K -> nat, ops: seq<Op<K, V>>) returns (d: Dict<K, V>, answers: seq<Answer<V>>)
    requires 16 * (|ops| + 1) < LONG_MAX
    ensures d.Valid() && d.Contents() == Final(ops) && answers == Answers(ops)
  {
    d := new Dict(hash);
    answers := [];
    var k := 0;
    assert ops[..0] == [];
    while k < |ops|
      invariant 0 <= k <= |ops| && d.Valid() && fresh(d.Repr) && d.used <= k && d.size < 8 * (k + 1)
      invariant d.Contents() == Final(ops[..k]) && answers == Answers(ops[..k])
    {
      OneMore(ops, k);
      var r := Perform(d, ops[k]);
      answers := answers + [r];
      k := k + 1;
    }
    assert ops[..k] == ops;
  }
}
