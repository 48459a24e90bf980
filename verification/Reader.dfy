/** The protocol reader of `hiredis.c`, in place: an Sds input buffer with a cursor, nine task
    slots, and reply objects that are linked into their parents' element vectors as soon as they
    are made and filled afterwards.

    Every method is proved to take the step of module Machine on the values it stands for. */
module Reader {
  import opened Bytes
  import opened Resp
  import opened Strings
  import opened Machine

  const REPLY_STRING := 1
  const REPLY_ARRAY := 2
  const REPLY_INTEGER := 3
  const REPLY_NIL := 4
  const REPLY_STATUS := 5
  const REPLY_ERROR := 6

  function TypeCode(k: Kind): int {
    match k
    case KString => REPLY_STRING
    case KArray => REPLY_ARRAY
    case KInteger => REPLY_INTEGER
    case KStatus => REPLY_STATUS
    case KError => REPLY_ERROR
  }

  // ---------------------------------------------------------------- reply objects

  /** The address of a reply object in the store, or NULL. */
  type Ptr = int

  const NULL: Ptr := -1

  /** `redisReply`; `element` is empty where the source has no vector. */
  datatype Cell = Cell(ty: int, integer: int, str: bytes, elements: int, element: seq<Ptr>)

  /** All reply objects ever made, by address. */
  type Store = seq<Cell>

  /** A fresh object; the slots of its vector are empty. */
  function NewCell(ty: int, integer: int, str: bytes, elements: int): Cell {
    Cell(ty, integer, str, elements, seq(if elements > 0 then elements else 0, _ => NULL))
  }

  /** The object at p, with the objects below it, is the reply tree t, and none of them is among
      the objects `open`: in particular no slot of any of its element vectors is empty. */
  ghost predicate Denotes(store: Store, p: Ptr, t: Reply, open: seq<Ptr>)
    decreases t
  {
    && 0 <= p < |store| && p !in open
    && var o := store[p];
       match t
       case Str(s) => o.ty == REPLY_STRING && o.str == s
       case Status(s) => o.ty == REPLY_STATUS && o.str == s
       case Error(s) => o.ty == REPLY_ERROR && o.str == s
       case Integer(i) => o.ty == REPLY_INTEGER && o.integer == i
       case Nil => o.ty == REPLY_NIL
       case Hollow(n) => o.ty == REPLY_ARRAY && o.elements == n && o.element == []
       case Array(elems) =>
         && o.ty == REPLY_ARRAY && o.elements == |elems| == |o.element|
         && forall i :: 0 <= i < |elems| ==> Denotes(store, o.element[i], elems[i], open)
  }

  /** Only open objects are written to, and only new ones are opened. */
  ghost predicate Evolves(store: Store, open: seq<Ptr>, store': Store, open': seq<Ptr>) {
    && |store| <= |store'|
    && (forall q :: 0 <= q < |store| && q !in open ==> store'[q] == store[q])
    && (forall q :: q in open' && q < |store| ==> q in open)
  }

  lemma EvolvesTrans(s0: Store, o0: seq<Ptr>, s1: Store, o1: seq<Ptr>, s2: Store, o2: seq<Ptr>)
    requires Evolves(s0, o0, s1, o1) && Evolves(s1, o1, s2, o2)
    ensures Evolves(s0, o0, s2, o2)
  {
  }

  /** Complete subtrees stay what they are. */
  lemma {:induction false} DenotesStable(store: Store, open: seq<Ptr>, store': Store, open': seq<Ptr>, p: Ptr, t: Reply)
    requires Denotes(store, p, t, open) && Evolves(store, open, store', open')
    ensures Denotes(store', p, t, open')
    decreases t
  {
    if t.Array? {
      forall i | 0 <= i < |t.elems| ensures Denotes(store', store[p].element[i], t.elems[i], open') {
        DenotesStable(store, open, store', open', store[p].element[i], t.elems[i]);
      }
    }
  }

  /** The object at p is an array still being read: its slots before |f.done| hold complete
      subtrees. */
  ghost predicate Holds(store: Store, p: Ptr, f: Frame, open: seq<Ptr>) {
    && 0 <= p < |store|
    && var o := store[p];
       && o.ty == REPLY_ARRAY && o.elements == f.count == |o.element| && |f.done| < f.count
       && forall j :: 0 <= j < |f.done| ==> Denotes(store, o.element[j], f.done[j], open)
  }

  lemma HoldsStable(store: Store, open: seq<Ptr>, store': Store, open': seq<Ptr>, p: Ptr, f: Frame)
    requires Holds(store, p, f, open) && Evolves(store, open, store', open')
    requires var (o, o') := (store[p], store'[p]);
             && o'.(element := o.element) == o && |o'.element| == |o.element|
             && forall j :: 0 <= j < |f.done| ==> o'.element[j] == o.element[j]
    ensures Holds(store', p, f, open')
  {
    forall j | 0 <= j < |f.done| ensures Denotes(store', store'[p].element[j], f.done[j], open') {
      DenotesStable(store, open, store', open', store[p].element[j], f.done[j]);
    }
  }

  /** What a multi-bulk count that is not positive stands for. */
  ghost function NoElements(n: int): Reply {
    if n == -1 then Nil else if n == 0 then Array([]) else Hollow(n)
  }

  ghost function CountItem(n: int, size: nat): Item {
    if n > 0 then Header(n, size) else Leaf(NoElements(n), size)
  }

  // ---------------------------------------------------------------- scanning the buffer

  /** `seekNewline`: searches n bytes at `from`; relies on the NUL behind them. */
  method SeekNewline(a: array<byte>, from: nat, n: nat) returns (p: int)
    requires from + n < a.Length && a[from + n] == NUL
    ensures p == Newline(a[from..from + n])
  {
    ghost var s := a[from..from + n];
    var pos, last := 0, n - 1;
    while pos < last
      invariant 0 <= pos
      invariant forall q :: 0 <= q < pos ==> !NewlineAt(s, q)
    {
      while pos < last && a[from + pos] != CR
        invariant 0 <= pos <= last
        invariant forall q :: 0 <= q < pos ==> !NewlineAt(s, q)
      {
        pos := pos + 1;
      }
      if a[from + pos] != CR {
        return -1;
      } else if a[from + pos + 1] == LF {
        NewlineIs(s, pos);
        return pos;
      } else {
        pos := pos + 1;
      }
    }
    return -1;
  }

  /** The digit loop of `readLongLong`: the value of the n bytes at `from` up to the first CR,
      or failure at a byte that is no digit. */
  method ReadDigits(a: array<byte>, from: nat, n: nat) returns (ok: bool, v: nat)
    requires from + n < a.Length && a[from + n] == CR
    ensures ok == IsDigitRun(a[from..from + n])
    ensures Digits(a[from..from + n], 0) == if ok then v else -1
  {
    ghost var line := a[from..from + n];
    var k := 0;
    v := 0;
    while a[from + k] != CR
      invariant 0 <= k <= n
      invariant Digits(line, 0) == Digits(line[k..], v)
      invariant IsDigitRun(line) == IsDigitRun(line[k..])
      decreases n - k
    {
      assert line[k] == a[from + k];
      if IsDigit(a[from + k]) {
        assert line[k..][1..] == line[k + 1..];
        v := v * 10 + (a[from + k] - ZERO);
        k := k + 1;
      } else {
        return false, v;
      }
    }
    assert k < n ==> line[k] == CR;
    return true, v;
  }

  /** `readLongLong` at `from`, where the line runs for n bytes up to a CR. */
  method ReadLongLong(a: array<byte>, from: nat, n: nat) returns (v: int)
    requires from + n < a.Length && a[from + n] == CR
    ensures v == Number(a[from..from + n])
  {
    var sign := if a[from] == MINUS || a[from] == PLUS then 1 else 0;
    assert a[from..from + n][sign..] == a[from + sign..from + n];
    var ok, u := ReadDigits(a, from + sign, n - sign);
    var mult: int := if a[from] == MINUS then -1 else 1;
    v := if ok then mult * u else -1;
  }

  // ---------------------------------------------------------------- the task stack

  /** `redisReadTask`; the parent pointer is the number of the slot it points at, or -1. */
  datatype ReadTask = ReadTask(ty: Option<Kind>, elements: int, idx: int, obj: Ptr, parent: int)

  /** The objects of the open arrays: distinct, each hanging in the slot of the one before it
      that is being read, with complete subtrees in front. */
  ghost predicate Chain(store: Store, objs: seq<Ptr>, stack: seq<Frame>) {
    && |objs| == |stack|
    && (forall i :: 0 <= i < |objs| ==> Holds(store, objs[i], stack[i], objs))
    && (forall i, j :: 0 <= i < j < |objs| ==> objs[i] != objs[j])
    && (forall i, j :: 0 <= i && j == i + 1 < |objs| ==> store[objs[i]].element[|stack[i].done|] == objs[j])
  }

  /** The task slots in use, 0..|stack|: slot i's parent is slot i - 1, which is the open array
      i - 1, and its idx is the element of that array being read. */
  ghost predicate Slots(tasks: seq<ReadTask>, objs: seq<Ptr>, stack: seq<Frame>) {
    && |objs| == |stack| < |tasks|
    && (forall i :: 0 <= i < |stack| ==>
          tasks[i].obj == objs[i] && tasks[i].ty == Some(KArray) && tasks[i].elements == stack[i].count)
    && (forall i :: 0 <= i <= |stack| ==> tasks[i].parent == i - 1)
    && (forall i, j :: 0 <= i && j == i + 1 <= |stack| ==> tasks[j].idx == |stack[i].done|)
  }

  /** The task stack in the middle of a reply: its slots, the objects of its open arrays and the
      root of the reply. */
  ghost predicate Stacked(tasks: seq<ReadTask>, reply: Ptr, store: Store, objs: seq<Ptr>, stack: seq<Frame>) {
    && WellFormed(Task(stack, None)) && |tasks| == MAX_LEVEL + 1
    && Slots(tasks, objs, stack) && Chain(store, objs, stack)
    && (objs != [] ==> reply == objs[0])
  }

  /** The object of the current item, once it is made: in its parent's slot, or the root. */
  ghost function Current(reply: Ptr, store: Store, objs: seq<Ptr>, stack: seq<Frame>): Ptr
    requires Chain(store, objs, stack)
  {
    if objs == [] then reply else store[objs[|objs| - 1]].element[|stack[|objs| - 1].done|]
  }

  /** The current item is complete and is the tree t. */
  ghost predicate Complete(t: Reply, tasks: seq<ReadTask>, reply: Ptr, store: Store, objs: seq<Ptr>,
                           stack: seq<Frame>) {
    && Stacked(tasks, reply, store, objs, stack)
    && Denotes(store, Current(reply, store, objs, stack), t, objs)
  }

  /** Its last slot filled, an open array is a complete item itself, and the arrays around it
      stay open. */
  lemma PopArray(t: Reply, tasks: seq<ReadTask>, reply: Ptr, store: Store, objs: seq<Ptr>, stack: seq<Frame>)
    requires Complete(t, tasks, reply, store, objs, stack) && objs != []
    requires |stack[|stack| - 1].done| + 1 == stack[|stack| - 1].count
    ensures var n := |objs| - 1; var full := Array(stack[n].done + [t]);
            && Complete(full, tasks, reply, store, objs[..n], stack[..n]) == true
            && Attach(stack[..n], full) == Attach(stack, t)
  {
    var n := |objs| - 1;
    PopStack(tasks, reply, store, objs, stack);
    HoldsStable(store, objs, store, objs[..n], objs[n], stack[n]);
    DenotesStable(store, objs, store, objs[..n], store[objs[n]].element[|stack[n].done|], t);
  }

  /** Without its innermost array the stack is still in order, and that array is its current item. */
  lemma PopStack(tasks: seq<ReadTask>, reply: Ptr, store: Store, objs: seq<Ptr>, stack: seq<Frame>)
    requires Stacked(tasks, reply, store, objs, stack) && objs != []
    ensures var n := |objs| - 1;
            && Stacked(tasks, reply, store, objs[..n], stack[..n]) == true
            && Current(reply, store, objs[..n], stack[..n]) == objs[n]
  {
    var n := |objs| - 1;
    forall i | 0 <= i < n ensures Holds(store, objs[i], stack[i], objs[..n]) {
      HoldsStable(store, objs, store, objs[..n], objs[i], stack[i]);
    }
  }

  /** A slot filled before the last one: the array stays open, one element further. */
  lemma AdvanceArray(t: Reply, tasks: seq<ReadTask>, reply: Ptr, store: Store, objs: seq<Ptr>, stack: seq<Frame>)
    requires Complete(t, tasks, reply, store, objs, stack) && objs != []
    requires |stack[|stack| - 1].done| + 1 < stack[|stack| - 1].count
    ensures var n := |objs| - 1;
            var stack' := stack[..n] + [Frame(stack[n].count, stack[n].done + [t])];
            var c := tasks[n + 1];
            && Stacked(tasks[n + 1 := c.(ty := None, elements := -1, idx := c.idx + 1)], reply, store, objs,
                       stack') == true
            && Attach(stack, t) == Continue(Task(stack', None))
  {
    var n := |objs| - 1;
    var stack' := stack[..n] + [Frame(stack[n].count, stack[n].done + [t])];
    assert Holds(store, objs[n], stack'[n], objs);
  }

  /** An object is made: it goes into its parent's slot, or becomes the root. */
  function Placed(store: Store, parent: Ptr, idx: int, o: Cell): Store {
    if 0 <= parent < |store| && 0 <= idx < |store[parent].element| then
      store[parent := store[parent].(element := store[parent].element[idx := |store|])] + [o]
    else store + [o]
  }

  /** The store once the object of the item in slot n is made. */
  function Stored(store: Store, tasks: seq<ReadTask>, n: nat, o: Cell): Store
    requires n < |tasks|
  {
    if n == 0 then store + [o] else Placed(store, tasks[n - 1].obj, tasks[n].idx, o)
  }

  /** The slots once slot n is an array at p with elements to be read. */
  function Opened(tasks: seq<ReadTask>, n: nat, count: nat, p: Ptr): seq<ReadTask>
    requires n + 1 < |tasks|
  {
    tasks[n := tasks[n].(elements := count, obj := p)][n + 1 := ReadTask(None, -1, 0, NULL, n)]
  }

  lemma PlaceObject(o: Cell, tasks: seq<ReadTask>, reply: Ptr, store: Store, objs: seq<Ptr>, stack: seq<Frame>)
    requires Stacked(tasks, reply, store, objs, stack)
    ensures var n := |stack|;
            var store' := Stored(store, tasks, n, o);
            var reply' := if n == 0 then |store| else reply;
            && Stacked(tasks, reply', store', objs, stack) && Current(reply', store', objs, stack) == |store|
            && |store'| == |store| + 1 && store'[|store|] == o
            && Evolves(store, objs, store', objs)
  {
    var n := |stack|;
    var store' := Stored(store, tasks, n, o);
    forall i | 0 <= i < n ensures Holds(store', objs[i], stack[i], objs) {
      HoldsStable(store, objs, store', objs, objs[i], stack[i]);
    }
  }

  /** An object without elements is a complete item as soon as it is placed. */
  lemma CloseLeaf(o: Cell, t: Reply, tasks: seq<ReadTask>, reply: Ptr, store: Store, objs: seq<Ptr>, stack: seq<Frame>)
    requires Stacked(tasks, reply, store, objs, stack)
    requires Denotes([o], 0, t, []) && (t.Array? ==> t.elems == [])
    ensures var n := |stack|;
            var store' := Stored(store, tasks, n, o);
            && Complete(t, tasks, if n == 0 then |store| else reply, store', objs, stack)
            && Evolves(store, objs, store', objs)
  {
    PlaceObject(o, tasks, reply, store, objs, stack);
    assert forall i :: 0 <= i < |objs| ==> objs[i] < |store|;
  }

  lemma SlotsPush(tasks: seq<ReadTask>, objs: seq<Ptr>, stack: seq<Frame>, p: Ptr, count: nat)
    requires Slots(tasks, objs, stack) && |stack| + 1 < |tasks| && tasks[|stack|].ty == Some(KArray)
    ensures var n := |stack|;
            Slots(Opened(tasks, n, count, p),
                  objs + [p], stack + [Frame(count, [])])
  {
  }

  /** An object just placed, opened: the subtrees around it do not contain it. */
  lemma ChainPush(store: Store, objs: seq<Ptr>, stack: seq<Frame>, reply: Ptr, store': Store, p: Ptr, count: nat)
    requires Chain(store, objs, stack) && Chain(store', objs, stack) && Evolves(store, objs, store', objs)
    requires p == |store| < |store'| && Holds(store', p, Frame(count, []), [])
    requires Current(reply, store', objs, stack) == p
    requires forall i :: 0 <= i < |objs| ==>
               && store'[objs[i]].(element := store[objs[i]].element) == store[objs[i]]
               && |store'[objs[i]].element| == |store[objs[i]].element|
               && forall j :: 0 <= j < |stack[i].done| ==> store'[objs[i]].element[j] == store[objs[i]].element[j]
    ensures Chain(store', objs + [p], stack + [Frame(count, [])])
  {
    assert forall i :: 0 <= i < |objs| ==> objs[i] < |store|;
    assert Evolves(store, objs, store', objs + [p]);
    forall i | 0 <= i < |objs| ensures Holds(store', objs[i], stack[i], objs + [p]) {
      HoldsStable(store, objs, store', objs + [p], objs[i], stack[i]);
    }
  }

  /** An array object with elements is one more open array as soon as it is placed. */
  lemma OpenArray(count: nat, tasks: seq<ReadTask>, reply: Ptr, store: Store, objs: seq<Ptr>, stack: seq<Frame>)
    requires Stacked(tasks, reply, store, objs, stack)
    requires 0 < count && |stack| < MAX_LEVEL && tasks[|stack|].ty == Some(KArray)
    ensures var n, p, o := |stack|, |store|, NewCell(REPLY_ARRAY, 0, [], count);
            var store' := Stored(store, tasks, n, o);
            && Stacked(Opened(tasks, n, count, p),
                       if n == 0 then p else reply, store', objs + [p], stack + [Frame(count, [])]) == true
            && Evolves(store, objs, store', objs + [p]) == true
  {
    var n, p, o := |stack|, |store|, NewCell(REPLY_ARRAY, 0, [], count);
    var store' := Stored(store, tasks, n, o);
    PlaceObject(o, tasks, reply, store, objs, stack);
    ChainPush(store, objs, stack, if n == 0 then p else reply, store', p, count);
    SlotsPush(tasks, objs, stack, p, count);
  }

  // ---------------------------------------------------------------- the reader

  class RedisReader {
    var err: Option<Fault>
    var buf: Sds?
    var pos: nat
    var len: nat
    var maxbuf: nat
    const rstack: array<ReadTask>
    var ridx: int
    var reply: Ptr
    var store: Store

    ghost var stack: seq<Frame>  // the arrays that are open
    ghost var objs: seq<Ptr>     // their objects
    ghost var Repr: set<object>

    /** The buffer is a valid Sds unless an error destroyed it. */
    ghost predicate Core()
      reads this, Repr
    {
      && this in Repr && rstack in Repr && rstack.Length == MAX_LEVEL + 1
      && (err == None ==>
            && buf != null && buf in Repr && buf.buf in Repr && buf.buf as object != rstack
            && buf.Valid() && len == buf.len && pos <= len)
      && (err != None ==> buf == null && ridx == -1 && pos == len == 0)
    }

    /** The reader idle or in the middle of a reply. */
    ghost predicate Ready()
      reads this, Repr
    {
      && Core()
      && (ridx <= 0 ==> reply == NULL) && (ridx == -1 ==> objs == [])
      && (ridx == -1 || (err == None && ridx == |stack| && Stacked(rstack[..], reply, store, objs, stack)))
    }

    /** The reader between items or between calls. */
    ghost predicate Valid()
      reads this, Repr
    {
      Ready() && (ridx >= 0 ==> WellFormed(Task(stack, rstack[ridx].ty)))
    }

    ghost function Unread(): bytes
      requires Core() && err == None
      reads this, Repr
    {
      buf.buf[pos..len]
    }

    ghost function View(): (r: State)
      requires Valid()
      reads this, Repr
      ensures Sound(r)
    {
      if err != None then Dead(err.value)
      else if ridx == -1 then Live(IDLE, Unread())
      else Live(Task(stack, rstack[ridx].ty), Unread())
    }

    /** The item just processed took the reader along the machine's outcome o. */
    ghost predicate Reached(o: Outcome, ok: bool)
      reads this, Repr
    {
      match o
      case Progress(m, rest) => ok && Valid() && ridx >= 0 && View() == Live(m, rest)
      case Wait(m, rest) => !ok && Valid() && ridx >= 0 && View() == Live(m, rest)
      case Emit(t, rest) =>
        ok && Core() && err == None && ridx == -1 && Unread() == rest && objs == [] && Denotes(store, reply, t, [])
      case Stop(f) => !ok && Valid() && View() == Dead(f)
    }

    /** `redisReaderCreate`. */
    constructor ()
      ensures Valid() && fresh(Repr)
      ensures View() == FRESH
    {
      err, pos, len, maxbuf, ridx, reply, store := None, 0, 0, 16 * 1024, -1, NULL, [];
      var b := new Sds([]);
      buf := b;
      var slots := new ReadTask[MAX_LEVEL + 1](_ => ReadTask(None, 0, 0, NULL, -1));
      rstack := slots;
      stack, objs, Repr := [], [], {this, b, b.buf, slots};
    }

    /** `__redisReaderSetError`: sticky, and it throws away buffer, stack and pending reply. */
    method SetError(f: Fault)
      requires Core() && err == None
      modifies `reply, `buf, `pos, `len, `ridx, `err, `objs
      ensures Valid() && View() == Dead(f)
    {
      objs := [];
      reply := NULL;
      buf, pos, len := null, 0, 0;
      ridx := -1;
      err := Some(f);
    }

    /** The buffer part of `redisReaderFeed`. */
    method AppendBytes(chunk: bytes)
      requires Core() && err == None
      modifies `buf, `pos, `len, `Repr, buf, buf.buf
      ensures Core() && fresh(Repr - old(Repr))
      ensures Unread() == old(Unread()) + chunk
    {
      if len == 0 && maxbuf != 0 && buf.free > maxbuf {
        buf := new Sds([]);
        pos := 0;
      }
      ghost var was := buf.Contents();
      buf.CatLen(chunk);
      Repr := Repr + {buf, buf.buf};
      len := buf.len;
      assert buf.buf[..len] == was + chunk;
      assert buf.buf[pos..len] == was[pos..] + chunk;
    }

    /** `redisReaderFeed`. */
    method FeedBytes(chunk: bytes) returns (ok: bool)
      requires Valid()
      modifies Repr
      ensures Valid() && fresh(Repr - old(Repr))
      ensures View() == Feed(old(View()), chunk) && store == old(store) && objs == old(objs)
      ensures ok == (err == None)
    {
      if err != None { return false; }
      if |chunk| >= 1 {
        AppendBytes(chunk);
        assert rstack[..] == old(rstack[..]);
      } else {
        assert Unread() + chunk == Unread();
      }
      return true;
    }

    /** The task stack once an item is complete: at the next item, or empty with the reply whole. */
    ghost predicate Moved(next: Next)
      reads this, rstack
    {
      match next
      case Continue(m) =>
        && 0 < ridx == |stack| && rstack.Length == MAX_LEVEL + 1
        && Stacked(rstack[..], reply, store, objs, stack) && m == Task(stack, rstack[ridx].ty)
      case Finished(r) => ridx == -1 && objs == [] && Denotes(store, reply, r, [])
    }

    /** The current item is complete and is the tree t. */
    ghost predicate Closing(t: Reply)
      reads this, rstack
    {
      && rstack.Length == MAX_LEVEL + 1 && ridx == |stack|
      && Complete(t, rstack[..], reply, store, objs, stack)
    }

    /** The array around a completed last element becomes the completed item. */
    method PopTask(ghost t: Reply) returns (ghost full: Reply)
      requires Closing(t) && ridx > 0 && rstack[ridx].idx == rstack[ridx - 1].elements - 1
      modifies `ridx, `stack, `objs
      ensures ridx == old(ridx) - 1 && objs <= old(objs)
      ensures Closing(full) && Attach(stack, full) == Attach(old(stack), t)
    {
      ghost var n := ridx - 1;
      full := Array(stack[n].done + [t]);
      PopArray(t, rstack[..], reply, store, objs, stack);
      objs, stack := objs[..n], stack[..n];
      ridx := ridx - 1;
    }

    /** The array around a completed element that is not its last goes on to its next element. */
    method AdvanceTask(ghost t: Reply)
      requires Closing(t) && ridx > 0 && rstack[ridx].idx != rstack[ridx - 1].elements - 1
      modifies `stack, rstack
      ensures Moved(Attach(old(stack), t)) == true
    {
      ghost var n, c := ridx - 1, rstack[ridx];
      AdvanceArray(t, rstack[..], reply, store, objs, stack);
      ghost var tasks := rstack[..][ridx := c.(ty := None, elements := -1, idx := c.idx + 1)];
      rstack[ridx] := rstack[ridx].(ty := None, elements := -1, idx := rstack[ridx].idx + 1);
      assert rstack[..] == tasks;
      stack := stack[..n] + [Frame(stack[n].count, stack[n].done + [t])];
    }

    /** `moveToNextTask`. */
    method MoveToNextTask(ghost t: Reply)
      requires Closing(t)
      modifies `ridx, `stack, `objs, rstack
      ensures Moved(Attach(old(stack), t)) == true && objs <= old(objs)
    {
      ghost var cur := t;
      while ridx >= 0
        invariant objs <= old(objs)
        invariant Closing(cur) == true && Attach(stack, cur) == Attach(old(stack), t)
        decreases ridx
      {
        if ridx == 0 {
          ridx := -1;
          assert objs == [];
          return;
        }
        if rstack[ridx].idx == rstack[ridx - 1].elements - 1 {
          cur := PopTask(cur);
        } else {
          AdvanceTask(cur);
          return;
        }
      }
    }

    /** The create functions: the object is made, and goes into its parent's slot or becomes the
        root. */
    method Create(o: Cell)
      requires rstack.Length == MAX_LEVEL + 1 && ridx == |stack|
      requires Stacked(rstack[..], reply, store, objs, stack)
      modifies `store, `reply
      ensures store == old(Stored(store, rstack[..], ridx, o))
      ensures reply == if ridx == 0 then old(|store|) else old(reply)
    {
      var p := |store|;
      if rstack[ridx].parent >= 0 {
        var parent, idx := rstack[rstack[ridx].parent].obj, rstack[ridx].idx;
        assert Holds(store, objs[ridx - 1], stack[ridx - 1], objs);
        store := store[parent := store[parent].(element := store[parent].element[idx := p])];
      }
      store := store + [o];
      if ridx == 0 {
        reply := p;
      }
    }

    /** An object without elements becomes part of the reply and the stack moves on. */
    method FinishLeaf(o: Cell, ghost t: Reply)
      requires rstack.Length == MAX_LEVEL + 1 && ridx == |stack|
      requires Stacked(rstack[..], reply, store, objs, stack)
      requires Denotes([o], 0, t, []) && (t.Array? ==> t.elems == [])
      modifies `store, `reply, `ridx, `stack, `objs, rstack
      ensures Moved(Attach(old(stack), t)) == true && Evolves(old(store), old(objs), store, objs) == true
    {
      CloseLeaf(o, t, rstack[..], reply, store, objs, stack);
      Create(o);
      MoveToNextTask(t);
    }

    /** The current slot becomes that of an open array, and the next slot that of its element 0. */
    method OpenSlot(p: Ptr, count: nat)
      requires rstack.Length == MAX_LEVEL + 1 && 0 <= ridx < MAX_LEVEL
      modifies rstack, `ridx
      ensures ridx == old(ridx) + 1
      ensures rstack[..] == old(Opened(rstack[..], ridx, count, p))
    {
      rstack[ridx] := rstack[ridx].(elements := count, obj := p);
      rstack[ridx + 1] := ReadTask(None, -1, 0, NULL, ridx);
      ridx := ridx + 1;
    }

    /** An array object becomes part of the reply, and its first element becomes the item. */
    method PushTask(elements: int)
      requires rstack.Length == MAX_LEVEL + 1 && ridx == |stack| < MAX_LEVEL
      requires Stacked(rstack[..], reply, store, objs, stack)
      requires elements > 0 && rstack[ridx].ty == Some(KArray)
      modifies `store, `reply, `ridx, `stack, `objs, rstack
      ensures ridx == |stack| && stack == old(stack) + [Frame(elements, [])]
      ensures Stacked(rstack[..], reply, store, objs, stack) == true && rstack[ridx].ty == None
      ensures Evolves(old(store), old(objs), store, objs) == true
    {
      OpenArray(elements, rstack[..], reply, store, objs, stack);
      var p := |store|;
      Create(NewCell(REPLY_ARRAY, 0, [], elements));
      OpenSlot(p, elements);
      objs, stack := objs + [p], stack + [Frame(elements, [])];
    }

    /** An object without elements, `size` bytes long, is consumed. */
    method TakeLeaf(o: Cell, ghost t: Reply, size: nat)
      requires Ready() && ridx >= 0 && size <= |Unread()|
      requires Denotes([o], 0, t, []) && (t.Array? ==> t.elems == [])
      modifies this, rstack
      ensures Repr == old(Repr) && Evolves(old(store), old(objs), store, objs) == true
      ensures Reached(After(Attach(old(stack), t), old(Unread())[size..]), true) == true
    {
      ghost var rest := Unread()[size..];
      ghost var next := Attach(stack, t);
      pos := pos + size;
      FinishLeaf(o, t);
      assert Unread() == rest;
      MovedReaches(next, rest);
    }

    lemma MovedReaches(next: Next, rest: bytes)
      requires Core() && err == None && Moved(next) && Unread() == rest && (next.Continue? ==> WellFormed(next.task))
      ensures Reached(After(next, rest), true)
    {
    }

    /** An array header of `size` bytes is consumed. */
    method TakeArray(elements: int, size: nat)
      requires Ready() && 0 <= ridx < MAX_LEVEL && size <= |Unread()| && rstack[ridx].ty == Some(KArray)
      requires elements > 0
      modifies this, rstack
      ensures Repr == old(Repr) && Evolves(old(store), old(objs), store, objs) == true
      ensures Reached(Progress(Task(old(stack) + [Frame(elements, [])], None), old(Unread())[size..]), true) == true
    {
      ghost var rest := Unread()[size..];
      pos := pos + size;
      PushTask(elements);
      assert Unread() == rest;
    }

    /** The length of the line at the cursor, or -1 if its end is not there. */
    method FindLine() returns (p: int)
      requires Core() && err == None
      ensures p == Newline(Unread())
      ensures p != -1 ==>
        pos + p + 2 <= len && buf.buf[pos + p] == CR && buf.buf[pos..pos + p] == Unread()[..p]
    {
      p := SeekNewline(buf.buf, pos, len - pos);
      if p != -1 {
        assert NewlineAt(Unread(), p);
        SliceOfSlice(buf.buf[..], pos, len, 0, p);
      }
    }

    /** The object a line item amounts to, if the line is there. */
    method MakeLine(k: Kind) returns (o: Option<Cell>, ghost t: Reply, size: nat)
      requires Core() && err == None && k in {KError, KStatus, KInteger}
      ensures ReadItem(k, |stack|, Unread()) == if o == None then Incomplete else Leaf(t, size)
      ensures o.Some? ==> !t.Array? && Denotes([o.value], 0, t, [])
    {
      var p := FindLine();
      if p == -1 { return None, Nil, 0; }
      var line := buf.buf[pos..pos + p];
      if k == KInteger {
        var v := ReadLongLong(buf.buf, pos, p);
        o, t := Some(NewCell(REPLY_INTEGER, v, [], 0)), Integer(v);
      } else {
        o, t := Some(NewCell(TypeCode(k), 0, line, 0)), if k == KStatus then Status(line) else Error(line);
      }
      size := p + 2;
    }

    /** `processLineItem`. */
    method ProcessLineItem(k: Kind) returns (ok: bool)
      requires Ready() && ridx >= 0 && rstack[ridx].ty == Some(k) && k in {KError, KStatus, KInteger}
      modifies this, rstack
      ensures Repr == old(Repr) && Evolves(old(store), old(objs), store, objs) == true
      ensures Reached(TypedStep(old(stack), k, old(Unread())), ok) == true
    {
      var o, t, size := MakeLine(k);
      if o == None { return false; }
      TakeLeaf(o.value, t, size);
      return true;
    }

    /** The object a bulk item amounts to, if all of it is there. */
    method MakeBulk() returns (o: Option<Cell>, ghost t: Reply, size: nat)
      requires Core() && err == None
      ensures ReadItem(KString, |stack|, Unread()) == if o == None then Incomplete else Leaf(t, size)
      ensures o.Some? ==> !t.Array? && Denotes([o.value], 0, t, [])
    {
      var p := FindLine();
      if p == -1 { return None, Nil, 0; }
      var line := buf.buf[pos..pos + p];
      var n := ReadLongLong(buf.buf, pos, p);
      var bytelen := p + 2;
      if n < 0 {
        o, t, size := Some(NewCell(REPLY_NIL, 0, [], 0)), Nil, bytelen;
      } else {
        bytelen := bytelen + n + 2;
        if pos + bytelen > len { return None, Nil, 0; }
        var str := buf.buf[pos + p + 2..pos + p + 2 + n];
        SliceOfSlice(buf.buf[..], pos, len, p + 2, p + 2 + n);
        o, t, size := Some(NewCell(REPLY_STRING, 0, str, 0)), Str(str), bytelen;
      }
    }

    /** `processBulkItem`. */
    method ProcessBulkItem() returns (ok: bool)
      requires Ready() && ridx >= 0 && rstack[ridx].ty == Some(KString)
      modifies this, rstack
      ensures Repr == old(Repr) && Evolves(old(store), old(objs), store, objs) == true
      ensures Reached(TypedStep(old(stack), KString, old(Unread())), ok) == true
    {
      var o, t, size := MakeBulk();
      if o == None { return false; }
      TakeLeaf(o.value, t, size);
      return true;
    }

    /** The header of a multi-bulk item: its count and size, if the line is there. */
    method ReadCount() returns (ok: bool, elements: int, size: nat)
      requires Core() && err == None && |stack| < MAX_LEVEL
      ensures !ok ==> ReadItem(KArray, |stack|, Unread()) == Incomplete
      ensures ok ==> 2 <= size <= |Unread()|
      ensures ok ==> ReadItem(KArray, |stack|, Unread()) == CountItem(elements, size)
    {
      var p := FindLine();
      if p == -1 { return false, 0, 0; }
      elements := ReadLongLong(buf.buf, pos, p);
      return true, elements, p + 2;
    }

    /** `processMultiBulkItem`. */
    method ProcessMultiBulkItem() returns (ok: bool)
      requires Ready() && ridx >= 0 && rstack[ridx].ty == Some(KArray)
      modifies this, rstack
      ensures Repr == old(Repr) && Evolves(old(store), old(objs), store, objs) == true
      ensures Reached(TypedStep(old(stack), KArray, old(Unread())), ok) == true
    {
      if ridx == MAX_LEVEL {
        SetError(TooDeep);
        return false;
      }
      var there, elements, size := ReadCount();
      if !there { return false; }
      if elements > 0 {
        TakeArray(elements, size);
      } else {
        var o := if elements == -1 then NewCell(REPLY_NIL, 0, [], 0) else NewCell(REPLY_ARRAY, 0, [], elements);
        TakeLeaf(o, NoElements(elements), size);
      }
      return true;
    }

    /** The type byte of the current item is recorded in its slot. */
    method SetType(k: Kind)
      requires Ready() && ridx >= 0
      modifies rstack
      ensures Ready() && rstack[ridx].ty == Some(k)
    {
      ghost var tasks := rstack[..];
      rstack[ridx] := rstack[ridx].(ty := Some(k));
      assert rstack[..] == tasks[ridx := tasks[ridx].(ty := Some(k))];
    }

    /** The part of `processItem` that reads the type byte. */
    method ReadType() returns (ok: bool)
      requires Valid() && ridx >= 0 && rstack[ridx].ty == None
      modifies `pos, `err, `buf, `len, `ridx, `reply, `objs, rstack
      ensures objs == old(objs) || objs == []
      ensures !ok ==> Reached(old(Step(Task(stack, None), Unread())), false)
      ensures ok ==> Ready() && ridx >= 0 && old(Unread()) != []
      ensures ok ==> rstack[ridx].ty == KindOf(old(Unread())[0]) != None && Unread() == old(Unread())[1..]
    {
      if len - pos < 1 { return false; }
      ghost var rest := Unread()[1..];
      var b := buf.buf[pos];
      pos := pos + 1;
      match KindOf(b)
      case None =>
        SetError(BadTypeByte(b));
        return false;
      case Some(k) =>
        SetType(k);
        assert Unread() == rest;
        return true;
    }

    /** The part of `processItem` that dispatches on the type. */
    method ProcessTyped() returns (ok: bool)
      requires Ready() && ridx >= 0 && rstack[ridx].ty != None
      modifies this, rstack
      ensures Repr == old(Repr) && Evolves(old(store), old(objs), store, objs) == true
      ensures Reached(TypedStep(old(stack), old(rstack[ridx].ty.value), old(Unread())), ok) == true
    {
      match rstack[ridx].ty.value
      case KString => ok := ProcessBulkItem();
      case KArray => ok := ProcessMultiBulkItem();
      case k => ok := ProcessLineItem(k);
    }

    /** `processItem`. */
    method ProcessItem() returns (ok: bool)
      requires Valid() && ridx >= 0
      modifies this, rstack
      ensures Repr == old(Repr) && Evolves(old(store), old(objs), store, objs) == true
      ensures Reached(old(Step(Task(stack, rstack[ridx].ty), Unread())), ok) == true
    {
      if rstack[ridx].ty == None {
        ok := ReadType();
        if !ok { return false; }
      }
      ok := ProcessTyped();
    }

    /** `sdsrange` on the buffer: the bytes read are discarded. */
    method Compact()
      requires Core() && err == None
      modifies `pos, `len, buf, buf.buf
      ensures Core() && Unread() == old(Unread())
    {
      SliceDrops(buf.Contents(), pos);
      ghost var unread := Unread();
      assert buf.Contents()[pos..] == unread;
      buf.Range(pos, -1);
      pos := 0;
      len := buf.len;
      assert buf.buf[0..len] == buf.Contents();
    }

    /** In the item loop: the run that started with `outcome` to come is still on its way there. */
    ghost predicate Running(outcome: Outcome)
      reads this, Repr
    {
      if ridx >= 0 then Valid() && outcome == Run(Task(stack, rstack[ridx].ty), Unread())
      else outcome.Emit? && Reached(outcome, true)
    }

    ghost function Left(): int
      reads this, Repr
    {
      if ridx >= 0 && Core() && err == None then |Unread()| else -1
    }

    /** One turn of the item loop of `redisReaderGetReply`: a byte is eaten or the run is over. */
    method Turn(ghost outcome: Outcome) returns (ok: bool)
      requires Running(outcome) && ridx >= 0
      modifies this, rstack
      ensures Repr == old(Repr) && Evolves(old(store), old(objs), store, objs) == true
      ensures ok ==> Running(outcome) && Left() < old(Left())
      ensures !ok ==> !outcome.Emit? && Reached(outcome, false)
    {
      ghost var step := Step(Task(stack, rstack[ridx].ty), Unread());
      assert outcome == match step case Progress(m, rest) => Run(m, rest) case o => o;
      ok := ProcessItem();
    }

    /** The buffer is compacted when enough of it is read; that does not show. */
    method CompactBetween(ghost outcome: Outcome)
      requires Core() && err == None && Reached(outcome, outcome.Emit?)
      modifies `pos, `len, buf, buf.buf
      ensures Core() && Reached(outcome, outcome.Emit?) == true
    {
      if pos >= 1024 {
        Compact();
        assert rstack[..] == old(rstack[..]);
      }
    }

    /** The first item of a new reply, in slot 0. */
    method StartReply()
      requires Valid() && err == None && ridx == -1
      modifies `ridx, `stack, `objs, rstack
      ensures Valid() && ridx == 0 && objs == [] && View() == old(View())
    {
      rstack[0] := ReadTask(None, -1, -1, NULL, -1);
      ridx := 0;
      stack, objs := [], [];
    }

    /** The item loop of `redisReaderGetReply`. */
    method ProcessItems()
      requires Valid() && ridx >= 0
      modifies this, rstack
      ensures Repr == old(Repr) && Evolves(old(store), old(objs), store, objs) == true
      ensures var o := old(Run(Task(stack, rstack[ridx].ty), Unread())); Reached(o, o.Emit?)
    {
      ghost var outcome := Run(Task(stack, rstack[ridx].ty), Unread());
      while ridx >= 0
        invariant Repr == old(Repr) && Evolves(old(store), old(objs), store, objs)
        invariant Running(outcome)
        decreases Left()
      {
        ghost var s0, o0 := store, objs;
        var ok := Turn(outcome);
        EvolvesTrans(old(store), old(objs), s0, o0, store, objs);
        if !ok { break; }
      }
    }

    /** The end of `redisReaderGetReply`: a whole reply is handed out, without a trace left. */
    method Deliver(ghost outcome: Outcome) returns (p: Ptr)
      requires Core() && err == None && Reached(outcome, outcome.Emit?)
      modifies `reply
      ensures Valid()
      ensures outcome.Emit? ==> View() == Live(IDLE, outcome.rest) && Denotes(store, p, outcome.reply, objs)
      ensures !outcome.Emit? ==> Reached(outcome, false) && p == NULL
    {
      p := NULL;
      if ridx == -1 {
        p := reply;
        reply := NULL;
      }
    }

    /** The call `redisReaderGetReply` whose item loop has the given outcome is over. */
    ghost predicate Answered(outcome: Outcome, p: Ptr)
      reads this, Repr
    {
      && Valid()
      && match outcome
         case Emit(t, rest) => View() == Live(IDLE, rest) && Denotes(store, p, t, objs)
         case Wait(m, rest) => View() == Live(m, rest) && p == NULL
         case Stop(f) => View() == Dead(f) && p == NULL
         case Progress(_, _) => false
    }

    /** The part of `redisReaderGetReply` from the item loop on. */
    method ReadReply(ghost outcome: Outcome) returns (p: Ptr)
      requires Valid() && ridx >= 0 && outcome == Run(Task(stack, rstack[ridx].ty), Unread())
      modifies Repr
      ensures Repr == old(Repr) && Evolves(old(store), old(objs), store, objs) == true
      ensures Answered(outcome, p) == true
    {
      ProcessItems();
      if err != None { return NULL; }
      CompactBetween(outcome);
      p := Deliver(outcome);
    }

    /** `redisReaderGetReply`: the machine's poll; replies handed out are not touched again. */
    method GetReply() returns (ok: bool, p: Ptr)
      requires Valid()
      modifies Repr
      ensures Valid() && Repr == old(Repr) && Evolves(old(store), old(objs), store, objs) == true
      ensures View() == Poll(old(View())).0 && ok == (err == None)
      ensures match Poll(old(View())).1
              case None => p == NULL
              case Some(t) => Denotes(store, p, t, objs)
    {
      if err != None { return false, NULL; }
      if len == 0 {
        RunEmpty(View().task);
        return true, NULL;
      }
      if ridx == -1 {
        StartReply();
      }
      p := ReadReply(Run(Task(stack, rstack[ridx].ty), Unread()));
      ok := err == None;
    }
  }

  // ---------------------------------------------------------------- whole sessions

  /** The addresses ps hold the trees ts, and what is still open is not part of them. */
  ghost predicate AllDenote(store: Store, ps: seq<Ptr>, ts: seq<Reply>, open: seq<Ptr>) {
    |ps| == |ts| && forall i :: 0 <= i < |ps| ==> Denotes(store, ps[i], ts[i], open)
  }

  lemma AllDenoteStable(store: Store, open: seq<Ptr>, store': Store, open': seq<Ptr>, ps: seq<Ptr>, ts: seq<Reply>)
    requires AllDenote(store, ps, ts, open) && Evolves(store, open, store', open')
    ensures AllDenote(store', ps, ts, open')
  {
    forall i | 0 <= i < |ps| ensures Denotes(store', ps[i], ts[i], open') {
      DenotesStable(store, open, store', open', ps[i], ts[i]);
    }
  }

  /** One poll, its reply kept with the earlier ones. */
  method PollInto(r: RedisReader, ps: seq<Ptr>, ghost ts: seq<Reply>)
    returns (ok: bool, ps': seq<Ptr>, ghost ts': seq<Reply>)
    requires r.Valid() && AllDenote(r.store, ps, ts, r.objs)
    modifies r.Repr
    ensures r.Valid() && r.Repr == old(r.Repr) && AllDenote(r.store, ps', ts', r.objs)
    ensures r.View() == Poll(old(r.View())).0 && ts' == ts + Given(Poll(old(r.View())).1)
    ensures ok == (Poll(old(r.View())).1 != None)
  {
    ghost var s0, o0 := r.store, r.objs;
    ghost var t := Poll(r.View()).1;
    var status, p := r.GetReply();
    AllDenoteStable(s0, o0, r.store, r.objs, ps, ts);
    ok := p != NULL;
    ps', ts' := if ok then ps + [p] else ps, ts + Given(t);
  }

  /** A reader driven by any sequence of calls and then drained: the replies it hands out, all
      still intact at the end, are those of feeding everything at once. */
  method Drive(calls: seq<Call>) returns (r: RedisReader, ps: seq<Ptr>)
    ensures r.Valid() && fresh(r.Repr)
    ensures var whole := Drain(Live(IDLE, Fed(calls)));
            r.View() == whole.0 && AllDenote(r.store, ps, whole.1, r.objs)
  {
    r := new RedisReader();
    ps := [];
    ghost var ts: seq<Reply> := [];
    ghost var total := Total(FRESH, calls);
    assert calls[0..] == calls;
    assert [] + total.1 == total.1;
    for i := 0 to |calls|
      invariant r.Valid() && fresh(r.Repr) && AllDenote(r.store, ps, ts, r.objs)
      invariant total == Prefixed(ts, Total(r.View(), calls[i..]))
    {
      assert calls[i..][1..] == calls[i + 1..];
      match calls[i]
      case FeedCall(chunk) =>
        TotalFeed(r.View(), calls[i..]);
        var _ := r.FeedBytes(chunk);
      case PollCall =>
        TotalPoll(r.View(), calls[i..]);
        PrefixedTwice(ts, Given(Poll(r.View()).1), Total(Poll(r.View()).0, calls[i + 1..]));
        var ok;
        ok, ps, ts := PollInto(r, ps, ts);
    }
    TotalNone(r.View());
    ps, ts := DrainInto(r, ps, ts);
    ChunkInvariance(calls);
  }

  /** Polling until there is no reply. */
  method DrainInto(r: RedisReader, ps: seq<Ptr>, ghost ts: seq<Reply>) returns (ps': seq<Ptr>, ghost ts': seq<Reply>)
    requires r.Valid() && AllDenote(r.store, ps, ts, r.objs)
    modifies r.Repr
    ensures r.Valid() && r.Repr == old(r.Repr) && AllDenote(r.store, ps', ts', r.objs)
    ensures (r.View(), ts') == Prefixed(ts, old(Drain(r.View())))
  {
    ghost var whole := Prefixed(ts, Drain(r.View()));
    var ok := true;
    ps', ts' := ps, ts;
    while ok
      invariant r.Valid() && r.Repr == old(r.Repr) && AllDenote(r.store, ps', ts', r.objs)
      invariant whole == if ok then Prefixed(ts', Drain(r.View())) else (r.View(), ts')
      decreases ok, if r.View().Live? then |r.View().unread| else 0
    {
      DrainPoll(r.View());
      PrefixedTwice(ts', Given(Poll(r.View()).1), Drain(Poll(r.View()).0));
      ok, ps', ts' := PollInto(r, ps', ts');
    }
  }
}
