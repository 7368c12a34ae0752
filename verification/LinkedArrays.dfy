/**
 * utils/memory.c: arrays built as linked lists of one-byte blocks drawn from a fixed pool. First the arrays as values,
 * then the heap itself, whose methods are proved to do to the linked blocks what the value operations say.
 */
module LinkedArrays {
  import opened Wrappers

  // --- Arrays as values -----------------------------------------------------------------------

  /**
   * The arrays in existence with their contents, how many blocks are free, and how many are lost
   * because create_array overwrote a handle that still owned a list.
   */
  datatype Heap<!H> = Heap(arrays: map<H, seq<uint8>>, free: nat, lost: nat)

  function Zeros(n: nat): (r: seq<uint8>)
    ensures |r| == n
  {
    seq(n, _ => 0)
  }

  function Put(s: seq<uint8>, i: nat, e: uint8): seq<uint8>
    requires i < |s|
  {
    s[i := e]
  }

  predicate Creates<H>(h: Heap<H>, size: nat) {
    0 < size <= h.free
  }

  function Created<H>(h: Heap<H>, a: H, size: nat): Heap<H> {
    if Creates(h, size)
    then Heap(h.arrays[a := Zeros(size)], h.free - size, h.lost + if a in h.arrays then |h.arrays[a]| else 0)
    else h
  }

  function Freed<H>(h: Heap<H>, a: H): Heap<H> {
    if a in h.arrays then Heap(h.arrays - {a}, h.free + |h.arrays[a]|, h.lost) else h
  }

  function Written<H>(h: Heap<H>, a: H, e: uint8, i: nat): Heap<H> {
    if a in h.arrays && i < |h.arrays[a]| then h.(arrays := h.arrays[a := Put(h.arrays[a], i, e)]) else h
  }

  function ReadAt<H>(h: Heap<H>, a: H, i: nat): Option<uint8> {
    if a in h.arrays && i < |h.arrays[a]| then Some(h.arrays[a][i]) else None
  }

  ghost function Pick<K, V>(m: map<K, V>): K
    requires m.Keys != {}
  {
    var k :| k in m; k
  }

  /** The sizes of all arrays together. */
  ghost function TotalSize<K, T>(m: map<K, seq<T>>): nat
    decreases |m|
  {
    if m.Keys == {} then 0 else |m[Pick(m)]| + TotalSize(m - {Pick(m)})
  }

  lemma {:induction false} TotalSizeRemove<K, T>(m: map<K, seq<T>>, a: K)
    requires a in m
    ensures TotalSize(m) == |m[a]| + TotalSize(m - {a})
    decreases |m|
  {
    var b := Pick(m);
    if a != b {
      assert |m - {b}| < |m|;
      TotalSizeRemove(m - {b}, a);
      TotalSizeRemove(m - {a}, b);
      assert (m - {a}) - {b} == (m - {b}) - {a};
    }
  }

  lemma TotalSizeUpdate<K, T>(m: map<K, seq<T>>, a: K, s: seq<T>)
    ensures TotalSize(m[a := s]) == TotalSize(m - {a}) + |s|
    ensures a in m ==> TotalSize(m[a := s]) == TotalSize(m) - |m[a]| + |s|
    ensures a !in m ==> TotalSize(m[a := s]) == TotalSize(m) + |s|
  {
    TotalSizeRemove(m[a := s], a);
    assert m[a := s] - {a} == m - {a};
    if a in m {
      TotalSizeRemove(m, a);
    } else {
      assert m - {a} == m;
    }
  }

  /** Every block is in exactly one of three places; this is their number. */
  ghost function Blocks<H>(h: Heap<H>): nat {
    h.free + h.lost + TotalSize(h.arrays)
  }

  datatype Op<!H> = Create(a: H, size: nat) | Free(a: H) | Write(a: H, e: uint8, i: nat)

  function Apply<H>(h: Heap<H>, op: Op<H>): Heap<H> {
    match op
    case Create(a, size) => Created(h, a, size)
    case Free(a) => Freed(h, a)
    case Write(a, e, i) => Written(h, a, e, i)
  }

  function RunOps<H>(capacity: nat, ops: seq<Op<H>>): Heap<H> {
    if ops == [] then Heap(map[], capacity, 0)
    else Apply(RunOps(capacity, ops[..|ops| - 1]), ops[|ops| - 1])
  }

  lemma ApplyConserves<H>(h: Heap<H>, op: Op<H>)
    ensures Blocks(Apply(h, op)) == Blocks(h)
  {
    match op
    case Create(a, size) => TotalSizeUpdate(h.arrays, a, Zeros(size));
    case Free(a) => if a in h.arrays { TotalSizeRemove(h.arrays, a); }
    case Write(a, e, i) =>
      if a in h.arrays && i < |h.arrays[a]| { TotalSizeUpdate(h.arrays, a, Put(h.arrays[a], i, e)); }
  }

  /** create_array is only ever given a handle that owns no list. */
  ghost predicate Disciplined<H>(capacity: nat, ops: seq<Op<H>>) {
    forall k :: 0 <= k < |ops| && ops[k].Create? && Creates(RunOps(capacity, ops[..k]), ops[k].size) ==>
      ops[k].a !in RunOps(capacity, ops[..k]).arrays
  }

  /**
   * Conservation over every sequence of operations, and with disciplined handles nothing is lost: the
   * free blocks and the sizes of the live arrays add up to the whole pool.
   */
  lemma {:induction false} Conservation<H>(capacity: nat, ops: seq<Op<H>>)
    ensures var h := RunOps(capacity, ops);
      && h.free + h.lost + TotalSize(h.arrays) == capacity
      && (Disciplined(capacity, ops) <==> h.lost == 0)
      && forall a :: a in h.arrays ==> |h.arrays[a]| > 0
  {
    if ops != [] {
      var n := |ops| - 1;
      var before := ops[..n];
      var h := RunOps(capacity, before);
      Conservation(capacity, before);
      ApplyConserves(h, ops[n]);
      assert forall k :: 0 <= k < n ==> before[..k] == ops[..k] && before[k] == ops[k];
      assert ops[..n] == before;
      if Disciplined(capacity, ops) {
        assert Disciplined(capacity, before);
        assert ops[n].Create? && Creates(h, ops[n].size) ==> ops[n].a !in h.arrays;
      }
      if Disciplined(capacity, before) && (ops[n].Create? && Creates(h, ops[n].size) ==> ops[n].a !in h.arrays) {
        assert Disciplined(capacity, ops);
      }
    }
  }

  /**
   * After every history the next creation changes the pool exactly when the size asked for is not zero and fits beside
   * the live arrays and the lost blocks; then the handle holds that many zeros and every other array what it held.
   */
  lemma CreationIff<H>(capacity: nat, ops: seq<Op<H>>, a: H, size: nat)
    ensures var h, t := RunOps(capacity, ops), RunOps(capacity, ops + [Create(a, size)]);
      && (t != h <==> 0 < size && TotalSize(h.arrays) + h.lost + size <= capacity)
      && (t != h ==> a in t.arrays && |t.arrays[a]| == size && forall i :: 0 <= i < size ==> t.arrays[a][i] == 0)
      && (forall b :: b != a ==> (b in t.arrays <==> b in h.arrays) && (b in h.arrays ==> t.arrays[b] == h.arrays[b]))
  {
    Conservation(capacity, ops);
    assert (ops + [Create(a, size)])[..|ops|] == ops;
  }

  /** What the history alone says element i of array a must be: the last write since the last creation. */
  function Remembered<H(==)>(capacity: nat, ops: seq<Op<H>>, a: H, i: nat): Option<uint8> {
    if ops == [] then None
    else
      var before := ops[..|ops| - 1];
      match ops[|ops| - 1]
      case Create(b, size) =>
        if b != a || !Creates(RunOps(capacity, before), size) then Remembered(capacity, before, a, i)
        else if i < size then Some(0) else None
      case Free(b) => if b == a then None else Remembered(capacity, before, a, i)
      case Write(b, e, j) =>
        var r := Remembered(capacity, before, a, i);
        if b == a && j == i && r.Some? then Some(e) else r
  }

  /** Read over write, for every history: a read gives the last write to that index of that array. */
  lemma {:induction false} ReadsRememberWrites<H>(capacity: nat, ops: seq<Op<H>>, a: H, i: nat)
    ensures ReadAt(RunOps(capacity, ops), a, i) == Remembered(capacity, ops, a, i)
  {
    if ops != [] {
      ReadsRememberWrites(capacity, ops[..|ops| - 1], a, i);
    }
  }

  /** Two pools with the same arrays and the same numbers of blocks, whatever the arrays hold. */
  ghost predicate Keeps<H>(h: Heap<H>, t: Heap<H>) {
    t.arrays.Keys == h.arrays.Keys && t.free == h.free && t.lost == h.lost && Blocks(t) == Blocks(h)
  }

  lemma WrittenKeeps<H>(h: Heap<H>, a: H, e: uint8, i: nat)
    ensures Keeps(h, Written(h, a, e, i))
  {
    ApplyConserves(h, Write(a, e, i));
  }

  // --- The linked blocks ------------------------------------------------------------------------

  /** A pointer to a block is its position in the static array MEMORY. */
  const NULL := -1

  /** array_t. */
  class ArrayHandle {
    var head: int
    var size: nat

    constructor ()
      ensures head == NULL && size == 0
    {
      head, size := NULL, 0;
    }
  }

  /** What a block is for. */
  datatype Place = Unused | Lost | Serving(a: ArrayHandle)

  /** The blocks listed in c are different blocks, all in place p. */
  ghost predicate At(place: seq<Place>, c: seq<int>, p: Place) {
    && (forall k :: 0 <= k < |c| ==> 0 <= c[k] < |place| && place[c[k]] == p)
    && (forall k, l :: 0 <= k < l < |c| ==> c[k] != c[l])
  }

  /** The blocks listed in c move to place p. */
  ghost function Moved(place: seq<Place>, c: seq<int>, p: Place): (r: seq<Place>)
    ensures |r| == |place|
    ensures forall b :: 0 <= b < |place| ==> r[b] == if b in c then p else place[b]
  {
    seq(|place|, b requires 0 <= b < |place| => if b in c then p else place[b])
  }

  lemma MovedAt(place: seq<Place>, c: seq<int>, p: Place, q: Place)
    requires At(place, c, p)
    ensures At(Moved(place, c, q), c, q)
  {
  }

  lemma MovedKeeps(place: seq<Place>, c: seq<int>, p: Place, q: Place, d: seq<int>, r: Place)
    requires At(place, c, p) && At(place, d, r) && r != p
    ensures At(Moved(place, c, q), d, r)
  {
  }

  lemma AtConcat(place: seq<Place>, c: seq<int>, d: seq<int>, p: Place, q: Place)
    requires At(place, c, p) && At(place, d, q) && p != q
    ensures At(Moved(place, d, p), c + d, p)
  {
    forall k, l | 0 <= k < l < |c + d|
      ensures (c + d)[k] != (c + d)[l]
    {
      if k < |c| <= l {
        assert place[c[k]] == p && place[d[l - |c|]] == q;
      }
    }
  }

  /** Following next from head visits exactly the blocks of c, in order, and ends in NULL. */
  ghost predicate Linked(next: seq<int>, head: int, c: seq<int>) {
    && |c| > 0 && head == c[0]
    && (forall k :: 0 <= k < |c| ==> 0 <= c[k] < |next|)
    && (forall k {:trigger Successor(c, k)} :: 0 <= k < |c| ==> next[c[k]] == Successor(c, k))
  }

  ghost function Successor(c: seq<int>, k: nat): int {
    if k + 1 < |c| then c[k + 1] else NULL
  }

  /** The blocks of c hold the elements v. */
  ghost predicate Stores(data: seq<uint8>, c: seq<int>, v: seq<uint8>) {
    |c| == |v| && forall k :: 0 <= k < |c| ==> 0 <= c[k] < |data| && data[c[k]] == v[k]
  }

  lemma LinkedElsewhere(next: seq<int>, next': seq<int>, head: int, c: seq<int>)
    requires Linked(next, head, c) && |next'| == |next|
    requires forall k :: 0 <= k < |c| ==> next'[c[k]] == next[c[k]]
    ensures Linked(next', head, c)
  {
  }

  lemma LinkedAppend(place: seq<Place>, next: seq<int>, head: int, c: seq<int>, link: int, p: Place)
    requires At(place, c, p) && link !in c && 0 <= link < |next| == |place| && Linked(next, head, c)
    ensures Linked(next[c[|c| - 1] := link][link := NULL], head, c + [link])
  {
    var d := c + [link];
    var next' := next[c[|c| - 1] := link][link := NULL];
    forall k {:trigger Successor(d, k)} | 0 <= k < |d|
      ensures next'[d[k]] == Successor(d, k)
    {
      if k < |c| {
        assert next[c[k]] == Successor(c, k) && c[k] != link;
      }
    }
  }

  /** What create_array has built so far: a zeroed list on unused blocks, with all other blocks as they were. */
  ghost predicate Built(place: seq<Place>, next0: seq<int>, data0: seq<uint8>,
                        next: seq<int>, data: seq<uint8>, head: int, c: seq<int>) {
    && |next0| == |data0| == |next| == |data| == |place|
    && At(place, c, Unused) && Linked(next, head, c) && Stores(data, c, Zeros(|c|))
    && (forall b :: 0 <= b < |place| && place[b] != Unused ==> next[b] == next0[b] && data[b] == data0[b])
  }

  lemma BuiltFirst(place: seq<Place>, next: seq<int>, data: seq<uint8>, b: int)
    requires |next| == |data| == |place| && 0 <= b < |place| && place[b] == Unused
    ensures Built(place, next, data, next[b := NULL], Put(data, b, 0), b, [b])
  {
  }

  lemma BuiltAppend(place: seq<Place>, next0: seq<int>, data0: seq<uint8>,
                    next: seq<int>, data: seq<uint8>, head: int, c: seq<int>, link: int)
    requires Built(place, next0, data0, next, data, head, c)
    requires 0 <= link < |place| && place[link] == Unused && link !in c
    ensures Built(place, next0, data0, next[c[|c| - 1] := link][link := NULL], Put(data, link, 0), head, c + [link])
  {
    LinkedAppend(place, next, head, c, link, Unused);
  }

  lemma StoresElsewhere(data: seq<uint8>, data': seq<uint8>, c: seq<int>, v: seq<uint8>)
    requires Stores(data, c, v) && |data'| == |data|
    requires forall k :: 0 <= k < |c| ==> data'[c[k]] == data[c[k]]
    ensures Stores(data', c, v)
  {
  }

  lemma StoreOne(place: seq<Place>, data: seq<uint8>, c: seq<int>, p: Place, i: nat, e: uint8,
                 d: seq<int>, q: Place, v: seq<uint8>)
    requires At(place, c, p) && At(place, d, q) && (p == q ==> c == d) && i < |c|
    requires |place| == |data| && Stores(data, d, v)
    ensures Stores(Put(data, c[i], e), d, if p == q then Put(v, i, e) else v)
  {
  }

  /** The last n free blocks, in the order in which they are handed out. */
  ghost function Taken(free: seq<int>, n: nat): (c: seq<int>)
    requires n <= |free|
    ensures |c| == n
    ensures forall k :: 0 <= k < n ==> c[k] == free[|free| - 1 - k]
  {
    seq(n, k requires 0 <= k < n => free[|free| - 1 - k])
  }

  lemma TakenAt(place: seq<Place>, free: seq<int>, n: nat, p: Place)
    requires At(place, free, p) && n <= |free|
    ensures At(place, Taken(free, n), p) && At(place, free[..|free| - n], p)
    ensures forall k :: 0 <= k < |free| - n ==> free[k] !in Taken(free, n)
  {
  }

  lemma TakenNext(place: seq<Place>, free: seq<int>, n: nat)
    requires At(place, free, Unused) && n < |free|
    ensures var link := free[|free| - 1 - n];
      && Taken(free, n + 1) == Taken(free, n) + [link]
      && link !in Taken(free, n) && 0 <= link < |place| && place[link] == Unused
  {
  }

  /** Every listed block is in the place its list stands for. */
  ghost predicate Placed(place: seq<Place>, free: seq<int>, lost: seq<int>, chains: map<ArrayHandle, seq<int>>) {
    && At(place, free, Unused) && At(place, lost, Lost)
    && (forall a :: a in chains ==> At(place, chains[a], Serving(a)))
  }

  /** The last n free blocks become the chain of a. */
  lemma PlacedAdopt(place: seq<Place>, free: seq<int>, n: nat, lost: seq<int>, chains: map<ArrayHandle, seq<int>>,
                    a: ArrayHandle)
    requires n <= |free| && Placed(place, free, lost, chains) && a !in chains
    ensures var c := Taken(free, n);
      Placed(Moved(place, c, Serving(a)), free[..|free| - n], lost, chains[a := c])
  {
    var c := Taken(free, n);
    TakenAt(place, free, n, Unused);
    MovedAt(place, c, Unused, Serving(a));
    forall b | b in chains ensures At(Moved(place, c, Serving(a)), chains[b], Serving(b)) {
      MovedKeeps(place, c, Unused, Serving(a), chains[b], Serving(b));
    }
    MovedKeeps(place, c, Unused, Serving(a), lost, Lost);
  }

  /** The chain of a becomes free. */
  lemma PlacedDisown(place: seq<Place>, free: seq<int>, lost: seq<int>, chains: map<ArrayHandle, seq<int>>,
                     a: ArrayHandle)
    requires Placed(place, free, lost, chains) && a in chains
    ensures Placed(Moved(place, chains[a], Unused), free + chains[a], lost, chains - {a})
  {
    var c := chains[a];
    AtConcat(place, free, c, Unused, Serving(a));
    forall b | b in chains && b != a ensures At(Moved(place, c, Unused), chains[b], Serving(b)) {
      MovedKeeps(place, c, Serving(a), Unused, chains[b], Serving(b));
    }
    MovedKeeps(place, c, Serving(a), Unused, lost, Lost);
  }

  /** The pool of memory.c. memarray hands out blocks last in, first out. */
  class Pool {
    const next: array<int>
    const data: array<uint8>
    var free: seq<int>
    ghost var lost: seq<int>
    ghost var chains: map<ArrayHandle, seq<int>>
    ghost var place: seq<Place>
    ghost var heap: Heap<ArrayHandle> // the pool as a value

    /** Every block is in one place: free, lost, or serving one array, where it occurs once. */
    ghost predicate Places()
      reads this
    {
      next.Length == data.Length == |place| && Placed(place, free, lost, chains)
    }

    ghost predicate Counts()
      reads this
    {
      && heap.arrays.Keys == chains.Keys
      && heap.free == |free| && heap.lost == |lost|
    }

    /** The free blocks, the lost ones and the sizes of the live arrays make up the pool. */
    ghost predicate Conserved()
      reads this
    {
      Blocks(heap) == next.Length
    }

    ghost predicate Links(a: ArrayHandle, c: seq<int>)
      reads next, a
    {
      a.size == |c| && Linked(next[..], a.head, c)
    }

    ghost predicate Holds(c: seq<int>, v: seq<uint8>)
      reads data
    {
      Stores(data[..], c, v)
    }

    ghost predicate Valid()
      reads this, next, data, chains.Keys
    {
      && Places()
      && Counts()
      && Conserved()
      && (forall a :: a in chains ==> Links(a, chains[a]))
      && (forall a :: a in chains ==> Holds(chains[a], heap.arrays[a]))
    }

    /** A handle is either live or zeroed. */
    ghost predicate Known(a: ArrayHandle)
      reads this, a
    {
      a in chains || (a.head == NULL && a.size == 0)
    }

    /** In a valid pool no chain meets itself or another one, and none uses a free block. */
    lemma ChainsAreSeparate(a: ArrayHandle, b: ArrayHandle, k: nat, l: nat)
      requires Valid() && a in chains && b in chains && k < |chains[a]| && l < |chains[b]|
      ensures chains[a][k] == chains[b][l] <==> a == b && k == l
      ensures chains[a][k] !in free
    {
      assert place[chains[a][k]] == Serving(a) && place[chains[b][l]] == Serving(b);
    }

    constructor (n: nat)
      ensures Valid() && heap == RunOps(n, []) && next.Length == n
    {
      next := new int[n](_ => NULL);
      data := new uint8[n](_ => 0);
      free := seq(n, i => i);
      place := seq(n, _ => Unused);
      lost, chains, heap := [], map[], Heap(map[], n, 0);
    }

    /** memarray_alloc: a free block, with whatever it last held. */
    method Alloc() returns (b: int)
      requires free != []
      modifies this`free
      ensures b == old(free)[|old(free)| - 1] && free == old(free)[..|old(free)| - 1]
    {
      b := free[|free| - 1];
      free := free[..|free| - 1];
    }

    /** memarray_free: the block goes back, and its link is reused by the free list. */
    method Release(b: int)
      requires 0 <= b < next.Length
      modifies this`free, next
      ensures free == old(free) + [b]
      ensures forall i :: 0 <= i < next.Length && i != b ==> next[i] == old(next[i])
    {
      free := free + [b];
      var junk: int := *;
      next[b] := junk;
    }

    /** The first block of a list. */
    method StartList(a: ArrayHandle) returns (block: int)
      requires next.Length == data.Length == |place| && At(place, free, Unused) && free != []
      modifies this`free, a, next, data
      ensures block == old(free)[|old(free)| - 1] && free == old(free)[..|old(free)| - 1]
      ensures a.head == block && a.size == old(a.size)
      ensures Built(place, old(next[..]), old(data[..]), next[..], data[..], block, [block])
    {
      ghost var next0, data0 := next[..], data[..];
      block := Alloc();
      data[block] := 0;
      a.head := block;
      next[block] := NULL;
      BuiltFirst(place, next0, data0, block);
      assert next[..] == next0[block := NULL] && data[..] == Put(data0, block, 0);
    }

    /** One more block at the end of the list c. */
    method Append(block: int, ghost next0: seq<int>, ghost data0: seq<uint8>, ghost head: int, ghost c: seq<int>)
      returns (link: int)
      requires next.Length == data.Length == |place| && free != []
      requires Built(place, next0, data0, next[..], data[..], head, c) && block == c[|c| - 1]
      requires var l := free[|free| - 1]; 0 <= l < |place| && place[l] == Unused && l !in c
      modifies this`free, next, data
      ensures link == old(free)[|old(free)| - 1] && free == old(free)[..|old(free)| - 1]
      ensures Built(place, next0, data0, next[..], data[..], head, c + [link])
    {
      ghost var next1, data1 := next[..], data[..];
      link := Alloc();
      next[block] := link;
      next[link] := NULL;
      data[link] := 0;
      BuiltAppend(place, next0, data0, next1, data1, head, c, link);
      assert next[..] == next1[block := link][link := NULL] && data[..] == Put(data1, link, 0);
    }

    /** One more turn of that loop: the list of the first k blocks of free0 handed out becomes one of k + 1. */
    method Extend(block: int, ghost next0: seq<int>, ghost data0: seq<uint8>, ghost head: int,
                  ghost free0: seq<int>, ghost k: nat)
      returns (link: int)
      requires next.Length == data.Length == |place| && At(place, free0, Unused)
      requires 0 < k < |free0| && free == free0[..|free0| - k] && block == free0[|free0| - k]
      requires Built(place, next0, data0, next[..], data[..], head, Taken(free0, k))
      modifies this`free, next, data
      ensures free == free0[..|free0| - (k + 1)] && link == free0[|free0| - (k + 1)]
      ensures Built(place, next0, data0, next[..], data[..], head, Taken(free0, k + 1))
    {
      TakenNext(place, free0, k);
      link := Append(block, next0, data0, head, Taken(free0, k));
    }

    /** The loop of create_array. */
    method ExtendAll(first: int, size: nat, ghost next0: seq<int>, ghost data0: seq<uint8>, ghost head: int,
                     ghost free0: seq<int>)
      requires next.Length == data.Length == |place| && At(place, free0, Unused) && 0 < size <= |free0|
      requires free == free0[..|free0| - 1] && first == free0[|free0| - 1]
      requires Built(place, next0, data0, next[..], data[..], head, Taken(free0, 1))
      modifies this`free, next, data
      ensures free == free0[..|free0| - size]
      ensures Built(place, next0, data0, next[..], data[..], head, Taken(free0, size))
    {
      var block := first;
      var i := 0;
      while i < size - 1
        invariant 0 <= i <= size - 1 && block == free0[|free0| - (i + 1)] && free == free0[..|free0| - (i + 1)]
        invariant Built(place, next0, data0, next[..], data[..], head, Taken(free0, i + 1))
        decreases size - i
      {
        block := Extend(block, next0, data0, head, free0, i + 1);
        i := i + 1;
      }
    }

    /** What create_array builds: a list of size zeroed blocks taken from the free ones. */
    method BuildList(a: ArrayHandle, size: nat)
      requires next.Length == data.Length == |place| && At(place, free, Unused) && 0 < size <= |free|
      modifies this`free, a, next, data
      ensures free == old(free)[..|old(free)| - size]
      ensures a.size == size
      ensures Built(place, old(next[..]), old(data[..]), next[..], data[..], a.head, Taken(old(free), size))
    {
      ghost var free0, next0, data0 := free, next[..], data[..];
      a.size := size;
      var block := StartList(a);
      assert Taken(free0, 1) == [block];
      ExtendAll(block, size, next0, data0, a.head, free0);
    }

    /** The pool as a value becomes what the blocks already hold. */
    ghost method Settle(after: Heap<ArrayHandle>, places: seq<Place>, cs: map<ArrayHandle, seq<int>>)
      requires next.Length == data.Length == |places| && Placed(places, free, lost, cs)
      requires Blocks(after) == next.Length
      requires after.arrays.Keys == cs.Keys && after.free == |free| && after.lost == |lost|
      requires forall b :: b in cs ==> Links(b, cs[b]) && Holds(cs[b], after.arrays[b])
      modifies this`chains, this`place, this`heap
      ensures Valid() && heap == after && chains == cs && place == places
    {
      place, chains, heap := places, cs, after;
    }

    /** The new list does not touch the arrays of other handles. */
    method BuildApart(a: ArrayHandle, size: nat)
      requires Valid() && 0 < size <= |free|
      modifies this`free, a, next, data
      ensures free == old(free)[..|old(free)| - size]
      ensures Links(a, Taken(old(free), size)) && Holds(Taken(old(free), size), Zeros(size))
      ensures forall b :: b in chains && b != a ==> Links(b, chains[b]) && Holds(chains[b], heap.arrays[b])
    {
      BuildList(a, size);
      forall b | b in chains && b != a
        ensures Links(b, chains[b]) && Holds(chains[b], heap.arrays[b])
      {
        assert At(place, chains[b], Serving(b));
        LinkedElsewhere(old(next[..]), next[..], b.head, chains[b]);
        StoresElsewhere(old(data[..]), data[..], chains[b], heap.arrays[b]);
      }
    }

    /** create_array. On a handle that is already live the old list is lost. */
    method CreateArray(a: ArrayHandle, size: nat) returns (ok: bool)
      requires Valid()
      modifies this, a, next, data
      ensures Valid() && heap == Created(old(heap), a, size)
      ensures ok <==> Creates(old(heap), size)
      ensures !ok ==> a.head == old(a.head) && a.size == old(a.size)
    {
      if size == 0 {
        return false;
      }
      if size > |free| {
        return false;
      }
      BuildAndInstall(a, size);
      ok := true;
    }

    /** What create_array does when it succeeds. */
    method BuildAndInstall(a: ArrayHandle, size: nat)
      requires Valid() && Creates(heap, size)
      modifies this, a, next, data
      ensures Valid() && heap == Created(old(heap), a, size)
    {
      ghost var free0 := free;
      assert a in chains ==> Holds(chains[a], heap.arrays[a]);
      BuildApart(a, size);
      Install(a, free0, size);
    }

    /** A finished list becomes the array of a, in place of the one it had. */
    ghost method Install(a: ArrayHandle, free0: seq<int>, size: nat)
      requires CountedWith(free0) && (a in chains ==> |chains[a]| == |heap.arrays[a]|)
      requires 0 < size <= |free0| && free == free0[..|free0| - size]
      requires Links(a, Taken(free0, size)) && Holds(Taken(free0, size), Zeros(size))
      requires forall b :: b in chains && b != a ==> Links(b, chains[b]) && Holds(chains[b], heap.arrays[b])
      modifies this`chains, this`lost, this`place, this`heap
      ensures Valid() && heap == Created(old(heap), a, size)
    {
      TakenAt(place, free0, size, Unused);
      if a in chains {
        Lose(a);
      }
      Adopt(a, free0, size);
    }

    /** The pool as it was counted when its free blocks were free0. */
    ghost predicate CountedWith(free0: seq<int>)
      reads this
    {
      && Places() && Conserved() && At(place, free0, Unused)
      && heap.arrays.Keys == chains.Keys && heap.free == |free0| && heap.lost == |lost|
    }

    /** A live handle is about to be overwritten: its blocks are lost. */
    ghost method Lose(a: ArrayHandle)
      requires Places() && a in chains
      modifies this`chains, this`lost, this`place
      ensures Places() && chains == old(chains) - {a}
      ensures |lost| == |old(lost)| + |old(chains)[a]|
      ensures forall c :: At(old(place), c, Unused) ==> At(place, c, Unused)
    {
      var c := chains[a];
      forall d | At(place, d, Unused) ensures At(Moved(place, c, Lost), d, Unused) {
        MovedKeeps(place, c, Serving(a), Lost, d, Unused);
      }
      forall b | b in chains && b != a ensures At(Moved(place, c, Lost), chains[b], Serving(b)) {
        MovedKeeps(place, c, Serving(a), Lost, chains[b], Serving(b));
      }
      AtConcat(place, lost, c, Lost, Serving(a));
      lost, place, chains := lost + c, Moved(place, c, Lost), chains - {a};
    }

    /** A finished list becomes the array of a. */
    ghost method Adopt(a: ArrayHandle, free0: seq<int>, size: nat)
      requires next.Length == data.Length == |place| && Placed(place, free0, lost, chains)
      requires a !in chains && heap.arrays.Keys - {a} == chains.Keys
      requires 0 < size <= |free0| && free == free0[..|free0| - size]
      requires Links(a, Taken(free0, size)) && Holds(Taken(free0, size), Zeros(size))
      requires forall b :: b in chains ==> Links(b, chains[b]) && Holds(chains[b], heap.arrays[b])
      requires Conserved() && heap.free == |free0|
      requires |lost| == heap.lost + if a in heap.arrays then |heap.arrays[a]| else 0
      modifies this`chains, this`place, this`heap
      ensures Valid() && heap == Created(old(heap), a, size)
    {
      var c := Taken(free0, size);
      var after := Created(heap, a, size);
      PlacedAdopt(place, free0, size, lost, chains, a);
      assert Blocks(after) == next.Length by {
        ApplyConserves(heap, Create(a, size));
      }
      forall b | b in chains[a := c]
        ensures Links(b, chains[a := c][b]) && Holds(chains[a := c][b], after.arrays[b])
      {
        assert after.arrays[b] == if b == a then Zeros(size) else heap.arrays[b];
      }
      Settle(after, Moved(place, c, Serving(a)), chains[a := c]);
    }

    /** The loop of free_array: every block of the list goes back to the pool. */
    method ReleaseList(first: int, ghost c: seq<int>, ghost p: Place)
      requires next.Length == |place| && Linked(next[..], first, c) && At(place, c, p)
      modifies this`free, next
      ensures free == old(free) + c
      ensures forall b :: 0 <= b < |place| && place[b] != p ==> next[b] == old(next[b])
    {
      var head := first;
      ghost var k, n := 0, |free|;
      while head != NULL
        invariant 0 <= k <= |c| && head == if k < |c| then c[k] else NULL
        invariant forall j {:trigger Successor(c, j)} :: k <= j < |c| ==> next[c[j]] == Successor(c, j)
        invariant |free| == n + k && free[..n] == old(free) && forall j :: 0 <= j < k ==> free[n + j] == c[j]
        invariant forall b :: 0 <= b < |place| && place[b] != p ==> next[b] == old(next[b])
        decreases |c| - k
      {
        assert next[c[k]] == Successor(c, k);
        if next[head] != NULL {
          var done := head;
          head := next[head];
          Release(done);
        } else {
          Release(head);
          head := NULL;
        }
        k := k + 1;
      }
      assert free == old(free) + c;
    }

    /** The blocks of a go back, its handle is emptied, and the chains of other handles stay linked. */
    method ReleaseApart(a: ArrayHandle)
      requires Valid() && a in chains
      modifies this`free, a, next
      ensures free == old(free) + chains[a] && a.head == NULL && a.size == 0
      ensures forall b :: b in chains && b != a ==> Links(b, chains[b])
    {
      ReleaseList(a.head, chains[a], Serving(a));
      a.head := NULL;
      a.size := 0;
      forall b | b in chains && b != a
        ensures Links(b, chains[b])
      {
        assert At(place, chains[b], Serving(b));
        LinkedElsewhere(old(next[..]), next[..], b.head, chains[b]);
      }
    }

    /** free_array. */
    method FreeArray(a: ArrayHandle) returns (ok: bool)
      requires Valid() && Known(a)
      modifies this, a, next
      ensures Valid() && Known(a) && a !in chains && heap == Freed(old(heap), a)
      ensures ok <==> a in old(heap).arrays
    {
      if a.head == NULL {
        return false;
      }
      if a.size == 0 {
        return false;
      }
      ReleaseApart(a);
      Disown(a, old(free));
      ok := true;
    }

    /** The blocks of a freed array count as free again. */
    ghost method Disown(a: ArrayHandle, free0: seq<int>)
      requires next.Length == data.Length == |place| && Placed(place, free0, lost, chains)
      requires heap.arrays.Keys == chains.Keys && a in chains
      requires free == free0 + chains[a] && |chains[a]| == |heap.arrays[a]|
      requires Conserved() && heap.free == |free0| && heap.lost == |lost|
      requires forall b :: b in chains && b != a ==> Links(b, chains[b]) && Holds(chains[b], heap.arrays[b])
      modifies this`chains, this`place, this`heap
      ensures Valid() && chains == old(chains) - {a} && heap == Freed(old(heap), a)
    {
      var c := chains[a];
      PlacedDisown(place, free0, lost, chains, a);
      ApplyConserves(heap, Free(a));
      Settle(Freed(heap, a), Moved(place, c, Unused), chains - {a});
    }

    /** The walk that write_element and read_element share. */
    method Walk(a: ArrayHandle, i: nat) returns (block: int)
      requires a in chains && Links(a, chains[a]) && i < a.size
      ensures block == chains[a][i]
    {
      block := a.head;
      var ith := 0;
      while ith < a.size
        invariant 0 <= ith <= i && block == chains[a][ith]
      {
        if ith == i {
          break;
        }
        assert next[..][chains[a][ith]] == Successor(chains[a], ith);
        block := next[block];
        ith := ith + 1;
      }
    }

    /** The size field of a handle is the size of its array. */
    lemma SizeOf(a: ArrayHandle)
      requires Valid() && Known(a)
      ensures a.size == if a in heap.arrays then |heap.arrays[a]| else 0
      ensures a in heap.arrays <==> a in chains
    {
      assert a in chains ==> Links(a, chains[a]) && Holds(chains[a], heap.arrays[a]);
    }

    /** One block of one chain is overwritten; every chain holds what the value operation says. */
    method Poke(a: ArrayHandle, element: uint8, i: nat, ghost after: Heap<ArrayHandle>)
      requires Places() && a in chains && i < a.size && heap.arrays.Keys == chains.Keys
      requires forall b :: b in chains ==> Links(b, chains[b])
      requires forall b :: b in chains ==> Holds(chains[b], heap.arrays[b])
      requires after == Written(heap, a, element, i)
      modifies data
      ensures after.arrays.Keys == chains.Keys
      ensures forall b :: b in chains ==> Links(b, chains[b])
      ensures forall b :: b in chains ==> Holds(chains[b], after.arrays[b])
    {
      var block := Walk(a, i);
      ghost var data0 := data[..];
      data[block] := element;
      assert data[..] == data0[block := element];
      forall b | b in chains
        ensures Holds(chains[b], after.arrays[b])
      {
        StoreOne(place, data0, chains[a], Serving(a), i, element, chains[b], Serving(b), heap.arrays[b]);
      }
    }

    /** The pool as a value follows a change of elements. */
    ghost method Rewrite(after: Heap<ArrayHandle>)
      requires Places() && Counts() && Conserved() && Keeps(heap, after)
      requires forall b :: b in chains ==> Links(b, chains[b])
      requires forall b :: b in chains ==> Holds(chains[b], after.arrays[b])
      modifies this`heap
      ensures Valid() && heap == after
    {
      heap := after;
    }

    /** What write_element does when it succeeds. */
    method Overwrite(a: ArrayHandle, element: uint8, i: nat)
      requires Valid() && a in chains && i < a.size
      modifies this`heap, data
      ensures Valid() && heap == Written(old(heap), a, element, i)
    {
      ghost var after := Written(heap, a, element, i);
      WrittenKeeps(heap, a, element, i);
      Poke(a, element, i, after);
      Rewrite(after);
    }

    /** write_element. */
    method WriteElement(a: ArrayHandle, element: uint8, i: nat) returns (ok: bool)
      requires Valid() && Known(a)
      modifies this`heap, data
      ensures Valid() && heap == Written(old(heap), a, element, i)
      ensures ok <==> ReadAt(old(heap), a, i).Some?
    {
      SizeOf(a);
      if i >= a.size {
        return false;
      }
      Overwrite(a, element, i);
      ok := true;
    }

    /** read_element: nothing, or the element. */
    method ReadElement(a: ArrayHandle, i: nat) returns (element: Option<uint8>)
      requires Valid() && Known(a)
      ensures element == ReadAt(heap, a, i)
    {
      if i >= a.size {
        return None;
      }
      var block := Walk(a, i);
      assert Holds(chains[a], heap.arrays[a]);
      element := Some(data[block]);
    }
  }
}
