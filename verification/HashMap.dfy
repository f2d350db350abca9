/**
 The chained hash map on which every symbol and section table rests (src/util.c:112-180): linked
 nodes in an array of buckets, relinked in place into a larger array when the chains get long.
 */
module HashMap {
  import opened Division
  import opened Wrappers

  /** The bucket of a key: key mod capacity, counted down so that no other law needs the division. */
  function Bucket(key: nat, capacity: nat): (b: nat)
    requires capacity > 0
    ensures b < capacity
  {
    if key < capacity then key else Bucket(key - capacity, capacity)
  }

  lemma {:induction false} BucketIsRemainder(key: nat, capacity: nat)
    requires capacity > 0
    ensures Bucket(key, capacity) == key % capacity
  {
    if key >= capacity {
      BucketIsRemainder(key - capacity, capacity);
      Subtract(key, capacity);
    }
  }

  lemma Subtract(key: nat, capacity: nat)
    requires key >= capacity > 0
    ensures key % capacity == (key - capacity) % capacity
  {
    var x := key - capacity;
    assert x == capacity * (x / capacity) + x % capacity;
    RemainderUnique(key, capacity, x / capacity + 1, x % capacity);
  }

  class Node<K, V> {
    var next: Node?<K, V>
    const key: nat
    const str: K
    var value: V

    constructor (key: nat, str: K, value: V)
      ensures this.key == key && this.str == str && this.value == value
    {
      this.next := null;
      this.key := key;
      this.str := str;
      this.value := value;
    }
  }

  /** From position j on, a chain is linked in order, and `head` points there. */
  ghost predicate ChainFrom<K, V>(head: Node?<K, V>, c: seq<Node<K, V>>, j: nat)
    reads c`next
  {
    && j <= |c|
    && head == (if j == |c| then null else c[j])
    && forall i {:trigger c[i].next} | j <= i < |c| :: c[i].next == (if i + 1 < |c| then c[i + 1] else null)
  }

  predicate Distinct<K, V>(c: seq<Node<K, V>>) {
    forall i, j | 0 <= i < j < |c| :: c[i] != c[j]
  }

  function Members<K, V>(c: seq<Node<K, V>>): set<Node<K, V>> { set n | n in c }

  /** The chains hold exactly these nodes, each once, in the bucket of its key. */
  ghost predicate Placed<K, V>(chains: seq<seq<Node<K, V>>>, nodes: set<Node<K, V>>) {
    && |chains| > 0
    && (forall b | 0 <= b < |chains| :: Distinct(chains[b]))
    && (forall b, i | 0 <= b < |chains| && 0 <= i < |chains[b]| ::
          chains[b][i] in nodes && Bucket(chains[b][i].key, |chains|) == b)
    && (forall n <- nodes :: n in chains[Bucket(n.key, |chains|)])
  }

  /** The buckets point to these chains. */
  ghost predicate Linked<K, V>(buckets: array<Node?<K, V>>, chains: seq<seq<Node<K, V>>>, nodes: set<Node<K, V>>)
    requires Placed(chains, nodes)
    reads buckets, nodes`next
  {
    buckets.Length == |chains| && forall b | 0 <= b < |chains| :: ChainFrom(buckets[b], chains[b], 0)
  }

  ghost predicate Table<K, V>(buckets: array<Node?<K, V>>, chains: seq<seq<Node<K, V>>>, nodes: set<Node<K, V>>)
    reads buckets, nodes`next
  {
    Placed(chains, nodes) && Linked(buckets, chains, nodes)
  }

  function Front<K, V>(chains: seq<seq<Node<K, V>>>, n: Node<K, V>): seq<seq<Node<K, V>>>
    requires |chains| > 0
  {
    var k := Bucket(n.key, |chains|);
    chains[k := [n] + chains[k]]
  }

  lemma FrontPlaced<K, V>(chains: seq<seq<Node<K, V>>>, nodes: set<Node<K, V>>, n: Node<K, V>)
    requires Placed(chains, nodes) && n !in nodes
    ensures Placed(Front(chains, n), nodes + {n})
  {
    var k := Bucket(n.key, |chains|);
    var c := Front(chains, n);
    forall m | m in nodes + {n} ensures m in c[Bucket(m.key, |c|)] {
      if m == n {
        assert c[k][0] == n;
      } else if Bucket(m.key, |chains|) == k {
        var i :| 0 <= i < |chains[k]| && chains[k][i] == m;
        assert c[k][i + 1] == m;
      }
    }
  }

  /** Put a node in front of its chain. */
  method Link<K, V>(buckets: array<Node?<K, V>>, n: Node<K, V>,
                    ghost chains: seq<seq<Node<K, V>>>, ghost nodes: set<Node<K, V>>)
    requires Table(buckets, chains, nodes) && n !in nodes
    modifies buckets, n`next
    ensures Table(buckets, Front(chains, n), nodes + {n})
  {
    FrontPlaced(chains, nodes, n);
    BucketIsRemainder(n.key, buckets.Length);
    var k := n.key % buckets.Length;
    n.next := buckets[k];
    buckets[k] := n;
    forall b | 0 <= b < |chains| ensures ChainFrom(buckets[b], Front(chains, n)[b], 0) {
      assert ChainFrom(old(buckets[b]), chains[b], 0);
      forall i | 0 <= i < |chains[b]| ensures chains[b][i].next == old(chains[b][i].next) {
        InChain(chains, nodes, b, i);
      }
    }
  }

  /** A new node in front of its chain. */
  method NewNode<K, V>(buckets: array<Node?<K, V>>, key: nat, str: K, value: V,
                       ghost chains: seq<seq<Node<K, V>>>, ghost nodes: set<Node<K, V>>)
    returns (n: Node<K, V>)
    requires Table(buckets, chains, nodes)
    modifies buckets
    ensures fresh(n) && n !in nodes && n.key == key && n.str == str && n.value == value
    ensures Table(buckets, Front(chains, n), nodes + {n})
  {
    n := new Node(key, str, value);
    Link(buckets, n, chains, nodes);
  }

  /** The table after the nodes of a chain, from position j on, have been put in front of theirs. */
  ghost function Moved<K, V>(chains: seq<seq<Node<K, V>>>, c: seq<Node<K, V>>, j: nat): (r: seq<seq<Node<K, V>>>)
    requires |chains| > 0 && j <= |c|
    ensures |r| == |chains|
  {
    if j == 0 then chains else Front(Moved(chains, c, j - 1), c[j - 1])
  }

  /** Move the node at position j of a chain into another table; `next` is the rest of the chain. */
  method MoveNode<K, V>(n: Node<K, V>, ghost c: seq<Node<K, V>>, ghost j: nat, buckets: array<Node?<K, V>>,
                     ghost chains: seq<seq<Node<K, V>>>, ghost nodes: set<Node<K, V>>)
    returns (next: Node?<K, V>)
    requires j < |c| && ChainFrom(n, c, j) && Distinct(c)
    requires Table(buckets, chains, nodes) && n !in nodes
    modifies buckets, n`next
    ensures ChainFrom(next, c, j + 1)
    ensures Table(buckets, Front(chains, n), nodes + {n})
  {
    next := n.next;
    assert next == if j + 1 < |c| then c[j + 1] else null;
    Link(buckets, n, chains, nodes);
    forall k | j + 1 <= k < |c| ensures c[k].next == old(c[k].next) {
      assert c[k] != c[j];
    }
  }

  /** The inner loop of hm_rehash: move one chain, node by node, into another table. */
  method MoveChain<K, V>(head: Node?<K, V>, ghost c: seq<Node<K, V>>, buckets: array<Node?<K, V>>,
                      ghost chains: seq<seq<Node<K, V>>>, ghost nodes: set<Node<K, V>>)
    requires ChainFrom(head, c, 0) && Distinct(c) && Members(c) !! nodes
    requires Table(buckets, chains, nodes)
    modifies buckets, Members(c)`next
    ensures Table(buckets, Moved(chains, c, |c|), nodes + Members(c))
  {
    var bucket := head;
    ghost var j := 0;
    ghost var moved := nodes;
    ghost var into := chains;
    while bucket != null
      invariant ChainFrom(bucket, c, j)
      invariant moved == nodes + Members(c[..j])
      invariant into == Moved(chains, c, j)
      invariant Table(buckets, into, moved)
      decreases |c| - j
    {
      NotYet(c, nodes, j);
      ghost var n := bucket;
      bucket := MoveNode(bucket, c, j, buckets, into, moved);
      into, moved, j := Front(into, n), moved + {n}, j + 1;
    }
    assert c[..|c|] == c;
  }

  lemma NotYet<K, V>(c: seq<Node<K, V>>, nodes: set<Node<K, V>>, j: nat)
    requires Distinct(c) && Members(c) !! nodes && j < |c|
    ensures c[j] !in nodes + Members(c[..j])
    ensures Members(c[..j + 1]) == Members(c[..j]) + {c[j]}
    ensures c[j] in Members(c)
  {
    assert c[..j + 1] == c[..j] + [c[j]];
  }

  /** One node a key, each with its key's hash; `index` finds the node of a key. */
  ghost predicate Keyed<K, V>(nodes: set<Node<K, V>>, index: map<K, Node<K, V>>, hash: K -> nat) {
    && (forall n <- nodes :: n.key == hash(n.str) && n.str in index && index[n.str] == n)
    && (forall k <- index :: index[k] in nodes && index[k].str == k)
  }

  /** The indexed nodes hold the values of the map. */
  ghost predicate Holds<K, V>(index: map<K, Node<K, V>>, nodes: set<Node<K, V>>, entries: map<K, V>)
    reads nodes`value
  {
    && entries.Keys == index.Keys
    && forall k <- index :: index[k] in nodes && entries[k] == index[k].value
  }

  /** What a table is made of: its chains, their nodes, the node of each key, and the map it stands for. */
  datatype Shape<K, V> = Shape(
    chains: seq<seq<Node<K, V>>>, nodes: set<Node<K, V>>, index: map<K, Node<K, V>>, entries: map<K, V>)

  /** A node for a new key joins the table. */
  ghost function Extended<K, V>(s: Shape<K, V>, n: Node<K, V>, value: V): Shape<K, V>
    requires |s.chains| > 0
  {
    Shape(Front(s.chains, n), s.nodes + {n}, s.index[n.str := n], s.entries[n.str := value])
  }

  lemma KeyedExtended<K, V>(s: Shape<K, V>, n: Node<K, V>, value: V, hash: K -> nat)
    requires |s.chains| > 0 && Keyed(s.nodes, s.index, hash)
    requires n.str !in s.index && n.key == hash(n.str)
    ensures var t := Extended(s, n, value); Keyed(t.nodes, t.index, hash)
    ensures n !in s.nodes
  {
  }

  lemma HoldsExtended<K, V>(s: Shape<K, V>, n: Node<K, V>)
    requires |s.chains| > 0 && Holds(s.index, s.nodes, s.entries) && n.str !in s.index
    ensures var t := Extended(s, n, n.value); Holds(t.index, t.nodes, t.entries) && |t.entries| == |s.entries| + 1
  {
  }

  class HashMap<K(==), V> {
    const hash: K -> nat
    var capacity: nat
    var size: nat
    var buckets: array<Node?<K, V>>
    ghost var shape: Shape<K, V>

    /** The map that the table stands for. */
    ghost function View(): map<K, V>
      reads this
    {
      shape.entries
    }

    /** The buckets, the nodes and their values are as the shape says. */
    ghost predicate Shaped(s: Shape<K, V>)
      reads this, buckets, s.nodes
    {
      && Table(buckets, s.chains, s.nodes)
      && Keyed(s.nodes, s.index, hash)
      && Holds(s.index, s.nodes, s.entries)
    }

    /** The table without its bound on the length of chains. */
    ghost predicate Loose()
      reads this, buckets, shape.nodes
    {
      capacity == buckets.Length && size == |shape.entries| && Shaped(shape)
    }

    ghost predicate Valid()
      reads this, buckets, shape.nodes
    {
      Loose() && size <= 2 * capacity
    }

    constructor (hash: K -> nat)
      ensures Valid() && View() == map[] && capacity == 8
      ensures fresh(buckets) && shape.nodes == {}
    {
      this.hash := hash;
      size, capacity := 0, 8;
      buckets := new Node?<K, V>[8](_ => null);
      shape := Shape(seq(8, _ => []), {}, map[], map[]);
    }

    /** hm_get */
    method Get(str: K) returns (n: Node?<K, V>)
      requires Valid()
      ensures n == null <==> str !in View()
      ensures n != null ==> str in shape.index && shape.index[str] == n && n.value == View()[str]
    {
      var h := hash(str);
      BucketIsRemainder(h, capacity);
      ghost var b := Bucket(h, capacity);
      ghost var c := shape.chains[b];
      n := buckets[h % capacity];
      ghost var i := 0;
      while n != null
        invariant ChainFrom(n, c, i)
        invariant forall j | 0 <= j < i :: c[j].str != str
        decreases |c| - i
      {
        InChain(shape.chains, shape.nodes, b, i);
        if n.key == h && n.str == str { return; }
        assert n.key == hash(n.str);
        assert c[i].str != str;
        Follow(n, c, i);
        n := n.next;
        i := i + 1;
      }
    }

    /** hm_put: the previous value of the key, if any. */
    method Put(str: K, value: V) returns (previous: Option<V>)
      requires Valid()
      modifies this, buckets, shape.nodes
      ensures Valid() && View() == old(View())[str := value]
      ensures previous == if str in old(View()) then Some(old(View())[str]) else None
      ensures fresh(shape.nodes - old(shape.nodes)) && (buckets == old(buckets) || fresh(buckets))
      ensures size == |View()| && capacity ==
              if str !in old(View()) && size > 2 * old(capacity) then 4 * size / 3 else old(capacity)
    {
      var n := Get(str);
      if n != null {
        previous := Some(n.value);
        Replace(n, value);
      } else {
        previous := None;
        Insert(str, value);
        if size > 2 * capacity { Rehash(); }
      }
    }

    method Replace(n: Node<K, V>, value: V)
      requires Valid() && n in shape.nodes
      modifies this`shape, n`value
      ensures Valid() && shape == old(shape).(entries := old(shape.entries)[n.str := value])
    {
      n.value := value;
      assert |shape.entries[n.str := value]| == |shape.entries|;
      shape := shape.(entries := shape.entries[n.str := value]);
    }

    method Insert(str: K, value: V)
      requires Valid() && str !in View()
      modifies this, buckets
      ensures Loose() && View() == old(View())[str := value] && buckets == old(buckets)
      ensures fresh(shape.nodes - old(shape.nodes)) && old(shape.nodes) <= shape.nodes
      ensures capacity == old(capacity) && size == old(size) + 1
    {
      var m := NewNode(buckets, hash(str), str, value, shape.chains, shape.nodes);
      KeyedExtended(shape, m, value, hash);
      HoldsExtended(shape, m);
      Adopt(buckets, size + 1, Extended(shape, m, value));
    }

    /** hm_rehash: move every node, without copying it, into a strictly larger array of buckets. */
    method Rehash()
      requires Loose() && size > 2 * capacity
      modifies this, shape.nodes`next
      ensures Valid() && View() == old(View()) && shape.nodes == old(shape.nodes)
      ensures fresh(buckets) && capacity == 4 * old(size) / 3 > old(capacity) && size == old(size)
    {
      var newBuckets := new Node?<K, V>[4 * size / 3](_ => null);
      ghost var cs := MoveAll(buckets, shape.chains, shape.nodes, newBuckets);
      Adopt(newBuckets, size, shape.(chains := cs));
    }

    /** Take over a table. */
    method Adopt(newBuckets: array<Node?<K, V>>, newSize: nat, ghost s: Shape<K, V>)
      requires Table(newBuckets, s.chains, s.nodes)
      requires Keyed(s.nodes, s.index, hash) && Holds(s.index, s.nodes, s.entries) && newSize == |s.entries|
      modifies this
      ensures Loose() && shape == s && buckets == newBuckets && size == newSize && capacity == newBuckets.Length
    {
      hide Placed, Keyed, Table;
      shape := s;
      buckets := newBuckets;
      size := newSize;
      capacity := newBuckets.Length;
      assert Holds(s.index, s.nodes, s.entries);
    }
  }

  /** The outer loop of hm_rehash: move every chain into an empty table. */
  method MoveAll<K, V>(buckets: array<Node?<K, V>>, ghost chains: seq<seq<Node<K, V>>>, ghost nodes: set<Node<K, V>>,
                    newBuckets: array<Node?<K, V>>)
    returns (ghost newChains: seq<seq<Node<K, V>>>)
    requires Table(buckets, chains, nodes) && newBuckets != buckets
    requires newBuckets.Length > 0 && forall b | 0 <= b < newBuckets.Length :: newBuckets[b] == null
    modifies newBuckets, nodes`next
    ensures Table(newBuckets, newChains, nodes)
  {
    newChains := seq(newBuckets.Length, _ => []);
    ghost var done: set<Node<K, V>> := {};
    var i := 0;
    while i < buckets.Length
      invariant 0 <= i <= buckets.Length
      invariant Table(newBuckets, newChains, done)
      invariant forall b | i <= b < |chains| :: ChainFrom(buckets[b], chains[b], 0)
      invariant done == Below(chains, nodes, i)
    {
      NextChain(chains, nodes, i);
      MoveChain(buckets[i], chains[i], newBuckets, newChains, done);
      newChains := Moved(newChains, chains[i], |chains[i]|);
      done := done + Members(chains[i]);
      i := i + 1;
    }
    assert done == nodes;
  }

  /** The nodes of the chains before the i-th. */
  ghost function Below<K, V>(chains: seq<seq<Node<K, V>>>, nodes: set<Node<K, V>>, i: nat): set<Node<K, V>>
    requires |chains| > 0
  {
    set n | n in nodes && Bucket(n.key, |chains|) < i
  }

  lemma NextChain<K, V>(chains: seq<seq<Node<K, V>>>, nodes: set<Node<K, V>>, i: nat)
    requires Placed(chains, nodes) && i < |chains|
    ensures Members(chains[i]) !! Below(chains, nodes, i) && Members(chains[i]) <= nodes
    ensures Below(chains, nodes, i + 1) == Below(chains, nodes, i) + Members(chains[i])
    ensures forall b | i < b < |chains| :: Members(chains[b]) !! Members(chains[i])
  {
    forall b | 0 <= b < |chains|
      ensures forall n :: n in Members(chains[b]) <==> n in nodes && Bucket(n.key, |chains|) == b {
      ChainMembers(chains, nodes, b);
    }
  }

  lemma Follow<K, V>(n: Node<K, V>, c: seq<Node<K, V>>, j: nat)
    requires ChainFrom(n, c, j)
    ensures j < |c| && n == c[j] && ChainFrom(n.next, c, j + 1)
  {
    assert c[j].next == n.next;
  }

  lemma InChain<K, V>(chains: seq<seq<Node<K, V>>>, nodes: set<Node<K, V>>, b: nat, i: nat)
    requires Placed(chains, nodes) && b < |chains| && i < |chains[b]|
    ensures chains[b][i] in nodes
  {
  }

  lemma ChainMembers<K, V>(chains: seq<seq<Node<K, V>>>, nodes: set<Node<K, V>>, i: nat)
    requires Placed(chains, nodes) && i < |chains|
    ensures forall n :: n in Members(chains[i]) <==> n in nodes && Bucket(n.key, |chains|) == i
  {
  }

  // ---- runs --------------------------------------------------------------------------------

  /** The map after a run of puts, in order. */
  function Puts<K, V>(m: map<K, V>, ps: seq<(K, V)>): map<K, V>
    decreases |ps|
  {
    if ps == [] then m else Puts(m[ps[0].0 := ps[0].1], ps[1..])
  }

  /** Over any run of puts the table stands for the mathematical map, and its chains stay short. */
  method PutAll<K(==), V>(t: HashMap<K, V>, ps: seq<(K, V)>)
    requires t.Valid()
    modifies t, t.buckets, t.shape.nodes
    ensures t.Valid() && t.View() == Puts(old(t.View()), ps)
  {
    var i := 0;
    while i < |ps|
      invariant 0 <= i <= |ps|
      invariant t.Valid() && Puts(t.View(), ps[i..]) == Puts(old(t.View()), ps)
      invariant fresh(t.shape.nodes - old(t.shape.nodes)) && (t.buckets == old(t.buckets) || fresh(t.buckets))
    {
      var _ := t.Put(ps[i].0, ps[i].1);
      i := i + 1;
    }
  }
}
