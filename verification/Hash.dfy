/** The bucket-chain hash table: an array of doubly linked chains, relinked in place. */
module Hash {
  class Node<K, V> {
    const key: K
    var value: V
    var prev: Node?<K, V>
    var next: Node?<K, V>

    constructor (key: K, value: V)
      ensures this.key == key && this.value == value && prev == null && next == null
    {
      this.key, this.value := key, value;
      prev, next := null, null;
    }
  }

  function NonNull<K, V>(node: Node?<K, V>): set<Node<K, V>> {
    if node == null then {} else {node}
  }

  /** The node at place `i` of a chain; null off either end. */
  function Place<K, V>(c: seq<Node<K, V>>, i: int): Node?<K, V> {
    if 0 <= i < |c| then c[i] else null
  }

  /** Which node is on which chain: by the hash of its key, each of `keys` exactly once. */
  ghost predicate Placed<K(!new), V>(buckets: nat, hash: (nat, K) -> nat, chains: seq<seq<Node<K, V>>>, keys: set<K>)
  {
    && (forall b, i | 0 <= b < |chains| && 0 <= i < |chains[b]| ::
          hash(buckets, chains[b][i].key) == b && chains[b][i].key in keys)
    && (forall b, i, j | 0 <= b < |chains| && 0 <= i < j < |chains[b]| :: chains[b][i].key != chains[b][j].key)
    && (forall k {:trigger OnBucket(buckets, hash, chains, k)} | k in keys :: OnBucket(buckets, hash, chains, k))
  }

  ghost predicate OnBucket<K(!new), V>(buckets: nat, hash: (nat, K) -> nat, chains: seq<seq<Node<K, V>>>, key: K)
  {
    hash(buckets, key) < |chains| && OnChain(chains[hash(buckets, key)], key)
  }

  /** A key names one node. */
  lemma OneNodePerKey<K(!new), V>(buckets: nat, hash: (nat, K) -> nat, chains: seq<seq<Node<K, V>>>, keys: set<K>,
                                  b: nat, i: nat, b': nat, i': nat)
    requires Placed(buckets, hash, chains, keys)
    requires b < |chains| && i < |chains[b]| && b' < |chains| && i' < |chains[b']|
    ensures chains[b][i].key == chains[b'][i'].key ==> b == b' && i == i'
  {
  }

  ghost predicate OnChain<K, V>(c: seq<Node<K, V>>, key: K) {
    exists i :: 0 <= i < |c| && c[i].key == key
  }

  class Table<K(!new, ==), V> {
    const buckets: nat
    const hashFunc: (nat, K) -> nat
    const nodes: array<Node?<K, V>>

    ghost var Chains: seq<seq<Node<K, V>>>
    ghost var Repr: set<object>
    ghost var M: map<K, V>

    ghost predicate Valid()
      reads this, Repr
      ensures Valid() ==> this in Repr
    {
      Stands(Chains, Repr, M)
    }

    /** Every chain is well linked, holds only keys that hash to its bucket and no key twice; so no
        node is on two chains or twice on one. Together the chains hold exactly the map `m`. */
    ghost predicate Stands(chains: seq<seq<Node<K, V>>>, repr: set<object>, m: map<K, V>)
      reads this, repr
    {
      && this in repr && nodes in repr
      && nodes.Length == buckets == |chains|
      && (forall k :: hashFunc(buckets, k) < buckets)
      && (forall b, i | 0 <= b < |chains| && 0 <= i < |chains[b]| :: chains[b][i] in repr)
      && Placed(buckets, hashFunc, chains, m.Keys)
      && (forall b | 0 <= b < |chains| :: nodes[b] == Place(chains[b], 0))
      && (forall b, i {:trigger chains[b][i].next} | 0 <= b < |chains| && 0 <= i < |chains[b]| ::
            chains[b][i].next == Place(chains[b], i + 1))
      && (forall b, i {:trigger chains[b][i].prev} | 0 <= b < |chains| && 0 <= i < |chains[b]| ::
            chains[b][i].prev == Place(chains[b], i - 1))
      && (forall b, i {:trigger chains[b][i].value} | 0 <= b < |chains| && 0 <= i < |chains[b]| ::
            chains[b][i].value == m[chains[b][i].key])
    }

    constructor (buckets: nat, hashFunc: (nat, K) -> nat)
      requires forall k :: hashFunc(buckets, k) < buckets
      ensures Valid() && fresh(Repr) && M == map[]
      ensures this.hashFunc == hashFunc && this.buckets == buckets
    {
      this.buckets := buckets;
      this.hashFunc := hashFunc;
      nodes := new Node?<K, V>[buckets](_ => null);
      Chains := seq(buckets, _ => []);
      M := map[];
      new;
      Repr := {this, nodes};
    }

    function Bucket(key: K): nat {
      hashFunc(buckets, key)
    }

    /** Where on its chain the node found sits. */
    ghost predicate At(node: Node<K, V>, i: nat)
      requires Valid()
      reads this, Repr
    {
      i < |Chains[Bucket(node.key)]| && Chains[Bucket(node.key)][i] == node
    }

    ghost predicate OnItsChain(node: Node<K, V>)
      requires Valid()
      reads this, Repr
    {
      exists i: nat :: At(node, i)
    }

    method GetNodeByKey(key: K) returns (node: Node?<K, V>, ghost i: nat)
      requires Valid()
      ensures node == null <==> key !in M
      ensures node != null ==> node in Repr && node.key == key && At(node, i) && node.value == M[key]
    {
      ghost var c := Chains[Bucket(key)];
      assert key in M ==> OnBucket(buckets, hashFunc, Chains, key);
      node, i := nodes[Bucket(key)], 0;
      while node != null && node.key != key
        invariant i <= |c|
        invariant node == Place(c, i)
        invariant forall j | 0 <= j < i :: c[j].key != key
        decreases |c| - i
      {
        assert c[i].next == Place(c, i + 1);
        node, i := node.next, i + 1;
      }
    }

    /** The pointer `hash_lookup_entry` returns is to the value in the table, so it is the node
        that is handed out here. */
    method LookupEntry(key: K) returns (cell: Node?<K, V>)
      requires Valid()
      ensures cell == null <==> key !in M
      ensures cell != null ==> cell in Repr && cell.key == key && cell.value == M[key]
      ensures cell != null ==> OnItsChain(cell)
    {
      ghost var i;
      cell, i := GetNodeByKey(key);
    }

    /** Storing through a pointer got from LookupEntry updates the map. */
    method Store(cell: Node<K, V>, value: V)
      requires Valid() && OnItsChain(cell)
      modifies cell`value, this`Chains, this`Repr, this`M
      ensures Valid() && Repr == old(Repr)
      ensures M == old(M)[cell.key := value]
    {
      ghost var b := Bucket(cell.key);
      ghost var i: nat :| At(cell, i);
      forall b', i' | 0 <= b' < |Chains| && 0 <= i' < |Chains[b']|
        ensures Chains[b'][i'] == cell <==> Chains[b'][i'].key == cell.key
      {
        OneNodePerKey(buckets, hashFunc, Chains, M.Keys, b, i, b', i');
      }
      cell.value := value;
      assert M[cell.key := value].Keys == M.Keys;
      Adopt(Chains, Repr, M[cell.key := value]);
    }

    method AddEntry(key: K, value: V)
      requires Valid() && key !in M
      modifies Repr
      ensures Valid() && fresh(Repr - old(Repr))
      ensures M == old(M)[key := value]
    {
      var found := LookupEntry(key);
      if found != null {
        assert false;   // bug("duplicate hash key")
      }
      var node := new Node(key, value);
      PushFront(Bucket(key), node);
    }

    method PushFront(b: nat, node: Node<K, V>)
      requires Valid() && node.key !in M && node !in Repr
      requires b == Bucket(node.key) && node.prev == null && node.next == null
      modifies Repr, node
      ensures Valid() && Repr == old(Repr) + {node}
      ensures M == old(M)[node.key := old(node.value)]
    {
      ghost var was, m := Chains, M;
      PlacedFront(buckets, hashFunc, was, m.Keys, b, node);
      LinkFront(b, node);
      FrontThreaded(was, b, node, m);
      Adopt(was[b := [node] + was[b]], Repr + {node}, m[node.key := node.value]);
    }

    /** Records new chains for what the pointers already show. */
    ghost method Adopt(chains: seq<seq<Node<K, V>>>, repr: set<object>, m: map<K, V>)
      requires Stands(chains, repr, m)
      modifies this`Chains, this`Repr, this`M
      ensures Valid() && Chains == chains && Repr == repr && M == m
    {
      Chains, Repr, M := chains, repr, m;
    }

    /** The pointer surgery alone: the chains recorded in `Chains` do not have the node yet. */
    method LinkFront(b: nat, node: Node<K, V>)
      requires Valid() && node !in Repr
      requires b < buckets && node.prev == null && node.next == null
      modifies nodes, NonNull(nodes[b])`prev, node`next
      ensures node.prev == null && node.next == Place(Chains[b], 0)
      ensures forall c, i {:trigger Chains[c][i].value} | 0 <= c < |Chains| && 0 <= i < |Chains[c]| ::
                Chains[c][i].value == M[Chains[c][i].key]
      ensures forall c | 0 <= c < buckets :: nodes[c] == if c == b then node else Place(Chains[c], 0)
      ensures forall c, i {:trigger Chains[c][i].next} | 0 <= c < |Chains| && 0 <= i < |Chains[c]| ::
                Chains[c][i].next == Place(Chains[c], i + 1)
      ensures forall c, i {:trigger Chains[c][i].prev} | 0 <= c < |Chains| && 0 <= i < |Chains[c]| ::
                Chains[c][i].prev == if c == b && i == 0 then node else Place(Chains[c], i - 1)
    {
      OnlyAt(buckets, hashFunc, Chains, M.Keys, b, 0);
      if nodes[b] == null {
        nodes[b] := node;
      } else {
        node.next := nodes[b];
        nodes[b].prev := node;
        nodes[b] := node;
      }
    }

    method FreeEntry(key: K)
      requires Valid() && key in M
      modifies Repr
      ensures Valid() && Repr == old(Repr)
      ensures M == old(M) - {key}
    {
      var node, i := GetNodeByKey(key);
      if node == null {
        assert false;   // bug("hash node not found")
      }
      ghost var b := Bucket(key);
      ghost var was, m := Chains, M;
      PlacedWithout(buckets, hashFunc, was, m.Keys, b, i);
      Unlink(node, i);
      WithoutThreaded(was, b, i, m);
      assert (m - {key}).Keys == m.Keys - {key};
      Adopt(Without(was, b, i), Repr, m - {key});
    }

    /** The pointer surgery alone: `Chains` still lists the node. */
    method Unlink(node: Node<K, V>, ghost i: nat)
      requires Valid() && At(node, i)
      modifies nodes, NonNull(node.prev)`next, NonNull(node.next)`prev
      ensures forall c | 0 <= c < buckets ::
                nodes[c] == if c == Bucket(node.key) && i == 0 then Place(Chains[c], 1) else Place(Chains[c], 0)
      ensures forall c, j {:trigger Chains[c][j].value} | 0 <= c < |Chains| && 0 <= j < |Chains[c]| ::
                Chains[c][j].value == M[Chains[c][j].key]
      ensures forall c, j {:trigger Chains[c][j].next} | 0 <= c < |Chains| && 0 <= j < |Chains[c]| ::
                Chains[c][j].next == Place(Chains[c], if c == Bucket(node.key) && j + 1 == i then j + 2 else j + 1)
      ensures forall c, j {:trigger Chains[c][j].prev} | 0 <= c < |Chains| && 0 <= j < |Chains[c]| ::
                Chains[c][j].prev == Place(Chains[c], if c == Bucket(node.key) && j == i + 1 then j - 2 else j - 1)
    {
      ghost var b := Bucket(node.key);
      OnlyAt(buckets, hashFunc, Chains, M.Keys, b, i);
      OnlyAt(buckets, hashFunc, Chains, M.Keys, b, i + 1);
      if i > 0 { OnlyAt(buckets, hashFunc, Chains, M.Keys, b, i - 1); }
      assert Chains[b][i].next == Place(Chains[b], i + 1) && Chains[b][i].prev == Place(Chains[b], i - 1);
      if node.prev != null {
        node.prev.next := node.next;
      } else {
        nodes[Bucket(node.key)] := node.next;
      }
      if node.next != null {
        node.next.prev := node.prev;
      }
    }
  }

  /** The chains less node `i` of chain `b`. */
  function Without<K, V>(chains: seq<seq<Node<K, V>>>, b: nat, i: nat): seq<seq<Node<K, V>>>
    requires b < |chains| && i < |chains[b]|
  {
    chains[b := chains[b][..i] + chains[b][i + 1..]]
  }

  lemma PlacedWithout<K(!new), V>(buckets: nat, hash: (nat, K) -> nat, chains: seq<seq<Node<K, V>>>, keys: set<K>,
                                  b: nat, i: nat)
    requires Placed(buckets, hash, chains, keys) && b < |chains| && i < |chains[b]|
    ensures Placed(buckets, hash, Without(chains, b, i), keys - {chains[b][i].key})
  {
    var key := chains[b][i].key;
    var now: seq<seq<Node<K, V>>> := Without(chains, b, i);
    forall k | k in keys - {key}
      ensures OnBucket(buckets, hash, now, k)
    {
      assert OnBucket(buckets, hash, chains, k);
      var h := hash(buckets, k);
      var j :| 0 <= j < |chains[h]| && chains[h][j].key == k;
      if h == b {
        assert now[h][if j < i then j else j - 1].key == k;
      } else {
        assert now[h][j].key == k;
      }
    }
    forall c, j | 0 <= c < |now| && 0 <= j < |now[c]|
      ensures hash(buckets, now[c][j].key) == c && now[c][j].key in keys - {key}
    {
      var j' := if c == b && j >= i then j + 1 else j;
      assert now[c][j] == chains[c][j'];
      OneNodePerKey(buckets, hash, chains, keys, b, i, c, j');
    }
  }

  lemma WithoutThreaded<K, V>(was: seq<seq<Node<K, V>>>, b: nat, i: nat, m: map<K, V>)
    requires b < |was| && i < |was[b]|
    requires forall c, j {:trigger was[c][j].next} | 0 <= c < |was| && 0 <= j < |was[c]| ::
               was[c][j].next == Place(was[c], if c == b && j + 1 == i then j + 2 else j + 1)
    requires forall c, j {:trigger was[c][j].prev} | 0 <= c < |was| && 0 <= j < |was[c]| ::
               was[c][j].prev == Place(was[c], if c == b && j == i + 1 then j - 2 else j - 1)
    requires forall c, j {:trigger was[c][j].value} | 0 <= c < |was| && 0 <= j < |was[c]| ::
               was[c][j].key in m && was[c][j].value == m[was[c][j].key]
    requires forall c, j | 0 <= c < |was| && 0 <= j < |was[c]| && (c != b || j != i) :: was[c][j].key != was[b][i].key
    ensures var now := Without(was, b, i);
            && (forall c, j {:trigger now[c][j].next} | 0 <= c < |now| && 0 <= j < |now[c]| ::
                  now[c][j].next == Place(now[c], j + 1))
            && (forall c, j {:trigger now[c][j].prev} | 0 <= c < |now| && 0 <= j < |now[c]| ::
                  now[c][j].prev == Place(now[c], j - 1))
            && (forall c, j {:trigger now[c][j].value} | 0 <= c < |now| && 0 <= j < |now[c]| ::
                  now[c][j].key in m - {was[b][i].key} && now[c][j].value == (m - {was[b][i].key})[now[c][j].key])
  {
    var now: seq<seq<Node<K, V>>> := Without(was, b, i);
    forall c, j | 0 <= c < |now| && 0 <= j < |now[c]|
      ensures now[c][j].next == Place(now[c], j + 1)
      ensures now[c][j].prev == Place(now[c], j - 1)
      ensures now[c][j].key in m - {was[b][i].key} && now[c][j].value == (m - {was[b][i].key})[now[c][j].key]
    {
      var j' := if c == b && j >= i then j + 1 else j;
      assert now[c][j] == was[c][j'];
      var v := was[c][j'].value;
    }
  }

  /** A node on a chain is at one place only. */
  lemma OnlyAt<K(!new), V>(buckets: nat, hash: (nat, K) -> nat, chains: seq<seq<Node<K, V>>>, keys: set<K>,
                           b: nat, i: nat)
    requires Placed(buckets, hash, chains, keys) && b < |chains|
    ensures i < |chains[b]| ==>
              forall c, j | 0 <= c < |chains| && 0 <= j < |chains[c]| ::
                chains[c][j] == chains[b][i] <==> c == b && j == i
  {
  }

  /** With a new node at the front of chain `b`, linked to the old first node and it to the new, the
      chains are threaded again. */
  lemma FrontThreaded<K, V>(was: seq<seq<Node<K, V>>>, b: nat, node: Node<K, V>, m: map<K, V>)
    requires b < |was| && node.key !in m && node.prev == null && node.next == Place(was[b], 0)
    requires forall b', i {:trigger was[b'][i].next} | 0 <= b' < |was| && 0 <= i < |was[b']| ::
               was[b'][i].next == Place(was[b'], i + 1)
    requires forall b', i {:trigger was[b'][i].prev} | 0 <= b' < |was| && 0 <= i < |was[b']| ::
               was[b'][i].prev == if b' == b && i == 0 then node else Place(was[b'], i - 1)
    requires forall b', i {:trigger was[b'][i].value} | 0 <= b' < |was| && 0 <= i < |was[b']| ::
               was[b'][i].key in m && was[b'][i].value == m[was[b'][i].key]
    ensures var now: seq<seq<Node<K, V>>> := was[b := [node] + was[b]];
            && (forall b', i {:trigger now[b'][i].next} | 0 <= b' < |now| && 0 <= i < |now[b']| ::
                  now[b'][i].next == Place(now[b'], i + 1))
            && (forall b', i {:trigger now[b'][i].prev} | 0 <= b' < |now| && 0 <= i < |now[b']| ::
                  now[b'][i].prev == Place(now[b'], i - 1))
            && (forall b', i {:trigger now[b'][i].value} | 0 <= b' < |now| && 0 <= i < |now[b']| ::
                  now[b'][i].key in m[node.key := node.value]
                  && now[b'][i].value == m[node.key := node.value][now[b'][i].key])
  {
    var now: seq<seq<Node<K, V>>> := was[b := [node] + was[b]];
    var m' := m[node.key := node.value];
    forall b', i | 0 <= b' < |now| && 0 <= i < |now[b']|
      ensures now[b'][i].next == Place(now[b'], i + 1)
      ensures now[b'][i].prev == Place(now[b'], i - 1)
      ensures now[b'][i].key in m' && now[b'][i].value == m'[now[b'][i].key]
    {
      if b' != b {
        assert now[b'][i] == was[b'][i];
        var v := was[b'][i].value;
      } else if i > 0 {
        assert now[b][i] == was[b][i - 1];
        var v := was[b][i - 1].value;
      }
    }
  }

  lemma PlacedFront<K(!new), V>(buckets: nat, hash: (nat, K) -> nat, chains: seq<seq<Node<K, V>>>, keys: set<K>,
                                b: nat, node: Node<K, V>)
    requires Placed(buckets, hash, chains, keys)
    requires b == hash(buckets, node.key) < |chains| && node.key !in keys
    ensures Placed(buckets, hash, chains[b := [node] + chains[b]], keys + {node.key})
  {
    var chains': seq<seq<Node<K, V>>> := chains[b := [node] + chains[b]];
    forall k | k in keys + {node.key}
      ensures OnBucket(buckets, hash, chains', k)
    {
      assert k in keys ==> OnBucket(buckets, hash, chains, k);
      var h := hash(buckets, k);
      if k == node.key {
        assert chains'[b][0].key == k;
      } else if h == b {
        var i :| 0 <= i < |chains[h]| && chains[h][i].key == k;
        assert chains'[h][i + 1].key == k;
      } else {
        assert chains'[h] == chains[h];
      }
    }
  }
}
