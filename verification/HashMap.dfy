/**
 The string hash map: an array of buckets, each the head of a chain of nodes.

 `chains` lists the nodes that hang off each bucket and `M` is the finite map that
 the structure stands for; `Valid` ties both to the pointers.
 */
module HashMap {
  import opened Octets

  const HASH_SPACE := 0x1_0000_0000   // hashes are 32-bit unsigned

  type Key = Bytes                    // the characters of a C string

  /** Bitwise AND and XOR of unsigned numbers, bit by bit. */
  function And(a: nat, b: nat): (r: nat)
    ensures r <= b
  {
    if b == 0 then 0 else 2 * And(a / 2, b / 2) + (a % 2) * (b % 2)
  }

  function Xor(a: nat, b: nat): nat
    decreases a + b
  {
    if a == 0 && b == 0 then 0 else 2 * Xor(a / 2, b / 2) + (a + b) % 2
  }

  /** The hash of `key`, started from `hash`. */
  function HashFrom(hash: nat, key: Key): nat
    decreases |key|
  {
    if key == [] then hash else HashFrom(Xor(hash * 33 % HASH_SPACE, key[0]), key[1..])
  }

  function Hash(key: Key): nat {
    HashFrom(5381, key)
  }

  method MapHash(key: Key) returns (hash: nat)
    ensures hash == Hash(key)
  {
    hash := 5381;
    var i := 0;
    while i < |key|
      invariant 0 <= i <= |key| && HashFrom(hash, key[i..]) == Hash(key)
    {
      assert key[i..][1..] == key[i + 1..];
      hash := Xor(hash * 33 % HASH_SPACE, key[i]);
      i := i + 1;
    }
  }

  lemma {:induction false} HashFromGrows(hash: nat, key: Key, c: octet)
    ensures HashFrom(hash, key + [c]) == Xor(HashFrom(hash, key) * 33 % 0x1_0000_0000, c)
    decreases |key|
  {
    hide Xor;
    if key == [] {
      assert ([] + [c])[1..] == [];
    } else {
      assert (key + [c])[1..] == key[1..] + [c];
      HashFromGrows(Xor(hash * 33 % HASH_SPACE, key[0]), key[1..], c);
    }
  }

  /** A character more: the hash times 33, in 32 bits, with the bits of the character
      flipped in it. */
  lemma HashGrows(key: Key, c: octet)
    ensures Hash([]) == 5381 && Hash(key + [c]) == Xor(Hash(key) * 33 % 0x1_0000_0000, c)
  {
    HashFromGrows(5381, key, c);
  }

  /** Bit `k` of an exclusive or is set when the two bits differ. */
  lemma {:induction false} XorBit(a: nat, b: nat, k: nat)
    ensures BitOf(Xor(a, b), k) == (BitOf(a, k) + BitOf(b, k)) % 2
    decreases k
  {
    if k == 0 {
    } else {
      XorBit(a / 2, b / 2, k - 1);
      assert Xor(a, b) / 2 == Xor(a / 2, b / 2);
    }
  }

  function BitOf(n: nat, k: nat): nat {
    if k == 0 then n % 2 else BitOf(n / 2, k - 1)
  }

  predicate IsPow2(n: nat) {
    n == 1 || (n > 1 && n % 2 == 0 && IsPow2(n / 2))
  }

  function BucketIdx(hash: nat, nbuckets: nat): (r: nat)
    requires nbuckets > 0
    ensures r < nbuckets
  {
    And(hash, nbuckets - 1)
  }

  /** With a power of two the mask is a modulus, as the source's comment has it. */
  lemma {:induction false} MaskIsModulus(hash: nat, nbuckets: nat)
    requires IsPow2(nbuckets)
    ensures BucketIdx(hash, nbuckets) == hash % nbuckets
  {
    if nbuckets == 1 {
    } else {
      var m := nbuckets / 2;
      MaskIsModulus(hash / 2, m);
      assert (nbuckets - 1) / 2 == m - 1 && (nbuckets - 1) % 2 == 1;
      DoubleModulus(hash, m);
    }
  }

  lemma DoubleModulus(a: nat, m: nat)
    requires m > 0
    ensures a % (2 * m) == 2 * (a / 2 % m) + a % 2
  {
    hide And;
    var q := a / 2;
    var k, r := q / m, q % m;
    assert q == k * m + r;
    assert k * (2 * m) == 2 * (k * m);
    ModuloUnique(a, 2 * m, k, 2 * r + a % 2);
  }

  lemma ModuloUnique(a: nat, n: nat, k: nat, r: nat)
    requires n > 0 && r < n && a == k * n + r
    ensures a % n == r
  {
    hide And;
    var d := a / n - k;
    assert a == (a / n) * n + a % n;
    assert d * n == (a / n) * n - k * n;
    Multiples(n, d);
  }

  lemma Multiples(n: int, d: int)
    requires n > 0
    ensures d >= 1 ==> d * n >= n
    ensures d <= -1 ==> d * n <= -n
  {
  }

  class Node<V> {
    const key: Key
    const hash: nat
    var value: V
    var next: Node?<V>

    constructor (key: Key, value: V)
      ensures this.key == key && this.hash == Hash(key) && this.value == value && next == null
    {
      this.key, this.value, this.next := key, value, null;
      this.hash := Hash(key);
    }
  }

  /** The place that points to a node: a bucket, or the `next` of the node before it. */
  datatype Ref<V> = Nowhere | Bucket(index: nat) | Link(node: Node<V>)

  ghost predicate IsChain<V>(head: Node?<V>, s: seq<Node<V>>)
    reads s
  {
    && (if s == [] then head == null else head == s[0] && s[|s| - 1].next == null)
    && forall i {:trigger s[i].next} :: 0 <= i < |s| - 1 ==> s[i].next == s[i + 1]
  }

  ghost predicate DistinctKeys<V>(s: seq<Node<V>>) {
    forall i, j :: 0 <= i < j < |s| ==> s[i].key != s[j].key
  }

  ghost predicate Placed<V>(s: seq<Node<V>>, bucket: nat, nbuckets: nat)
    requires nbuckets > 0
  {
    forall i :: 0 <= i < |s| ==> s[i].hash == Hash(s[i].key) && BucketIdx(s[i].hash, nbuckets) == bucket
  }

  /** `m` has every node of the chain, with its value. */
  ghost predicate Agrees<V>(s: seq<Node<V>>, m: map<Key, V>)
    reads s
  {
    forall i :: 0 <= i < |s| ==> s[i].key in m && m[s[i].key] == s[i].value
  }

  ghost predicate HasKey<V>(s: seq<Node<V>>, k: Key) {
    exists i :: 0 <= i < |s| && s[i].key == k
  }

  /** Every node is in the chain its hash puts it in, and no key is there twice. */
  ghost predicate Layout<V>(chains: seq<seq<Node<V>>>) {
    forall b :: 0 <= b < |chains| ==> DistinctKeys(chains[b]) && Placed(chains[b], b, |chains|)
  }

  lemma ChainsAreDisjoint<V>(chains: seq<seq<Node<V>>>, b: nat, i: nat, c: nat)
    requires Layout(chains) && b < |chains| && c < |chains| && b != c && i < |chains[b]|
    ensures chains[b][i] !in chains[c]
    ensures forall j :: 0 <= j < |chains[c]| ==> chains[c][j].key != chains[b][i].key
  {
  }

  ghost predicate Covers<V>(chains: seq<seq<Node<V>>>, m: map<Key, V>) {
    forall k :: k in m ==> |chains| > 0 && HasKey(chains[BucketIdx(Hash(k), |chains|)], k)
  }

  function Without<T>(s: seq<T>, i: nat): seq<T>
    requires i < |s|
  {
    s[..i] + s[i + 1..]
  }

  lemma RemoveKeepsLayout<V>(chains: seq<seq<Node<V>>>, b: nat, i: nat, m: map<Key, V>)
    requires Layout(chains) && Covers(chains, m) && b < |chains| && i < |chains[b]|
    ensures Layout(chains[b := Without(chains[b], i)])
    ensures Covers(chains[b := Without(chains[b], i)], m - {chains[b][i].key})
  {
    hide Hash, BucketIdx;
    var chain, after := chains[b], chains[b := Without(chains[b], i)];
    forall k | k in m - {chain[i].key} ensures HasKey(after[BucketIdx(Hash(k), |chains|)], k) {
      if BucketIdx(Hash(k), |chains|) == b {
        var j :| 0 <= j < |chain| && chain[j].key == k;
        assert after[b][if j < i then j else j - 1].key == k;
      }
    }
  }

  /** A new value for a key that is there changes neither the keys nor their number. */
  lemma OverwriteCovers<V>(chains: seq<seq<Node<V>>>, b: nat, i: nat, m: map<Key, V>, value: V)
    requires Covers(chains, m) && b < |chains| && i < |chains[b]| && chains[b][i].key in m
    ensures Covers(chains, m[chains[b][i].key := value]) && |m[chains[b][i].key := value]| == |m|
  {
    hide Hash, BucketIdx, HasKey;
    assert m[chains[b][i].key := value].Keys == m.Keys;
  }

  lemma AgreesWithout<V>(s: seq<Node<V>>, i: nat, m: map<Key, V>)
    requires i < |s| && Agrees(s, m) && forall j :: 0 <= j < |s| && j != i ==> s[j].key != s[i].key
    ensures Agrees(Without(s, i), m - {s[i].key})
  {
  }

  lemma OneLess<V>(m: map<Key, V>, k: Key)
    requires k in m
    ensures |m - {k}| == |m| - 1
  {
    assert (m - {k}).Keys == m.Keys - {k};
  }

  lemma OwnKey<V>(chains: seq<seq<Node<V>>>, b: nat, i: nat)
    requires Layout(chains) && b < |chains| && i < |chains[b]|
    ensures forall j :: 0 <= j < |chains[b]| && j != i ==> chains[b][j].key != chains[b][i].key
  {
  }

  /** Each node of `all` was in one of `chains`, in a bucket from `i` on, and in bucket
      `i` itself among the first `j`; and the other way round. */
  ghost predicate Gathered<V>(all: seq<Node<V>>, chains: seq<seq<Node<V>>>, i: int, j: nat) {
    && (forall x :: 0 <= x < |all| ==> Passed(chains, all[x], i, j))
    && (forall b, k :: PassedAt(chains, b, k, i, j) ==> chains[b][k] in all)
  }

  predicate PassedAt<V>(chains: seq<seq<Node<V>>>, b: int, k: int, i: int, j: nat) {
    0 <= b < |chains| && 0 <= k < |chains[b]| && (b > i || (b == i && k < j))
  }

  ghost predicate Passed<V>(chains: seq<seq<Node<V>>>, node: Node<V>, i: int, j: nat) {
    exists b, k :: PassedAt(chains, b, k, i, j) && chains[b][k] == node
  }

  lemma GatherOne<V>(all: seq<Node<V>>, chains: seq<seq<Node<V>>>, i: nat, j: nat)
    requires Layout(chains) && i < |chains| && j < |chains[i]|
    requires Gathered(all, chains, i, j) && DistinctKeys(all)
    ensures Gathered([chains[i][j]] + all, chains, i, j + 1) && DistinctKeys([chains[i][j]] + all)
    ensures chains[i][j] !in all
  {
    hide Hash, BucketIdx;
    var more := [chains[i][j]] + all;
    forall x | 0 <= x < |more| ensures Passed(chains, more[x], i, j + 1) {
      if x == 0 {
        assert PassedAt(chains, i, j, i, j + 1);
      } else {
        assert Passed(chains, all[x - 1], i, j);
        var b, k :| PassedAt(chains, b, k, i, j) && chains[b][k] == all[x - 1];
        assert PassedAt(chains, b, k, i, j + 1);
      }
    }
    forall b, k | PassedAt(chains, b, k, i, j + 1) ensures chains[b][k] in more {
      if !(b == i && k == j) { assert PassedAt(chains, b, k, i, j); }
    }
    forall x | 0 <= x < |all| ensures all[x].key != chains[i][j].key {
      assert Passed(chains, all[x], i, j);
      var b, k :| PassedAt(chains, b, k, i, j) && chains[b][k] == all[x];
      if b != i { ChainsAreDisjoint(chains, i, j, b); }
    }
  }

  /** `cs` holds the nodes of `all` and no others. */
  ghost predicate Spread<V>(all: seq<Node<V>>, cs: seq<seq<Node<V>>>) {
    && (forall b, k :: 0 <= b < |cs| && 0 <= k < |cs[b]| ==> cs[b][k] in all)
    && (forall x :: 0 <= x < |all| ==> |cs| > 0 && all[x] in cs[BucketIdx(all[x].hash, |cs|)])
  }

  function PutFront<V>(cs: seq<seq<Node<V>>>, node: Node<V>): seq<seq<Node<V>>>
    requires |cs| > 0
  {
    var b := BucketIdx(node.hash, |cs|);
    cs[b := [node] + cs[b]]
  }

  lemma SpreadOne<V>(all: seq<Node<V>>, cs: seq<seq<Node<V>>>, x: nat)
    requires x < |all| && DistinctKeys(all) && all[x].hash == Hash(all[x].key) && |cs| > 0
    requires Layout(cs) && Spread(all[..x], cs)
    ensures Layout(PutFront(cs, all[x])) && Spread(all[..x + 1], PutFront(cs, all[x]))
    ensures forall b :: 0 <= b < |cs| ==> all[x] !in cs[b]
  {
    hide Hash, BucketIdx;
    var after := PutFront(cs, all[x]);
    forall b, k | 0 <= b < |cs| && 0 <= k < |cs[b]| ensures cs[b][k].key != all[x].key {
      var y :| 0 <= y < |all[..x]| && all[..x][y] == cs[b][k];
    }
    assert all[..x + 1] == all[..x] + [all[x]];
  }

  /** Gathering the nodes and spreading them again loses none. */
  lemma RespreadCovers<V>(chains: seq<seq<Node<V>>>, all: seq<Node<V>>, cs: seq<seq<Node<V>>>, m: map<Key, V>)
    requires Layout(chains) && Gathered(all, chains, -1, 0) && Spread(all, cs)
    requires Covers(chains, m)
    ensures Covers(cs, m)
  {
    hide Hash, BucketIdx;
    forall k | k in m ensures |cs| > 0 && HasKey(cs[BucketIdx(Hash(k), |cs|)], k) {
      var b := BucketIdx(Hash(k), |chains|);
      assert HasKey(chains[b], k);
      var i :| 0 <= i < |chains[b]| && chains[b][i].key == k;
      assert PassedAt(chains, b, i, -1, 0);
      assert chains[b][i] in all && chains[b][i].hash == Hash(k);
    }
  }

  class Map<V> {
    var buckets: array<Node?<V>>
    var nbuckets: nat
    var nnodes: nat
    ghost var chains: seq<seq<Node<V>>>
    ghost var M: map<Key, V>

    ghost function Nodes(): set<Node<V>>
      reads this
    {
      set b, i | 0 <= b < |chains| && 0 <= i < |chains[b]| :: chains[b][i]
    }

    ghost predicate Valid()
      reads this, buckets, Nodes()
    {
      && nbuckets == buckets.Length == |chains|
      && (nbuckets == 0 || IsPow2(nbuckets))
      && nnodes == |M| && nnodes <= nbuckets
      && Layout(chains) && Covers(chains, M)
      && forall b :: 0 <= b < nbuckets ==> IsChain(buckets[b], chains[b]) && Agrees(chains[b], M)
    }

    constructor ()
      ensures Valid() && M == map[] && fresh(buckets)
    {
      buckets := new Node?<V>[0];
      nbuckets, nnodes := 0, 0;
      chains, M := [], map[];
    }

    /** `ref` points to the node of `key`, the `i`th of its chain. */
    ghost predicate RefersTo(ref: Ref<V>, key: Key, i: nat)
      reads this
    {
      && nbuckets == |chains| > 0
      && var b := BucketIdx(Hash(key), nbuckets);
         i < |chains[b]| && chains[b][i].key == key && ref == if i == 0 then Bucket(b) else Link(chains[b][i - 1])
    }

    method GetRef(key: Key) returns (ref: Ref<V>, ghost i: nat)
      requires Valid()
      ensures ref.Nowhere? <==> key !in M
      ensures !ref.Nowhere? ==> RefersTo(ref, key, i)
    {
      hide Hash, BucketIdx, IsPow2;
      i := 0;
      var hash := MapHash(key);
      ref := Nowhere;
      if nbuckets > 0 {
        var b := BucketIdx(hash, nbuckets);
        ghost var chain := chains[b];
        var next := Bucket(b);
        var node := buckets[b];
        while node != null
          invariant 0 <= i <= |chain|
          invariant node == if i < |chain| then chain[i] else null
          invariant next == if i == 0 then Bucket(b) else Link(chain[i - 1])
          invariant forall j :: 0 <= j < i ==> chain[j].key != key
          decreases |chain| - i
        {
          assert chain[i].hash == Hash(chain[i].key);
          if node.hash == hash && node.key == key {
            ref := next;
            return;
          }
          next := Link(node);
          node := node.next;
          i := i + 1;
        }
      }
    }

    function Deref(ref: Ref<V>): Node?<V>
      requires ref.Bucket? ==> ref.index < buckets.Length
      reads this, buckets, if ref.Link? then {ref.node} else {}
    {
      match ref
      case Nowhere => null
      case Bucket(i) => buckets[i]
      case Link(n) => n.next
    }

    method Get(key: Key) returns (value: Option<V>)
      requires Valid()
      ensures value == if key in M then Some(M[key]) else None
    {
      var ref, i := GetRef(key);
      value := None;
      if !ref.Nowhere? {
        var node := Deref(ref);
        value := Some(node.value);
      }
    }

    /** `map_addnode`; the chain `rest`, which `node` is not in, stays as it is. */
    method AddNode(node: Node<V>, ghost cs: seq<seq<Node<V>>>, ghost next: Node?<V>, ghost rest: seq<Node<V>>)
      requires nbuckets == buckets.Length == |cs| > 0
      requires forall b :: 0 <= b < nbuckets ==> IsChain(buckets[b], cs[b]) && node !in cs[b]
      requires IsChain(next, rest) && node !in rest
      modifies buckets, node`next
      ensures forall b :: 0 <= b < nbuckets ==> IsChain(buckets[b], PutFront(cs, node)[b])
      ensures IsChain(next, rest)
    {
      hide Hash, BucketIdx;
      var n := BucketIdx(node.hash, nbuckets);
      node.next := buckets[n];
      buckets[n] := node;
    }

    /** Makes `ref` point past the node that it points to. */
    method Unlink(ref: Ref<V>, ghost b: nat, ghost i: nat)
      requires nbuckets == buckets.Length == |chains| && Layout(chains)
      requires forall c :: 0 <= c < nbuckets ==> IsChain(buckets[c], chains[c])
      requires b < nbuckets && i < |chains[b]|
      requires ref == if i == 0 then Bucket(b) else Link(chains[b][i - 1])
      modifies buckets, if ref.Link? then {ref.node} else {}
      ensures IsChain(buckets[b], Without(chains[b], i))
      ensures forall c :: 0 <= c < nbuckets && c != b ==> IsChain(buckets[c], chains[c])
      ensures forall c, j :: 0 <= c < nbuckets && 0 <= j < |chains[c]| ==> chains[c][j].value == old(chains[c][j].value)
    {
      hide Hash, BucketIdx;
      var node := Deref(ref);
      assert node == chains[b][i];
      if i > 0 {
        forall c | 0 <= c < nbuckets && c != b ensures chains[b][i - 1] !in chains[c] {
          ChainsAreDisjoint(chains, b, i - 1, c);
        }
      }
      match ref {
        case Bucket(n) => buckets[n] := node.next;
        case Link(prev) => prev.next := node.next;
      }
    }

    /** The pointers now realise the chains `cs` and the map `m`. */
    ghost method Adopt(cs: seq<seq<Node<V>>>, m: map<Key, V>)
      requires nbuckets == buckets.Length == |cs| && (nbuckets == 0 || IsPow2(nbuckets))
      requires nnodes == |m| && nnodes <= nbuckets
      requires Layout(cs) && Covers(cs, m)
      requires forall b :: 0 <= b < nbuckets ==> IsChain(buckets[b], cs[b]) && Agrees(cs[b], m)
      modifies this`chains, this`M
      ensures Valid() && chains == cs && M == m
    {
      hide IsPow2, Covers, Layout, Hash, BucketIdx;
      chains, M := cs, m;
    }

    /** `map_remove_`. */
    method Remove(key: Key)
      requires Valid()
      modifies this, buckets, Nodes()
      ensures Valid() && M == old(M) - {key}
      ensures buckets == old(buckets) && nbuckets == old(nbuckets)
    {
      hide Hash, BucketIdx, IsPow2, Covers, Layout, DistinctKeys;
      var ref, i := GetRef(key);
      if !ref.Nowhere? {
        ghost var b := BucketIdx(Hash(key), nbuckets);
        Unlink(ref, b, i);
        RemoveKeepsLayout(chains, b, i, M);
        OwnKey(chains, b, i);
        forall c | 0 <= c < nbuckets && c != b ensures Agrees(chains[c], M - {key}) {
          ChainsAreDisjoint(chains, b, i, c);
          assert old(Agrees(chains[c], M));
        }
        assert old(Agrees(chains[b], M));
        AgreesWithout(chains[b], i, M);
        OneLess(M, key);
        nnodes := nnodes - 1;
        Adopt(chains[b := Without(chains[b], i)], M - {key});
      }
    }

    /** The first half of `map_resize`: one chain of all the nodes. */
    method ChainAll() returns (nodes: Node?<V>, ghost all: seq<Node<V>>)
      requires nbuckets == buckets.Length == |chains| && Layout(chains)
      requires forall b :: 0 <= b < nbuckets ==> IsChain(buckets[b], chains[b])
      requires forall b :: 0 <= b < |chains| ==> Agrees(chains[b], M)
      modifies Nodes()`next
      ensures Agrees(all, M)
      ensures IsChain(nodes, all) && DistinctKeys(all) && Gathered(all, chains, -1, 0)
    {
      hide Hash, BucketIdx;
      nodes, all := null, [];
      var i := nbuckets;
      while i > 0
        invariant 0 <= i <= nbuckets
        invariant IsChain(nodes, all) && DistinctKeys(all) && Gathered(all, chains, i - 1, 0)
        invariant forall b :: 0 <= b < |chains| ==> Agrees(chains[b], M)
        invariant forall b :: 0 <= b < i ==> IsChain(buckets[b], chains[b])
      {
        i := i - 1;
        nodes, all := Prepend(nodes, all, i);
        BucketDone(all, chains, i, |chains[i]|);
      }
      forall x | 0 <= x < |all| ensures all[x].key in M && M[all[x].key] == all[x].value {
        assert Passed(chains, all[x], -1, 0);
      }
    }

    /** The inner loop: the nodes of bucket `i` move to the front of the chain. */
    method Prepend(from: Node?<V>, ghost before: seq<Node<V>>, i: nat) returns (nodes: Node?<V>, ghost all: seq<Node<V>>)
      requires nbuckets == buckets.Length == |chains| && Layout(chains) && i < nbuckets
      requires forall b :: 0 <= b <= i ==> IsChain(buckets[b], chains[b])
      requires IsChain(from, before) && DistinctKeys(before) && Gathered(before, chains, i, 0)
      requires forall b :: 0 <= b < |chains| ==> Agrees(chains[b], M)
      modifies Nodes()`next
      ensures forall b :: 0 <= b < |chains| ==> Agrees(chains[b], M)
      ensures IsChain(nodes, all) && DistinctKeys(all) && Gathered(all, chains, i, |chains[i]|)
      ensures forall b :: 0 <= b < i ==> IsChain(buckets[b], chains[b])
    {
      hide Hash, BucketIdx, Gathered, Layout;
      nodes, all := from, before;
      var node := buckets[i];
      ghost var j, chain := 0, chains[i];
      while node != null
        invariant 0 <= j <= |chain| && IsChain(node, chain[j..])
        invariant IsChain(nodes, all) && DistinctKeys(all) && Gathered(all, chains, i, j)
        invariant forall b :: 0 <= b < |chains| ==> Agrees(chains[b], M)
        invariant forall b :: 0 <= b < i ==> IsChain(buckets[b], chains[b])
        decreases |chain| - j
      {
        GatherOne(all, chains, i, j);
        forall b | 0 <= b < i ensures chain[j] !in chains[b] {
          ChainsAreDisjoint(chains, i, j, b);
        }
        DistinctTail(chains, i, j);
        var next := MoveFront(node, nodes, all, chain[j..]);
        assert chain[j..][1..] == chain[j + 1..];
        nodes, all := node, [chain[j]] + all;
        node := next;
        j := j + 1;
      }
    }

    static method MoveFront(node: Node<V>, onto: Node?<V>, ghost all: seq<Node<V>>, ghost s: seq<Node<V>>) returns (next: Node?<V>)
      requires s != [] && IsChain(node, s) && node !in s[1..]
      requires IsChain(onto, all) && node !in all
      modifies node`next
      ensures IsChain(node, [node] + all) && IsChain(next, s[1..])
    {
      next := node.next;
      node.next := onto;
    }

    /** The second half: every node goes to the front of its bucket. */
    method Distribute(nodes: Node?<V>, ghost all: seq<Node<V>>) returns (ghost cs: seq<seq<Node<V>>>)
      requires nbuckets == buckets.Length > 0 && forall b :: 0 <= b < nbuckets ==> buckets[b] == null
      requires IsChain(nodes, all) && DistinctKeys(all) && forall x :: 0 <= x < |all| ==> all[x].hash == Hash(all[x].key)
      requires Agrees(all, M)
      modifies buckets, (set n | n in all)`next
      ensures Layout(cs) && Spread(all, cs) && Agrees(all, M)
      ensures nbuckets == |cs| && forall b :: 0 <= b < nbuckets ==> IsChain(buckets[b], cs[b])
    {
      hide Hash, BucketIdx, Agrees;
      var node := nodes;
      ghost var x := 0;
      cs := seq(nbuckets, _ => []);
      while node != null
        invariant 0 <= x <= |all| && IsChain(node, all[x..]) && Agrees(all, M)
        invariant Layout(cs) && Spread(all[..x], cs)
        invariant nbuckets == |cs| && forall b :: 0 <= b < nbuckets ==> IsChain(buckets[b], cs[b])
        decreases |all| - x
      {
        node, cs := DistributeOne(node, all, cs, x);
        x := x + 1;
      }
      assert all[..x] == all;
    }

    method DistributeOne(node: Node<V>, ghost all: seq<Node<V>>, ghost cs: seq<seq<Node<V>>>, ghost x: nat)
      returns (next: Node?<V>, ghost after: seq<seq<Node<V>>>)
      requires x < |all| && DistinctKeys(all) && all[x].hash == Hash(all[x].key)
      requires IsChain(node, all[x..]) && Agrees(all, M)
      requires Layout(cs) && Spread(all[..x], cs)
      requires nbuckets == buckets.Length == |cs| > 0 && forall b :: 0 <= b < nbuckets ==> IsChain(buckets[b], cs[b])
      modifies buckets, node`next
      ensures IsChain(next, all[x + 1..]) && Agrees(all, M)
      ensures Layout(after) && Spread(all[..x + 1], after)
      ensures nbuckets == |after| && forall b :: 0 <= b < nbuckets ==> IsChain(buckets[b], after[b])
    {
      hide Hash, BucketIdx, Layout, Spread;
      next := node.next;
      SpreadOne(all, cs, x);
      assert all[x..][1..] == all[x + 1..];
      AddNode(node, cs, next, all[x + 1..]);
      after := PutFront(cs, node);
    }

    /** `realloc` and `memset`: on failure the old array is kept, but cleared too. */
    method ResetBuckets(n: nat, reallocOk: bool)
      requires nbuckets == buckets.Length
      modifies this`buckets, this`nbuckets, buckets
      ensures nbuckets == buckets.Length == if reallocOk then n else old(nbuckets)
      ensures forall b :: 0 <= b < nbuckets ==> buckets[b] == null
      ensures buckets == old(buckets) || fresh(buckets)
    {
      if reallocOk {
        buckets := new Node?<V>[n];
        nbuckets := n;
      }
      forall b | 0 <= b < nbuckets {
        buckets[b] := null;
      }
    }

    /** `map_resize`.  When `realloc` fails the nodes go back into the old array. */
    method Resize(n: nat, reallocOk: bool) returns (err: int)
      requires Valid() && IsPow2(n) && nnodes <= n
      modifies this, buckets, Nodes()
      ensures Valid() && M == old(M) && nnodes == old(nnodes)
      ensures err == if reallocOk then 0 else -1
      ensures nbuckets == if reallocOk then n else old(nbuckets)
      ensures buckets == old(buckets) || fresh(buckets)
    {
      hide Hash, BucketIdx, IsPow2, Covers;
      var nodes; ghost var all, cs := [], [];
      nodes, all := ChainAll();
      ResetBuckets(n, reallocOk);
      if nbuckets > 0 {
        cs := Distribute(nodes, all);
      }
      RespreadCovers(chains, all, cs, M);
      RespreadAgrees(all, cs, M);
      Adopt(cs, M);
      err := if reallocOk then 0 else -1;
    }

    /** `map_set_`.  A failed `malloc` or `realloc` leaves the map as it was. */
    method Set(key: Key, value: V, mallocOk: bool, reallocOk: bool) returns (err: int)
      requires Valid()
      modifies this, buckets, Nodes()
      ensures Valid()
      ensures err == if key in old(M) || (mallocOk && (old(nnodes) < old(nbuckets) || reallocOk)) then 0 else -1
      ensures M == if err == 0 then old(M)[key := value] else old(M)
      ensures nbuckets == old(nbuckets) ||
              (nbuckets == (if old(nbuckets) > 0 then 2 * old(nbuckets) else 1) && old(nnodes) == old(nbuckets))
    {
      hide Hash, BucketIdx, Covers, Layout;
      var ref, i := GetRef(key);
      if !ref.Nowhere? {
        var node := Deref(ref);
        Overwrite(node, value, i);
        return 0;
      }
      if !mallocOk {
        return -1;
      }
      var node := new Node(key, value);
      if nnodes >= nbuckets {
        var n := if nbuckets > 0 then 2 * nbuckets else 1;
        err := Resize(n, reallocOk);
        if err != 0 {
          return -1;
        }
      }
      AddNew(node);
      return 0;
    }

    method Overwrite(node: Node<V>, value: V, ghost i: nat)
      requires Valid() && nbuckets > 0
      requires var b := BucketIdx(Hash(node.key), nbuckets); i < |chains[b]| && chains[b][i] == node
      modifies node`value, this`M, this`chains
      ensures Valid() && M == old(M)[node.key := value]
    {
      hide Hash, BucketIdx, IsPow2, Covers, Layout;
      ghost var b := BucketIdx(Hash(node.key), nbuckets);
      OverwriteCovers(chains, b, i, M, value);
      node.value := value;
      ghost var m := M[node.key := value];
      forall c | 0 <= c < nbuckets ensures Agrees(chains[c], m) {
        assert old(Agrees(chains[c], M));
        if c == b { OwnKey(chains, b, i); } else { ChainsAreDisjoint(chains, b, i, c); }
      }
      forall c | 0 <= c < nbuckets ensures IsChain(buckets[c], chains[c]) {
        assert old(IsChain(buckets[c], chains[c]));
      }
      Adopt(chains, m);
    }

    method AddNew(node: Node<V>)
      requires Valid() && nnodes < nbuckets && node.key !in M
      requires node.hash == Hash(node.key) && node !in Nodes()
      modifies this, buckets, node`next
      ensures Valid() && M == old(M)[node.key := node.value] && node.value == old(node.value)
      ensures nbuckets == old(nbuckets) && buckets == old(buckets)
    {
      hide Hash, BucketIdx, IsPow2, Covers, Layout;
      AddNode(node, chains, null, []);
      nnodes := nnodes + 1;
      NewKeyKeepsLayout(chains, node, M);
      ghost var after, m := PutFront(chains, node), M[node.key := node.value];
      forall b | 0 <= b < nbuckets ensures Agrees(after[b], m) {
        assert old(Agrees(chains[b], M));
      }
      Adopt(after, m);
    }

    /** `map_deinit_`.  `freed` lists the nodes given to `free`, the latest first. */
    method Deinit() returns (ghost freed: seq<Node<V>>)
      requires Valid()
      ensures Gathered(freed, chains, -1, 0) && DistinctKeys(freed)
    {
      hide Hash, BucketIdx;
      freed := [];
      var i := nbuckets;
      while i > 0
        invariant 0 <= i <= nbuckets
        invariant Gathered(freed, chains, i - 1, 0) && DistinctKeys(freed)
      {
        i := i - 1;
        ghost var j, chain := 0, chains[i];
        var node := buckets[i];
        while node != null
          invariant 0 <= j <= |chain| && node == if j < |chain| then chain[j] else null
          invariant Gathered(freed, chains, i, j) && DistinctKeys(freed)
          decreases |chain| - j
        {
          GatherOne(freed, chains, i, j);
          assert node !in freed;
          var next := node.next;
          freed := [chain[j]] + freed;
          node := next;
          j := j + 1;
        }
        BucketDone(freed, chains, i, |chain|);
      }
    }

    /** Where an iterator stands after it has returned `p` keys. */
    ghost predicate Stands(it: Iter<V>, p: nat)
      reads this, it
    {
      if it.node == null then
        it.bucketidx >= -1 && p == |Flat(chains[..if it.bucketidx + 1 < |chains| then it.bucketidx + 1 else |chains|])|
      else
        && 0 <= it.bucketidx < |chains|
        && exists i :: 0 <= i < |chains[it.bucketidx]| && chains[it.bucketidx][i] == it.node && p == |Flat(chains[..it.bucketidx])| + i + 1
    }

    /** What the pointers of bucket `b` are. */
    lemma Pointers(b: nat)
      requires Valid() && b < |chains|
      ensures nbuckets == buckets.Length == |chains|
      ensures buckets[b] == if chains[b] == [] then null else chains[b][0]
    {
    }

    lemma NextPointer(b: nat, i: nat)
      requires Valid() && b < |chains| && i < |chains[b]|
      ensures nbuckets == |chains|
      ensures chains[b][i].next == if i + 1 < |chains[b]| then chains[b][i + 1] else null
    {
      assert IsChain(buckets[b], chains[b]);
    }

    /** `map_next_`. */
    method Next(it: Iter<V>, ghost p: nat) returns (key: Option<Key>)
      requires Valid() && Stands(it, p)
      modifies it
      ensures Valid()
      ensures p < |Flat(chains)| ==> key == Some(Flat(chains)[p].key) && Stands(it, p + 1)
      ensures p >= |Flat(chains)| ==> key == None && Stands(it, p)
    {
      hide Hash, BucketIdx, Layout, Covers, IsPow2, Agrees, IsChain, Flat;
      if it.node != null {
        ghost var b := it.bucketidx;
        ghost var i :| 0 <= i < |chains[b]| && chains[b][i] == it.node && p == |Flat(chains[..b])| + i + 1;
        NextPointer(b, i);
        FlatPrefix(chains, b);
        var next := it.node.next;
        it.node := next;
        if it.node != null {
          FlatAt(chains, b, i + 1);
          assert chains[b][i + 1] == it.node;
          return Some(it.node.key);
        }
      }
      key := NextBucket(it, p);
    }

    /** The `do`-loop of `map_next_`, which looks for the next bucket in use. */
    method NextBucket(it: Iter<V>, ghost p: nat) returns (key: Option<Key>)
      requires Valid() && Stands(it, p) && it.node == null
      modifies it
      ensures Valid()
      ensures p < |Flat(chains)| ==> key == Some(Flat(chains)[p].key) && Stands(it, p + 1)
      ensures p >= |Flat(chains)| ==> key == None && Stands(it, p)
    {
      hide Hash, BucketIdx, Layout, Covers, IsPow2, Agrees, IsChain, Flat;
      while true
        invariant Valid() && it.node == null && Stands(it, p)
        decreases nbuckets - it.bucketidx
      {
        it.bucketidx := it.bucketidx + 1;
        if it.bucketidx >= nbuckets {
          assert chains[..|chains|] == chains;
          return None;
        }
        FlatPrefix(chains, it.bucketidx);
        Pointers(it.bucketidx);
        it.node := buckets[it.bucketidx];
        if it.node != null {
          FlatAt(chains, it.bucketidx, 0);
          assert chains[it.bucketidx][0] == it.node;
          return Some(it.node.key);
        }
      }
    }

    method NewIter() returns (it: Iter<V>)
      requires Valid()
      ensures Valid() && fresh(it) && Stands(it, 0)
    {
      hide Hash, BucketIdx, Layout, Covers, IsPow2, Agrees, IsChain;
      it := new Iter();
    }

    /** The flat list of nodes has each key of the map once. */
    lemma FlatIsMap()
      requires Valid()
      ensures forall k :: k in M <==> HasKey(Flat(chains), k)
      ensures DistinctKeys(Flat(chains))
    {
      hide Layout, Covers, Agrees, IsChain, Flat, Hash, BucketIdx, IsPow2;
      FlatKeys(chains, M);
    }

    /** The loop `while ((key = map_next(&m, &iter)))` returns every key exactly once. */
    method Keys() returns (keys: seq<Key>)
      requires Valid()
      ensures forall k :: k in keys <==> k in M
      ensures forall i, j :: 0 <= i < j < |keys| ==> keys[i] != keys[j]
    {
      hide Valid, Flat, Stands;
      FlatIsMap();
      var it := NewIter();
      keys := [];
      var key := Next(it, 0);
      while key.Some?
        invariant Valid() && fresh(it)
        invariant |keys| <= |Flat(chains)| && forall i :: 0 <= i < |keys| ==> keys[i] == Flat(chains)[i].key
        invariant key == if |keys| < |Flat(chains)| then Some(Flat(chains)[|keys|].key) else None
        invariant Stands(it, if key.Some? then |keys| + 1 else |keys|)
        decreases |Flat(chains)| - |keys|
      {
        keys := keys + [key.value];
        key := Next(it, |keys|);
      }
    }
  }

  class Iter<V> {
    var bucketidx: int      // unsigned in the source, where it starts as UINT_MAX
    var node: Node?<V>

    constructor ()
      ensures bucketidx == -1 && node == null
    {
      bucketidx, node := -1, null;
    }
  }

  /** The nodes in the order of the buckets. */
  ghost function Flat<V>(chains: seq<seq<Node<V>>>): seq<Node<V>> {
    if chains == [] then [] else Flat(chains[..|chains| - 1]) + chains[|chains| - 1]
  }

  lemma {:induction false} FlatPrefix<V>(chains: seq<seq<Node<V>>>, b: nat)
    requires b < |chains|
    ensures Flat(chains[..b + 1]) == Flat(chains[..b]) + chains[b]
    ensures Flat(chains[..b + 1]) <= Flat(chains)
    decreases |chains|
  {
    assert chains[..b + 1][..b] == chains[..b];
    if b + 1 < |chains| {
      var init := chains[..|chains| - 1];
      FlatPrefix(init, b);
      assert init[..b + 1] == chains[..b + 1];
    } else {
      assert chains[..b + 1] == chains;
    }
  }

  lemma FlatAt<V>(chains: seq<seq<Node<V>>>, b: nat, i: nat)
    requires b < |chains| && i < |chains[b]|
    ensures |Flat(chains[..b])| + i < |Flat(chains)|
    ensures Flat(chains)[|Flat(chains[..b])| + i] == chains[b][i]
  {
    FlatPrefix(chains, b);
  }

  /** Where the `x`th node of the flat list comes from. */
  lemma {:induction false} FlatFrom<V>(chains: seq<seq<Node<V>>>, x: nat) returns (b: nat, i: nat)
    requires x < |Flat(chains)|
    ensures b < |chains| && i < |chains[b]| && chains[b][i] == Flat(chains)[x] && x == |Flat(chains[..b])| + i
    decreases |chains|
  {
    var init := chains[..|chains| - 1];
    if x < |Flat(init)| {
      b, i := FlatFrom(init, x);
      assert init[..b] == chains[..b];
    } else {
      b, i := |chains| - 1, x - |Flat(init)|;
    }
  }

  lemma FlatKeys<V>(chains: seq<seq<Node<V>>>, m: map<Key, V>)
    requires Layout(chains) && Covers(chains, m)
    requires forall b :: 0 <= b < |chains| ==> Agrees(chains[b], m)
    ensures forall k :: k in m <==> HasKey(Flat(chains), k)
    ensures DistinctKeys(Flat(chains))
  {
    hide Hash, BucketIdx, Flat;
    var flat := Flat(chains);
    forall k | HasKey(flat, k) ensures k in m {
      var x :| 0 <= x < |flat| && flat[x].key == k;
      var b, i := FlatFrom(chains, x);
    }
    forall k | k in m ensures HasKey(flat, k) {
      var b := BucketIdx(Hash(k), |chains|);
      assert HasKey(chains[b], k);
      var i :| 0 <= i < |chains[b]| && chains[b][i].key == k;
      FlatAt(chains, b, i);
    }
    forall x, y | 0 <= x < y < |flat| ensures flat[x].key != flat[y].key {
      var b, i := FlatFrom(chains, x);
      var c, j := FlatFrom(chains, y);
      if b != c { ChainsAreDisjoint(chains, b, i, c); }
    }
  }

  lemma NewKeyKeepsLayout<V>(chains: seq<seq<Node<V>>>, node: Node<V>, m: map<Key, V>)
    requires Layout(chains) && Covers(chains, m) && |chains| > 0
    requires node.hash == Hash(node.key) && node.key !in m
    requires forall b, i :: 0 <= b < |chains| && 0 <= i < |chains[b]| ==> chains[b][i].key in m
    ensures Layout(PutFront(chains, node)) && Covers(PutFront(chains, node), m[node.key := node.value])
  {
    hide Hash, BucketIdx;
    var after := PutFront(chains, node);
    var c := BucketIdx(node.hash, |chains|);
    assert after[c][0] == node;
    forall k | k in m ensures HasKey(after[BucketIdx(Hash(k), |chains|)], k) {
      var b := BucketIdx(Hash(k), |chains|);
      assert HasKey(chains[b], k);
      var i :| 0 <= i < |chains[b]| && chains[b][i].key == k;
      assert after[b][if b == c then i + 1 else i].key == k;
    }
  }

  lemma RespreadAgrees<V>(all: seq<Node<V>>, cs: seq<seq<Node<V>>>, m: map<Key, V>)
    requires Spread(all, cs) && Agrees(all, m)
    ensures forall b :: 0 <= b < |cs| ==> Agrees(cs[b], m)
  {
    forall b, i | 0 <= b < |cs| && 0 <= i < |cs[b]| ensures cs[b][i].key in m && m[cs[b][i].key] == cs[b][i].value {
      assert cs[b][i] in all;
    }
  }

  lemma DistinctTail<V>(chains: seq<seq<Node<V>>>, i: nat, j: nat)
    requires Layout(chains) && i < |chains| && j < |chains[i]|
    ensures chains[i][j] !in chains[i][j..][1..]
  {
  }

  lemma BucketDone<V>(all: seq<Node<V>>, chains: seq<seq<Node<V>>>, i: int, n: nat)
    requires 0 <= i < |chains| && n == |chains[i]| && Gathered(all, chains, i, n)
    ensures Gathered(all, chains, i - 1, 0)
  {
    forall x | 0 <= x < |all| ensures Passed(chains, all[x], i - 1, 0) {
      assert Passed(chains, all[x], i, n);
      var b, k :| PassedAt(chains, b, k, i, n) && chains[b][k] == all[x];
      assert PassedAt(chains, b, k, i - 1, 0);
    }
    forall b, k | PassedAt(chains, b, k, i - 1, 0) ensures chains[b][k] in all {
      assert PassedAt(chains, b, k, i, n);
    }
  }


}
