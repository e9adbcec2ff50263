/** The chained hash table of hiredis, which behaves like a map. */
module RedisDict {
  const INITIAL_SIZE: nat := 4
  const LONG_MAX: nat := 0x7fff_ffff_ffff_ffff

  /** dictEntry. */
  class Entry<K, V> {
    const key: K
    var val: V
    var next: Entry?<K, V>

    constructor (key: K, val: V, next: Entry?<K, V>)
      ensures this.key == key && this.val == val && this.next == next
    {
      this.key, this.val, this.next := key, val, next;
    }
  }

  type Chain<!K, !V> = seq<Entry<K, V>>

  // ---- The shape of the table ----

  ghost predicate DistinctKeys<K, V>(chain: Chain<K, V>) {
    forall i, j :: 0 <= i < j < |chain| ==> chain[i].key != chain[j].key
  }

  /** The bucket of a key; the mask of a power of two is a remainder. */
  function Bucket<K>(hash: K -> nat, key: K, size: nat): (b: nat)
    requires size > 0
    ensures b < size
  { hash(key) % size }

  /** All keys of a chain belong into bucket `b` of `size`. */
  ghost predicate InBucket<K, V>(chain: Chain<K, V>, hash: K -> nat, size: nat, b: nat)
    requires size > 0
  {
    forall i :: 0 <= i < |chain| ==> Bucket(hash, chain[i].key, size) == b
  }

  ghost predicate Placed<K, V>(chains: seq<Chain<K, V>>, hash: K -> nat) {
    forall b :: 0 <= b < |chains| ==> DistinctKeys(chains[b]) && InBucket(chains[b], hash, |chains|, b)
  }

  ghost predicate HasKey<K, V>(chain: Chain<K, V>, key: K) { exists i :: 0 <= i < |chain| && chain[i].key == key }

  ghost function Total<K, V>(chains: seq<Chain<K, V>>): nat {
    if chains == [] then 0 else |chains[0]| + Total(chains[1..])
  }

  ghost function Nodes<K, V>(chains: seq<Chain<K, V>>): set<Entry<K, V>> {
    set b: nat, i: nat | b < |chains| && i < |chains[b]| :: chains[b][i]
  }

  /** The entry with this number, null behind the last one. */
  ghost function EntryAt<K, V>(chain: Chain<K, V>, i: nat): Entry?<K, V> { if i < |chain| then chain[i] else null }

  lemma {:induction false} EntryAtEnd<K, V>(chain: Chain<K, V>, i: nat)
    ensures EntryAt(chain, i) == null <==> i >= |chain|
    ensures i < |chain| ==> EntryAt(chain, i) == chain[i]
  {
  }

  /** The entries of the chain hang together from `head` on. */
  ghost predicate Linked<K, V>(head: Entry?<K, V>, chain: Chain<K, V>)
    reads chain
  {
    head == EntryAt(chain, 0) && forall i :: 0 <= i < |chain| ==> chain[i].next == EntryAt(chain, i + 1)
  }

  lemma {:induction false} LinkedAt<K, V>(head: Entry?<K, V>, chain: Chain<K, V>, i: nat)
    requires Linked(head, chain) && i <= |chain|
    ensures head == EntryAt(chain, 0) && (EntryAt(chain, i) == null <==> i == |chain|)
    ensures i < |chain| ==> EntryAt(chain, i) == chain[i] && chain[i].next == EntryAt(chain, i + 1)
  {
  }

  ghost predicate AllLinked<K, V>(heads: seq<Entry?<K, V>>, chains: seq<Chain<K, V>>)
    reads Nodes(chains)
  {
    |heads| == |chains| && forall b :: 0 <= b < |chains| ==> Linked(heads[b], chains[b])
  }

  /** The map is what the chains hold. */
  ghost predicate Represents<K, V>(m: map<K, V>, chains: seq<Chain<K, V>>)
    reads Nodes(chains)`val
  {
    (forall e :: e in Nodes(chains) ==> e.key in m && e.val == m[e.key]) &&
    (forall key :: key in m ==> exists e :: e in Nodes(chains) && e.key == key)
  }

  ghost predicate PowerOfTwo(n: nat) { n == 1 || (n > 0 && n % 2 == 0 && PowerOfTwo(n / 2)) }

  lemma {:induction false} FourBelowEight(n: nat)
    requires PowerOfTwo(n) && 4 <= n < 8
    ensures n == 4
  {
  }

  /** _dictNextPower. */
  method NextPower(size: nat) returns (power: nat)
    ensures if size >= LONG_MAX then power == LONG_MAX
            else power >= size && power >= INITIAL_SIZE && PowerOfTwo(power) &&
                 (power == INITIAL_SIZE || power < 2 * size)
  {
    power := INITIAL_SIZE;
    assert PowerOfTwo(4) by { assert PowerOfTwo(2); }
    if size >= LONG_MAX { return LONG_MAX; }
    while power < size
      invariant PowerOfTwo(power) && power >= INITIAL_SIZE && (power == INITIAL_SIZE || power < 2 * size)
      decreases 2 * size - power
    {
      assert 2 * power / 2 == power;
      power := power * 2;
    }
  }

  /** A key is in the map exactly when it is in its bucket, and entries of the bucket hold what the map says. */
  lemma {:induction false} BucketTells<K, V>(m: map<K, V>, chains: seq<Chain<K, V>>, hash: K -> nat, key: K)
    requires |chains| > 0 && Placed(chains, hash) && Represents(m, chains)
    ensures var chain := chains[Bucket(hash, key, |chains|)];
            (key in m <==> HasKey(chain, key)) &&
            (forall e: Entry<K, V> :: e in chain ==> e in Nodes(chains) && e.key in m && m[e.key] == e.val)
  {
    hide Bucket;
    if key in m {
      var e :| e in Nodes(chains) && e.key == key;
      var b: nat, i: nat :| b < |chains| && i < |chains[b]| && e == chains[b][i];
      assert InBucket(chains[b], hash, |chains|, b);
    }
  }

  // ---- Rehashing ----

  /** An entry at the head of its bucket. */
  ghost function Push<K, V>(cs: seq<Chain<K, V>>, e: Entry<K, V>, hash: K -> nat): (r: seq<Chain<K, V>>)
    requires |cs| > 0
    ensures |r| == |cs|
  {
    var b := Bucket(hash, e.key, |cs|);
    cs[b := [e] + cs[b]]
  }

  ghost function PushAll<K, V>(cs: seq<Chain<K, V>>, chain: Chain<K, V>, hash: K -> nat): (r: seq<Chain<K, V>>)
    requires |cs| > 0
    ensures |r| == |cs|
    decreases |chain|
  {
    if chain == [] then cs else PushAll(Push(cs, chain[0], hash), chain[1..], hash)
  }

  ghost function Rehash<K, V>(cs: seq<Chain<K, V>>, chains: seq<Chain<K, V>>, i: nat, hash: K -> nat): (r: seq<Chain<K, V>>)
    requires |cs| > 0 && i <= |chains|
    ensures |r| == |cs|
    decreases |chains| - i
  {
    if i == |chains| then cs else Rehash(PushAll(cs, chains[i], hash), chains, i + 1, hash)
  }

  ghost predicate KeyFree<K, V>(cs: seq<Chain<K, V>>, key: K) {
    forall b, i :: 0 <= b < |cs| && 0 <= i < |cs[b]| ==> cs[b][i].key != key
  }

  ghost predicate Linkable<K, V>(cs: seq<Chain<K, V>>, chain: Chain<K, V>) {
    DistinctKeys(chain) && forall j :: 0 <= j < |chain| ==> KeyFree(cs, chain[j].key)
  }

  lemma {:induction false} PushFrees<K, V>(cs: seq<Chain<K, V>>, e: Entry<K, V>, hash: K -> nat, key: K)
    requires |cs| > 0
    ensures KeyFree(Push(cs, e, hash), key) <==> KeyFree(cs, key) && e.key != key
  {
    hide Bucket;
    var b := Bucket(hash, e.key, |cs|);
    var cs' := Push(cs, e, hash);
    assert cs'[b][0] == e;
    forall c, i | 0 <= c < |cs| && 0 <= i < |cs[c]| ensures cs[c][i] == cs'[c][if c == b then i + 1 else i] {
    }
    if KeyFree(cs', key) {
      forall c, i | 0 <= c < |cs| && 0 <= i < |cs[c]| ensures cs[c][i].key != key {
        assert cs'[c][if c == b then i + 1 else i].key != key;
      }
    }
  }

  /** Relinks one entry into the new table. */
  method PushEntry<K, V>(e: Entry<K, V>, n: array<Entry?<K, V>>, hash: K -> nat, ghost cs: seq<Chain<K, V>>)
    requires n.Length > 0 && AllLinked(n[..], cs) && KeyFree(cs, e.key)
    modifies e`next, n
    ensures AllLinked(n[..], Push(cs, e, hash))
    ensures forall x :: x in Nodes(cs) ==> x.val == old(x.val)
  {
    hide Bucket;
    var h := Bucket(hash, e.key, n.Length);
    ghost var heads := n[..];
    assert forall b :: 0 <= b < |cs| ==> Linked(heads[b], cs[b]);
    e.next := n[h];
    n[h] := e;
    ghost var cs' := Push(cs, e, hash);
    forall b | 0 <= b < |cs'| ensures Linked(n[..][b], cs'[b]) {
      assert forall i :: 0 <= i < |cs[b]| ==> cs[b][i].key != e.key;
      assert forall i :: 0 <= i < |cs[b]| ==> cs[b][i].next == old(cs[b][i].next);
      assert Linked(heads[b], cs[b]);
      if b == h { LinkedCons(e, cs[h]); }
    }
  }

  lemma {:induction false} LinkedCons<K, V>(e: Entry<K, V>, chain: Chain<K, V>)
    requires Linked(e.next, chain)
    ensures Linked(e, [e] + chain)
  {
    var chain' := [e] + chain;
    forall i | 0 <= i < |chain'| ensures chain'[i].next == EntryAt(chain', i + 1) {
      if i > 0 { assert chain'[i] == chain[i - 1]; }
    }
  }

  lemma {:induction false} TotalAt<K, V>(cs: seq<Chain<K, V>>, b: nat, chain: Chain<K, V>)
    requires b < |cs|
    ensures Total(cs[b := chain]) == Total(cs) - |cs[b]| + |chain|
  {
    if b > 0 {
      TotalAt(cs[1..], b - 1, chain);
      assert cs[b := chain][1..] == cs[1..][b - 1 := chain];
    } else {
      assert cs[b := chain][1..] == cs[1..];
    }
  }

  lemma {:induction false} PushKeeps<K, V>(cs: seq<Chain<K, V>>, e: Entry<K, V>, hash: K -> nat)
    requires |cs| > 0 && Placed(cs, hash) && KeyFree(cs, e.key)
    ensures Placed(Push(cs, e, hash), hash)
    ensures Nodes(Push(cs, e, hash)) == Nodes(cs) + {e} && e !in Nodes(cs)
    ensures Total(Push(cs, e, hash)) == Total(cs) + 1
  {
    hide Bucket, Total;
    var h := Bucket(hash, e.key, |cs|);
    var cs' := Push(cs, e, hash);
    TotalAt(cs, h, [e] + cs[h]);
    forall b | 0 <= b < |cs| ensures DistinctKeys(cs'[b]) && InBucket(cs'[b], hash, |cs|, b) {
      assert DistinctKeys(cs[b]) && InBucket(cs[b], hash, |cs|, b);
    }
    PushNodes(cs, e, hash);
  }

  lemma {:induction false} PushNodes<K, V>(cs: seq<Chain<K, V>>, e: Entry<K, V>, hash: K -> nat)
    requires |cs| > 0
    ensures Nodes(Push(cs, e, hash)) == Nodes(cs) + {e}
  {
    hide Bucket;
    var h := Bucket(hash, e.key, |cs|);
    var cs' := Push(cs, e, hash);
    forall x | x in Nodes(cs) ensures x in Nodes(cs') {
      var b: nat, i: nat :| b < |cs| && i < |cs[b]| && x == cs[b][i];
      assert x == cs'[b][if b == h then i + 1 else i];
    }
    assert cs'[h][0] == e;
    forall x | x in Nodes(cs') ensures x in Nodes(cs) || x == e {
      var b: nat, i: nat :| b < |cs'| && i < |cs'[b]| && x == cs'[b][i];
      if x != e { assert x == cs[b][if b == h then i - 1 else i]; }
    }
  }

  /** When the first entry of a chain is pushed, the others can still be pushed. */
  lemma {:induction false} LinkableRest<K, V>(cs: seq<Chain<K, V>>, chain: Chain<K, V>, hash: K -> nat)
    requires |cs| > 0 && chain != [] && Linkable(cs, chain)
    ensures Linkable(Push(cs, chain[0], hash), chain[1..])
  {
    hide Push, KeyFree;
    forall j | 0 <= j < |chain[1..]| ensures KeyFree(Push(cs, chain[0], hash), chain[1..][j].key) {
      assert chain[1..][j] == chain[j + 1] && chain[0].key != chain[j + 1].key;
      PushFrees(cs, chain[0], hash, chain[j + 1].key);
    }
  }

  ghost function ChainNodes<K, V>(chain: Chain<K, V>): set<Entry<K, V>> { set i: nat | i < |chain| :: chain[i] }

  lemma {:induction false} PushAllKeeps<K, V>(cs: seq<Chain<K, V>>, chain: Chain<K, V>, hash: K -> nat)
    requires |cs| > 0 && Placed(cs, hash) && Linkable(cs, chain)
    ensures var cs' := PushAll(cs, chain, hash);
            Placed(cs', hash) && Nodes(cs') == Nodes(cs) + ChainNodes(chain) && Total(cs') == Total(cs) + |chain|
    ensures forall key :: KeyFree(PushAll(cs, chain, hash), key) <==> KeyFree(cs, key) && !HasKey(chain, key)
    decreases |chain|
  {
    hide Placed, Nodes, Total, KeyFree, Push;
    if chain != [] {
      var e := chain[0];
      PushKeeps(cs, e, hash);
      forall key ensures KeyFree(Push(cs, e, hash), key) <==> KeyFree(cs, key) && e.key != key {
        PushFrees(cs, e, hash, key);
      }
      LinkableRest(cs, chain, hash);
      PushAllKeeps(Push(cs, e, hash), chain[1..], hash);
      FirstOfChain(chain);
    }
  }

  lemma {:induction false} FirstOfChain<K, V>(chain: Chain<K, V>)
    requires chain != []
    ensures ChainNodes(chain) == {chain[0]} + ChainNodes(chain[1..])
    ensures forall key :: HasKey(chain, key) <==> chain[0].key == key || HasKey(chain[1..], key)
  {
    assert forall i :: 0 <= i < |chain[1..]| ==> chain[1..][i] == chain[i + 1];
    forall x | x in ChainNodes(chain) ensures x == chain[0] || x in ChainNodes(chain[1..]) {
      var i: nat :| i < |chain| && chain[i] == x;
      if i > 0 { assert chain[1..][i - 1] == x; }
    }
    forall key | HasKey(chain, key) ensures chain[0].key == key || HasKey(chain[1..], key) {
      var i :| 0 <= i < |chain| && chain[i].key == key;
      if i > 0 { assert chain[1..][i - 1].key == key; }
    }
    forall key | HasKey(chain[1..], key) ensures HasKey(chain, key) {
      var i :| 0 <= i < |chain[1..]| && chain[1..][i].key == key;
      assert chain[i + 1].key == key;
    }
  }

  /** Setting a value relinks nothing. */
  method SetVal<K, V>(entry: Entry<K, V>, val: V, ghost heads: seq<Entry?<K, V>>, ghost chains: seq<Chain<K, V>>)
    requires AllLinked(heads, chains)
    modifies entry`val
    ensures AllLinked(heads, chains) && entry.val == val
    ensures forall e :: e in Nodes(chains) && e != entry ==> e.val == old(e.val)
  {
    assert forall b :: 0 <= b < |chains| ==> Linked(heads[b], chains[b]);
    entry.val := val;
    forall b | 0 <= b < |chains| ensures Linked(heads[b], chains[b]) {
      assert old(Linked(heads[b], chains[b]));
    }
  }

  // ---- Removing ----

  ghost function Without<K, V>(chain: Chain<K, V>, i: nat): Chain<K, V>
    requires i < |chain|
  { chain[..i] + chain[i + 1..] }

  lemma {:induction false} WithoutFirst<K, V>(head: Entry?<K, V>, chain: Chain<K, V>)
    requires chain != [] && Linked(head, chain)
    ensures Linked(chain[0].next, Without(chain, 0))
  {
    var chain' := Without(chain, 0);
    forall k | 0 <= k < |chain'| ensures chain'[k].next == EntryAt(chain', k + 1) { assert chain'[k] == chain[k + 1]; }
  }

  /** Takes an entry out of its chain. */
  method Unlink<K, V>(table: array<Entry?<K, V>>, h: nat, prevde: Entry?<K, V>, de: Entry<K, V>,
                      ghost chains: seq<Chain<K, V>>, ghost hash: K -> nat, ghost i: nat)
    requires AllLinked(table[..], chains) && Placed(chains, hash) && h < |chains| && i < |chains[h]|
    requires de == chains[h][i] && prevde == if i == 0 then null else chains[h][i - 1]
    modifies table, (set e | e in chains[h])`next
    ensures AllLinked(table[..], chains[h := Without(chains[h], i)])
    ensures forall e :: e in Nodes(chains) ==> e.val == old(e.val)
  {
    hide Bucket;
    ghost var chain := chains[h];
    ghost var chain' := Without(chain, i);
    ghost var heads := table[..];
    assert forall b :: 0 <= b < |chains| ==> Linked(heads[b], chains[b]);
    assert DistinctKeys(chain);
    if prevde != null {
      prevde.next := de.next;
      forall k | 0 <= k < |chain'| ensures chain'[k].next == EntryAt(chain', k + 1) {
        if k >= i { assert chain'[k] == chain[k + 1]; } else { assert chain'[k] == chain[k]; }
      }
    } else {
      WithoutFirst(heads[h], chain);
      table[h] := de.next;
    }
    forall b | 0 <= b < |chains| ensures Linked(table[b], chains[h := chain'][b]) {
      if b != h { OtherBucket(chains, hash, h, b); }
    }
  }

  lemma {:induction false} RemoveKeeps<K, V>(chains: seq<Chain<K, V>>, hash: K -> nat, h: nat, i: nat)
    requires Placed(chains, hash) && h < |chains| && i < |chains[h]|
    ensures var cs := chains[h := Without(chains[h], i)];
            Placed(cs, hash) && Total(cs) == Total(chains) - 1 && Nodes(cs) == Nodes(chains) - {chains[h][i]}
  {
    hide Bucket, Total;
    var cs := chains[h := Without(chains[h], i)];
    var e := chains[h][i];
    TotalAt(chains, h, Without(chains[h], i));
    forall b | 0 <= b < |cs| ensures DistinctKeys(cs[b]) && InBucket(cs[b], hash, |cs|, b) {
      assert DistinctKeys(chains[b]) && InBucket(chains[b], hash, |chains|, b);
    }
    assert e in Nodes(chains);
    OnlyEntry(chains, hash, e);
    forall x | x in Nodes(chains) && x != e ensures x in Nodes(cs) {
      var b: nat, j: nat :| b < |chains| && j < |chains[b]| && x == chains[b][j];
      if b == h && j > i { assert cs[b][j - 1] == x; } else { assert cs[b][j] == x; }
    }
    forall x | x in Nodes(cs) ensures x in Nodes(chains) && x != e {
      var b: nat, j: nat :| b < |cs| && j < |cs[b]| && x == cs[b][j];
      RemovedAt(chains, hash, h, i, b, j);
    }
  }

  /** What is left in a bucket was there, and is another entry. */
  lemma {:induction false} RemovedAt<K, V>(chains: seq<Chain<K, V>>, hash: K -> nat, h: nat, i: nat, b: nat, j: nat)
    requires Placed(chains, hash) && h < |chains| && i < |chains[h]|
    requires b < |chains| && j < |chains[h := Without(chains[h], i)][b]|
    ensures var x := chains[h := Without(chains[h], i)][b][j]; x in Nodes(chains) && x != chains[h][i]
  {
    hide Bucket;
    if b == h {
      assert DistinctKeys(chains[h]);
      var k := if j >= i then j + 1 else j;
      assert Without(chains[h], i)[j] == chains[h][k];
      assert chains[h][k].key != chains[h][i].key;
    } else {
      OtherBucket(chains, hash, h, b);
      assert chains[b][j] !in chains[h];
    }
  }

  lemma {:induction false} InNodes<K, V>(chains: seq<Chain<K, V>>, b: nat, i: nat)
    requires b < |chains| && i < |chains[b]|
    ensures chains[b][i] in Nodes(chains)
  {
  }

  lemma {:induction false} RemoveRepresents<K, V>(m: map<K, V>, chains: seq<Chain<K, V>>, hash: K -> nat, e: Entry<K, V>,
                                                  cs: seq<Chain<K, V>>)
    requires Represents(m, chains) && Placed(chains, hash) && e in Nodes(chains) && Nodes(cs) == Nodes(chains) - {e}
    ensures e.key in m && Represents(m - {e.key}, cs) && |m - {e.key}| == |m| - 1
  {
    hide Nodes, Placed;
    OnlyEntry(chains, hash, e);
    var m' := m - {e.key};
    forall key | key in m' ensures exists x :: x in Nodes(cs) && x.key == key {
      var x :| x in Nodes(chains) && x.key == key;
      assert x in Nodes(cs);
    }
    assert m == m'[e.key := m[e.key]];
  }

  class Dict<K(==), V> {
    var table: array<Entry?<K, V>>
    var used: nat
    const hash: K -> nat
    ghost var chains: seq<Chain<K, V>>
    ghost var contents: map<K, V>

    ghost predicate Valid()
      reads this, table, Nodes(chains)
    {
      table.Length == |chains| && (table.Length == 0 || PowerOfTwo(table.Length)) &&
      Placed(chains, hash) && AllLinked(table[..], chains) && Represents(contents, chains) &&
      used == Total(chains) == |contents| && used <= table.Length
    }

    lemma {:induction false} Heads()
      requires Valid()
      ensures table.Length == |chains| && forall b :: 0 <= b < |chains| ==> table[b] == EntryAt(chains[b], 0)
      ensures forall b, i :: 0 <= b < |chains| && 0 <= i < |chains[b]| ==> chains[b][i].next == EntryAt(chains[b], i + 1)
    {
      hide Bucket, Represents, Total, PowerOfTwo, Placed;
      assert forall b :: 0 <= b < |chains| ==> Linked(table[..][b], chains[b]);
    }

    /** The key of an entry is in the map. */
    lemma {:induction false} Holds(b: nat, i: nat)
      requires Valid() && b < |chains| && i < |chains[b]|
      ensures Placed(chains, hash) && chains[b][i].key in contents
    {
      hide Bucket, Total, PowerOfTwo, Placed, AllLinked;
      InNodes(chains, b, i);
    }

    /** dictCreate. */
    constructor (hash: K -> nat)
      ensures Valid() && fresh(table) && contents == map[] && this.hash == hash
    {
      this.hash := hash;
      table := new Entry?<K, V>[0];
      used := 0;
      chains := [];
      contents := map[];
    }

    /** dictFind. */
    method Find(key: K) returns (he: Entry?<K, V>)
      requires Valid()
      ensures Valid()
      ensures he != null <==> key in contents
      ensures he != null ==> he in Nodes(chains) && he.key == key && he.val == contents[key]
    {
      hide Bucket, Represents, Total, PowerOfTwo, Placed, Nodes, Linked, EntryAt;
      if table.Length == 0 {
        NoChains(contents, chains);
        return null;
      }
      var h := Bucket(hash, key, table.Length);
      ghost var chain := chains[h];
      assert Linked(table[..][h], chain);
      BucketTells(contents, chains, hash, key);
      he := table[h];
      LinkedAt(he, chain, 0);
      ghost var i := 0;
      while he != null
        invariant Valid() && 0 <= i <= |chain| && he == EntryAt(chain, i)
        invariant forall j :: 0 <= j < i ==> chain[j].key != key
        decreases |chain| - i
      {
        LinkedAt(table[h], chain, i);
        if he.key == key { return; }
        he := he.next;
        i := i + 1;
      }
      LinkedAt(table[h], chain, i);
    }

    /** The inner loop of dictExpand: every entry of a chain is relinked into the new table. */
    method MoveChain(head: Entry?<K, V>, n: array<Entry?<K, V>>, ghost chain: Chain<K, V>, ghost cs: seq<Chain<K, V>>)
      requires n.Length > 0 && Linked(head, chain) && AllLinked(n[..], cs) && Linkable(cs, chain) && used >= |chain|
      modifies this`used, n, (set e | e in chain)`next
      ensures AllLinked(n[..], PushAll(cs, chain, hash)) && used == old(used) - |chain|
    {
      var he := head;
      ghost var i := 0;
      ghost var cs' := cs;
      assert chain[0..] == chain;
      while he != null
        invariant 0 <= i <= |chain| && used == old(used) - i
        invariant Linked(he, chain[i..]) && AllLinked(n[..], cs') && Linkable(cs', chain[i..])
        invariant PushAll(cs', chain[i..], hash) == PushAll(cs, chain, hash)
        decreases |chain| - i
      {
        hide Push, KeyFree;
        var rest := chain[i..];
        assert rest[0] == he && rest[1..] == chain[i + 1..];
        var nextHe := he.next;
        NextLinked(he, rest);
        LinkableRest(cs', rest, hash);
        PushEntry(he, n, hash, cs');
        cs' := Push(cs', he, hash);
        used := used - 1;
        he := nextHe;
        i := i + 1;
      }
    }

    /** What holds while the chains from number `i` on are still to be moved. */
    ghost predicate Moving(n: array<Entry?<K, V>>, cs: seq<Chain<K, V>>, i: nat)
      reads this, table, n, Nodes(chains), Nodes(cs)
    {
      table.Length == |chains| && Placed(chains, hash) && i <= |chains| && used == Total(chains[i..]) &&
      0 < |cs| == n.Length && Placed(cs, hash) && AllLinkable(cs, chains, i) && AllLinked(n[..], cs) &&
      forall b :: i <= b < |chains| ==> Linked(table[b], chains[b])
    }

    method MoveBucket(n: array<Entry?<K, V>>, i: nat, ghost cs: seq<Chain<K, V>>) returns (ghost cs': seq<Chain<K, V>>)
      requires i < |chains| && Moving(n, cs, i) && n != table
      modifies this`used, n, (set e | e in chains[i])`next
      ensures cs' == PushAll(cs, chains[i], hash) && Moving(n, cs', i + 1)
    {
      hide Bucket, Total, PushAll, DistinctKeys, InBucket, KeyFree, AllLinked;
      AllLinkableRest(cs, chains, i, hash);
      ChainsFromStep(chains, i);
      PushAllKeeps(cs, chains[i], hash);
      forall b | i < b < |chains| ensures forall j :: 0 <= j < |chains[b]| ==> chains[b][j] !in chains[i] {
        OtherBucket(chains, hash, i, b);
      }
      MoveChain(table[i], n, chains[i], cs);
      cs' := PushAll(cs, chains[i], hash);
    }

    /** The outer loop of dictExpand; it also stops when no entries are left. */
    method MoveAll(n: array<Entry?<K, V>>) returns (ghost cs: seq<Chain<K, V>>)
      requires Valid() && n.Length > 0 && n != table && forall b :: 0 <= b < n.Length ==> n[b] == null
      modifies this`used, n, Nodes(chains)`next
      ensures used == 0
      ensures AllLinked(n[..], cs) && Placed(cs, hash) && Nodes(cs) == Nodes(chains)
      ensures |cs| == n.Length && Total(cs) == old(used)
    {
      hide Bucket, Represents, PowerOfTwo, Total, PushAll, Linked, Placed, AllLinkable;
      cs := NoEntries(n.Length);
      NoEntriesFacts<K, V>(n.Length, hash);
      assert chains[0..] == chains;
      ghost var goal := Rehash(cs, chains, 0, hash);
      assert AllLinkable(cs, chains, 0) && AllLinked(n[..], cs) by { NothingMoved(n, chains); }
      RehashKeeps(cs, chains, 0, hash);
      var i := 0;
      while i < table.Length && used > 0
        invariant 0 <= i <= |chains| && Moving(n, cs, i) && Rehash(cs, chains, i, hash) == goal
      {
        cs := MoveBucket(n, i, cs);
        i := i + 1;
      }
      NothingLeft(chains);
      RehashNothing(cs, chains, i, hash);
    }

    /** Moves everything into the new table, with the assertion that no entry is left behind, and puts it in place. */
    method Rebuild(n: array<Entry?<K, V>>)
      requires Valid() && n.Length > 0 && PowerOfTwo(n.Length) && n != table && used <= n.Length
      requires forall b :: 0 <= b < n.Length ==> n[b] == null
      modifies this`used, this`table, this`chains, n, Nodes(chains)`next
      ensures Valid() && used == old(used) && Nodes(chains) == old(Nodes(chains)) && table == n
    {
      hide PowerOfTwo, Total, Placed, AllLinked, Bucket, Represents;
      var count := used;
      ghost var cs := MoveAll(n);
      assert used == 0;
      SameEntries(contents, chains, cs);
      table := n;
      chains := cs;
      used := count;
    }

    /** dictExpand. */
    method Expand(size: nat) returns (ok: bool)
      requires Valid() && 0 < size < LONG_MAX
      modifies this`used, this`table, this`chains, Nodes(chains)`next
      ensures Valid() && used == old(used) && Nodes(chains) == old(Nodes(chains))
      ensures ok <==> used <= size
      ensures if ok then fresh(table) && table.Length >= size && (table.Length == INITIAL_SIZE || table.Length < 2 * size)
              else table == old(table)
    {
      if used > size { return false; }
      var realsize := NextPower(size);
      var n := new Entry?<K, V>[realsize](_ => null);
      hide *;
      Rebuild(n);
      ok := true;
    }

    /** _dictKeyIndex: -1 when the key is there already. The table grows when it is as full as it has buckets, to twice
        its size. */
    method KeyIndex(key: K) returns (index: int)
      requires Valid() && used < 0x8000_0000
      modifies this`used, this`table, this`chains, Nodes(chains)`next
      ensures Valid() && used == old(used) && Nodes(chains) == old(Nodes(chains))
      ensures table == old(table) || fresh(table)
      ensures index == -1 <==> key in contents
      ensures index != -1 ==> 0 < table.Length && index == Bucket(hash, key, table.Length)
      ensures used < table.Length
      ensures if old(table.Length) == 0 then table.Length == INITIAL_SIZE
              else if used == old(table.Length)
              then table.Length >= 2 * used && (table.Length == INITIAL_SIZE || table.Length < 4 * used)
              else table == old(table)
    {
      hide PowerOfTwo, Placed, AllLinked, Nodes, Represents, Bucket;
      if table.Length == 0 {
        var ok := Expand(INITIAL_SIZE);
        assert ok;
        FourBelowEight(table.Length);
      } else if used == table.Length {
        var ok := Expand(table.Length * 2);
        assert ok;
      }
      var he := Find(key);
      index := if he != null then -1 else Bucket(hash, key, table.Length);
    }

    /** dictAdd fails only when the key is there already. */
    method Add(key: K, val: V) returns (ok: bool)
      requires Valid() && used < 0x8000_0000
      modifies this, table, Nodes(chains)`next
      ensures Valid() && (table == old(table) || fresh(table)) && fresh(Nodes(chains) - old(Nodes(chains)))
      ensures ok <==> key !in old(contents)
      ensures contents == if ok then old(contents)[key := val] else old(contents)
    {
      hide *;
      ghost var before := Nodes(chains);
      var index := KeyIndex(key);
      assert Nodes(chains) == before;
      if index == -1 { return false; }
      ghost var entry := Insert(key, val);
      ok := true;
    }

    /** A new entry for an absent key. */
    method Insert(key: K, val: V) returns (ghost added: Entry<K, V>)
      requires Valid() && used < table.Length && key !in contents
      modifies this, table
      ensures Valid() && table == old(table) && fresh(added) && Nodes(chains) == old(Nodes(chains)) + {added}
      ensures contents == old(contents)[key := val]
    {
      var entry := new Entry(key, val, null);
      added := entry;
      assert Valid();
      hide *;
      Link(entry);
    }

    /** The entry at the head of its bucket. */
    method Link(entry: Entry<K, V>)
      requires Valid() && used < table.Length && entry.key !in contents
      modifies this, table, entry`next
      ensures Valid() && table == old(table) && Nodes(chains) == old(Nodes(chains)) + {entry}
      ensures contents == old(contents)[entry.key := entry.val]
    {
      hide Bucket, PowerOfTwo, Total, Placed, AllLinked, Push, KeyFree, HasKey, Nodes, Linked;
      AbsentKeyFree(contents, chains, entry.key);
      PushKeeps(chains, entry, hash);
      InsertRepresents(contents, chains, entry, Push(chains, entry, hash));
      PushEntry(entry, table, hash, chains);
      chains := Push(chains, entry, hash);
      contents := contents[entry.key := entry.val];
      used := used + 1;
    }

    /** dictReplace: true when the key was added, false when its value was updated. */
    method Replace(key: K, val: V) returns (added: bool)
      requires Valid() && used < 0x8000_0000
      modifies this, table, Nodes(chains)
      ensures Valid() && (table == old(table) || fresh(table)) && fresh(Nodes(chains) - old(Nodes(chains)))
      ensures added <==> key !in old(contents)
      ensures contents == old(contents)[key := val]
    {
      hide *;
      added := Add(key, val);
      if added { return; }
      var entry := Find(key);
      Update(entry, val);
    }

    method Update(entry: Entry<K, V>, val: V)
      requires Valid() && entry in Nodes(chains)
      modifies this`contents, entry`val
      ensures Valid() && contents == old(contents)[entry.key := val]
    {
      hide Bucket, PowerOfTwo, Total, Placed, AllLinked, Nodes;
      OnlyEntry(chains, hash, entry);
      SetVal(entry, val, table[..], chains);
      contents := contents[entry.key := val];
    }

    /** The loop of dictDelete: the entry with this key and the one in front of it. */
    method Search(h: nat, key: K) returns (de: Entry?<K, V>, prevde: Entry?<K, V>, ghost i: nat)
      requires Valid() && h < table.Length
      ensures Valid() && i <= |chains[h]| && de == EntryAt(chains[h], i)
      ensures prevde == if i == 0 then null else chains[h][i - 1]
      ensures de == null <==> !HasKey(chains[h], key)
      ensures de != null ==> de.key == key
    {
      hide Bucket, Represents, Total, PowerOfTwo, Placed, Nodes;
      ghost var chain := chains[h];
      assert Linked(table[..][h], chain);
      de := table[h];
      prevde := null;
      i := 0;
      while de != null
        invariant 0 <= i <= |chain| && de == EntryAt(chain, i) && prevde == if i == 0 then null else chain[i - 1]
        invariant forall j :: 0 <= j < i ==> chain[j].key != key
        decreases |chain| - i
      {
        if de.key == key { return; }
        prevde := de;
        de := de.next;
        i := i + 1;
      }
    }

    /** dictDelete: entry number `i` of chain `h` leaves, and all other entries stay where they are. */
    method Delete(key: K) returns (ok: bool, ghost h: nat, ghost i: nat)
      requires Valid()
      modifies this, table, Nodes(chains)`next
      ensures Valid() && table == old(table) && Nodes(chains) <= old(Nodes(chains))
      ensures ok ==> h < |old(chains)| && i < |old(chains)[h]| && old(chains)[h][i].key == key
      ensures chains == if ok then old(chains)[h := Without(old(chains)[h], i)] else old(chains)
      ensures ok <==> key in old(contents)
      ensures contents == old(contents) - {key}
    {
      hide Bucket, Represents, Total, PowerOfTwo, Placed, HasKey, AllLinked;
      h, i := 0, 0;
      if table.Length == 0 {
        NoChains(contents, chains);
        ok := false;
        return;
      }
      var bucket := Bucket(hash, key, table.Length);
      h := bucket;
      BucketTells(contents, chains, hash, key);
      var de, prevde;
      de, prevde, i := Search(bucket, key);
      ok := de != null;
      if ok {
        Remove(bucket, prevde, de, i);
      } else {
        assert contents == contents - {key};
      }
    }

    /** The entry leaves its chain, and the count goes down. */
    method Remove(h: nat, prevde: Entry?<K, V>, de: Entry<K, V>, ghost i: nat)
      requires h < |chains| && i < |chains[h]| && Valid()
      requires de == chains[h][i] && prevde == if i == 0 then null else chains[h][i - 1]
      modifies this, table, (set e | e in chains[h])`next
      ensures Valid() && table == old(table) && Nodes(chains) <= old(Nodes(chains))
      ensures contents == old(contents) - {de.key} && chains == old(chains)[h := Without(old(chains)[h], i)]
    {
      hide Bucket, Total, PowerOfTwo, Placed, AllLinked, Linked, Nodes;
      InNodes(chains, h, i);
      RemoveKeeps(chains, hash, h, i);
      ghost var cs := chains[h := Without(chains[h], i)];
      RemoveRepresents(contents, chains, hash, de, cs);
      Unlink(table, h, prevde, de, chains, hash, i);
      chains := cs;
      contents := contents - {de.key};
      used := used - 1;
    }
  }

  /** No other entry has the same key. */
  lemma {:induction false} OnlyEntry<K, V>(chains: seq<Chain<K, V>>, hash: K -> nat, e: Entry<K, V>)
    requires Placed(chains, hash) && e in Nodes(chains)
    ensures forall x :: x in Nodes(chains) && x.key == e.key ==> x == e
  {
    hide Bucket;
    var b: nat, i: nat :| b < |chains| && i < |chains[b]| && e == chains[b][i];
    assert InBucket(chains[b], hash, |chains|, b) && DistinctKeys(chains[b]);
    forall x | x in Nodes(chains) && x.key == e.key ensures x == e {
      var c: nat, j: nat :| c < |chains| && j < |chains[c]| && x == chains[c][j];
      assert InBucket(chains[c], hash, |chains|, c);
    }
  }

  lemma {:induction false} AbsentKeyFree<K, V>(m: map<K, V>, chains: seq<Chain<K, V>>, key: K)
    requires Represents(m, chains) && key !in m
    ensures KeyFree(chains, key)
  {
    forall b, i | 0 <= b < |chains| && 0 <= i < |chains[b]| ensures chains[b][i].key != key {
      assert chains[b][i] in Nodes(chains);
    }
  }

  lemma {:induction false} InsertRepresents<K, V>(m: map<K, V>, chains: seq<Chain<K, V>>, e: Entry<K, V>, cs: seq<Chain<K, V>>)
    requires Represents(m, chains) && e.key !in m && Nodes(cs) == Nodes(chains) + {e}
    ensures Represents(m[e.key := e.val], cs)
  {
    hide Nodes;
    var m' := m[e.key := e.val];
    forall key | key in m' ensures exists x :: x in Nodes(cs) && x.key == key {
      if key == e.key {
        assert e in Nodes(cs);
      } else {
        var x :| x in Nodes(chains) && x.key == key;
        assert x in Nodes(cs);
      }
    }
  }

  lemma {:induction false} NothingMoved<K, V>(n: array<Entry?<K, V>>, chains: seq<Chain<K, V>>)
    requires forall b :: 0 <= b < n.Length ==> n[b] == null
    requires forall key: K :: KeyFree(NoEntries<K, V>(n.Length), key)
    ensures AllLinkable(NoEntries<K, V>(n.Length), chains, 0) && AllLinked(n[..], NoEntries<K, V>(n.Length))
  {
  }

  /** Buckets do not share entries. */
  lemma {:induction false} OtherBucket<K, V>(chains: seq<Chain<K, V>>, hash: K -> nat, b: nat, c: nat)
    requires Placed(chains, hash) && b < |chains| && c < |chains| && b != c
    ensures forall j :: 0 <= j < |chains[c]| ==> chains[c][j] !in chains[b]
  {
    hide Bucket;
    assert InBucket(chains[b], hash, |chains|, b) && InBucket(chains[c], hash, |chains|, c);
  }

  lemma {:induction false} SameEntries<K, V>(m: map<K, V>, chains: seq<Chain<K, V>>, cs: seq<Chain<K, V>>)
    requires Represents(m, chains) && Nodes(cs) == Nodes(chains)
    ensures Represents(m, cs)
  {
    hide Nodes;
  }

  lemma {:induction false} NextLinked<K, V>(head: Entry<K, V>, chain: Chain<K, V>)
    requires Linked(head, chain) && DistinctKeys(chain)
    ensures chain != [] && Linked(head.next, chain[1..]) && DistinctKeys(chain[1..]) && head !in chain[1..]
  {
    assert forall i :: 0 <= i < |chain[1..]| ==> chain[1..][i] == chain[i + 1];
    forall i | 0 <= i < |chain[1..]|
      ensures chain[1..][i].next == EntryAt(chain[1..], i + 1) && chain[1..][i].key != head.key
    {
      assert chain[i + 1].next == EntryAt(chain, i + 1 + 1) && chain[0].key != chain[i + 1].key;
    }
  }

  ghost function ChainsFrom<K, V>(chains: seq<Chain<K, V>>, i: nat): set<Entry<K, V>>
    requires i <= |chains|
  { set b: nat, j: nat | i <= b < |chains| && j < |chains[b]| :: chains[b][j] }

  /** Chains from number `i` on can all be pushed. */
  ghost predicate AllLinkable<K, V>(cs: seq<Chain<K, V>>, chains: seq<Chain<K, V>>, i: nat)
    requires i <= |chains|
  {
    forall b, j :: i <= b < |chains| && 0 <= j < |chains[b]| ==> KeyFree(cs, chains[b][j].key)
  }

  lemma {:induction false} AllLinkableRest<K, V>(cs: seq<Chain<K, V>>, chains: seq<Chain<K, V>>, i: nat, hash: K -> nat)
    requires |cs| > 0 && Placed(cs, hash) && Placed(chains, hash) && i < |chains| && AllLinkable(cs, chains, i)
    ensures Linkable(cs, chains[i]) && AllLinkable(PushAll(cs, chains[i], hash), chains, i + 1)
  {
    hide KeyFree, Bucket, PushAll;
    assert DistinctKeys(chains[i]) && InBucket(chains[i], hash, |chains|, i);
    PushAllKeeps(cs, chains[i], hash);
    forall b, j | i + 1 <= b < |chains| && 0 <= j < |chains[b]|
      ensures KeyFree(PushAll(cs, chains[i], hash), chains[b][j].key)
    {
      assert InBucket(chains[b], hash, |chains|, b);
    }
  }

  lemma {:induction false} ChainsFromStep<K, V>(chains: seq<Chain<K, V>>, i: nat)
    requires i < |chains|
    ensures ChainsFrom(chains, i) == ChainNodes(chains[i]) + ChainsFrom(chains, i + 1)
    ensures Total(chains[i..]) == |chains[i]| + Total(chains[i + 1..])
  {
    assert chains[i..][1..] == chains[i + 1..];
  }

  /** Rehashing keeps every entry. */
  lemma {:induction false} RehashKeeps<K, V>(cs: seq<Chain<K, V>>, chains: seq<Chain<K, V>>, i: nat, hash: K -> nat)
    requires |cs| > 0 && Placed(cs, hash) && Placed(chains, hash) && i <= |chains| && AllLinkable(cs, chains, i)
    ensures var cs' := Rehash(cs, chains, i, hash);
            Placed(cs', hash) && Nodes(cs') == Nodes(cs) + ChainsFrom(chains, i) &&
            Total(cs') == Total(cs) + Total(chains[i..])
    decreases |chains| - i
  {
    hide Placed, AllLinkable, PushAll, Nodes, Total, ChainsFrom, ChainNodes;
    if i < |chains| {
      AllLinkableRest(cs, chains, i, hash);
      PushAllKeeps(cs, chains[i], hash);
      RehashKeeps(PushAll(cs, chains[i], hash), chains, i + 1, hash);
      ChainsFromStep(chains, i);
    } else {
      NothingLeft(chains);
    }
  }

  lemma {:induction false} NothingLeft<K, V>(chains: seq<Chain<K, V>>)
    ensures ChainsFrom(chains, |chains|) == {} && Total(chains[|chains|..]) == 0
  {
  }

  /** When no entries are left, rehashing the rest changes nothing. */
  lemma {:induction false} RehashNothing<K, V>(cs: seq<Chain<K, V>>, chains: seq<Chain<K, V>>, i: nat, hash: K -> nat)
    requires |cs| > 0 && i <= |chains| && Total(chains[i..]) == 0
    ensures Rehash(cs, chains, i, hash) == cs
    decreases |chains| - i
  {
    if i < |chains| {
      ChainsFromStep(chains, i);
      RehashNothing(cs, chains, i + 1, hash);
    }
  }

  ghost function NoEntries<K, V>(size: nat): (cs: seq<Chain<K, V>>)
    ensures |cs| == size && forall b :: 0 <= b < size ==> cs[b] == []
  {
    seq(size, i => [])
  }

  lemma {:induction false} NoEntriesFacts<K, V>(size: nat, hash: K -> nat)
    ensures Placed(NoEntries<K, V>(size), hash) && Nodes(NoEntries<K, V>(size)) == {} && Total(NoEntries<K, V>(size)) == 0
    ensures forall key :: KeyFree(NoEntries<K, V>(size), key)
  {
    var cs := NoEntries<K, V>(size);
    if size > 0 {
      NoEntriesFacts<K, V>(size - 1, hash);
      assert cs[1..] == NoEntries<K, V>(size - 1);
    }
  }

  lemma {:induction false} NoChains<K, V>(m: map<K, V>, chains: seq<Chain<K, V>>)
    requires chains == [] && Represents(m, chains)
    ensures m == map[]
  {
  }

  // ---- Iterating ----

  /** The entries of the chains from number `b` on. */
  ghost function Joined<K, V>(chains: seq<Chain<K, V>>, b: nat): Chain<K, V>
    requires b <= |chains|
    decreases |chains| - b
  {
    if b == |chains| then [] else chains[b] + Joined(chains, b + 1)
  }

  lemma {:induction false} JoinedHolds<K, V>(chains: seq<Chain<K, V>>, b: nat, e: Entry<K, V>)
    requires b <= |chains|
    ensures e in Joined(chains, b) <==> e in ChainsFrom(chains, b)
    decreases |chains| - b
  {
    if b < |chains| {
      JoinedHolds(chains, b + 1, e);
      ChainsFromStep(chains, b);
    }
  }

  lemma {:induction false} JoinedDistinct<K, V>(chains: seq<Chain<K, V>>, hash: K -> nat, b: nat)
    requires Placed(chains, hash) && b <= |chains|
    ensures DistinctKeys(Joined(chains, b))
    decreases |chains| - b
  {
    hide Bucket, DistinctKeys;
    if b < |chains| {
      JoinedDistinct(chains, hash, b + 1);
      var rest := Joined(chains, b + 1);
      forall j | 0 <= j < |rest| ensures forall i :: 0 <= i < |chains[b]| ==> chains[b][i].key != rest[j].key {
        JoinedHolds(chains, b + 1, rest[j]);
        var c: nat, l: nat :| b + 1 <= c < |chains| && l < |chains[c]| && rest[j] == chains[c][l];
        assert InBucket(chains[b], hash, |chains|, b) && InBucket(chains[c], hash, |chains|, c);
      }
      assert DistinctKeys(chains[b]);
      DistinctAppend(chains[b], rest);
    } else {
      NoKeys<K, V>();
    }
  }

  lemma {:induction false} NoKeys<K, V>()
    ensures DistinctKeys<K, V>([])
  {
  }

  lemma {:induction false} DistinctAppend<K, V>(a: Chain<K, V>, b: Chain<K, V>)
    requires DistinctKeys(a) && DistinctKeys(b)
    requires forall j :: 0 <= j < |b| ==> forall i :: 0 <= i < |a| ==> a[i].key != b[j].key
    ensures DistinctKeys(a + b)
  {
    var ab := a + b;
    forall i, j | 0 <= i < j < |ab| ensures ab[i].key != ab[j].key {
      if i < |a| <= j { assert b[j - |a|].key != a[i].key; }
    }
  }

  /** Where an iteration stands: the next entry is number `k` of chain `index`, and `rest` is still to come. */
  ghost predicate Standing<K, V>(chains: seq<Chain<K, V>>, index: nat, k: nat, next: Entry?<K, V>, rest: Chain<K, V>) {
    index < |chains| && k <= |chains[index]| && next == EntryAt(chains[index], k) &&
    rest == chains[index][k..] + Joined(chains, index + 1)
  }

  lemma {:induction false} JoinedAt<K, V>(chains: seq<Chain<K, V>>, cs: seq<Chain<K, V>>, b: nat)
    requires b <= |chains| == |cs| && forall c :: b <= c < |chains| ==> chains[c] == cs[c]
    ensures Joined(chains, b) == Joined(cs, b)
    decreases |chains| - b
  {
    if b < |chains| { JoinedAt(chains, cs, b + 1); }
  }

  /** The entry that was returned last may be deleted: what is still to come stays the same. */
  lemma {:induction false} IterationSurvivesDelete<K, V>(chains: seq<Chain<K, V>>, index: nat, k: nat,
                                                         next: Entry?<K, V>, rest: Chain<K, V>)
    requires k > 0 && Standing(chains, index, k, next, rest)
    ensures Standing(chains[index := Without(chains[index], k - 1)], index, k - 1, next, rest)
  {
    var cs := chains[index := Without(chains[index], k - 1)];
    JoinedAt(chains, cs, index + 1);
    assert cs[index][k - 1..] == chains[index][k..];
  }

  /** A key stands at one place only. */
  lemma {:induction false} OnlyPlace<K, V>(chains: seq<Chain<K, V>>, hash: K -> nat, h: nat, i: nat, b: nat, j: nat)
    requires Placed(chains, hash) && h < |chains| && i < |chains[h]| && b < |chains| && j < |chains[b]|
    requires chains[h][i].key == chains[b][j].key
    ensures h == b && i == j
  {
    hide Bucket;
    assert InBucket(chains[h], hash, |chains|, h) && InBucket(chains[b], hash, |chains|, b);
  }

  class DictIterator<K(==), V> {
    const ht: Dict<K, V>
    var index: int
    var entry: Entry?<K, V>
    var nextEntry: Entry?<K, V>
    ghost var k: nat
    ghost var deleted: bool
    ghost var rest: Chain<K, V>

    /** What is still to come agrees with where the iterator stands: right behind the entry returned last, unless
        that has been deleted. */
    ghost predicate Valid()
      reads this, ht`chains
    {
      index >= -1 &&
      if entry != null
      then index >= 0 && Standing(ht.chains, index, k, nextEntry, rest) &&
           (deleted || (k > 0 && ht.chains[index][k - 1] == entry))
      else rest == (if index + 1 <= |ht.chains| then Joined(ht.chains, index + 1) else [])
    }

    /** dictGetIterator: every entry is still to come, once. */
    constructor (ht: Dict<K, V>)
      requires ht.Valid()
      ensures this.ht == ht && Valid() && entry == null && DistinctKeys(rest)
      ensures forall e: Entry<K, V> :: e in rest <==> e in Nodes(ht.chains)
    {
      this.ht, index, entry, nextEntry := ht, -1, null, null;
      k, deleted, rest := 0, false, Joined(ht.chains, 0);
      JoinedDistinct(ht.chains, ht.hash, 0);
      forall e: Entry<K, V> ensures e in Joined(ht.chains, 0) <==> e in Nodes(ht.chains) {
        JoinedHolds(ht.chains, 0, e);
      }
    }

    /** dictNext: the entries come one by one, and then null. */
    method Next() returns (e: Entry?<K, V>)
      requires ht.Valid() && Valid()
      modifies this
      ensures Valid()
      ensures if old(rest) == [] then e == null && rest == [] else e == old(rest)[0] && rest == old(rest)[1..]
      ensures e == entry && (e != null ==> !deleted)
    {
      hide Dict.Valid, Joined, Nodes, Standing, EntryAt;
      ht.Heads();
      while true
        invariant Valid() && rest == old(rest)
        decreases |ht.chains| - index, if entry == null then 0 else 1
      {
        ghost var at := k;
        if entry == null {
          index := index + 1;
          if index >= ht.table.Length {
            JoinedNothing(ht.chains);
            return null;
          }
          entry := ht.table[index];
          at := 0;
          StandingFirst(ht.chains, index);
        } else {
          StandingAt(ht.chains, index, k, nextEntry, rest);
          entry := nextEntry;
        }
        EntryAtEnd(ht.chains[index], at);
        if entry != null {
          nextEntry := entry.next;
          StandingNext(ht.chains, index, at, rest);
          k, deleted := at + 1, false;
          rest := rest[1..];
          return entry;
        }
        StandingDone(ht.chains, index, at, rest);
      }
    }

    /** The user deletes the entry that was returned last: its key leaves the table, the fields of the iterator stay,
        and the same entries are still to come. */
    method DeleteReturned()
      requires ht.Valid() && Valid() && entry != null && !deleted
      modifies this`k, this`deleted, ht, ht.table, Nodes(ht.chains)`next
      ensures ht.Valid() && Valid() && deleted && rest == old(rest)
      ensures entry.key in old(ht.contents) && ht.contents == old(ht.contents) - {entry.key}
    {
      hide Dict.Valid, Joined, Nodes, Standing;
      ghost var chains := ht.chains;
      StandingAt(chains, index, k, nextEntry, rest);
      ht.Holds(index, k - 1);
      var ok, h, i := ht.Delete(entry.key);
      OnlyPlace(chains, ht.hash, h, i, index, k - 1);
      IterationSurvivesDelete(chains, index, k, nextEntry, rest);
      k, deleted := k - 1, true;
    }

    /** One turn of a loop that deletes what it is given: the next entry is the one that would have come anyway. */
    method NextDeleteNext() returns (first: Entry?<K, V>, second: Entry?<K, V>)
      requires ht.Valid() && Valid()
      modifies this, ht, ht.table, Nodes(ht.chains)`next
      ensures ht.Valid() && Valid()
      ensures old(rest) == [] ==> first == null && ht.contents == old(ht.contents)
      ensures old(rest) != [] ==> first == old(rest)[0] && ht.contents == old(ht.contents) - {first.key}
      ensures if |old(rest)| < 2 then second == null && rest == [] else second == old(rest)[1] && rest == old(rest)[2..]
    {
      hide Dict.Valid, Joined, Standing;
      first := Next();
      if first != null { DeleteReturned(); }
      ghost var chains := ht.chains;
      second := Next();
      assert Nodes(ht.chains) == Nodes(chains);
    }
  }

  lemma {:induction false} StandingFirst<K, V>(chains: seq<Chain<K, V>>, index: nat)
    requires index < |chains|
    ensures Standing(chains, index, 0, EntryAt(chains[index], 0), Joined(chains, index))
  {
  }

  lemma {:induction false} StandingAt<K, V>(chains: seq<Chain<K, V>>, index: nat, k: nat, next: Entry?<K, V>, rest: Chain<K, V>)
    requires Standing(chains, index, k, next, rest)
    ensures index < |chains| && k <= |chains[index]| && next == EntryAt(chains[index], k)
  {
  }

  lemma {:induction false} StandingNext<K, V>(chains: seq<Chain<K, V>>, index: nat, k: nat, rest: Chain<K, V>)
    requires index < |chains| && k < |chains[index]| && Standing(chains, index, k, EntryAt(chains[index], k), rest)
    ensures rest != [] && rest[0] == chains[index][k]
    ensures Standing(chains, index, k + 1, EntryAt(chains[index], k + 1), rest[1..])
  {
    assert chains[index][k..] == [chains[index][k]] + chains[index][k + 1..];
  }

  lemma {:induction false} StandingDone<K, V>(chains: seq<Chain<K, V>>, index: nat, k: nat, rest: Chain<K, V>)
    requires index < |chains| && k == |chains[index]| && Standing(chains, index, k, null, rest)
    ensures rest == Joined(chains, index + 1)
  {
  }

  lemma {:induction false} JoinedNothing<K, V>(chains: seq<Chain<K, V>>)
    ensures Joined(chains, |chains|) == []
  {
  }
}
