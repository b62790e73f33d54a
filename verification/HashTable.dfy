/**
 The chained hash table: an array of doubly linked chains in the heap, a cached hash in every
 entry, a rehash when the load factor passes 1.3, and an external iterator.
 */
module HashTable {
  import opened Option

  /** hash_key never changes; replacing an entry stores an equal key, so the key does not either. */
  class Entry<K, V> {
    const hashKey: nat
    const key: K
    var value: V
    var prev: Entry?<K, V>
    var next: Entry?<K, V>

    constructor (hashKey: nat, key: K, value: V)
      ensures this.hashKey == hashKey && this.key == key && this.value == value
      ensures next == null && prev == null
    {
      this.hashKey, this.key, this.value := hashKey, key, value;
      next, prev := null, null;
    }
  }

  // ---------------------------------------------------------------- chains

  type Chain<K, V> = seq<Entry<K, V>>

  function At<K, V>(c: Chain<K, V>, k: int): (e: Entry?<K, V>) {
    if 0 <= k < |c| then c[k] else null
  }

  function Bucket(h: nat, n: nat): (i: nat)
    requires 0 < n
    ensures i < n
  {
    h % n
  }

  /** The chains hold exactly the entries of the set, each in the bucket of its hash, no key twice in a chain. */
  ghost predicate Holds<K, V>(chains: seq<Chain<K, V>>, entries: set<Entry<K, V>>) {
    && (forall i, k {:trigger chains[i][k]} :: 0 <= i < |chains| && 0 <= k < |chains[i]| ==>
          chains[i][k] in entries && Bucket(chains[i][k].hashKey, |chains|) == i)
    && (forall i, k, l {:trigger chains[i][k], chains[i][l]} :: 0 <= i < |chains| && 0 <= k < l < |chains[i]| ==>
          chains[i][k].key != chains[i][l].key)
    && (forall e {:trigger Present(e, entries)} :: e in entries ==>
          0 < |chains| && e in chains[Bucket(e.hashKey, |chains|)])
  }

  /** Membership, named so that the position of an entry is looked up only on request. */
  ghost predicate Present<K, V>(e: Entry<K, V>, entries: set<Entry<K, V>>) {
    e in entries
  }

  /** The bucket heads and the next and prev links run along the chains. */
  ghost predicate Linked<K, V>(tab: array<Entry?<K, V>>, chains: seq<Chain<K, V>>, entries: set<Entry<K, V>>)
    reads tab, entries
  {
    && tab.Length == |chains|
    && (forall i :: 0 <= i < |chains| ==> tab[i] == At(chains[i], 0))
    && (forall i, k {:trigger chains[i][k].next} ::
          0 <= i < |chains| && 0 <= k < |chains[i]| && chains[i][k] in entries ==>
          chains[i][k].next == At(chains[i], k + 1))
    && (forall i, k {:trigger chains[i][k].prev} ::
          0 <= i < |chains| && 0 <= k < |chains[i]| && chains[i][k] in entries ==>
          chains[i][k].prev == At(chains[i], k - 1))
  }

  /** The push to a bucket's front that put and rehash share. */
  method LinkFront<K, V>(tab: array<Entry?<K, V>>, j: nat, p: Entry<K, V>, ghost chains: seq<Chain<K, V>>,
                         ghost entries: set<Entry<K, V>>)
    requires j < tab.Length && Linked(tab, chains, entries) && Holds(chains, entries)
    requires Bucket(p.hashKey, tab.Length) == j && p !in entries
    modifies tab, p`next, p`prev, entries`prev
    ensures Linked(tab, chains[j := [p] + chains[j]], entries + {p})
  {
    ghost var c := chains[j];
    ghost var chains': seq<Chain<K, V>> := chains[j := [p] + c];
    p.next := null;
    p.prev := null;
    if tab[j] != null {
      tab[j].prev := p;
      p.next := tab[j];
    }
    tab[j] := p;
    assert forall i, k :: 0 <= i < |chains| && 0 <= k < |chains[i]| && !(i == j && k == 0) ==>
        c != [] ==> chains[i][k] != c[0];
    forall i, k | 0 <= i < |chains'| && 0 <= k < |chains'[i]|
      ensures chains'[i][k].next == At(chains'[i], k + 1) && chains'[i][k].prev == At(chains'[i], k - 1)
    {
      if i == j && k > 0 {
        assert chains'[i][k] == c[k - 1];
      }
    }
  }

  lemma FrontPushed<K, V>(chains: seq<Chain<K, V>>, entries: set<Entry<K, V>>, p: Entry<K, V>)
    requires 0 < |chains| && Holds(chains, entries)
    requires forall e :: e in entries ==> e.key != p.key
    ensures var j := Bucket(p.hashKey, |chains|); Holds(chains[j := [p] + chains[j]], entries + {p})
  {
    var j := Bucket(p.hashKey, |chains|);
    var chains': seq<Chain<K, V>> := chains[j := [p] + chains[j]];
    assert forall i, k :: 0 <= i < |chains'| && 0 <= k < |chains'[i]| ==>
        chains'[i][k] == if i != j then chains[i][k] else if k == 0 then p else chains[j][k - 1];
    forall e | e in entries
      ensures e in chains'[Bucket(e.hashKey, |chains'|)]
    {
      assert Present(e, entries);
    }
    assert chains'[j][0] == p;
  }

  /** Taking an entry out of its chain: its neighbours, or the bucket head, are joined. */
  method Unlink<K, V>(tab: array<Entry?<K, V>>, j: nat, p: Entry<K, V>, ghost c: Chain<K, V>, ghost k: nat)
    requires j < tab.Length && tab[j] == At(c, 0) && k < |c| && c[k] == p
    requires forall l {:trigger c[l].next} :: 0 <= l < |c| ==> c[l].next == At(c, l + 1)
    requires forall l {:trigger c[l].prev} :: 0 <= l < |c| ==> c[l].prev == At(c, l - 1)
    requires forall l, m :: 0 <= l < m < |c| ==> c[l].key != c[m].key
    modifies tab, c`next, c`prev
    ensures var c' := c[..k] + c[k + 1..];
            && tab[j] == At(c', 0)
            && (forall l {:trigger c'[l].next} :: 0 <= l < |c'| ==> c'[l].next == At(c', l + 1))
            && (forall l {:trigger c'[l].prev} :: 0 <= l < |c'| ==> c'[l].prev == At(c', l - 1))
    ensures forall i :: 0 <= i < tab.Length && i != j ==> tab[i] == old(tab[i])
  {
    ghost var c' := c[..k] + c[k + 1..];
    var next, prev := p.next, p.prev;
    assert next == At(c, k + 1) && prev == At(c, k - 1);
    if next != null {
      next.prev := prev;
    }
    if prev != null {
      prev.next := next;
    } else {
      tab[j] := next;
    }
    forall l | 0 <= l < |c'|
      ensures c'[l].next == At(c', l + 1) && c'[l].prev == At(c', l - 1)
    {
      if l < k {
        assert c'[l] == c[l] && (next != null ==> c[l] != next);
        assert l < k - 1 ==> c[l] != prev;
      } else {
        assert c'[l] == c[l + 1] && (prev != null ==> c[l + 1] != prev);
        assert l > k ==> c[l + 1] != next;
      }
    }
  }

  /** The other chains keep their links. */
  method UnlinkFrom<K, V>(tab: array<Entry?<K, V>>, j: nat, p: Entry<K, V>, ghost k: nat,
                          ghost chains: seq<Chain<K, V>>, ghost entries: set<Entry<K, V>>)
    requires j < tab.Length && Linked(tab, chains, entries) && Holds(chains, entries)
    requires k < |chains[j]| && chains[j][k] == p
    modifies tab, entries`next, entries`prev
    ensures Linked(tab, chains[j := chains[j][..k] + chains[j][k + 1..]], entries - {p})
  {
    ghost var c := chains[j];
    assert forall i, l :: 0 <= i < |chains| && i != j && 0 <= l < |chains[i]| ==> chains[i][l] !in c;
    Unlink(tab, j, p, c, k);
  }

  lemma Removed<K, V>(chains: seq<Chain<K, V>>, entries: set<Entry<K, V>>, j: nat, k: nat)
    requires Holds(chains, entries) && j < |chains| && k < |chains[j]|
    ensures Holds(chains[j := chains[j][..k] + chains[j][k + 1..]], entries - {chains[j][k]})
  {
    var c := chains[j];
    var c' := c[..k] + c[k + 1..];
    var chains': seq<Chain<K, V>> := chains[j := c'];
    assert forall l :: 0 <= l < |c'| ==> c'[l] == if l < k then c[l] else c[l + 1];
    assert forall i, l :: 0 <= i < |chains'| && 0 <= l < |chains'[i]| && i != j ==> chains'[i][l] == chains[i][l];
    forall e | e in entries && e != c[k]
      ensures e in chains'[Bucket(e.hashKey, |chains'|)]
    {
      assert Present(e, entries);
      if Bucket(e.hashKey, |chains|) == j {
        var l :| 0 <= l < |c| && c[l] == e;
        assert c'[if l < k then l else l - 1] == e;
      }
    }
  }

  /** A walk along next links to the first entry with the key. */
  method Walk<K(==), V>(head: Entry?<K, V>, key: K, ghost c: Chain<K, V>) returns (p: Entry?<K, V>, ghost k: nat)
    requires head == At(c, 0)
    requires forall l {:trigger c[l].next} :: 0 <= l < |c| ==> c[l].next == At(c, l + 1)
    ensures k <= |c| && p == At(c, k) && (p != null ==> p.key == key)
    ensures forall l :: 0 <= l < k ==> c[l].key != key
  {
    p, k := head, 0;
    while p != null
      invariant k <= |c| && p == At(c, k)
      invariant forall l :: 0 <= l < k ==> c[l].key != key
      decreases |c| - k
    {
      if p.key == key {
        break;
      }
      p := p.next;
      k := k + 1;
    }
  }

  // ---------------------------------------------------------------- rehash

  method NewBuckets<K, V>(size: nat) returns (tab: array<Entry?<K, V>>, ghost chains: seq<Chain<K, V>>)
    requires 0 < size
    ensures fresh(tab) && tab.Length == size && |chains| == size
    ensures Linked(tab, chains, {}) && Holds(chains, {})
  {
    tab := new Entry?<K, V>[size](_ => null);
    chains := seq(size, _ => []);
  }

  /** One entry is pushed to the front of its new bucket. */
  method MoveEntry<K, V>(p: Entry<K, V>, tab: array<Entry?<K, V>>, ghost chains: seq<Chain<K, V>>,
                         ghost moved: set<Entry<K, V>>)
    returns (ghost chains': seq<Chain<K, V>>)
    requires 0 < tab.Length
    requires Linked(tab, chains, moved) && Holds(chains, moved)
    requires forall e :: e in moved ==> e.key != p.key
    modifies tab, p`next, p`prev, moved`prev
    ensures Linked(tab, chains', moved + {p}) && Holds(chains', moved + {p})
  {
    var j := Bucket(p.hashKey, tab.Length);
    LinkFront(tab, j, p, chains, moved);
    FrontPushed(chains, moved, p);
    chains' := chains[j := [p] + chains[j]];
  }

  /** The inner loop of rehash: one old chain is taken apart into the new buckets. */
  method MoveChain<K, V>(head: Entry?<K, V>, ghost c: Chain<K, V>, tab: array<Entry?<K, V>>,
                         ghost chains: seq<Chain<K, V>>, ghost moved: set<Entry<K, V>>)
    returns (ghost chains': seq<Chain<K, V>>, ghost moved': set<Entry<K, V>>)
    requires head == At(c, 0)
    requires forall l {:trigger c[l].next} :: 0 <= l < |c| ==> c[l].next == At(c, l + 1)
    requires forall l, m :: 0 <= l < m < |c| ==> c[l].key != c[m].key
    requires forall e, l :: e in moved && 0 <= l < |c| ==> e.key != c[l].key
    requires 0 < tab.Length
    requires Linked(tab, chains, moved) && Holds(chains, moved)
    modifies tab, moved`prev, c`next, c`prev
    ensures moved' == moved + set e | e in c
    ensures Linked(tab, chains', moved') && Holds(chains', moved')
  {
    ghost var cs := set e | e in c;
    chains', moved' := chains, moved;
    var p := head;
    ghost var k := 0;
    while p != null
      invariant k <= |c| && p == At(c, k)
      invariant forall l {:trigger c[l].next} :: k <= l < |c| ==> c[l].next == At(c, l + 1)
      invariant moved <= moved' <= moved + cs
      invariant forall l :: 0 <= l < k ==> c[l] in moved'
      invariant forall e, l :: e in moved' && k <= l < |c| ==> e.key != c[l].key
      invariant Linked(tab, chains', moved') && Holds(chains', moved')
      decreases |c| - k
    {
      var q := p.next;
      ghost var e := c[k];
      assert e in c;
      chains' := MoveEntry(p, tab, chains', moved');
      moved' := moved' + {e};
      p := q;
      k := k + 1;
    }
    assert moved' == moved + cs;
  }

  /** The outer loop of rehash: every entry of the old chains ends up in the new buckets. */
  method MoveAll<K, V>(tab: array<Entry?<K, V>>, ghost chains: seq<Chain<K, V>>,
                       ghost entries: set<Entry<K, V>>, newTab: array<Entry?<K, V>>,
                       ghost newChains: seq<Chain<K, V>>)
    returns (ghost newChains': seq<Chain<K, V>>)
    requires 0 < tab.Length && tab != newTab && Linked(tab, chains, entries) && Holds(chains, entries)
    requires forall d, e :: d in entries && e in entries && d.key == e.key ==> d == e
    requires 0 < newTab.Length
    requires Linked(newTab, newChains, {}) && Holds(newChains, {})
    modifies newTab, entries`next, entries`prev
    ensures Linked(newTab, newChains', entries) && Holds(newChains', entries)
  {
    ghost var moved: set<Entry<K, V>> := {};
    newChains' := newChains;
    for i := 0 to tab.Length
      invariant moved <= entries
      invariant Linked(newTab, newChains', moved) && Holds(newChains', moved)
      invariant forall e :: e in entries ==> (e in moved <==> Bucket(e.hashKey, |chains|) < i)
      invariant forall m, l {:trigger chains[m][l].next} :: i <= m < |chains| && 0 <= l < |chains[m]| ==>
          chains[m][l].next == At(chains[m], l + 1)
    {
      assert forall e :: Present(e, entries) && Bucket(e.hashKey, |chains|) == i ==> e in chains[i];
      newChains', moved := MoveChain(tab[i], chains[i], newTab, newChains', moved);
      assert forall e :: e in entries ==> Present(e, entries);
    }
    assert forall e :: e in entries ==> Present(e, entries);
    assert moved == entries;
  }

  // ---------------------------------------------------------------- the shape of a table

  /** What a table holds: its chains, their entries, the entry of every key, and the map it stands for. */
  datatype Shape<K, V> = Shape(chains: seq<Chain<K, V>>, entries: set<Entry<K, V>>,
                               index: map<K, Entry<K, V>>, contents: map<K, V>)

  /** Every entry is in its bucket, keys are unique, and the entries are exactly those of the map's keys. */
  ghost predicate Consistent<K, V>(s: Shape<K, V>, hash: K -> nat) {
    && Holds(s.chains, s.entries)
    && s.contents.Keys == s.index.Keys
    && (forall key :: key in s.index ==> s.index[key] in s.entries && s.index[key].key == key)
    && (forall e :: e in s.entries ==> e.hashKey == hash(e.key) && e.key in s.index && s.index[e.key] == e)
  }

  /** The heap agrees with the shape: links along the chains, values as in the map. */
  ghost predicate Reflects<K, V>(tab: array<Entry?<K, V>>, s: Shape<K, V>)
    reads tab, s.entries
  {
    && Linked(tab, s.chains, s.entries)
    && (forall e :: e in s.entries && e.key in s.contents ==> s.contents[e.key] == e.value)
  }

  ghost function Inserted<K, V>(s: Shape<K, V>, j: nat, p: Entry<K, V>, value: V): (s': Shape<K, V>)
    requires j < |s.chains|
  {
    Shape(s.chains[j := [p] + s.chains[j]], s.entries + {p}, s.index[p.key := p], s.contents[p.key := value])
  }

  lemma InsertedConsistent<K, V>(s: Shape<K, V>, p: Entry<K, V>, value: V, hash: K -> nat)
    requires Consistent(s, hash) && p.key !in s.contents
    requires p.hashKey == hash(p.key) && 0 < |s.chains|
    ensures p !in s.entries
    ensures var s' := Inserted(s, Bucket(p.hashKey, |s.chains|), p, value);
            Consistent(s', hash) && |s'.contents| == |s.contents| + 1
  {
    FrontPushed(s.chains, s.entries, p);
    var s' := Inserted(s, Bucket(p.hashKey, |s.chains|), p, value);
    assert s'.contents.Keys == s'.index.Keys == s.contents.Keys + {p.key};
  }

  ghost function Dropped<K, V>(s: Shape<K, V>, j: nat, k: nat): (s': Shape<K, V>)
    requires j < |s.chains| && k < |s.chains[j]|
  {
    var c := s.chains[j];
    Shape(s.chains[j := c[..k] + c[k + 1..]], s.entries - {c[k]}, s.index - {c[k].key}, s.contents - {c[k].key})
  }

  lemma DroppedConsistent<K, V>(s: Shape<K, V>, j: nat, k: nat, hash: K -> nat)
    requires Consistent(s, hash) && j < |s.chains| && k < |s.chains[j]|
    ensures var s' := Dropped(s, j, k);
            Consistent(s', hash) && |s'.contents| == |s.contents| - 1
  {
    Removed(s.chains, s.entries, j, k);
    var s' := Dropped(s, j, k);
    var key := s.chains[j][k].key;
    assert s'.contents.Keys == s'.index.Keys == s.contents.Keys - {key};
    assert s.contents.Keys == s'.contents.Keys + {key};
  }

  /** The second half of put: a key that is not in the table gets a new entry at its bucket's front. */
  method AddEntry<K, V>(tab: array<Entry?<K, V>>, p: Entry<K, V>, ghost s: Shape<K, V>, ghost hash: K -> nat)
    returns (ghost s': Shape<K, V>)
    requires 0 < tab.Length && Reflects(tab, s) && Consistent(s, hash)
    requires p.key !in s.contents && p.hashKey == hash(p.key)
    modifies tab, p`next, p`prev, s.entries`prev
    ensures Reflects(tab, s') && Consistent(s', hash) && |s'.contents| == |s.contents| + 1
    ensures s'.entries == s.entries + {p} && s'.contents == s.contents[p.key := p.value]
  {
    var i := Bucket(p.hashKey, tab.Length);
    InsertedConsistent(s, p, p.value, hash);
    s' := Inserted(s, i, p, p.value);
    LinkFront(tab, i, p, s.chains, s.entries);
  }

  /** The second half of remove: a found entry leaves its chain. */
  method DropEntry<K, V>(tab: array<Entry?<K, V>>, i: nat, p: Entry<K, V>, ghost k: nat, ghost s: Shape<K, V>,
                         ghost hash: K -> nat)
    returns (ghost s': Shape<K, V>)
    requires Reflects(tab, s) && Consistent(s, hash)
    requires i < tab.Length && k < |s.chains[i]| && s.chains[i][k] == p
    modifies tab, s.entries`next, s.entries`prev
    ensures Reflects(tab, s') && Consistent(s', hash) && |s'.contents| == |s.contents| - 1
    ensures s'.entries == s.entries - {p} && s'.contents == s.contents - {p.key}
  {
    DroppedConsistent(s, i, k, hash);
    s' := Dropped(s, i, k);
    UnlinkFrom(tab, i, p, k, s.chains, s.entries);
  }

  // ---------------------------------------------------------------- iteration order

  /** The entries in bucket order, and within a bucket in chain order. */
  ghost function Order<K, V>(chains: seq<Chain<K, V>>): (order: seq<Entry<K, V>>) {
    if chains == [] then [] else Order(chains[..|chains| - 1]) + chains[|chains| - 1]
  }

  lemma OrderStep<K, V>(chains: seq<Chain<K, V>>, i: nat)
    requires i < |chains|
    ensures Order(chains[..i + 1]) == Order(chains[..i]) + chains[i]
  {
    assert chains[..i + 1][..i] == chains[..i];
  }

  lemma {:induction false} OrderPrefix<K, V>(chains: seq<Chain<K, V>>, i: nat)
    requires i <= |chains|
    ensures Order(chains[..i]) <= Order(chains)
    decreases |chains| - i
  {
    if i == |chains| {
      assert chains[..i] == chains;
    } else {
      OrderStep(chains, i);
      OrderPrefix(chains, i + 1);
    }
  }

  lemma {:induction false} Locate<K, V>(chains: seq<Chain<K, V>>, m: nat) returns (i: nat, k: nat)
    requires m < |Order(chains)|
    ensures i < |chains| && k < |chains[i]| && chains[i][k] == Order(chains)[m]
    ensures m == |Order(chains[..i])| + k
  {
    var n := |chains| - 1;
    var front := chains[..n];
    if m < |Order(front)| {
      i, k := Locate(front, m);
      assert front[..i] == chains[..i];
    } else {
      i, k := n, m - |Order(front)|;
    }
  }

  lemma OrderAt<K, V>(chains: seq<Chain<K, V>>, i: nat, k: nat)
    requires i < |chains| && k < |chains[i]|
    ensures |Order(chains[..i])| + k < |Order(chains)| && Order(chains)[|Order(chains[..i])| + k] == chains[i][k]
  {
    OrderStep(chains, i);
    OrderPrefix(chains, i + 1);
  }

  /** Behind an entry comes the next of its chain, or what the later chains start with. */
  lemma Successor<K, V>(chains: seq<Chain<K, V>>, i: nat, k: nat)
    requires i < |chains| && k < |chains[i]|
    ensures At(Order(chains), |Order(chains[..i])| + k + 1)
         == if k + 1 < |chains[i]| then chains[i][k + 1] else At(Order(chains), |Order(chains[..i + 1])|)
  {
    OrderStep(chains, i);
    if k + 1 < |chains[i]| {
      OrderAt(chains, i, k + 1);
    }
  }

  lemma {:induction false} DistinctCount<T>(s: seq<T>, members: set<T>)
    requires forall a, b :: 0 <= a < b < |s| ==> s[a] != s[b]
    requires forall x :: x in members <==> x in s
    ensures |members| == |s|
  {
    if s == [] {
      assert members == {};
    } else {
      var x := s[|s| - 1];
      assert s == s[..|s| - 1] + [x];
      DistinctCount(s[..|s| - 1], members - {x});
    }
  }

  /** The order lists every entry of the table exactly once. */
  lemma OrderVisitsOnce<K, V>(s: Shape<K, V>, hash: K -> nat)
    requires Consistent(s, hash)
    ensures forall a, b :: 0 <= a < b < |Order(s.chains)| ==> Order(s.chains)[a].key != Order(s.chains)[b].key
    ensures forall e :: e in s.entries <==> e in Order(s.chains)
    ensures |Order(s.chains)| == |s.contents|
  {
    var order := Order(s.chains);
    forall a, b | 0 <= a < b < |order|
      ensures order[a].key != order[b].key
    {
      var i, k := Locate(s.chains, a);
      var j, l := Locate(s.chains, b);
      if i == j {
        assert s.chains[i][k].key != s.chains[i][l].key;
      }
    }
    forall e | e in s.entries
      ensures e in order
    {
      assert Present(e, s.entries);
      var i := Bucket(e.hashKey, |s.chains|);
      var k :| 0 <= k < |s.chains[i]| && s.chains[i][k] == e;
      OrderAt(s.chains, i, k);
    }
    forall e | e in order
      ensures e in s.entries
    {
      var m :| 0 <= m < |order| && order[m] == e;
      var i, k := Locate(s.chains, m);
    }
    var keys := seq(|order|, m requires 0 <= m < |order| => order[m].key);
    forall key | key in s.contents
      ensures key in keys
    {
      assert s.index[key] in order;
      var m :| 0 <= m < |order| && order[m] == s.index[key];
      assert keys[m] == key;
    }
    DistinctCount(keys, s.contents.Keys);
  }

  // ---------------------------------------------------------------- runs

  /** The calls a client makes, and what each means for a mathematical map. */
  datatype Call<K, V> = PutCall(key: K, value: V) | RemoveCall(key: K) | GetCall(key: K) | CleanCall

  function Apply<K, V>(m: map<K, V>, c: Call<K, V>): (m': map<K, V>) {
    match c
    case PutCall(key, value) => m[key := value]
    case RemoveCall(key) => m - {key}
    case GetCall(_) => m
    case CleanCall => map[]
  }

  function ApplyAll<K, V>(m: map<K, V>, calls: seq<Call<K, V>>): (m': map<K, V>) {
    if calls == [] then m else Apply(ApplyAll(m, calls[..|calls| - 1]), calls[|calls| - 1])
  }

  /** What the get calls of a run answer. */
  function Answers<K, V>(m: map<K, V>, calls: seq<Call<K, V>>): (answers: seq<Option<V>>) {
    if calls == [] then []
    else
      var front, last := calls[..|calls| - 1], calls[|calls| - 1];
      var now := ApplyAll(m, front);
      Answers(m, front)
      + if !last.GetCall? then [] else [if last.key in now then Some(now[last.key]) else None]
  }

  // ---------------------------------------------------------------- the table

  class Table<K(==), V> {
    var tab: array<Entry?<K, V>>
    var nelem: nat
    const hash: K -> nat
    ghost var shape: Shape<K, V>

    ghost predicate Valid()
      reads this, tab, shape.entries
    {
      && 0 < tab.Length
      && Reflects(tab, shape)
      && Consistent(shape, hash)
      && nelem == |shape.contents|
    }

    constructor (size: nat, hash: K -> nat)
      requires 0 < size
      ensures Valid() && fresh(tab) && shape.entries == {} && shape.contents == map[] && this.hash == hash
    {
      var t, c := NewBuckets<K, V>(size);
      tab, nelem := t, 0;
      this.hash := hash;
      shape := Shape(c, {}, map[], map[]);
    }

    /** The fields follow what the links already say. */
    method Settle(tab: array<Entry?<K, V>>, nelem: nat, ghost s: Shape<K, V>)
      requires 0 < tab.Length && Reflects(tab, s) && Consistent(s, hash) && nelem == |s.contents|
      modifies this`tab, this`nelem, this`shape
      ensures Valid() && shape == s && this.tab == tab
    {
      this.tab := tab;
      this.nelem := nelem;
      shape := s;
    }

    /** The chain walk that get, get_entry, put and remove start with. */
    method Find(key: K) returns (p: Entry?<K, V>, i: nat, ghost k: nat)
      requires Valid()
      ensures p == null <==> key !in shape.contents
      ensures i == Bucket(hash(key), tab.Length)
      ensures p != null ==> p.key == key && p in shape.entries && k < |shape.chains[i]| && shape.chains[i][k] == p
    {
      i := Bucket(hash(key), tab.Length);
      assert key in shape.index ==> Present(shape.index[key], shape.entries);
      p, k := Walk(tab[i], key, shape.chains[i]);
    }

    method Get(key: K) returns (value: Option<V>)
      requires Valid()
      ensures value == if key in shape.contents then Some(shape.contents[key]) else None
    {
      var p, i, k := Find(key);
      value := if p == null then None else Some(p.value);
    }

    /** Doubling the buckets changes where entries sit and nothing else. */
    method Rehash()
      requires Valid()
      modifies this`tab, this`nelem, this`shape, shape.entries`next, shape.entries`prev
      ensures Valid() && fresh(tab) && tab.Length == 2 * old(tab.Length)
      ensures shape == old(shape).(chains := shape.chains)
    {
      var newTab, newChains := NewBuckets<K, V>(2 * tab.Length);
      newChains := MoveAll(tab, shape.chains, shape.entries, newTab, newChains);
      Settle(newTab, nelem, shape.(chains := newChains));
    }

    method Put(key: K, value: V)
      requires Valid()
      modifies this, tab, shape.entries
      ensures Valid() && shape.contents == old(shape.contents)[key := value]
      ensures (tab == old(tab) || fresh(tab)) && fresh(shape.entries - old(shape.entries))
      ensures var crowded := key !in old(shape.contents) && 10 * |old(shape.contents)| > 13 * old(tab.Length);
              tab.Length == if crowded then 2 * old(tab.Length) else old(tab.Length)
    {
      var p, i, k := Find(key);
      if p != null {
        Replace(p, value);
      } else {
        if 10 * nelem > 13 * tab.Length {
          Rehash();
        }
        Insert(key, value);
      }
    }

    /** The first half of put: an entry that is already in its chain gets the new value. */
    method Replace(p: Entry<K, V>, value: V)
      requires Valid() && p in shape.entries
      modifies this`tab, this`nelem, this`shape, p`value
      ensures Valid() && shape == old(shape).(contents := old(shape.contents)[p.key := value]) && tab == old(tab)
    {
      p.value := value;
      ghost var s := shape.(contents := shape.contents[p.key := value]);
      assert s.contents.Keys == shape.contents.Keys;
      Settle(tab, nelem, s);
    }

    /** The second half of put: a key that is not in the table gets an entry. */
    method Insert(key: K, value: V)
      requires Valid() && key !in shape.contents
      modifies this`tab, this`nelem, this`shape, tab, shape.entries`prev
      ensures Valid() && shape.contents == old(shape.contents)[key := value] && tab == old(tab)
      ensures fresh(shape.entries - old(shape.entries))
    {
      var p := new Entry<K, V>(hash(key), key, value);
      ghost var s := AddEntry(tab, p, shape, hash);
      Settle(tab, nelem + 1, s);
    }

    /** An absent key is an error message and nothing else. */
    method Remove(key: K)
      requires Valid()
      modifies this`tab, this`nelem, this`shape, tab, shape.entries`next, shape.entries`prev
      ensures tab == old(tab)
      ensures Valid() && shape.contents == old(shape.contents) - {key} && shape.entries <= old(shape.entries)
    {
      var p, i, k := Find(key);
      if p != null {
        Delete(p, i, k);
      }
    }

    method Delete(p: Entry<K, V>, i: nat, ghost k: nat)
      requires Valid() && i < tab.Length && k < |shape.chains[i]| && shape.chains[i][k] == p
      modifies this`tab, this`nelem, this`shape, tab, shape.entries`next, shape.entries`prev
      ensures tab == old(tab)
      ensures Valid() && shape.contents == old(shape.contents) - {p.key} && shape.entries <= old(shape.entries)
    {
      ghost var s := DropEntry(tab, i, p, k, shape, hash);
      Settle(tab, nelem - 1, s);
    }

    method Clean()
      requires Valid()
      modifies this`tab, this`nelem, this`shape, tab
      ensures Valid() && shape.contents == map[] && shape.entries == {} && tab == old(tab)
    {
      var tab := tab;
      for i := 0 to tab.Length
        modifies tab
        invariant forall l :: 0 <= l < i ==> tab[l] == null
      {
        tab[i] := null;
      }
      Settle(tab, 0, Shape(seq(tab.Length, _ => []), {}, map[], map[]));
    }

    /** The scan for the next non-empty bucket that begin and next share. */
    method FirstFrom(start: nat) returns (e: Entry?<K, V>)
      requires Valid() && start <= tab.Length
      ensures e == At(Order(shape.chains), |Order(shape.chains[..start])|)
    {
      ghost var chains := shape.chains;
      for j := start to tab.Length
        invariant Order(chains[..j]) == Order(chains[..start])
      {
        OrderStep(chains, j);
        OrderPrefix(chains, j + 1);
        if tab[j] != null {
          return tab[j];
        }
      }
      assert chains[..tab.Length] == chains;
      return null;
    }

    method Begin() returns (e: Entry?<K, V>)
      requires Valid()
      ensures e == At(Order(shape.chains), 0)
    {
      e := FirstFrom(0);
      assert shape.chains[..0] == [];
    }

    /** Where the entry at position m stands: in its own bucket's chain, linked to the next one there. */
    lemma Place(entry: Entry<K, V>, m: nat) returns (i: nat, k: nat)
      requires Valid() && m < |Order(shape.chains)| && Order(shape.chains)[m] == entry
      ensures i < |shape.chains| && k < |shape.chains[i]| && m == |Order(shape.chains[..i])| + k
      ensures entry.next == At(shape.chains[i], k + 1) && i == Bucket(entry.hashKey, tab.Length)
    {
      i, k := Locate(shape.chains, m);
      assert shape.chains[i][k].next == At(shape.chains[i], k + 1);
    }

    /** The entry that follows position m, which holds the given entry. */
    method Next(entry: Entry<K, V>, ghost m: nat) returns (e: Entry?<K, V>)
      requires Valid() && m < |Order(shape.chains)| && Order(shape.chains)[m] == entry
      ensures e == At(Order(shape.chains), m + 1)
    {
      ghost var i, k := Place(entry, m);
      Successor(shape.chains, i, k);
      if entry.next != null {
        return entry.next;
      }
      e := FirstFrom(Bucket(entry.hashKey, tab.Length) + 1);
    }

    /** zc_hashtable_foreach: terminates after every position of the order has been visited. */
    method ForEach() returns (visited: seq<Entry<K, V>>)
      requires Valid()
      ensures visited == Order(shape.chains)
      ensures |visited| == nelem
    {
      ghost var order := Order(shape.chains);
      visited := [];
      var e := Begin();
      while e != null
        invariant |visited| <= |order| && visited == order[..|visited|] && e == At(order, |visited|)
        decreases |order| - |visited|
      {
        ghost var m := |visited|;
        visited := visited + [e];
        e := Next(e, m);
      }
      OrderVisitsOnce(shape, hash);
    }

    method Perform(c: Call<K, V>) returns (answer: seq<Option<V>>)
      requires Valid()
      modifies this, tab, shape.entries
      ensures Valid() && shape.contents == Apply(old(shape.contents), c)
      ensures (tab == old(tab) || fresh(tab)) && fresh(shape.entries - old(shape.entries))
      ensures var m := old(shape.contents);
              answer == if !c.GetCall? then [] else [if c.key in m then Some(m[c.key]) else None]
    {
      answer := [];
      match c {
        case PutCall(key, value) => Put(key, value);
        case RemoveCall(key) => Remove(key);
        case GetCall(key) =>
          var value := Get(key);
          answer := [value];
        case CleanCall => Clean();
      }
    }

    /** Every run of calls, with all the rehashes its puts trigger, behaves as the same run on a map. */
    method PerformAll(calls: seq<Call<K, V>>) returns (answers: seq<Option<V>>)
      requires Valid()
      modifies this, tab, shape.entries
      ensures Valid() && shape.contents == ApplyAll(old(shape.contents), calls)
      ensures nelem == |ApplyAll(old(shape.contents), calls)|
      ensures answers == Answers(old(shape.contents), calls)
    {
      answers := [];
      for i := 0 to |calls|
        invariant Valid() && shape.contents == ApplyAll(old(shape.contents), calls[..i])
        invariant (tab == old(tab) || fresh(tab)) && fresh(shape.entries - old(shape.entries))
        invariant answers == Answers(old(shape.contents), calls[..i])
      {
        assert calls[..i + 1][..i] == calls[..i];
        var answer := Perform(calls[i]);
        answers := answers + answer;
      }
      assert calls[..|calls|] == calls;
    }
  }
}
