/** The chained hash table of redis/dict.c refines a finite map, through every expansion. */
module Dict {
  import opened DictChains

  // ---------------------------------------------------------------- invariants

  /** The slot of a key: `h & sizemask`. */
  function SlotOf<K>(hash: K -> nat, key: K, size: nat): nat {
    And(hash(key), if size == 0 then 0 else size - 1)
  }

  /** Every entry is in the chain of its slot, once, and no two entries have one key. */
  ghost predicate Placed<K, V>(hash: K -> nat, chains: seq<seq<Entry<K, V>>>, entries: set<Entry<K, V>>, size: nat) {
    && |chains| == size
    && entries == Members(chains)
    && (forall i, j :: 0 <= i < |chains| && 0 <= j < |chains[i]| ==> SlotOf(hash, chains[i][j].key, size) == i)
    && (forall i :: 0 <= i < |chains| ==> Distinct(chains[i]))
    && (forall e, e' :: e in entries && e' in entries && e.key == e'.key ==> e == e')
  }

  /** The entries are exactly the pairs of the map. */
  ghost predicate Holds<K, V>(entries: set<Entry<K, V>>, contents: map<K, V>)
    reads entries`val
  {
    && (forall e :: e in entries ==> e.key in contents && contents[e.key] == e.val)
    && (forall k :: k in contents ==> HasKey(entries, k))
  }

  ghost predicate HasKey<K, V>(entries: set<Entry<K, V>>, k: K) { exists e :: e in entries && e.key == k }

  ghost predicate Chained<K, V>(heads: seq<Entry?<K, V>>, chains: seq<seq<Entry<K, V>>>)
    reads Members(chains)`next
  {
    |heads| == |chains| && forall i :: 0 <= i < |chains| ==> LinkedIn(heads, chains, i)
  }

  ghost predicate LinkedIn<K, V>(heads: seq<Entry?<K, V>>, chains: seq<seq<Entry<K, V>>>, i: nat)
    requires i < |heads| == |chains|
    reads Members(chains)`next
  {
    InMembers(chains, i);
    Linked(heads[i], chains[i])
  }

  lemma InMembers<T>(chains: seq<seq<T>>, i: nat)
    requires i < |chains|
    ensures forall x :: x in chains[i] ==> x in Members(chains)
  {
    forall x | x in chains[i] ensures x in Members(chains) {
      var j :| 0 <= j < |chains[i]| && chains[i][j] == x;
    }
  }

  // ---------------------------------------------------------------- one new entry, one entry less

  lemma PlacedPush<K, V>(hash: K -> nat, chains: seq<seq<Entry<K, V>>>, entries: set<Entry<K, V>>, size: nat,
                         h: nat, e: Entry<K, V>)
    requires Placed(hash, chains, entries, size) && h < size && SlotOf(hash, e.key, size) == h
    requires forall x :: x in entries ==> x.key != e.key
    ensures Placed(hash, chains[h := [e] + chains[h]], entries + {e}, size)
    ensures Members(chains[h := [e] + chains[h]]) == entries + {e}
    ensures Total(chains[h := [e] + chains[h]]) == Total(chains) + 1
  {
    hide SlotOf;
    var after: seq<seq<Entry<K, V>>> := chains[h := [e] + chains[h]];
    MembersPush(chains, h, e);
    TotalUpdate(chains, h, [e] + chains[h]);
    InMembers(chains, h);
    assert Distinct(after[h]);
    forall i, j | 0 <= i < |after| && 0 <= j < |after[i]|
      ensures SlotOf(hash, after[i][j].key, size) == i
    {
      if i != h { assert after[i][j] == chains[i][j]; } else if j > 0 { assert after[h][j] == chains[h][j - 1]; }
    }
  }

  lemma PlacedDrop<K, V>(hash: K -> nat, chains: seq<seq<Entry<K, V>>>, entries: set<Entry<K, V>>, size: nat,
                         h: nat, k: nat)
    requires Placed(hash, chains, entries, size) && h < size && k < |chains[h]|
    ensures Placed(hash, chains[h := chains[h][..k] + chains[h][k + 1..]], entries - {chains[h][k]}, size)
    ensures Members(chains[h := chains[h][..k] + chains[h][k + 1..]]) == entries - {chains[h][k]}
    ensures Total(chains[h := chains[h][..k] + chains[h][k + 1..]]) == Total(chains) - 1
  {
    hide SlotOf;
    var c: seq<Entry<K, V>> := chains[h][..k] + chains[h][k + 1..];
    var after: seq<seq<Entry<K, V>>> := chains[h := c];
    forall i, j | 0 <= i < |chains| && 0 <= j < |chains[i]| && chains[i][j] == chains[h][k]
      ensures i == h && j == k
    {
      assert i == SlotOf(hash, chains[i][j].key, size) == h;
    }
    MembersDrop(chains, h, k);
    TotalUpdate(chains, h, c);
    assert Distinct(after[h]);
    forall i, j | 0 <= i < |after| && 0 <= j < |after[i]|
      ensures SlotOf(hash, after[i][j].key, size) == i
    {
      if i == h { assert after[h][j] == chains[h][if j < k then j else j + 1]; } else { assert after[i][j] == chains[i][j]; }
    }
  }

  /** A key that is not in the chain of its slot is nowhere. */
  lemma NotInChain<K, V>(hash: K -> nat, chains: seq<seq<Entry<K, V>>>, entries: set<Entry<K, V>>, size: nat, key: K)
    requires Placed(hash, chains, entries, size)
    requires SlotOf(hash, key, size) < size ==>
               forall j :: 0 <= j < |chains[SlotOf(hash, key, size)]| ==> chains[SlotOf(hash, key, size)][j].key != key
    ensures forall e :: e in entries ==> e.key != key
  {
    hide SlotOf;
    forall e | e in entries
      ensures e.key != key
    {
      var a, b :| 0 <= a < |chains| && 0 <= b < |chains[a]| && chains[a][b] == e;
      assert SlotOf(hash, chains[a][b].key, size) == a;
    }
  }

  lemma SlotBelow<K>(hash: K -> nat, key: K, size: nat)
    requires IsTableSize(size)
    ensures And(hash(key), size - 1) == SlotOf(hash, key, size) < size
  {
    SlotInRange(hash(key), size);
  }

  // ---------------------------------------------------------------- relinking

  /** In the middle of an expansion: some entries are in the new table already, the rest are
      still in the chains `rem` of the old one. */
  ghost predicate Moving<K, V>(hash: K -> nat, entries: set<Entry<K, V>>,
                               size: nat, heads: seq<Entry?<K, V>>, rem: seq<seq<Entry<K, V>>>,
                               size': nat, heads': seq<Entry?<K, V>>, nch: seq<seq<Entry<K, V>>>)
    reads Members(rem)`next, Members(nch)`next
  {
    && Placed(hash, rem, Members(rem), size) && Chained(heads, rem)
    && Placed(hash, nch, Members(nch), size') && Chained(heads', nch)
    && Members(rem) !! Members(nch) && Members(rem) + Members(nch) == entries
    && (forall e, e' :: e in entries && e' in entries && e.key == e'.key ==> e == e')
  }

  ghost function NoChains<T>(n: nat): seq<seq<T>> { seq(n, _ => []) }

  lemma NothingMoved<K, V>(hash: K -> nat, heads: seq<Entry?<K, V>>, chains: seq<seq<Entry<K, V>>>,
                           entries: set<Entry<K, V>>, size: nat, heads': seq<Entry?<K, V>>, size': nat)
    requires Placed(hash, chains, entries, size) && Chained(heads, chains)
    requires |heads'| == size' && forall i :: 0 <= i < size' ==> heads'[i] == null
    ensures Moving(hash, entries, size, heads, chains, size', heads', NoChains(size'))
    ensures Total(NoChains<Entry<K, V>>(size')) == 0
  {
    var none: seq<seq<Entry<K, V>>> := NoChains(size');
    assert Members(none) == {};
    TotalZero(none);
    forall i | 0 <= i < size' ensures LinkedIn(heads', none, i) {}
  }

  lemma FirstLeft<K, V>(hash: K -> nat, entries: set<Entry<K, V>>,
                        size: nat, heads: seq<Entry?<K, V>>, rem: seq<seq<Entry<K, V>>>,
                        size': nat, heads': seq<Entry?<K, V>>, nch: seq<seq<Entry<K, V>>>, i: nat)
    requires Moving(hash, entries, size, heads, rem, size', heads', nch) && i < |heads| && heads[i] != null
    ensures |heads| == |rem| == size && |heads'| == |nch| == size'
    ensures rem[i] != [] && heads[i] == rem[i][0] && heads[i] in entries && Total(rem) > 0
  {
    ChainIs(heads, rem, i);
    InMembers(rem, i);
    if Total(rem) == 0 { TotalZero(rem); }
  }

  lemma NoneLeft<K, V>(hash: K -> nat, entries: set<Entry<K, V>>,
                       size: nat, heads: seq<Entry?<K, V>>, rem: seq<seq<Entry<K, V>>>,
                       size': nat, heads': seq<Entry?<K, V>>, nch: seq<seq<Entry<K, V>>>, i: nat)
    requires Moving(hash, entries, size, heads, rem, size', heads', nch) && i < |heads| && heads[i] == null
    ensures |rem| == |heads| && rem[i] == []
  {
    ChainIs(heads, rem, i);
  }

  lemma AllMoved<K, V>(hash: K -> nat, entries: set<Entry<K, V>>,
                       size: nat, heads: seq<Entry?<K, V>>, rem: seq<seq<Entry<K, V>>>,
                       size': nat, heads': seq<Entry?<K, V>>, nch: seq<seq<Entry<K, V>>>)
    requires Moving(hash, entries, size, heads, rem, size', heads', nch)
    requires Total(rem) == 0 || forall i :: 0 <= i < size ==> i < |rem| && rem[i] == []
    ensures Total(rem) == 0 && Members(nch) == entries && |nch| == |heads'| == size'
    ensures Placed(hash, nch, entries, size') && Chained(heads', nch)
  {
    TotalZero(rem);
    assert Members(rem) == {};
  }

  lemma MovePlaced<K, V>(hash: K -> nat, entries: set<Entry<K, V>>,
                         size: nat, heads: seq<Entry?<K, V>>, rem: seq<seq<Entry<K, V>>>,
                         size': nat, heads': seq<Entry?<K, V>>, nch: seq<seq<Entry<K, V>>>, i: nat, h: nat)
    requires Moving(hash, entries, size, heads, rem, size', heads', nch)
    requires i < |rem| && rem[i] != [] && h == SlotOf(hash, rem[i][0].key, size') < size' == |nch|
    ensures var rem', nch' := rem[i := rem[i][1..]], nch[h := [rem[i][0]] + nch[h]];
      && Placed(hash, rem', Members(rem'), size) && Placed(hash, nch', Members(nch'), size')
      && Members(rem') == Members(rem) - {rem[i][0]} && Members(nch') == Members(nch) + {rem[i][0]}
      && Members(rem') !! Members(nch') && Members(rem') + Members(nch') == entries
      && Total(rem') == Total(rem) - 1 && Total(nch') == Total(nch) + 1
      && rem[i][0] !in Members(nch)
  {
    hide Chained, SlotOf, Total;
    var he := rem[i][0];
    InMembers(rem, i);
    assert he in rem[i];
    assert rem[i][..0] + rem[i][0 + 1..] == rem[i][1..];
    PlacedDrop(hash, rem, Members(rem), size, i, 0);
    PlacedPush(hash, nch, Members(nch), size', h, he);
  }

  lemma ChainedPop<K, V>(heads: seq<Entry?<K, V>>, chains: seq<seq<Entry<K, V>>>, i: nat)
    requires Chained(heads, chains) && i < |heads| == |chains| && chains[i] != []
    ensures Chained(heads[i := chains[i][0].next], chains[i := chains[i][1..]])
  {
    var c := chains[i];
    var heads', chains' := heads[i := c[0].next], chains[i := c[1..]];
    forall k | 0 <= k < |chains'|
      ensures LinkedIn(heads', chains', k)
    {
      assert LinkedIn(heads, chains, k);
      if k == i { LinkedPop(heads[i], c); }
    }
  }

  lemma LinkedPop<K, V>(head: Entry?<K, V>, c: seq<Entry<K, V>>)
    requires Linked(head, c) && c != []
    ensures Linked(c[0].next, c[1..])
  {
    assert c[0].next == Next(c, 0);
    forall j | 0 <= j < |c[1..]|
      ensures c[1..][j].next == Next(c[1..], j)
    {
      assert c[j + 1].next == Next(c, j + 1);
    }
  }

  // ---------------------------------------------------------------- the table

  class Dict<K(==,!new), V> {
    /** The hash function; its values are unsigned ints. */
    const hash: K -> nat

    var table: array<Entry?<K, V>>
    var size: nat
    var sizemask: nat
    var used: nat

    ghost var chains: seq<seq<Entry<K, V>>>
    ghost var entries: set<Entry<K, V>>
    ghost var contents: map<K, V>

    /** The shape of the table. */
    ghost predicate Shaped()
      reads this
    {
      && table.Length == size == |chains| && entries == Members(chains)
      && (size == 0 || IsTableSize(size))
      && sizemask == (if size == 0 then 0 else size - 1)
      && used == Total(chains) == |contents| <= size
    }

    ghost predicate Valid()
      reads this, table, entries
    {
      && Shaped() && Placed(hash, chains, entries, size)
      && Chained(table[..], chains) && Holds(entries, contents)
    }

    constructor (hash: K -> nat)
      ensures Valid() && contents == map[] && entries == {} && fresh(table) && this.hash == hash
    {
      this.hash := hash;
      table := new Entry?<K, V>[0];
      size, sizemask, used := 0, 0, 0;
      chains, entries, contents := [], {}, map[];
    }

    /** dictFind. */
    method Find(key: K) returns (e: Entry?<K, V>)
      requires Valid()
      ensures e == null <==> key !in contents
      ensures e != null ==> e in entries && e.key == key && contents[key] == e.val
    {
      if size == 0 {
        NothingHeld(hash, chains, entries, size, contents);
        return null;
      }
      SlotBelow(hash, key, size);
      var h := And(hash(key), sizemask);
      e := Search(h, key);
    }

    /** The loop along the chain of a slot. */
    method Search(h: nat, key: K) returns (e: Entry?<K, V>)
      requires Valid() && h < size && h == SlotOf(hash, key, size)
      ensures e == null <==> key !in contents
      ensures e != null ==> e in entries && e.key == key && contents[key] == e.val
    {
      hide Placed, Holds, Members, Total, IsTableSize, SlotOf;
      e := table[h];
      ghost var j := 0;
      ChainIs(table[..], chains, h);
      while e != null
        invariant 0 <= j <= |chains[h]|
        invariant e == At(chains[h], j)
        invariant forall i :: 0 <= i < j ==> chains[h][i].key != key
        decreases |chains[h]| - j
      {
        if e.key == key {
          HeldEntry(hash, chains, entries, size, contents, h, j);
          return e;
        }
        assert e.next == Next(chains[h], j);
        e := e.next;
        j := j + 1;
      }
      NotInChain(hash, chains, entries, size, key);
      NotHeld(entries, contents, key);
    }

    /** dictExpand: every entry is relinked into a table of the new size. */
    method Expand(newSize: nat) returns (ok: bool)
      requires Valid() && newSize <= MAX_SIZE
      modifies this, table, entries`next
      ensures Valid() && contents == old(contents) && entries == old(entries) && used == old(used)
      ensures ok == (used <= newSize)
      ensures if ok then size >= newSize && (size == INITIAL_SIZE || size < 2 * newSize) && fresh(table)
              else size == old(size) && table == old(table)
    {
      hide Placed, Holds, Chained, Members, Total, IsTableSize, SlotOf;
      var realSize := NextPower(newSize);
      if used > newSize { return false; }
      var nt := new Entry?<K, V>[realSize](_ => null);
      var total := used;
      ghost var heads, rem := table[..], chains;
      ghost var nch: seq<seq<Entry<K, V>>> := NoChains(realSize);
      NothingMoved(hash, heads, rem, entries, size, nt[..], realSize);
      var i := 0;
      while i < size && used > 0
        invariant 0 <= i <= size == |heads| == |rem| && nt.Length == realSize && table.Length == size
        invariant Moving(hash, entries, size, heads, rem, realSize, nt[..], nch)
        invariant forall k :: i <= k < size ==> heads[k] == table[k]
        invariant forall k :: 0 <= k < i ==> rem[k] == []
        invariant used == Total(rem) && used + Total(nch) == total
        invariant Holds(entries, contents)
        modifies this`used, nt, entries`next
      {
        heads, rem, nch := MoveChain(i, nt, heads, rem, nch);
        i := i + 1;
      }
      AllMoved(hash, entries, size, heads, rem, realSize, nt[..], nch);
      Remap(nt, total, nch);
      return true;
    }

    /** The inner loop of dictExpand: the whole chain of slot `i`. */
    method MoveChain(i: nat, nt: array<Entry?<K, V>>, ghost heads0: seq<Entry?<K, V>>,
                     ghost rem0: seq<seq<Entry<K, V>>>, ghost nch0: seq<seq<Entry<K, V>>>)
      returns (ghost heads: seq<Entry?<K, V>>, ghost rem: seq<seq<Entry<K, V>>>, ghost nch: seq<seq<Entry<K, V>>>)
      requires i < size == table.Length == |heads0| == |rem0| && IsTableSize(nt.Length) && nt != table
      requires Moving(hash, entries, size, heads0, rem0, nt.Length, nt[..], nch0)
      requires heads0[i] == table[i] && used == Total(rem0) && Holds(entries, contents)
      modifies this`used, nt, entries`next
      ensures Moving(hash, entries, size, heads, rem, nt.Length, nt[..], nch)
      ensures |heads| == |rem| == size && rem[i] == []
      ensures forall k :: 0 <= k < size && k != i ==> heads[k] == heads0[k] && rem[k] == rem0[k]
      ensures used == Total(rem) && used + Total(nch) == old(used) + Total(nch0) && Holds(entries, contents)
    {
      hide Placed, Holds, Chained, Members, Total, IsTableSize, SlotOf, Moving;
      heads, rem, nch := heads0, rem0, nch0;
      var he := table[i];
      while he != null
        invariant size == |heads| == |rem|
        invariant Moving(hash, entries, size, heads, rem, nt.Length, nt[..], nch)
        invariant heads[i] == he
        invariant forall k :: 0 <= k < size && k != i ==> heads[k] == heads0[k] && rem[k] == rem0[k]
        invariant used == Total(rem) && used + Total(nch) == old(used) + Total(nch0)
        invariant Holds(entries, contents)
        decreases used
      {
        FirstLeft(hash, entries, size, heads, rem, nt.Length, nt[..], nch, i);
        SlotBelow(hash, he.key, nt.Length);
        var nextHe := he.next;
        var h := And(hash(he.key), nt.Length - 1);
        MoveEntry(he, h, nt, i, heads, rem, nch);
        heads, rem, nch := heads[i := nextHe], rem[i := rem[i][1..]], nch[h := [he] + nch[h]];
        used := used - 1;
        he := nextHe;
      }
      NoneLeft(hash, entries, size, heads, rem, nt.Length, nt[..], nch, i);
    }

    /** One entry goes from the head of its old chain to the head of its new one. */
    method MoveEntry(he: Entry<K, V>, h: nat, nt: array<Entry?<K, V>>, ghost i: nat, ghost heads: seq<Entry?<K, V>>,
                     ghost rem: seq<seq<Entry<K, V>>>, ghost nch: seq<seq<Entry<K, V>>>)
      requires Moving(hash, entries, size, heads, rem, nt.Length, nt[..], nch)
      requires i < |heads| == |rem| == size && rem[i] != [] && heads[i] == he == rem[i][0]
      requires h == SlotOf(hash, he.key, nt.Length) < nt.Length == |nch|
      modifies he`next, nt
      ensures Moving(hash, entries, size, heads[i := old(he.next)], rem[i := rem[i][1..]],
                     nt.Length, nt[..], nch[h := [he] + nch[h]])
      ensures Total(rem[i := rem[i][1..]]) == Total(rem) - 1 && Total(nch[h := [he] + nch[h]]) == Total(nch) + 1
    {
      hide Placed, Holds, Chained, Members, Total, IsTableSize, SlotOf;
      MovePlaced(hash, entries, size, heads, rem, nt.Length, nt[..], nch, i, h);
      ChainedPop(heads, rem, i);
      ghost var heads' := nt[..];
      he.next := nt[h];
      ChainedPush(heads', nch, h, he);
      nt[h] := he;
      assert nt[..] == heads'[h := he];
    }

    /** The new table takes the place of the old one. */
    method Remap(nt: array<Entry?<K, V>>, used': nat, ghost nch: seq<seq<Entry<K, V>>>)
      requires 0 < nt.Length && IsTableSize(nt.Length) && |nch| == nt.Length && entries == Members(nch)
      requires used' == Total(nch) == |contents| <= nt.Length
      requires Placed(hash, nch, entries, nt.Length) && Chained(nt[..], nch) && Holds(entries, contents)
      modifies this`table, this`size, this`sizemask, this`used, this`chains
      ensures Valid() && table == nt && size == nt.Length && used == used'
    {
      hide Placed, Holds, Chained, Members, Total, IsTableSize, SlotOf;
      table := nt;
      size := nt.Length;
      sizemask := nt.Length - 1;
      used := used';
      chains := nch;
      assert Chained(nt[..], nch);
    }

    /** The last part of dictAdd: a new entry at the head of its chain. */
    method Push(h: nat, key: K, val: V)
      requires Valid() && h < size && SlotOf(hash, key, size) == h && key !in contents && used < size
      modifies this, table
      ensures Valid() && contents == old(contents)[key := val] && used == old(used) + 1
      ensures table == old(table) && size == old(size) && fresh(entries - old(entries))
    {
      hide Placed, Holds, Chained, Members, Total, IsTableSize, SlotOf;
      var entry := new Entry(key, val, table[h]);
      ghost var chains' := chains[h := [entry] + chains[h]];
      ghost var entries', contents' := entries + {entry}, contents[key := val];
      Link(h, entry);
      KeyIsNew(entries, contents, key);
      PlacedPush(hash, chains, entries, size, h, entry);
      HoldsMore(entries, contents, entry);
      assert contents'.Keys == contents.Keys + {key};
      Record(used + 1, chains', entries', contents');
    }

    /** The bookkeeping of a changed table. */
    method Record(used': nat, ghost chains': seq<seq<Entry<K, V>>>, ghost entries': set<Entry<K, V>>,
                  ghost contents': map<K, V>)
      requires table.Length == size == |chains'| && entries' == Members(chains')
      requires size == 0 || IsTableSize(size)
      requires sizemask == (if size == 0 then 0 else size - 1)
      requires used' == Total(chains') == |contents'| <= size
      requires Placed(hash, chains', entries', size) && Chained(table[..], chains') && Holds(entries', contents')
      modifies this`used, this`chains, this`entries, this`contents
      ensures Valid() && used == used' && chains == chains' && entries == entries' && contents == contents'
    {
      hide Placed, Holds, Chained, Members, Total, IsTableSize, SlotOf;
      used := used';
      chains, entries, contents := chains', entries', contents';
      assert Holds(entries', contents');
      assert Chained(table[..], chains');
    }

    method Link(h: nat, entry: Entry<K, V>)
      requires table.Length == |chains| && h < table.Length && Chained(table[..], chains) && entry.next == table[h]
      modifies table
      ensures Chained(table[..], chains[h := [entry] + chains[h]])
    {
      ChainedPush(table[..], chains, h, entry);
      ghost var heads := table[..][h := entry];
      table[h] := entry;
      assert table[..] == heads;
    }

    /** _dictExpandIfNeeded. */
    method ExpandIfNeeded() returns (ok: bool)
      requires Valid() && used < MAX_SIZE
      modifies this, table, entries`next
      ensures Valid() && contents == old(contents) && entries == old(entries) && used == old(used)
      ensures ok && used < size && (table == old(table) || fresh(table))
    {
      hide Placed, Holds, Chained, Members, Total, IsTableSize, SlotOf;
      ok := true;
      if size == 0 {
        ok := Expand(INITIAL_SIZE);
      } else if used == size {
        TableDoubles(size);
        ok := Expand(size * 2);
      }
    }

    /** _dictKeyIndex. */
    method KeyIndex(key: K) returns (index: int)
      requires Valid() && used < MAX_SIZE
      modifies this, table, entries`next
      ensures Valid() && contents == old(contents) && entries == old(entries) && used == old(used)
      ensures used < size && (table == old(table) || fresh(table))
      ensures if key in contents then index == -1 else 0 <= index < size && index == SlotOf(hash, key, size)
    {
      hide Placed, Holds, Chained, Members, Total, IsTableSize, SlotOf;
      var ok := ExpandIfNeeded();
      if !ok { return -1; }
      SlotBelow(hash, key, size);
      var h := And(hash(key), sizemask);
      var e := Search(h, key);
      return if e != null then -1 else h;
    }

    /** dictAdd. */
    method Add(key: K, val: V) returns (ok: bool)
      requires Valid() && used < MAX_SIZE
      modifies this, table, entries`next
      ensures Valid() && ok == (key !in old(contents))
      ensures contents == if ok then old(contents)[key := val] else old(contents)
      ensures fresh(entries - old(entries)) && (table == old(table) || fresh(table))
      ensures !ok ==> entries == old(entries)
    {
      hide Placed, Holds, Chained, Members, Total, IsTableSize, SlotOf;
      var index := KeyIndex(key);
      if index == -1 { return false; }
      Push(index, key, val);
      return true;
    }

    /** dictReplace. */
    method Replace(key: K, val: V) returns (added: bool)
      requires Valid() && used < MAX_SIZE
      modifies this, table, entries
      ensures Valid() && added == (key !in old(contents)) && contents == old(contents)[key := val]
      ensures fresh(entries - old(entries)) && (table == old(table) || fresh(table))
    {
      hide Placed, Holds, Chained, Members, Total, IsTableSize, SlotOf;
      var ok := Add(key, val);
      if ok { return true; }
      var e := Find(key);
      SetVal(e, key, val);
      return false;
    }

    method SetVal(e: Entry<K, V>, key: K, val: V)
      requires Valid() && e in entries && e.key == key
      modifies this`contents, e`val
      ensures Valid() && contents == old(contents)[key := val] && entries == old(entries)
    {
      hide Chained, Members, Total, IsTableSize, SlotOf;
      assert key in contents;
      ghost var keys := contents.Keys;
      e.val := val;
      contents := contents[key := val];
      assert contents.Keys == keys;
    }

    /** dictDelete. */
    method Delete(key: K) returns (ok: bool)
      requires Valid()
      modifies this, table, entries`next
      ensures Valid() && ok == (key in old(contents)) && contents == old(contents) - {key}
      ensures table == old(table) && size == old(size)
      ensures ok ==> Deleted(old(chains), old(entries), chains, entries, key)
      ensures !ok ==> chains == old(chains) && entries == old(entries)
    {
      hide Placed, Holds, Members, Total, IsTableSize, SlotOf;
      if size == 0 {
        NothingHeld(hash, chains, entries, size, contents);
        return false;
      }
      SlotBelow(hash, key, size);
      var h := And(hash(key), sizemask);
      var de, prevde: Entry?<K, V> := table[h], null;
      ghost var k := 0;
      ChainIs(table[..], chains, h);
      while de != null
        invariant 0 <= k <= |chains[h]|
        invariant de == At(chains[h], k)
        invariant prevde == if k == 0 then null else chains[h][k - 1]
        invariant forall i :: 0 <= i < k ==> chains[h][i].key != key
        decreases |chains[h]| - k
      {
        if de.key == key {
          Remove(h, k, de, prevde);
          return true;
        }
        assert de.next == Next(chains[h], k);
        prevde := de;
        de := de.next;
        k := k + 1;
      }
      NotInChain(hash, chains, entries, size, key);
      NotHeld(entries, contents, key);
      assert contents - {key} == contents;
      return false;
    }

    /** The entry that dictDelete has found. */
    method Remove(h: nat, ghost k: nat, de: Entry<K, V>, prevde: Entry?<K, V>)
      requires Valid() && h < size && k < |chains[h]| && de == chains[h][k]
      requires prevde == if k == 0 then null else chains[h][k - 1]
      modifies this, table, entries`next
      ensures Valid() && de.key in old(contents) && contents == old(contents) - {de.key}
      ensures table == old(table) && size == old(size)
      ensures Dropped(old(chains), old(entries), chains, entries, de.key, h, k)
    {
      hide Placed, Holds, Chained, Members, Total, IsTableSize, SlotOf;
      HeldEntry(hash, chains, entries, size, contents, h, k);
      PlacedDrop(hash, chains, entries, size, h, k);
      HoldsLess(hash, chains, entries, size, contents, de);
      Unlink(h, k, de, prevde);
      ghost var contents' := contents - {de.key};
      assert contents'.Keys == contents.Keys - {de.key};
      Record(used - 1, chains[h := chains[h][..k] + chains[h][k + 1..]], entries - {de}, contents');
    }

    method Unlink(h: nat, ghost k: nat, de: Entry<K, V>, prevde: Entry?<K, V>)
      requires table.Length == size == |chains| && entries == Members(chains) && Placed(hash, chains, entries, size)
      requires Chained(table[..], chains) && h < size && k < |chains[h]| && de == chains[h][k]
      requires prevde == if k == 0 then null else chains[h][k - 1]
      modifies table, entries`next
      ensures Chained(table[..], chains[h := chains[h][..k] + chains[h][k + 1..]])
    {
      hide Total, IsTableSize, SlotOf;
      ghost var heads, c := table[..], chains[h];
      ghost var c' := c[..k] + c[k + 1..];
      ChainIs(heads, chains, h);
      assert de.next == Next(c, k);
      if prevde != null {
        OnlyHere(hash, chains, entries, size, h, k - 1);
        InMembers(chains, h);
        prevde.next := de.next;
        forall j | 0 <= j < |c'|
          ensures c'[j].next == Next(c', j)
        {
          assert old(c[j].next) == Next(c, j);
          if j >= k { assert old(c[j + 1].next) == Next(c, j + 1); }
        }
        assert Linked(heads[h], c');
        forall i | 0 <= i < |chains| && i != h
          ensures Linked(heads[i], chains[i])
        {
          assert old(LinkedIn(heads, chains, i));
        }
      } else {
        ChainedPop(heads, chains, h);
        assert c' == c[1..];
        table[h] := de.next;
        assert table[..] == heads[h := de.next];
      }
    }
  }

  /** An entry is in one chain only, and there only once. */
  lemma OnlyHere<K, V>(hash: K -> nat, chains: seq<seq<Entry<K, V>>>, entries: set<Entry<K, V>>, size: nat, h: nat, k: nat)
    requires Placed(hash, chains, entries, size) && h < |chains| && k < |chains[h]|
    ensures forall i :: 0 <= i < |chains| && i != h ==> chains[h][k] !in chains[i]
    ensures forall j :: 0 <= j < |chains[h]| && j != k ==> chains[h][j] != chains[h][k]
  {
    hide SlotOf;
    forall i | 0 <= i < |chains| && i != h
      ensures chains[h][k] !in chains[i]
    {
      assert SlotOf(hash, chains[h][k].key, size) == h;
    }
  }

  lemma HoldsLess<K, V>(hash: K -> nat, chains: seq<seq<Entry<K, V>>>, entries: set<Entry<K, V>>, size: nat,
                        contents: map<K, V>, e: Entry<K, V>)
    requires Placed(hash, chains, entries, size) && Holds(entries, contents) && e in entries
    ensures Holds(entries - {e}, contents - {e.key})
  {
    var less := entries - {e};
    forall k | k in contents - {e.key}
      ensures HasKey(less, k)
    {
      var x :| x in entries && x.key == k;
      assert x in less;
    }
  }

  /** One entry is gone, and everything else stays where it was. */
  ghost predicate Dropped<K, V>(chains: seq<seq<Entry<K, V>>>, entries: set<Entry<K, V>>,
                                chains': seq<seq<Entry<K, V>>>, entries': set<Entry<K, V>>, key: K, h: nat, k: nat)
  {
    && h < |chains| && k < |chains[h]| && chains[h][k].key == key
    && chains' == chains[h := chains[h][..k] + chains[h][k + 1..]] && entries' == entries - {chains[h][k]}
  }

  ghost predicate Deleted<K, V>(chains: seq<seq<Entry<K, V>>>, entries: set<Entry<K, V>>,
                                chains': seq<seq<Entry<K, V>>>, entries': set<Entry<K, V>>, key: K)
  {
    exists h: nat, k: nat :: Dropped(chains, entries, chains', entries', key, h, k)
  }

  lemma TableDoubles(n: nat)
    requires IsTableSize(n) && n < MAX_SIZE
    ensures 2 * n <= MAX_SIZE
  {
    var k :| Power2(k) == n;
    PowerBelow(k);
  }

  lemma NothingHeld<K, V>(hash: K -> nat, chains: seq<seq<Entry<K, V>>>, entries: set<Entry<K, V>>, size: nat,
                          contents: map<K, V>)
    requires Placed(hash, chains, entries, size) && Holds(entries, contents) && size == 0
    ensures contents == map[] && entries == {}
  {
    assert entries == {};
    assert contents.Keys == {};
  }

  lemma KeyIsNew<K, V>(entries: set<Entry<K, V>>, contents: map<K, V>, key: K)
    requires Holds(entries, contents) && key !in contents
    ensures forall e :: e in entries ==> e.key != key
  {
  }

  lemma NotHeld<K, V>(entries: set<Entry<K, V>>, contents: map<K, V>, key: K)
    requires Holds(entries, contents) && forall e :: e in entries ==> e.key != key
    ensures key !in contents
  {
  }

  lemma HeldEntry<K, V>(hash: K -> nat, chains: seq<seq<Entry<K, V>>>, entries: set<Entry<K, V>>, size: nat,
                        contents: map<K, V>, h: nat, j: nat)
    requires Placed(hash, chains, entries, size) && Holds(entries, contents) && h < |chains| && j < |chains[h]|
    ensures chains[h][j] in entries && chains[h][j].key in contents && contents[chains[h][j].key] == chains[h][j].val
  {
    InMembers(chains, h);
  }

  lemma ChainIs<K, V>(heads: seq<Entry?<K, V>>, chains: seq<seq<Entry<K, V>>>, h: nat)
    requires Chained(heads, chains) && h < |heads|
    ensures |chains| == |heads| && Linked(heads[h], chains[h])
  {
    assert LinkedIn(heads, chains, h);
  }

  lemma ChainedPush<K, V>(heads: seq<Entry?<K, V>>, chains: seq<seq<Entry<K, V>>>, h: nat, e: Entry<K, V>)
    requires Chained(heads, chains) && h < |heads| && e.next == heads[h]
    ensures Chained(heads[h := e], chains[h := [e] + chains[h]])
  {
    var heads', chains' := heads[h := e], chains[h := [e] + chains[h]];
    forall i | 0 <= i < |chains'|
      ensures LinkedIn(heads', chains', i)
    {
      assert LinkedIn(heads, chains, i);
      if i == h { LinkedPush(heads[h], chains[h], e); }
    }
  }

  lemma LinkedPush<K, V>(head: Entry?<K, V>, c: seq<Entry<K, V>>, e: Entry<K, V>)
    requires Linked(head, c) && e.next == head
    ensures Linked(e, [e] + c)
  {
    var c' := [e] + c;
    forall j | 0 <= j < |c'|
      ensures c'[j].next == Next(c', j)
    {
      if j > 0 { assert c[j - 1].next == Next(c, j - 1); }
    }
  }

  lemma HoldsMore<K, V>(entries: set<Entry<K, V>>, contents: map<K, V>, e: Entry<K, V>)
    requires Holds(entries, contents) && e.key !in contents
    ensures Holds(entries + {e}, contents[e.key := e.val])
  {
    var more := entries + {e};
    assert e in more;
    assert HasKey(more, e.key);
    forall k | k in contents
      ensures HasKey(more, k)
    {
      var x :| x in entries && x.key == k;
      assert x in more;
    }
  }
}
