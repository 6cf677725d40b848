/** The iterator of redis/dict.c: it gives every entry once, even if the client deletes the entry
    it has just been given. */
module DictIterator {
  import opened DictChains
  import opened Dict

  ghost function From<T>(chains: seq<seq<T>>, i: int): seq<T>
    requires i >= 0
  {
    if i >= |chains| then [] else Flat(chains[i..])
  }

  lemma FromNext<T>(chains: seq<seq<T>>, i: nat)
    ensures i < |chains| ==> From(chains, i) == chains[i] + From(chains, i + 1)
  {
    if i < |chains| {
      assert chains[i..][0] == chains[i] && chains[i..][1..] == chains[i + 1..];
    }
  }

  ghost predicate Suffix<T>(rest: seq<T>, c: seq<T>) { |rest| <= |c| && c[|c| - |rest|..] == rest }

  class Iterator<K(==,!new), V> {
    const ht: Dict<K, V>
    var index: int
    var entry: Entry?<K, V>
    var nextEntry: Entry?<K, V>
    /** The rest of the chain of the entry that was given last. */
    ghost var rest: seq<Entry<K, V>>

    ghost predicate Valid()
      reads this, ht, ht.table, ht.entries
    {
      && ht.Valid() && index >= -1
      && (if entry == null then rest == []
          else 0 <= index < ht.size && Suffix(rest, ht.chains[index]) && nextEntry == At(rest, 0))
    }

    /** What is still to be given. */
    ghost function Pending(): seq<Entry<K, V>>
      requires Valid()
      reads this, ht, ht.table, ht.entries
    {
      rest + From(ht.chains, index + 1)
    }

    constructor (ht: Dict<K, V>)
      requires ht.Valid()
      ensures Valid() && this.ht == ht && Pending() == Flat(ht.chains) && entry == null
    {
      this.ht := ht;
      index, entry, nextEntry, rest := -1, null, null, [];
      new;
      assert ht.chains[0..] == ht.chains;
      assert [] + Flat(ht.chains) == Flat(ht.chains);
    }

    /** The place behind the entry given last: the next entry of its chain or the first of the
        next slot, and the entries from there to the end of the chain. */
    method Advance() returns (ghost left: seq<Entry<K, V>>)
      requires Valid() && (entry == null ==> index + 1 < ht.size)
      modifies this`index, this`entry
      ensures ht.Valid() && 0 <= index < ht.size && Suffix(left, ht.chains[index]) && entry == At(left, 0)
      ensures old(Pending()) == left + From(ht.chains, index + 1)
      ensures old(entry) == null ==> index == old(index) + 1
      ensures old(entry) != null ==> index == old(index)
    {
      hide Placed, Holds, Members, Total, IsTableSize, SlotOf, Flat;
      if entry == null {
        index := index + 1;
        FromNext(ht.chains, index);
        ChainIs(ht.table[..], ht.chains, index);
        entry := ht.table[index];
        left := ht.chains[index];
        assert [] + From(ht.chains, index) == From(ht.chains, index);
      } else {
        entry := nextEntry;
        left := rest;
      }
    }

    /** One turn of the loop in dictNext. */
    method Turn()
      requires Valid() && (entry == null ==> index + 1 < ht.size)
      modifies this
      ensures Valid() && index == old(if entry == null then index + 1 else index) < ht.size
      ensures if entry == null then Pending() == old(Pending()) else Gave(old(Pending()))
    {
      hide Placed, Holds, Members, Total, IsTableSize, SlotOf, Flat, Chained, Linked, From;
      ghost var left := Advance();
      if entry != null {
        Give(left);
      } else {
        rest := [];
      }
    }

    /** The entry given last was the first of those pending. */
    ghost predicate Gave(pending: seq<Entry<K, V>>)
      requires Valid()
      reads this, ht, ht.table, ht.entries
    {
      JustGave() && pending != [] && entry == pending[0] && Pending() == pending[1..]
    }

    /** The entry given last is right before the rest of its chain. */
    ghost predicate JustGave()
      requires Valid()
      reads this, ht, ht.table, ht.entries
    {
      && entry != null && |rest| < |ht.chains[index]|
      && ht.chains[index][|ht.chains[index]| - |rest| - 1] == entry
    }

    /** dictNext. */
    method Next() returns (e: Entry?<K, V>)
      requires Valid()
      modifies this
      ensures Valid() && entry == e
      ensures if old(Pending()) == [] then e == null && Pending() == [] else e != null && Gave(old(Pending()))
    {
      hide Placed, Holds, Members, Total, IsTableSize, SlotOf, Flat, Chained, Linked, Suffix;
      ghost var pending := Pending();
      while true
        invariant Valid() && Pending() == pending
        decreases if index < ht.size then ht.size - index else 0, entry
      {
        if entry == null && index + 1 >= ht.size {
          index := index + 1;
          return null;
        }
        Turn();
        if entry != null { return entry; }
      }
    }

    /** The place behind the entry is noted before the entry is given. */
    method Give(ghost left: seq<Entry<K, V>>)
      requires ht.Valid() && 0 <= index < ht.size && Suffix(left, ht.chains[index]) && left != [] && entry == left[0]
      modifies this`nextEntry, this`rest
      ensures Valid() && rest == left[1..] && |left| <= |ht.chains[index]|
      ensures ht.chains[index][|ht.chains[index]| - |left|] == entry
    {
      hide Placed, Holds, Members, Total, IsTableSize, SlotOf, Flat, Chained, Linked;
      ChainFrom(left);
      nextEntry := entry.next;
      rest := left[1..];
    }

    lemma ChainFrom(left: seq<Entry<K, V>>)
      requires ht.Valid() && 0 <= index < ht.size && Suffix(left, ht.chains[index]) && left != [] && entry == left[0]
      ensures entry.next == At(left[1..], 0) && Suffix(left[1..], ht.chains[index])
      ensures ht.chains[index][|ht.chains[index]| - |left|] == entry
    {
      hide Placed, Holds, Members, Total, IsTableSize, SlotOf;
      var c := ht.chains[index];
      var k := |c| - |left|;
      ChainIs(ht.table[..], ht.chains, index);
      assert c[k..][0] == c[k] && left[1..] == c[k + 1..];
      assert entry.next == DictChains.Next(c, k);
    }
  }

  /** Deleting the entry that was given last changes nothing of what is still to be given. */
  lemma SamePending<K, V>(hash: K -> nat, chains: seq<seq<Entry<K, V>>>, entries: set<Entry<K, V>>, size: nat,
                          chains': seq<seq<Entry<K, V>>>, entries': set<Entry<K, V>>, key: K,
                          index: nat, rest: seq<Entry<K, V>>)
    requires Placed(hash, chains, entries, size) && index < size && |rest| < |chains[index]|
    requires Suffix(rest, chains[index]) && chains[index][|chains[index]| - |rest| - 1].key == key
    requires Deleted(chains, entries, chains', entries', key)
    ensures |chains'| == |chains| && Suffix(rest, chains'[index]) && From(chains', index + 1) == From(chains, index + 1)
  {
    hide SlotOf, Flat;
    var h: nat, k: nat :| Dropped(chains, entries, chains', entries', key, h, k);
    var c := chains[index];
    var j := |c| - |rest| - 1;
    assert chains[h][k] == c[j] by { InMembers(chains, h); InMembers(chains, index); }
    OnlyHere(hash, chains, entries, size, index, j);
    assert h == index && k == j;
    assert chains'[index + 1..] == chains[index + 1..];
    assert c[..j] + c[j + 1..] == chains'[index] && c[j + 1..] == rest;
  }

  /** Every entry is in the order of the iterator, once. */
  lemma {:induction false} FlatMembers<T>(chains: seq<seq<T>>)
    ensures forall x :: x in Flat(chains) <==> x in Members(chains)
    ensures |Flat(chains)| == Total(chains)
    decreases |chains|
  {
    if chains != [] {
      var tail := chains[1..];
      FlatMembers(tail);
      forall x
        ensures x in Flat(chains) <==> x in Members(chains)
      {
        if x in Members(chains) {
          var i, j :| 0 <= i < |chains| && 0 <= j < |chains[i]| && chains[i][j] == x;
          if i > 0 { assert tail[i - 1][j] == x; }
        }
        if x in chains[0] {
          var j :| 0 <= j < |chains[0]| && chains[0][j] == x;
          assert chains[0][j] == x;
        }
        if x in Members(tail) {
          var i, j :| 0 <= i < |tail| && 0 <= j < |tail[i]| && tail[i][j] == x;
          assert chains[i + 1][j] == x;
        }
      }
    }
  }

  lemma FlatFound<T>(chains: seq<seq<T>>, x: T)
    requires x in Flat(chains)
    ensures x in Members(chains)
  {
    hide Flat;
    FlatMembers(chains);
  }

  ghost predicate Apart<T>(chains: seq<seq<T>>) {
    && (forall i :: 0 <= i < |chains| ==> Distinct(chains[i]))
    && (forall i, j, x :: 0 <= i < j < |chains| && x in chains[i] ==> x !in chains[j])
  }

  lemma {:induction false} FlatApart<T>(chains: seq<seq<T>>)
    requires Apart(chains)
    ensures Distinct(Flat(chains))
    decreases |chains|
  {
    if chains != [] {
      var first, tail := chains[0], chains[1..];
      assert Apart(tail);
      FlatApart(tail);
      FlatMembers(tail);
      forall x | x in Flat(tail)
        ensures x !in first
      {
        FlatFound(tail, x);
        var i, j :| 0 <= i < |tail| && 0 <= j < |tail[i]| && tail[i][j] == x;
        assert chains[i + 1][j] == x && x in chains[i + 1];
      }
      DistinctConcat(first, Flat(tail));
    }
  }

  lemma DistinctConcat<T>(a: seq<T>, b: seq<T>)
    requires Distinct(a) && Distinct(b) && forall x :: x in b ==> x !in a
    ensures Distinct(a + b)
  {
    var c := a + b;
    forall i, j | 0 <= i < j < |c|
      ensures c[i] != c[j]
    {
      if i < |a| <= j { assert b[j - |a|] in b && a[i] in a; }
    }
  }

  /** Once, and not more often. */
  lemma FlatOnce<K, V>(hash: K -> nat, chains: seq<seq<Entry<K, V>>>, entries: set<Entry<K, V>>, size: nat)
    requires Placed(hash, chains, entries, size)
    ensures Distinct(Flat(chains)) && forall e :: e in entries <==> e in Flat(chains)
  {
    hide SlotOf, Flat;
    forall i, j, e | 0 <= i < j < |chains| && e in chains[i]
      ensures e !in chains[j]
    {
      var k :| 0 <= k < |chains[i]| && chains[i][k] == e;
      OnlyHere(hash, chains, entries, size, i, k);
    }
    FlatApart(chains);
    FlatMembers(chains);
  }

  /** The client deletes the entry it has just been given. */
  method DeleteGiven<K(==,!new), V>(it: Iterator<K, V>, e: Entry<K, V>)
    requires it.Valid() && it.entry == e && it.JustGave()
    modifies it.ht, it.ht.table, it.ht.entries
    ensures it.Valid() && it.Pending() == old(it.Pending()) && it.ht.table == old(it.ht.table)
    ensures it.ht.contents == old(it.ht.contents) - {e.key} && it.ht.entries <= old(it.ht.entries)
  {
    hide Placed, Holds, Members, Total, IsTableSize, SlotOf, Flat, Chained, Linked, Dropped, From;
    ghost var ht := it.ht;
    ghost var hash, chains, entries, size := ht.hash, ht.chains, ht.entries, ht.size;
    GivenIsHeld(hash, chains, entries, size, ht.contents, it.index, |chains[it.index]| - |it.rest| - 1);
    var _ := it.ht.Delete(e.key);
    SamePending(hash, chains, entries, size, ht.chains, ht.entries, e.key, it.index, it.rest);
    DeletedLess(chains, entries, ht.chains, ht.entries, e.key);
  }

  lemma GivenIsHeld<K, V>(hash: K -> nat, chains: seq<seq<Entry<K, V>>>, entries: set<Entry<K, V>>, size: nat,
                          contents: map<K, V>, h: nat, j: nat)
    requires Placed(hash, chains, entries, size) && Holds(entries, contents) && h < |chains| && j < |chains[h]|
    ensures chains[h][j].key in contents
  {
    HeldEntry(hash, chains, entries, size, contents, h, j);
  }

  lemma DeletedLess<K, V>(chains: seq<seq<Entry<K, V>>>, entries: set<Entry<K, V>>,
                          chains': seq<seq<Entry<K, V>>>, entries': set<Entry<K, V>>, key: K)
    requires Deleted(chains, entries, chains', entries', key)
    ensures entries' <= entries
  {
  }

  function Kept<K, V>(m: map<K, V>, drop: K -> bool): map<K, V> { map k | k in m && !drop(k) :: m[k] }

  ghost function Doomed<K, V>(es: seq<Entry<K, V>>, drop: K -> bool): set<K> {
    set i | 0 <= i < |es| && drop(es[i].key) :: es[i].key
  }

  lemma DoomedSnoc<K, V>(es: seq<Entry<K, V>>, e: Entry<K, V>, drop: K -> bool)
    ensures Doomed(es + [e], drop) == Doomed(es, drop) + if drop(e.key) then {e.key} else {}
  {
    var more := es + [e];
    assert forall i :: 0 <= i < |es| ==> more[i] == es[i];
    assert more[|es|] == e;
    forall k | k in Doomed(es, drop)
      ensures k in Doomed(more, drop)
    {
      var i :| 0 <= i < |es| && drop(es[i].key) && es[i].key == k;
      assert more[i].key == k;
    }
  }

  lemma KeptIs<K, V>(chains: seq<seq<Entry<K, V>>>, entries: set<Entry<K, V>>, m: map<K, V>, drop: K -> bool)
    requires entries == Members(chains) && Holds(entries, m)
    ensures m - Doomed(Flat(chains), drop) == Kept(m, drop)
  {
    hide Members, Flat;
    FlatMembers(chains);
    var es := Flat(chains);
    forall k | k in m && drop(k)
      ensures k in Doomed(es, drop)
    {
      var e :| e in entries && e.key == k;
      assert e in es;
      var i :| 0 <= i < |es| && es[i] == e;
      assert es[i].key == k;
    }
  }

  /** A client that goes over the table and deletes some of what it is given. */
  method Sweep<K(==,!new), V>(ht: Dict<K, V>, drop: K -> bool) returns (visited: seq<Entry<K, V>>)
    requires ht.Valid()
    modifies ht, ht.table, ht.entries
    ensures ht.Valid() && visited == Flat(old(ht.chains)) && ht.contents == Kept(old(ht.contents), drop)
  {
    hide Placed, Holds, Members, Total, IsTableSize, SlotOf, Flat, From, Chained, Linked, Suffix, Doomed, Kept,
         Iterator.Pending, Iterator.JustGave;
    var it := new Iterator(ht);
    visited := [];
    ghost var all, m := Flat(ht.chains), ht.contents;
    KeptIs(ht.chains, ht.entries, m, drop);
    assert Doomed(visited, drop) == {} by { NoneDoomed(visited, drop); }
    while true
      invariant it.Valid() && fresh(it) && it.ht == ht && ht.table == old(ht.table) && ht.entries <= old(ht.entries)
      invariant visited + it.Pending() == all
      invariant ht.contents == m - Doomed(visited, drop)
      decreases |all| - |visited|
    {
      ghost var pending, gone := it.Pending(), Doomed(visited, drop);
      var next := it.Next();
      if next == null {
        assert visited + [] == visited;
        break;
      }
      var e: Entry<K, V> := next;
      OneFurther(visited, pending, e);
      DoomedSnoc(visited, e, drop);
      visited := visited + [e];
      if drop(e.key) {
        DeleteGiven(it, e);
        WithoutBoth(m, gone, e.key);
      } else {
        assert gone + {} == gone;
      }
    }
  }

  lemma WithoutBoth<K, V>(m: map<K, V>, gone: set<K>, k: K)
    ensures m - gone - {k} == m - (gone + {k})
  {
  }

  lemma OneFurther<T>(done: seq<T>, pending: seq<T>, e: T)
    requires pending != [] && pending[0] == e
    ensures done + [e] + pending[1..] == done + pending
  {
  }

  lemma NoneDoomed<K, V>(es: seq<Entry<K, V>>, drop: K -> bool)
    requires es == []
    ensures Doomed(es, drop) == {}
  {
  }
}
