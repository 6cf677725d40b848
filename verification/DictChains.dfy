/** The entries of the chained hash table of redis/dict.c, and their chains. */
module DictChains {

  // ---------------------------------------------------------------- slots

  /** Bitwise and. */
  function And(a: nat, b: nat): nat {
    if a == 0 || b == 0 then 0 else 2 * And(a / 2, b / 2) + (a % 2) * (b % 2)
  }

  function Power2(k: nat): (r: nat)
    ensures r >= 1
  {
    if k == 0 then 1 else 2 * Power2(k - 1)
  }

  const INITIAL_SIZE: nat := 4
  /** Slot indices are ints in the source: tables do not grow beyond this. */
  const MAX_SIZE: nat := 0x4000_0000

  ghost predicate IsTableSize(n: nat) { INITIAL_SIZE <= n <= MAX_SIZE && exists k :: Power2(k) == n }

  /** _dictNextPower, for sizes below LONG_MAX. */
  method NextPower(size: nat) returns (i: nat)
    requires size <= MAX_SIZE
    ensures IsTableSize(i) && i >= size && (i == INITIAL_SIZE || i < 2 * size)
  {
    i := INITIAL_SIZE;
    ghost var k := 2;
    assert Power2(2) == 4;
    assert MAX_SIZE == Power2(30) by { assert Power2(10) == 1024; assert Power2(20) == 1024 * 1024; }
    while i < size
      invariant i == Power2(k) && INITIAL_SIZE <= i <= MAX_SIZE
      invariant i == INITIAL_SIZE || i < 2 * size
      decreases size - i
    {
      PowerBelow(k);
      i := i * 2;
      k := k + 1;
    }
  }

  lemma {:induction false} PowerGrows(k: nat, m: nat)
    requires k <= m
    ensures Power2(k) <= Power2(m)
    decreases m
  {
    if k < m { PowerGrows(k, m - 1); }
  }

  /** Powers of two below the largest table are at most half of it. */
  lemma PowerBelow(k: nat)
    requires Power2(k) < MAX_SIZE
    ensures 2 * Power2(k) <= MAX_SIZE && Power2(k + 1) == 2 * Power2(k)
  {
    assert Power2(30) == MAX_SIZE by { assert Power2(10) == 1024; assert Power2(20) == 1024 * 1024; }
    if k >= 30 { PowerGrows(30, k); } else { PowerGrows(k + 1, 30); }
  }

  /** The mask of a power of two takes the remainder. */
  lemma {:induction false} AndMask(a: nat, k: nat)
    ensures And(a, Power2(k) - 1) == a % Power2(k)
    decreases k
  {
    if k == 0 {
    } else {
      var m := Power2(k - 1);
      assert (2 * m - 1) / 2 == m - 1;
      if a == 0 || m == 1 {
        if m == 1 { assert And(a / 2, 0) == 0; }
      } else {
        assert (2 * m - 1) % 2 == 1;
        AndMask(a / 2, k - 1);
        DoubleMod(a, m);
      }
    }
  }

  lemma DoubleMod(a: nat, m: nat)
    requires m > 0
    ensures a % (2 * m) == 2 * (a / 2 % m) + a % 2
  {
    var q, r := a / 2 / m, a / 2 % m;
    assert a / 2 == q * m + r;
    assert a == q * (2 * m) + (2 * r + a % 2) by {
      assert a == 2 * (a / 2) + a % 2;
      assert 2 * (q * m) == q * (2 * m);
    }
    ModIs(a, 2 * m, q, 2 * r + a % 2);
  }

  lemma ModIs(a: nat, m: nat, q: nat, r: nat)
    requires a == q * m + r && r < m
    ensures a % m == r
  {
    var d := a / m - q;
    assert d * m == r - a % m;
    assert d >= 1 ==> d * m >= m;
    assert d <= -1 ==> d * m + m <= 0;
  }

  lemma SlotInRange(h: nat, size: nat)
    requires IsTableSize(size)
    ensures And(h, size - 1) < size
  {
    var k :| Power2(k) == size;
    AndMask(h, k);
  }

  // ---------------------------------------------------------------- chains

  class Entry<K, V> {
    const key: K
    var val: V
    var next: Entry?<K, V>

    constructor (key: K, val: V, next: Entry?<K, V>)
      ensures this.key == key && this.val == val && this.next == next
    {
      this.key, this.val, this.next := key, val, next;
    }
  }

  /** The list from `head` on is `c`, and ends there. */
  ghost predicate Linked<K, V>(head: Entry?<K, V>, c: seq<Entry<K, V>>)
    reads c`next
  {
    head == At(c, 0) && forall j {:trigger Next(c, j)} :: 0 <= j < |c| ==> c[j].next == Next(c, j)
  }

  /** The entry at a place in the list, or the null pointer behind its end. */
  ghost function At<K, V>(c: seq<Entry<K, V>>, j: nat): Entry?<K, V> { if j < |c| then c[j] else null }

  ghost function Next<K, V>(c: seq<Entry<K, V>>, j: nat): Entry?<K, V> { At(c, j + 1) }

  ghost predicate Distinct<T>(c: seq<T>) { forall i, j :: 0 <= i < j < |c| ==> c[i] != c[j] }

  ghost function Members<T>(chains: seq<seq<T>>): set<T> {
    set i, j | 0 <= i < |chains| && 0 <= j < |chains[i]| :: chains[i][j]
  }

  /** The number of chained entries. */
  ghost function Total<T>(chains: seq<seq<T>>): nat {
    if chains == [] then 0 else |chains[0]| + Total(chains[1..])
  }

  lemma {:induction false} TotalUpdate<T>(chains: seq<seq<T>>, h: nat, c: seq<T>)
    requires h < |chains|
    ensures Total(chains[h := c]) == Total(chains) - |chains[h]| + |c|
    decreases |chains|
  {
    if h == 0 {
      assert chains[0 := c][1..] == chains[1..];
    } else {
      assert chains[h := c][1..] == chains[1..][h - 1 := c];
      TotalUpdate(chains[1..], h - 1, c);
    }
  }

  lemma {:induction false} TotalZero<T>(chains: seq<seq<T>>)
    ensures Total(chains) == 0 <==> forall i :: 0 <= i < |chains| ==> chains[i] == []
    decreases |chains|
  {
    if chains != [] {
      TotalZero(chains[1..]);
      assert forall i :: 0 < i < |chains| ==> chains[i] == chains[1..][i - 1];
      assert forall i :: 0 <= i < |chains| - 1 ==> chains[1..][i] == chains[i + 1];
    }
  }

  lemma MembersPush<T>(chains: seq<seq<T>>, h: nat, e: T)
    requires h < |chains|
    ensures Members(chains[h := [e] + chains[h]]) == Members(chains) + {e}
  {
    var after := chains[h := [e] + chains[h]];
    assert after[h][0] == e;
    forall x | x in Members(chains)
      ensures x in Members(after)
    {
      var i, j :| 0 <= i < |chains| && 0 <= j < |chains[i]| && chains[i][j] == x;
      assert after[i][if i == h then j + 1 else j] == x;
    }
  }

  /** One entry leaves its chain. */
  lemma MembersDrop<T>(chains: seq<seq<T>>, h: nat, k: nat)
    requires h < |chains| && k < |chains[h]|
    requires forall i, j :: 0 <= i < |chains| && 0 <= j < |chains[i]| && chains[i][j] == chains[h][k] ==> i == h && j == k
    ensures Members(chains[h := chains[h][..k] + chains[h][k + 1..]]) == Members(chains) - {chains[h][k]}
  {
    var c := chains[h][..k] + chains[h][k + 1..];
    var after := chains[h := c];
    forall x | x in Members(chains) && x != chains[h][k]
      ensures x in Members(after)
    {
      var i, j :| 0 <= i < |chains| && 0 <= j < |chains[i]| && chains[i][j] == x;
      if i == h {
        var j' := if j < k then j else j - 1;
        assert after[h][j'] == c[j'] == x;
      } else {
        assert after[i][j] == x;
      }
    }
    forall x | x in Members(after)
      ensures x in Members(chains) && x != chains[h][k]
    {
      var i, j :| 0 <= i < |after| && 0 <= j < |after[i]| && after[i][j] == x;
      var j' := if i == h && j >= k then j + 1 else j;
      assert chains[i][j'] == x;
    }
  }

  /** All entries, slot after slot. */
  ghost function Flat<T>(chains: seq<seq<T>>): seq<T> {
    if chains == [] then [] else chains[0] + Flat(chains[1..])
  }
}
