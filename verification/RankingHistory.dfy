/** The ranking after a run of operations, told by the history of one file: who has shared it, how
    often it has been downloaded since, and whose row is marked as shared. */
module RankingHistory {
  import opened Options
  import opened Ranking

  predicate About(op: Op, md5: string, name: string) { op.md5 == md5 && op.name == name }

  predicate IsShare(op: Op, md5: string, name: string) { op.Share? && About(op, md5, name) }

  predicate IsDownload(op: Op, md5: string, name: string) { op.Download? && About(op, md5, name) }

  /** Where the file is shared for the first time, or the end. */
  function FirstShare(ops: seq<Op>, md5: string, name: string): (i: nat)
    ensures i <= |ops| && (i < |ops| ==> IsShare(ops[i], md5, name))
    ensures forall j :: 0 <= j < i ==> !IsShare(ops[j], md5, name)
  {
    if ops == [] || IsShare(ops[0], md5, name) then 0 else FirstShare(ops[1..], md5, name) + 1
  }

  function Downloads(ops: seq<Op>, md5: string, name: string): nat {
    if ops == [] then 0 else (if IsDownload(ops[0], md5, name) then 1 else 0) + Downloads(ops[1..], md5, name)
  }

  /** Nobody takes the file out of the ranking. */
  ghost predicate LeftIn(ops: seq<Op>, md5: string, name: string) {
    forall op :: op in ops ==> |op.md5| == MD5_LENGTH && (About(op, md5, name) ==> op.Share? || op.Download?)
  }

  /** The file is in the ranking: in the table, with this row, and in the cache with what it says. */
  predicate Ranked(s: State, row: ShareRow) {
    && Find(s.rows, row.md5, row.name) == Some(row)
    && Id(row) in s.zset && s.zset[Id(row)] == row.pv
    && Id(row) in s.names && s.names[Id(row)] == row.name
  }

  predicate Unknown(s: State, md5: string, name: string) {
    Find(s.rows, md5, name) == None && FileId(md5, name) !in s.zset
  }

  // ---------------------------------------------------------------- looking up in a changed table

  lemma {:induction false} FindAppended(rows: seq<ShareRow>, row: ShareRow, md5: string, name: string)
    ensures Find(rows + [row], md5, name) ==
            if Find(rows, md5, name).Some? then Find(rows, md5, name)
            else if row.md5 == md5 && row.name == name then Some(row) else None
    decreases |rows|
  {
    if rows == [] {
      assert rows + [row] == [row] && [row][1..] == [];
    } else {
      assert (rows + [row])[1..] == rows[1..] + [row];
      FindAppended(rows[1..], row, md5, name);
    }
  }

  lemma {:induction false} FindSet(rows: seq<ShareRow>, md5: string, name: string, pv: int, m: string, n: string)
    ensures Find(SetPv(rows, md5, name, pv), m, n) ==
            match Find(rows, m, n)
            case None => None
            case Some(r) => Some(if m == md5 && n == name then r.(pv := pv) else r)
    decreases |rows|
  {
    if rows != [] {
      assert SetPv(rows, md5, name, pv)[1..] == SetPv(rows[1..], md5, name, pv);
      FindSet(rows[1..], md5, name, pv, m, n);
    }
  }

  lemma {:induction false} FindDropped(rows: seq<ShareRow>, user: string, md5: string, name: string, m: string, n: string)
    requires !(m == md5 && n == name)
    ensures Find(Drop(rows, user, md5, name), m, n) == Find(rows, m, n)
    decreases |rows|
  {
    if rows != [] {
      FindDropped(rows[1..], user, md5, name, m, n);
      assert ([rows[0]] + Drop(rows[1..], user, md5, name))[1..] == Drop(rows[1..], user, md5, name);
    }
  }

  /** Digests have one length. */
  lemma OtherId(md5: string, name: string, m: string, n: string)
    requires |md5| == |m| && !(md5 == m && name == n)
    ensures FileId(md5, name) != FileId(m, n)
  {
    if FileId(md5, name) == FileId(m, n) {
      SameId(ShareRow("", md5, name, 0), ShareRow("", m, n, 0));
      assert false;
    }
  }

  // ---------------------------------------------------------------- one operation

  /** Nothing has happened to the file. */
  predicate SameFor(s: State, s': State, md5: string, name: string) {
    var id := FileId(md5, name);
    && Find(s'.rows, md5, name) == Find(s.rows, md5, name)
    && (id in s'.zset <==> id in s.zset) && (id in s.zset ==> s'.zset[id] == s.zset[id])
    && (id in s'.names <==> id in s.names) && (id in s.names ==> s'.names[id] == s.names[id])
  }

  /** An operation on another file. */
  lemma OthersApart(s: State, op: Op, md5: string, name: string)
    requires |op.md5| == |md5| && !About(op, md5, name)
    ensures SameFor(s, Apply(s, op), md5, name)
  {
    OtherId(op.md5, op.name, md5, name);
    hide SameFor, Apply;
    match op
    case Share(user, m, n) => ShareApart(s, op, md5, name);
    case Download(m, n) => DownloadApart(s, op, md5, name);
    case Cancel(user, m, n) => RemovalApart(s, op, md5, name);
    case Delete(user, m, n) => RemovalApart(s, op, md5, name);
  }

  lemma ShareApart(s: State, op: Op, md5: string, name: string)
    requires op.Share? && !About(op, md5, name) && FileId(op.md5, op.name) != FileId(md5, name)
    ensures SameFor(s, Apply(s, op), md5, name)
  {
    FindAppended(s.rows, ShareRow(op.user, op.md5, op.name, 0), md5, name);
    hide Find, FileId;
  }

  lemma DownloadApart(s: State, op: Op, md5: string, name: string)
    requires op.Download? && !About(op, md5, name) && FileId(op.md5, op.name) != FileId(md5, name)
    ensures SameFor(s, Apply(s, op), md5, name)
  {
    var found := Find(s.rows, op.md5, op.name);
    if found.Some? { FindSet(s.rows, op.md5, op.name, found.value.pv + 1, md5, name); }
    hide Find, FileId, SetPv;
  }

  lemma RemovalApart(s: State, op: Op, md5: string, name: string)
    requires op.Cancel? || op.Delete?
    requires !About(op, md5, name) && FileId(op.md5, op.name) != FileId(md5, name)
    ensures SameFor(s, Apply(s, op), md5, name)
  {
    FindDropped(s.rows, op.user, op.md5, op.name, md5, name);
    hide Find, FileId, Drop;
  }

  lemma StaysRanked(s: State, op: Op, row: ShareRow)
    requires Ranked(s, row) && |row.md5| == MD5_LENGTH && LeftIn([op], row.md5, row.name)
    ensures Ranked(Apply(s, op), row.(pv := row.pv + Downloads([op], row.md5, row.name)))
  {
    assert op in [op] && [op][1..] == [];
    if !About(op, row.md5, row.name) {
      OthersApart(s, op, row.md5, row.name);
    } else if op.Download? {
      FindSet(s.rows, row.md5, row.name, row.pv + 1, row.md5, row.name);
    }
  }

  lemma StaysUnknown(s: State, op: Op, md5: string, name: string)
    requires Unknown(s, md5, name) && |md5| == MD5_LENGTH && LeftIn([op], md5, name)
    ensures if IsShare(op, md5, name) then Ranked(Apply(s, op), ShareRow(op.user, md5, name, 0))
            else Unknown(Apply(s, op), md5, name)
  {
    assert op in [op];
    if !About(op, md5, name) {
      OthersApart(s, op, md5, name);
    } else if op.Share? {
      FindAppended(s.rows, ShareRow(op.user, md5, name, 0), md5, name);
    }
  }

  // ---------------------------------------------------------------- runs

  lemma FirstOf(op: Op, rest: seq<Op>, md5: string, name: string)
    requires LeftIn([op] + rest, md5, name)
    ensures LeftIn([op], md5, name) && LeftIn(rest, md5, name)
  {
    assert forall o :: o in [op] || o in rest ==> o in [op] + rest;
  }

  lemma {:induction false} CountsDownloads(s: State, ops: seq<Op>, row: ShareRow)
    requires Ranked(s, row) && |row.md5| == MD5_LENGTH && LeftIn(ops, row.md5, row.name)
    ensures Ranked(Run(s, ops), row.(pv := row.pv + Downloads(ops, row.md5, row.name)))
    decreases |ops|
  {
    hide Apply, Ranked, LeftIn;
    if ops == [] {
      assert row.(pv := row.pv + 0) == row;
    } else {
      var op, rest := ops[0], ops[1..];
      assert ops == [op] + rest && [op][1..] == [];
      FirstOf(op, rest, row.md5, row.name);
      StaysRanked(s, op, row);
      var once := row.(pv := row.pv + Downloads([op], row.md5, row.name));
      CountsDownloads(Apply(s, op), rest, once);
      assert Downloads(ops, row.md5, row.name) ==
             Downloads([op], row.md5, row.name) + Downloads(rest, row.md5, row.name);
    }
  }

  /** A file that nobody knew and nobody takes out belongs to the first who shares it, and its pv, in
      the table and in the cache, is the number of its downloads since. */
  lemma {:induction false} FirstSharerOwns(s: State, ops: seq<Op>, md5: string, name: string)
    requires Unknown(s, md5, name) && |md5| == MD5_LENGTH && LeftIn(ops, md5, name)
    ensures var i := FirstShare(ops, md5, name);
      if i == |ops| then Unknown(Run(s, ops), md5, name)
      else Ranked(Run(s, ops), ShareRow(ops[i].user, md5, name, Downloads(ops[i..], md5, name)))
    decreases |ops|
  {
    hide Apply, Ranked, LeftIn, Unknown;
    if ops != [] {
      var op, rest := ops[0], ops[1..];
      assert ops == [op] + rest;
      FirstOf(op, rest, md5, name);
      StaysUnknown(s, op, md5, name);
      if IsShare(op, md5, name) {
        CountsDownloads(Apply(s, op), rest, ShareRow(op.user, md5, name, 0));
        assert ops[0..] == ops;
      } else {
        FirstSharerOwns(Apply(s, op), rest, md5, name);
        var i := FirstShare(rest, md5, name);
        assert ops[i + 1..] == rest[i..];
      }
    }
  }

  // ---------------------------------------------------------------- the mark on the user's row

  /** An operation that says whether the row is shared: the user's own cancelling, or the user's own
      sharing of a file that nobody has shared. */
  predicate Says(s: State, op: Op, k: Key) {
    && (op.Cancel? || op.Share?) && Key(op.user, op.md5, op.name) == k
    && (op.Share? ==> Unknown(s, k.md5, k.name))
  }

  predicate Deletes(op: Op, k: Key) { op.Delete? && Key(op.user, op.md5, op.name) == k }

  /** The last operation that says so, or the length. */
  function LastWord(s: State, ops: seq<Op>, k: Key): (i: nat)
    ensures i <= |ops|
    ensures i < |ops| ==> Says(Run(s, ops[..i]), ops[i], k)
    ensures forall j :: 0 <= j < |ops| && (i == |ops| || j > i) ==> !Says(Run(s, ops[..j]), ops[j], k)
    decreases |ops|
  {
    if ops == [] then 0
    else
      var n := |ops| - 1;
      assert forall j :: 0 <= j <= n ==> ops[..n][..j] == ops[..j];
      if Says(Run(s, ops[..n]), ops[n], k) then n
      else
        var i := LastWord(s, ops[..n], k);
        if i == n then n + 1 else i
  }

  lemma {:induction false} RunSnoc(s: State, ops: seq<Op>, op: Op)
    ensures Run(s, ops + [op]) == Apply(Run(s, ops), op)
    decreases |ops|
  {
    hide Apply;
    if ops == [] {
      assert ops + [op] == [op] && [op][1..] == [];
    } else {
      assert (ops + [op])[1..] == ops[1..] + [op];
      RunSnoc(Apply(s, ops[0]), ops[1..], op);
    }
  }

  lemma OneMark(s: State, op: Op, k: Key)
    requires k in s.shared && !Deletes(op, k)
    ensures k in Apply(s, op).shared
    ensures Apply(s, op).shared[k] == if Says(s, op, k) then op.Share? else s.shared[k]
  {
    hide Find, SetPv, Drop, FileId;
  }

  /** A user's row is marked as shared exactly if the last operation with a say in it was a share. */
  lemma {:induction false} LastWordCounts(s: State, ops: seq<Op>, k: Key)
    requires k in s.shared && forall op :: op in ops ==> !Deletes(op, k)
    ensures var s' := Run(s, ops); var i := LastWord(s, ops, k);
      k in s'.shared && s'.shared[k] == if i < |ops| then ops[i].Share? else s.shared[k]
    decreases |ops|
  {
    hide Apply, Says, Deletes;
    if ops != [] {
      var n := |ops| - 1;
      var init := ops[..n];
      assert ops == init + [ops[n]];
      LastWordCounts(s, init, k);
      RunSnoc(s, init, ops[n]);
      OneMark(Run(s, init), ops[n], k);
      assert LastWord(s, ops, k) < n ==> ops[LastWord(s, ops, k)] == init[LastWord(s, ops, k)];
    }
  }

  // ---------------------------------------------------------------- a file that the cache has lost

  /** A download puts it back with the row's own value. */
  lemma DownloadRestores(s: State, row: ShareRow)
    requires Find(s.rows, row.md5, row.name) == Some(row) && Id(row) !in s.zset
    ensures Ranked(Apply(s, Download(row.md5, row.name)), row.(pv := row.pv + 1))
  {
    FindSet(s.rows, row.md5, row.name, row.pv + 1, row.md5, row.name);
  }

  /** Sharing it again does so with zero: right exactly if it has not been downloaded. */
  lemma ShareRestoresZero(s: State, row: ShareRow, user: string)
    requires Find(s.rows, row.md5, row.name) == Some(row) && Id(row) !in s.zset
    ensures var s' := Apply(s, Share(user, row.md5, row.name));
      s'.rows == s.rows && s'.shared == s.shared && (Ranked(s', row) <==> row.pv == 0)
  {}

  // ---------------------------------------------------------------- taking a file out

  /** The user's row leaves the table, and only that; the file leaves the cache, and only that. */
  lemma CancelRemoves(s: State, user: string, md5: string, name: string)
    ensures var s' := Apply(s, Cancel(user, md5, name)); var id := FileId(md5, name);
      && (forall r :: r in s'.rows <==> r in s.rows && !(r.user == user && r.md5 == md5 && r.name == name))
      && id !in s'.zset && id !in s'.names
      && (forall i :: i in s'.zset ==> i in s.zset)
      && (forall i :: i != id && i in s.zset ==> i in s'.zset && s'.zset[i] == s.zset[i])
      && (forall i :: i != id && i in s.names ==> i in s'.names && s'.names[i] == s.names[i])
  {
    DropKeeps(s.rows, user, md5, name);
    hide Drop, FileId;
  }

  /** A deletion does the same if the cache knows the file; otherwise the mark on the user's row
      decides about the table. The user's row goes in any case. */
  lemma DeleteRemoves(s: State, user: string, md5: string, name: string)
    ensures var s' := Apply(s, Delete(user, md5, name)); var id := FileId(md5, name);
      var key := Key(user, md5, name);
      && (forall r :: r in s'.rows <==>
            r in s.rows && !(r.user == user && r.md5 == md5 && r.name == name
                             && (id in s.zset || (key in s.shared && s.shared[key]))))
      && id !in s'.zset && key !in s'.shared
      && (forall i :: i in s'.zset ==> i in s.zset)
      && (forall i :: i != id && i in s.zset ==> i in s'.zset && s'.zset[i] == s.zset[i])
      && (forall k :: k != key && k in s.shared ==> k in s'.shared && s'.shared[k] == s.shared[k])
  {
    DropKeeps(s.rows, user, md5, name);
    hide Drop, FileId;
  }
}
