/** The download ranking of shared files: the table `share_file_list` and its copy in Redis, a
    sorted set of scores and a hash of file names (api_dealfile.cc, api_deal_sharefile.cc,
    api_sharefiles.cc). Statements and commands are taken to work. */
module Ranking {
  import opened Options

  const MD5_LENGTH: nat := 32

  datatype ShareRow = ShareRow(user: string, md5: string, name: string, pv: int)

  /** The member of the sorted set: the digest and the name run together. */
  function FileId(md5: string, name: string): string { md5 + name }

  function Id(r: ShareRow): string { FileId(r.md5, r.name) }

  /** Digests have one length, so the two parts can be told apart. */
  lemma SameId(a: ShareRow, b: ShareRow)
    requires |a.md5| == |b.md5| && Id(a) == Id(b)
    ensures a.md5 == b.md5 && a.name == b.name
  {
    var n := |a.md5|;
    assert Id(a)[..n] == a.md5 && Id(b)[..n] == b.md5 && Id(a)[n..] == a.name && Id(b)[n..] == b.name;
  }

  // ---------------------------------------------------------------- the table

  function Ids(rows: seq<ShareRow>): set<string> { set r | r in rows :: Id(r) }

  ghost predicate OneEach(rows: seq<ShareRow>) {
    && (forall i, j :: 0 <= i < j < |rows| ==> Id(rows[i]) != Id(rows[j]))
    && (forall r :: r in rows ==> |r.md5| == MD5_LENGTH)
  }

  /** `where md5 = ... and file_name = ...`: the first row. */
  function Find(rows: seq<ShareRow>, md5: string, name: string): (r: Option<ShareRow>)
    ensures r.Some? ==> r.value in rows && r.value.md5 == md5 && r.value.name == name
    ensures r == None ==> forall x :: x in rows ==> !(x.md5 == md5 && x.name == name)
  {
    if rows == [] then None
    else if rows[0].md5 == md5 && rows[0].name == name then Some(rows[0])
    else Find(rows[1..], md5, name)
  }

  function SetPv(rows: seq<ShareRow>, md5: string, name: string, pv: int): (r: seq<ShareRow>)
    ensures |r| == |rows|
  {
    seq(|rows|, i requires 0 <= i < |rows| =>
      if rows[i].md5 == md5 && rows[i].name == name then rows[i].(pv := pv) else rows[i])
  }

  function Drop(rows: seq<ShareRow>, user: string, md5: string, name: string): seq<ShareRow> {
    if rows == [] then []
    else if rows[0].user == user && rows[0].md5 == md5 && rows[0].name == name then Drop(rows[1..], user, md5, name)
    else [rows[0]] + Drop(rows[1..], user, md5, name)
  }

  lemma {:induction false} DropKeeps(rows: seq<ShareRow>, user: string, md5: string, name: string)
    ensures forall r :: r in Drop(rows, user, md5, name) <==> r in rows && !(r.user == user && r.md5 == md5 && r.name == name)
    ensures OneEach(rows) ==> OneEach(Drop(rows, user, md5, name))
    decreases |rows|
  {
    if rows != [] {
      var rest := rows[1..];
      var d := Drop(rest, user, md5, name);
      assert rows == [rows[0]] + rest;
      DropKeeps(rest, user, md5, name);
      if OneEach(rows) {
        assert OneEach(rest) by {
          forall r | r in rest ensures r in rows {}
        }
        forall r | r in d ensures Id(r) != Id(rows[0]) {
          var i :| 0 <= i < |rest| && rest[i] == r;
          assert rows[i + 1] == r;
        }
        var whole := [rows[0]] + d;
        forall i, j | 0 <= i < j < |whole| ensures Id(whole[i]) != Id(whole[j]) {
          assert whole[j] == d[j - 1];
        }
        forall r | r in whole ensures |r.md5| == MD5_LENGTH { assert r == rows[0] || r in d; assert rows[0] in rows; }
      }
    }
  }

  // ---------------------------------------------------------------- agreement

  /** A row of user_file_list. */
  datatype Key = Key(user: string, md5: string, name: string)

  /** `shared` is the column shared_status of user_file_list. */
  datatype State = State(rows: seq<ShareRow>, zset: map<string, int>, names: map<string, string>, shared: map<Key, bool>)

  /** The sorted set and the hash say the same as the table. */
  ghost predicate Agree(s: State) {
    && OneEach(s.rows)
    && s.zset.Keys == Ids(s.rows) && s.names.Keys == Ids(s.rows)
    && (forall r :: r in s.rows ==> s.zset[Id(r)] == r.pv && s.names[Id(r)] == r.name)
  }

  lemma IdsHas(rows: seq<ShareRow>, md5: string, name: string)
    requires OneEach(rows) && |md5| == MD5_LENGTH
    ensures FileId(md5, name) in Ids(rows) <==> Find(rows, md5, name).Some?
  {
    if FileId(md5, name) in Ids(rows) {
      var r :| r in rows && Id(r) == FileId(md5, name);
      SameId(r, ShareRow("", md5, name, 0));
    }
    if Find(rows, md5, name).Some? {
      assert Id(Find(rows, md5, name).value) in Ids(rows);
    }
  }

  lemma IdsMore(rows: seq<ShareRow>, r: ShareRow)
    ensures Ids(rows + [r]) == Ids(rows) + {Id(r)}
  {
    forall id | id in Ids(rows) + {Id(r)} ensures id in Ids(rows + [r]) {
      if id == Id(r) { assert r in rows + [r]; } else { var x :| x in rows && Id(x) == id; assert x in rows + [r]; }
    }
  }

  /** A file that is not shared yet. */
  lemma AddAgrees(s: State, r: ShareRow)
    requires Agree(s) && |r.md5| == MD5_LENGTH && Id(r) !in Ids(s.rows)
    ensures Agree(s.(rows := s.rows + [r], zset := s.zset[Id(r) := r.pv], names := s.names[Id(r) := r.name]))
  {
    IdsMore(s.rows, r);
    forall x | x in s.rows ensures Id(x) != Id(r) { assert Id(x) in Ids(s.rows); }
    AddOneEach(s.rows, r);
    hide OneEach, Ids, Id;
  }

  lemma AddOneEach(rows: seq<ShareRow>, r: ShareRow)
    requires OneEach(rows) && |r.md5| == MD5_LENGTH && forall x :: x in rows ==> Id(x) != Id(r)
    ensures OneEach(rows + [r])
  {
    hide Id;
  }

  lemma SetPvAt(rows: seq<ShareRow>, row: ShareRow, i: nat)
    requires OneEach(rows) && row in rows && i < |rows|
    ensures var r := SetPv(rows, row.md5, row.name, row.pv + 1)[i];
      Id(r) == Id(rows[i]) && r.name == rows[i].name && r.md5 == rows[i].md5
      && r.pv == if Id(rows[i]) == Id(row) then row.pv + 1 else rows[i].pv
  {
    if Id(rows[i]) == Id(row) {
      assert rows[i] in rows;
      SameId(rows[i], row);
    }
  }

  /** A row after the download that `row` has had. */
  ghost predicate CameFrom(rows: seq<ShareRow>, row: ShareRow, r: ShareRow) {
    exists x :: x in rows && Became(x, row, r)
  }

  ghost predicate Became(x: ShareRow, row: ShareRow, r: ShareRow) {
    Id(x) == Id(r) && r.name == x.name && r.md5 == x.md5 && r.pv == if Id(x) == Id(row) then row.pv + 1 else x.pv
  }

  lemma SetPvKeeps(rows: seq<ShareRow>, row: ShareRow)
    requires OneEach(rows) && row in rows
    ensures var rows' := SetPv(rows, row.md5, row.name, row.pv + 1);
      OneEach(rows') && Ids(rows') == Ids(rows) && forall r :: r in rows' ==> CameFrom(rows, row, r)
  {
    var rows' := SetPv(rows, row.md5, row.name, row.pv + 1);
    hide SetPv, Id;
    forall i | 0 <= i < |rows'| ensures Became(rows[i], row, rows'[i]) {
      SetPvAt(rows, row, i);
    }
    forall r | r in rows' ensures CameFrom(rows, row, r) && |r.md5| == MD5_LENGTH {
      var i :| 0 <= i < |rows'| && rows'[i] == r;
      assert rows[i] in rows && Became(rows[i], row, r);
    }
    SameIds(rows, rows');
  }

  lemma SameIds(rows: seq<ShareRow>, rows': seq<ShareRow>)
    requires |rows'| == |rows| && forall i :: 0 <= i < |rows| ==> Id(rows'[i]) == Id(rows[i])
    ensures Ids(rows') == Ids(rows)
  {
    hide Id;
    forall id | id in Ids(rows) ensures id in Ids(rows') {
      var x :| x in rows && Id(x) == id;
      var i :| 0 <= i < |rows| && rows[i] == x;
      assert rows'[i] in rows';
    }
    forall id | id in Ids(rows') ensures id in Ids(rows) {
      var x :| x in rows' && Id(x) == id;
      var i :| 0 <= i < |rows'| && rows'[i] == x;
      assert rows[i] in rows;
    }
  }

  /** One more download. */
  lemma PvAgrees(s: State, row: ShareRow)
    requires Agree(s) && row in s.rows
    ensures Agree(s.(rows := SetPv(s.rows, row.md5, row.name, row.pv + 1), zset := s.zset[Id(row) := row.pv + 1]))
  {
    SetPvKeeps(s.rows, row);
    hide SetPv, Id, OneEach;
    assert Id(row) in Ids(s.rows);
  }

  function Forgotten(s: State, user: string, md5: string, name: string): State {
    s.(rows := Drop(s.rows, user, md5, name), zset := s.zset - {FileId(md5, name)},
       names := s.names - {FileId(md5, name)})
  }

  /** Taking a file out of the ranking: right exactly when nobody else has shared it. */
  lemma ForgetAgrees(s: State, user: string, md5: string, name: string)
    requires Agree(s) && |md5| == MD5_LENGTH
    ensures Agree(Forgotten(s, user, md5, name)) <==>
            Find(s.rows, md5, name) == None || Find(s.rows, md5, name).value.user == user
  {
    var s' := Forgotten(s, user, md5, name);
    DropKeeps(s.rows, user, md5, name);
    IdsHas(s.rows, md5, name);
    var found := Find(s.rows, md5, name);
    if found.Some? && found.value.user != user {
      assert found.value in s'.rows;
      assert Id(found.value) in Ids(s'.rows);
    } else {
      SharerForgets(s, user, md5, name);
    }
  }

  lemma SharerForgets(s: State, user: string, md5: string, name: string)
    requires Agree(s) && |md5| == MD5_LENGTH
    requires var found := Find(s.rows, md5, name); found.Some? ==> found.value.user == user
    ensures Agree(Forgotten(s, user, md5, name))
  {
    DropKeeps(s.rows, user, md5, name);
    DropIds(s.rows, user, md5, name);
    hide Drop, OneEach, FileId;
  }

  lemma DropIds(rows: seq<ShareRow>, user: string, md5: string, name: string)
    requires OneEach(rows) && |md5| == MD5_LENGTH
    requires var found := Find(rows, md5, name); found.Some? ==> found.value.user == user
    ensures Ids(Drop(rows, user, md5, name)) == Ids(rows) - {FileId(md5, name)}
  {
    DropKeeps(rows, user, md5, name);
    IdsHas(rows, md5, name);
    var less, id := Drop(rows, user, md5, name), FileId(md5, name);
    forall r | r in rows && Id(r) == id ensures r.user == user && r.md5 == md5 && r.name == name {
      assert id in Ids(rows);
      OnlyOne(rows, r, Find(rows, md5, name).value);
    }
    hide Drop, OneEach, FileId, Find;
    forall x | x in Ids(rows) - {id} ensures x in Ids(less) {
      var r :| r in rows && Id(r) == x;
      assert Id(r) != id;
      assert r.user == user && r.md5 == md5 && r.name == name ==> Id(r) == id;
      assert r in less;
    }
    forall x | x in Ids(less) ensures x in Ids(rows) - {id} {
      var r :| r in less && Id(r) == x;
      assert r in rows;
    }
  }

  lemma OnlyOne(rows: seq<ShareRow>, a: ShareRow, b: ShareRow)
    requires OneEach(rows) && a in rows && b in rows && Id(a) == Id(b)
    ensures a == b
  {
    var i :| 0 <= i < |rows| && rows[i] == a;
    var j :| 0 <= j < |rows| && rows[j] == b;
  }

  // ---------------------------------------------------------------- runs of operations

  datatype Op =
    | Share(user: string, md5: string, name: string)
    | Download(md5: string, name: string)
    | Cancel(user: string, md5: string, name: string)
    | Delete(user: string, md5: string, name: string)

  /** `update user_file_list set shared_status = ...`: rows that are there. */
  function Flag(shared: map<Key, bool>, key: Key, status: bool): map<Key, bool> {
    if key in shared then shared[key := status] else shared
  }

  /** What an operation makes of tables and cache. */
  function Apply(s: State, op: Op): State {
    var id := FileId(op.md5, op.name);
    match op
    case Share(user, md5, name) =>
      if id in s.zset then s
      else if Find(s.rows, md5, name).Some? then s.(zset := s.zset[id := 0], names := s.names[id := name])
      else
        State(s.rows + [ShareRow(user, md5, name, 0)], s.zset[id := 0], s.names[id := name],
              Flag(s.shared, Key(user, md5, name), true))
    case Download(md5, name) =>
      if Find(s.rows, md5, name) == None then s
      else
        var pv := Find(s.rows, md5, name).value.pv + 1;
        s.(rows := SetPv(s.rows, md5, name, pv), zset := s.zset[id := if id in s.zset then s.zset[id] + 1 else pv],
           names := if id in s.zset then s.names else s.names[id := name])
    case Cancel(user, md5, name) =>
      Forgotten(s, user, md5, name).(shared := Flag(s.shared, Key(user, md5, name), false))
    case Delete(user, md5, name) =>
      var key := Key(user, md5, name);
      var out :=
        if id in s.zset then Forgotten(s, user, md5, name)
        else if key in s.shared && s.shared[key] then s.(rows := Drop(s.rows, user, md5, name))
        else s;
      out.(shared := s.shared - {key})
  }

  /** A file is taken out of the ranking by the user who has put it there. */
  predicate BySharer(rows: seq<ShareRow>, op: Op) {
    op.Cancel? || op.Delete? ==>
      Find(rows, op.md5, op.name) == None || Find(rows, op.md5, op.name).value.user == op.user
  }

  /** Table and cache go on agreeing after an operation exactly if it is by the sharer. */
  lemma ApplyAgrees(s: State, op: Op)
    requires Agree(s) && |op.md5| == MD5_LENGTH
    ensures Agree(Apply(s, op)) <==> BySharer(s.rows, op)
  {
    match op
    case Share(user, md5, name) => ShareAgrees(s, op);
    case Download(md5, name) => DownloadAgrees(s, op);
    case Cancel(user, md5, name) => CancelAgrees(s, op);
    case Delete(user, md5, name) => DeleteAgrees(s, op);
  }

  lemma CancelAgrees(s: State, op: Op)
    requires Agree(s) && |op.md5| == MD5_LENGTH && op.Cancel?
    ensures Agree(Apply(s, op)) <==> BySharer(s.rows, op)
  {
    hide Agree, Find, Forgotten;
    ForgetAgrees(s, op.user, op.md5, op.name);
    FlagsApart(Forgotten(s, op.user, op.md5, op.name), Flag(s.shared, Key(op.user, op.md5, op.name), false));
  }

  lemma DeleteAgrees(s: State, op: Op)
    requires Agree(s) && |op.md5| == MD5_LENGTH && op.Delete?
    ensures Agree(Apply(s, op)) <==> BySharer(s.rows, op)
  {
    var forgotten, less := Forgotten(s, op.user, op.md5, op.name), s.shared - {Key(op.user, op.md5, op.name)};
    IdsHas(s.rows, op.md5, op.name);
    ForgetAgrees(s, op.user, op.md5, op.name);
    if FileId(op.md5, op.name) !in s.zset {
      DropAbsent(s.rows, op.user, op.md5, op.name);
      assert s.(rows := s.rows) == s;
    }
    hide Agree, Find, Forgotten, FileId;
    FlagsApart(forgotten, less);
    FlagsApart(s, less);
  }

  lemma FlagsApart(s: State, shared: map<Key, bool>)
    ensures Agree(s.(shared := shared)) <==> Agree(s)
  {}

  lemma ShareAgrees(s: State, op: Op)
    requires Agree(s) && |op.md5| == MD5_LENGTH && op.Share?
    ensures Agree(Apply(s, op))
  {
    IdsHas(s.rows, op.md5, op.name);
    hide OneEach, Ids;
    if FileId(op.md5, op.name) !in s.zset { AddAgrees(s, ShareRow(op.user, op.md5, op.name, 0)); }
  }

  lemma DownloadIs(s: State, op: Op, row: ShareRow)
    requires op.Download? && Find(s.rows, op.md5, op.name) == Some(row)
    requires var id := FileId(op.md5, op.name); id in s.zset && s.zset[id] == row.pv
    ensures Apply(s, op) ==
            s.(rows := SetPv(s.rows, row.md5, row.name, row.pv + 1), zset := s.zset[Id(row) := row.pv + 1])
  {
    hide SetPv, FileId;
  }

  lemma DownloadAgrees(s: State, op: Op)
    requires Agree(s) && |op.md5| == MD5_LENGTH && op.Download?
    ensures Agree(Apply(s, op))
  {
    IdsHas(s.rows, op.md5, op.name);
    hide OneEach, Ids, SetPv;
    var found := Find(s.rows, op.md5, op.name);
    if found.Some? {
      var row := found.value;
      assert FileId(op.md5, op.name) == Id(row) && Id(row) in s.zset && s.zset[Id(row)] == row.pv;
      hide Apply, Agree, Find, Id, FileId;
      PvAgrees(s, row);
      DownloadIs(s, op, row);
    }
  }

  lemma {:induction false} DropAbsent(rows: seq<ShareRow>, user: string, md5: string, name: string)
    requires forall r :: r in rows ==> !(r.md5 == md5 && r.name == name)
    ensures Drop(rows, user, md5, name) == rows
    decreases |rows|
  {
    if rows != [] {
      assert rows == [rows[0]] + rows[1..] && rows[0] in rows;
      forall r | r in rows[1..] ensures r in rows {}
      DropAbsent(rows[1..], user, md5, name);
    }
  }

  function Run(s: State, ops: seq<Op>): State
    decreases |ops|
  {
    if ops == [] then s else Run(Apply(s, ops[0]), ops[1..])
  }

  ghost predicate AllBySharers(s: State, ops: seq<Op>)
    decreases |ops|
  {
    ops != [] ==>
      |ops[0].md5| == MD5_LENGTH && BySharer(s.rows, ops[0]) && AllBySharers(Apply(s, ops[0]), ops[1..])
  }

  /** Over every run of successful operations, whoever they are by, if only sharers take files out. */
  lemma {:induction false} RunAgrees(s: State, ops: seq<Op>)
    requires Agree(s) && AllBySharers(s, ops)
    ensures Agree(Run(s, ops))
    decreases |ops|
  {
    hide Apply, Agree, BySharer;
    if ops != [] {
      ApplyAgrees(s, ops[0]);
      RunAgrees(Apply(s, ops[0]), ops[1..]);
    }
  }

  /** A file that ann has shared, in a cache that agrees, until bob takes it out: the row stays and the
      cache has lost it. */
  lemma NotTheSharer(md5: string, name: string, pv: int)
    requires |md5| == MD5_LENGTH
    ensures var row := ShareRow("ann", md5, name, pv); var id := Id(row);
      var s := State([row], map[id := pv], map[id := name], map[]);
      Agree(s) && !Agree(Apply(s, Cancel("bob", md5, name))) && !Agree(Apply(s, Delete("bob", md5, name)))
  {
    var row := ShareRow("ann", md5, name, pv);
    var s := State([row], map[Id(row) := pv], map[Id(row) := name], map[]);
    assert row in s.rows && Ids(s.rows) == {Id(row)};
    assert Find(s.rows, md5, name) == Some(row) && "ann" != "bob";
    ApplyAgrees(s, Cancel("bob", md5, name));
    ApplyAgrees(s, Delete("bob", md5, name));
  }

  // ---------------------------------------------------------------- the handlers

  class Server {
    var rows: seq<ShareRow>
    var zset: map<string, int>
    var names: map<string, string>
    var shared: map<Key, bool>

    constructor (s: State)
      ensures View() == s
    {
      rows, zset, names, shared := s.rows, s.zset, s.names, s.shared;
    }

    ghost function View(): State
      reads this
    {
      State(rows, zset, names, shared)
    }

    method SetShared(key: Key, status: bool)
      modifies this`shared
      ensures shared == Flag(old(shared), key, status)
    {
      if key in shared { shared := shared[key := status]; }
    }

    /** InitializePvCache; `result` is what `select ... order by pv desc` gives. */
    method InitializePvCache(result: seq<ShareRow>)
      requires multiset(result) == multiset(rows)
      requires forall i, j :: 0 <= i < j < |result| ==> result[i].pv >= result[j].pv
      modifies this`zset, this`names
      ensures Copied(result, zset, names)
      ensures OneEach(rows) ==> Agree(View())
    {
      hide Copied;
      zset := map[];
      names := map[];
      NothingCopied(result[..0]);
      for i := 0 to |result|
        invariant Copied(result[..i], zset, names)
      {
        var field := FileId(result[i].md5, result[i].name);
        CopyOne(result, i, field, zset, names);
        zset := zset[field := result[i].pv];
        names := names[field := result[i].name];
      }
      assert result[..|result|] == result;
      if OneEach(rows) { CopiedAgrees(View(), result); }
    }

    /** handleShareFile; the result says that nobody has shared the file before. */
    method ShareFile(user: string, md5: string, name: string) returns (ok: bool)
      modifies this
      ensures View() == Apply(old(View()), Share(user, md5, name))
      ensures ok <==> FileId(md5, name) !in old(zset) && Find(old(rows), md5, name) == None
    {
      var id := FileId(md5, name);
      if id in zset { return false; }
      if Find(rows, md5, name).Some? {
        zset := zset[id := 0];
        names := names[id := name];
        return false;
      }
      SetShared(Key(user, md5, name), true);
      rows := rows + [ShareRow(user, md5, name, 0)];
      zset := zset[id := 0];
      names := names[id := name];
      return true;
    }

    /** handlePvFile of api_deal_sharefile.cc, with nothing in between. */
    method PvFile(md5: string, name: string) returns (ok: bool)
      modifies this
      ensures View() == Apply(old(View()), Download(md5, name))
      ensures ok <==> Find(old(rows), md5, name).Some?
    {
      var found := Find(rows, md5, name);
      if found == None { return false; }
      var pv := found.value.pv;
      rows := SetPv(rows, md5, name, pv + 1);
      var id := FileId(md5, name);
      if id in zset {
        zset := zset[id := zset[id] + 1];
      } else {
        zset := zset[id := pv + 1];
        names := names[id := name];
      }
      return true;
    }

    /** handleCancelShareFile: the cache forgets the file whoever has shared it. */
    method CancelShareFile(user: string, md5: string, name: string)
      modifies this
      ensures View() == Apply(old(View()), Cancel(user, md5, name))
    {
      SetShared(Key(user, md5, name), false);
      rows := Drop(rows, user, md5, name);
      var id := FileId(md5, name);
      zset := zset - {id};
      names := names - {id};
    }

    /** What handleDeleteFile does to shared files and to the user's row. */
    method DeleteFile(user: string, md5: string, name: string)
      modifies this
      ensures View() == Apply(old(View()), Delete(user, md5, name))
    {
      var id, key := FileId(md5, name), Key(user, md5, name);
      var isShared, redisHasRecord := false, false;
      if id in zset {
        isShared, redisHasRecord := true, true;
      } else if key in shared {
        isShared := shared[key];
      }
      if isShared {
        rows := Drop(rows, user, md5, name);
        if redisHasRecord {
          zset := zset - {id};
          names := names - {id};
        }
      }
      shared := shared - {key};
    }
  }

  /** The rows so far are in the cache, as far as no later one has the same id. */
  ghost predicate Copied(rows: seq<ShareRow>, zset: map<string, int>, names: map<string, string>) {
    && zset.Keys == Ids(rows) && names.Keys == Ids(rows)
    && forall i :: 0 <= i < |rows| ==> Shows(rows, i, zset, names)
  }

  ghost predicate Shows(rows: seq<ShareRow>, i: nat, zset: map<string, int>, names: map<string, string>)
    requires i < |rows|
  {
    var id := Id(rows[i]);
    (id in zset && id in names && zset[id] == rows[i].pv && names[id] == rows[i].name)
    || exists j :: i < j < |rows| && Id(rows[j]) == id
  }

  lemma NothingCopied(none: seq<ShareRow>)
    requires none == []
    ensures Copied(none, map[], map[])
  {}

  lemma CopyOne(result: seq<ShareRow>, i: nat, field: string, zset: map<string, int>, names: map<string, string>)
    requires i < |result| && Copied(result[..i], zset, names) && field == Id(result[i])
    ensures Copied(result[..i + 1], zset[field := result[i].pv], names[field := result[i].name])
  {
    var rows, rows' := result[..i], result[..i + 1];
    var zset', names' := zset[Id(result[i]) := result[i].pv], names[Id(result[i]) := result[i].name];
    assert rows' == rows + [result[i]];
    IdsMore(rows, result[i]);
    hide Id, Ids;
    forall k | 0 <= k < |rows'| ensures Shows(rows', k, zset', names') {
      if k < i {
        assert Shows(rows, k, zset, names);
        if Id(rows[k]) == Id(result[i]) {
          assert Id(rows'[i]) == Id(rows'[k]);
        } else if exists j :: k < j < |rows| && Id(rows[j]) == Id(rows[k]) {
          var j :| k < j < |rows| && Id(rows[j]) == Id(rows[k]);
          assert Id(rows'[j]) == Id(rows'[k]);
        }
      }
    }
  }

  lemma {:induction false} CountAtMostOne(rows: seq<ShareRow>, a: ShareRow)
    requires forall i, j :: 0 <= i < j < |rows| ==> rows[i] != rows[j]
    ensures multiset(rows)[a] <= 1
    decreases |rows|
  {
    if rows != [] {
      assert rows == [rows[0]] + rows[1..];
      CountAtMostOne(rows[1..], a);
      if rows[0] == a { assert a !in rows[1..]; }
    }
  }

  lemma CountTwo(rows: seq<ShareRow>, i: nat, j: nat)
    requires i < j < |rows| && rows[i] == rows[j]
    ensures multiset(rows)[rows[i]] >= 2
  {
    assert rows == rows[..j] + rows[j..];
    assert rows[..j][i] == rows[i] && rows[j..][0] == rows[j];
    assert rows[i] in rows[..j] && rows[i] in rows[j..];
  }

  /** Once all rows have been copied, and no two share an id. */
  lemma CopiedAgrees(s: State, result: seq<ShareRow>)
    requires OneEach(s.rows) && multiset(result) == multiset(s.rows) && Copied(result, s.zset, s.names)
    ensures Agree(s)
  {
    assert forall r :: r in s.rows <==> r in multiset(s.rows);
    assert forall r :: r in result <==> r in multiset(result);
    assert Ids(s.rows) == Ids(result);
    forall r | r in s.rows ensures Shown(r, s.zset, s.names) {
      var i :| 0 <= i < |result| && result[i] == r;
      NoLaterOne(s.rows, result, i);
      assert Shows(result, i, s.zset, s.names);
    }
    hide OneEach, Ids, Copied, Id;
  }

  ghost predicate Shown(r: ShareRow, zset: map<string, int>, names: map<string, string>) {
    Id(r) in zset && Id(r) in names && zset[Id(r)] == r.pv && names[Id(r)] == r.name
  }

  lemma NoLaterOne(rows: seq<ShareRow>, result: seq<ShareRow>, i: nat)
    requires OneEach(rows) && multiset(result) == multiset(rows) && i < |result|
    ensures forall j :: i < j < |result| ==> Id(result[j]) != Id(result[i])
  {
    forall j | i < j < |result| ensures Id(result[j]) != Id(result[i]) {
      if Id(result[j]) == Id(result[i]) {
        assert result[i] in multiset(result) && result[j] in multiset(result);
        OnlyOne(rows, result[i], result[j]);
        CountTwo(result, i, j);
        CountAtMostOne(rows, result[i]);
        assert false;
      }
    }
  }
}
