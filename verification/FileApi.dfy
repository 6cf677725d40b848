/** What api_upload.cc, api_md5.cc, api_deal_sharefile.cc and api_dealfile.cc do to the file tables,
    statement by statement; every statement may fail. */
module FileApi {
  import opened Options
  import opened FileTables

  datatype Tables = Tables(files: seq<FileRow>, rows: seq<UserRow>)

  ghost predicate Good(t: Tables) { Counted(t.files, t.rows) && Unique(t.rows) }

  // ---------------------------------------------------------------- operations that succeed

  datatype Op =
    | Upload(file: FileRow, row: UserRow)
    | Instant(row: UserRow)
    | Save(row: UserRow)
    | Delete(row: UserRow)

  /** What an operation comes to when all its statements work. */
  function Apply(t: Tables, op: Op): Tables {
    match op
    case Upload(file, row) => Tables(t.files + [file], t.rows + [row])
    case Instant(row) => Refer(t, row)
    case Save(row) => Refer(t, row)
    case Delete(row) => Unrefer(t, row)
  }

  function Refer(t: Tables, row: UserRow): Tables {
    if row in t.rows || CountOf(t.files, row.md5) == None then t
    else Tables(SetCount(t.files, row.md5, CountOf(t.files, row.md5).value + 1), t.rows + [row])
  }

  function Unrefer(t: Tables, row: UserRow): Tables {
    match CountOf(t.files, row.md5)
    case None => t.(rows := DropUser(t.rows, row))
    case Some(n) =>
      var files := if n > 0 then SetCount(t.files, row.md5, n - 1) else t.files;
      Tables(if n == 1 || n == 0 then DropFile(files, row.md5) else files, DropUser(t.rows, row))
  }

  /** Uploads are of new files, and users delete what they own. */
  predicate Allowed(t: Tables, op: Op) {
    match op
    case Upload(file, row) => CountOf(t.files, file.md5) == None
    case Instant(_) => true
    case Save(_) => true
    case Delete(row) => row in t.rows || CountOf(t.files, row.md5) == None
  }

  /** An upload stores the row it has made. */
  predicate WellFormed(op: Op) { op.Upload? ==> op.file.count == 1 && op.file.md5 == op.row.md5 }

  lemma UniqueMore(rows: seq<UserRow>, row: UserRow)
    requires Unique(rows) && row !in rows
    ensures Unique(rows + [row])
  {
  }

  lemma UnknownIsUnowned(t: Tables, row: UserRow)
    requires Good(t) && CountOf(t.files, row.md5) == None
    ensures row !in t.rows
  {
    assert CountedFor(t.files, t.rows, row.md5);
    if row in t.rows { RefPositive(t.rows, row); }
  }

  /** Reference counts and uniqueness survive an operation exactly when it is allowed. */
  lemma ApplyKeeps(t: Tables, op: Op)
    requires Good(t) && WellFormed(op)
    ensures Good(Apply(t, op)) <==> Allowed(t, op)
  {
    match op
    case Upload(file, row) =>
      UploadKeeps(t.files, t.rows, file, row);
      if CountOf(t.files, file.md5) == None {
        UnknownIsUnowned(t, row);
        UniqueMore(t.rows, row);
      }
    case Instant(row) => ReferKeeps(t, row);
    case Save(row) => ReferKeeps(t, row);
    case Delete(row) => UnreferKeeps(t, row);
  }

  lemma ReferKeeps(t: Tables, row: UserRow)
    requires Good(t)
    ensures Good(Refer(t, row))
  {
    if row !in t.rows && CountOf(t.files, row.md5).Some? {
      ReferenceKeeps(t.files, t.rows, row);
      UniqueMore(t.rows, row);
    }
  }

  lemma UnreferKeeps(t: Tables, row: UserRow)
    requires Good(t)
    ensures Good(Unrefer(t, row)) <==> row in t.rows || CountOf(t.files, row.md5) == None
  {
    assert CountedFor(t.files, t.rows, row.md5);
    if row in t.rows {
      DeleteKeeps(t.files, t.rows, row);
      DropUserAt(t.rows, row, row.md5);
    } else {
      DropNone(t.rows, row);
      if CountOf(t.files, row.md5).Some? {
        var n := CountOf(t.files, row.md5).value;
        var less := SetCount(t.files, row.md5, n - 1);
        SetCountAt(t.files, row.md5, n - 1, row.md5);
        DropFileAt(less, row.md5, row.md5);
        assert !CountedFor(Unrefer(t, row).files, t.rows, row.md5);
      }
    }
  }

  ghost predicate AllAllowed(t: Tables, ops: seq<Op>)
    decreases |ops|
  {
    ops != [] ==> WellFormed(ops[0]) && Allowed(t, ops[0]) && AllAllowed(Apply(t, ops[0]), ops[1..])
  }

  function Run(t: Tables, ops: seq<Op>): Tables
    decreases |ops|
  {
    if ops == [] then t else Run(Apply(t, ops[0]), ops[1..])
  }

  /** Conservation, over every run of successful operations. */
  lemma {:induction false} RunKeeps(t: Tables, ops: seq<Op>)
    requires Good(t) && AllAllowed(t, ops)
    ensures Good(Run(t, ops))
    decreases |ops|
  {
    hide Apply, Allowed, Good;
    if ops != [] {
      ApplyKeeps(t, ops[0]);
      RunKeeps(Apply(t, ops[0]), ops[1..]);
    }
  }

  /** The row of a file is there exactly as long as somebody refers to it. */
  lemma RowIffReferred(t: Tables, md5: string)
    requires Good(t)
    ensures CountOf(t.files, md5) == None <==> forall row :: row in t.rows ==> row.md5 != md5
    ensures CountOf(t.files, md5).Some? ==> CountOf(t.files, md5).value == RefCount(t.rows, md5) > 0
  {
    assert CountedFor(t.files, t.rows, md5);
    NoReference(t.rows, md5);
  }

  lemma {:induction false} NoReference(rows: seq<UserRow>, md5: string)
    ensures RefCount(rows, md5) == 0 <==> forall row :: row in rows ==> row.md5 != md5
    decreases |rows|
  {
    if rows != [] {
      assert rows == [rows[0]] + rows[1..];
      NoReference(rows[1..], md5);
    }
  }

  // ---------------------------------------------------------------- statements

  /** A save that has stopped after raising the count. */
  function HalfSaved(t: Tables, row: UserRow): Tables {
    match CountOf(t.files, row.md5)
    case None => t
    case Some(n) => t.(files := SetCount(t.files, row.md5, n + 1))
  }

  /** The process ends at a count query that fails: GetResultOneCount goes on with no result set. */
  datatype Md5Code = Md5Ok | Md5Failed | Md5FileExit | Md5Crash
  datatype SaveCode = Saved | SaveFailed | SaveExists | SaveCrash
  datatype DeleteCode = Deleted | DeleteFailed | DeleteCrash

  /** What a count query gives: GetResultOneCount of base/tc_common.cc. */
  datatype Answer = Count(n: int) | NoRecord | Crash

  /** A save that raises the count and then fails to insert the row. */
  predicate SaveStops(works: nat -> bool, start: nat) {
    works(start) && works(start + 1) && works(start + 2) && !works(start + 3)
  }

  /** What a deletion comes to, depending on which of its statements work. */
  function DeleteTo(t: Tables, row: UserRow, works: nat -> bool, start: nat): Tables {
    if !works(start) || !works(start + 1) then t
    else
      var gone := t.(rows := DropUser(t.rows, row));
      match CountOf(t.files, row.md5)
      case None => gone
      case Some(n) =>
        if !works(start + 2) then gone
        else if n > 0 then
          if !works(start + 3) then gone
          else
            var less := SetCount(t.files, row.md5, n - 1);
            gone.(files := if n == 1 && works(start + 4) then DropFile(less, row.md5) else less)
        else if n == 0 && works(start + 3) then gone.(files := DropFile(t.files, row.md5))
        else gone
  }

  /** A deletion that succeeds: all its statements work, but for the one that removes the row of the
      file, and the file goes from the storage if nobody refers to it any more. */
  predicate DeletesAll(t: Tables, row: UserRow, works: nat -> bool, start: nat) {
    && works(start) && works(start + 1) && works(start + 2)
    && match CountOf(t.files, row.md5)
       case None => false
       case Some(n) =>
         && (n > 0 ==> works(start + 3)) && (n == 1 ==> works(start + 5)) && (n == 0 ==> works(start + 4))
  }

  /** The deletions that leave the counts right: all is done of one that is allowed, or nothing is, or
      nothing that matters. */
  predicate DeletesWell(t: Tables, row: UserRow, works: nat -> bool, start: nat) {
    if !works(start) || !works(start + 1) then true
    else
      match CountOf(t.files, row.md5)
      case None => true
      case Some(n) =>
        if !works(start + 2) || !works(start + 3) then row !in t.rows
        else row in t.rows && (n == 1 ==> works(start + 4))
  }

  class Server {
    var files: seq<FileRow>
    var rows: seq<UserRow>
    var saved: Option<Tables>
    /** Whether the k-th statement works. */
    const works: nat -> bool
    var clock: nat

    constructor (t: Tables, works: nat -> bool)
      ensures View() == t && saved == None && this.works == works && clock == 0
    {
      files, rows, saved, clock := t.files, t.rows, None, 0;
      this.works := works;
    }

    ghost function View(): Tables
      reads this
    {
      Tables(files, rows)
    }

    /** No statement has failed since `start`. */
    ghost predicate AllWorked(start: nat)
      reads this
    {
      forall k :: start <= k < clock ==> works(k)
    }

    method Try() returns (ok: bool)
      modifies this`clock
      ensures ok == works(old(clock)) && clock == old(clock) + 1
    {
      ok := works(clock);
      clock := clock + 1;
    }

    method StartTransaction()
      modifies this`saved
      ensures saved == Some(View())
    {
      saved := Some(Tables(files, rows));
    }

    method Commit()
      modifies this`saved
      ensures saved == None
    {
      saved := None;
    }

    method Rollback()
      requires saved.Some?
      modifies this`saved, this`files, this`rows
      ensures saved == None && View() == old(saved).value
    {
      files, rows := saved.value.files, saved.value.rows;
      saved := None;
    }

    /** CheckwhetherHaveRecord: -1 if the query fails. */
    method CheckRecord(row: UserRow) returns (ret: int)
      modifies this`clock
      ensures clock == old(clock) + 1
      ensures ret == if !works(old(clock)) then -1 else if row in rows then 1 else 0
    {
      var ok := Try();
      return if !ok then -1 else if row in rows then 1 else 0;
    }

    /** GetResultOneCount. */
    method SelectCount(md5: string) returns (count: Answer)
      modifies this`clock
      ensures clock == old(clock) + 1
      ensures count == if !works(old(clock)) then Crash
                       else match CountOf(files, md5) case None => NoRecord case Some(n) => Count(n)
    {
      var ok := Try();
      return if !ok then Crash else match CountOf(files, md5) case None => NoRecord case Some(n) => Count(n);
    }

    method UpdateCount(md5: string, count: int) returns (ok: bool)
      modifies this`clock, this`files
      ensures clock == old(clock) + 1 && ok == works(old(clock))
      ensures files == if ok then SetCount(old(files), md5, count) else old(files)
    {
      ok := Try();
      if ok { files := SetCount(files, md5, count); }
    }

    method InsertUser(row: UserRow) returns (ok: bool)
      modifies this`clock, this`rows
      ensures clock == old(clock) + 1 && ok == works(old(clock))
      ensures rows == if ok then old(rows) + [row] else old(rows)
    {
      ok := Try();
      if ok { rows := rows + [row]; }
    }

    /** storeFileinfo. */
    method StoreFileinfo(file: FileRow, row: UserRow) returns (ok: bool)
      modifies this`clock, this`files, this`rows
      ensures ok <==> works(old(clock)) && works(old(clock) + 1)
      ensures ok <==> AllWorked(old(clock))
      ensures ok ==> View() == Apply(old(View()), Upload(file, row))
      ensures !ok ==> rows == old(rows) && (files == old(files) || files == old(files) + [file])
      ensures Good(old(View())) && WellFormed(Upload(file, row)) && CountOf(old(files), file.md5) == None ==>
        (Good(View()) <==> !(works(old(clock)) && !works(old(clock) + 1)))
    {
      hide Good;
      ghost var t := View();
      if Good(t) && WellFormed(Upload(file, row)) && CountOf(files, file.md5) == None {
        ApplyKeeps(t, Upload(file, row));
        HalfStored(t, file);
      }
      ok := Try();
      if !ok { return false; }
      files := files + [file];
      ok := InsertUser(row);
    }

    /** handleDealMd5: whatever fails, either both tables change or neither does. */
    method DealMd5(row: UserRow) returns (code: Md5Code)
      modifies this`clock, this`files, this`rows, this`saved
      ensures code == Md5FileExit <==> works(old(clock)) && row in old(rows)
      ensures code == Md5Crash <==> !(works(old(clock)) && row in old(rows)) && !works(old(clock) + 1)
      ensures code == Md5Ok <==>
        && !(works(old(clock)) && row in old(rows)) && CountOf(old(files), row.md5).Some?
        && works(old(clock) + 1) && works(old(clock) + 2) && works(old(clock) + 3)
      ensures code == Md5Ok ==>
        && CountOf(old(files), row.md5).Some? && rows == old(rows) + [row]
        && files == SetCount(old(files), row.md5, CountOf(old(files), row.md5).value + 1)
      ensures code != Md5Ok ==> View() == old(View())
      ensures AllWorked(old(clock)) ==> View() == Apply(old(View()), Instant(row))
      ensures Counted(old(files), old(rows)) ==> Counted(files, rows)
      ensures Unique(old(rows)) ==> (Unique(rows) <==> code != Md5Ok || row !in old(rows))
      ensures works(old(clock)) ==> !(code == Md5Ok && row in old(rows))
    {
      hide Counted, Unique, CountOf, SetCount, Good;
      StartTransaction();
      var ret := CheckRecord(row);
      if ret == 1 {
        Commit();
        return Md5FileExit;
      }
      var succeed := false;
      var count := SelectCount(row.md5);
      if count == Crash {
        Rollback();   // by the server, for a connection that has gone
        return Md5Crash;
      }
      if count.Count? {
        var ok := UpdateCount(row.md5, count.n + 1);
        if ok {
          succeed := InsertUser(row);
        }
      }
      if !succeed {
        Rollback();
        return Md5Failed;
      }
      Commit();
      if Counted(old(files), old(rows)) { ReferenceKeeps(old(files), old(rows), row); }
      if Unique(old(rows)) { UniqueIff(old(rows), row); }
      return Md5Ok;
    }

    /** handleSaveFile, without a transaction: it may stop half-way. */
    method SaveFile(row: UserRow) returns (code: SaveCode)
      modifies this`clock, this`files, this`rows
      ensures code == SaveExists <==> works(old(clock)) && row in old(rows)
      ensures code == SaveCrash <==> works(old(clock)) && row !in old(rows) && !works(old(clock) + 1)
      ensures code == Saved <==>
        && works(old(clock)) && row !in old(rows) && CountOf(old(files), row.md5).Some? && works(old(clock) + 1)
        && works(old(clock) + 2) && works(old(clock) + 3) && works(old(clock) + 4)
      ensures code == Saved ==> row !in old(rows) && View() == Apply(old(View()), Save(row))
      ensures code == SaveExists ==> View() == old(View())
      ensures View() == old(View()) || View() == Apply(old(View()), Save(row)) || View() == HalfSaved(old(View()), row)
      ensures AllWorked(old(clock)) ==> View() == Apply(old(View()), Save(row))
      ensures Good(old(View())) ==>
        (Good(View()) <==>
         !(row !in old(rows) && CountOf(old(files), row.md5).Some? && SaveStops(works, old(clock))))
      ensures code == SaveCrash ==> View() == old(View())
    {
      hide Counted, Unique, RefCount;
      ghost var t := View();
      ReferKeepsIf(t, row);
      var ret := CheckRecord(row);
      if ret == 1 { return SaveExists; }
      if ret < 0 { return SaveFailed; }
      var count := SelectCount(row.md5);
      if count == Crash { return SaveCrash; }
      if count == NoRecord { return SaveFailed; }
      HalfReferred(t, row);
      var ok := UpdateCount(row.md5, count.n + 1);
      if !ok { return SaveFailed; }
      ok := InsertUser(row);
      if !ok { return SaveFailed; }
      ok := Try();
      return if ok then Saved else SaveFailed;
    }

    /** The row of the file, which may stay if the statement fails, and the file in the storage. */
    method RemoveFile(md5: string) returns (ok: bool)
      modifies this`clock, this`files
      ensures clock == old(clock) + 2 && ok == works(old(clock) + 1)
      ensures files == if works(old(clock)) then DropFile(old(files), md5) else old(files)
    {
      ok := Try();
      if ok { files := DropFile(files, md5); }
      ok := Try();
    }

    /** The part of handleDeleteFile that is about the file tables; it may stop after any statement. */
    method DeleteFile(row: UserRow) returns (code: DeleteCode)
      modifies this`clock, this`files, this`rows
      ensures View() == DeleteTo(old(View()), row, works, old(clock))
      ensures code == DeleteCrash <==> works(old(clock)) && works(old(clock) + 1) && !works(old(clock) + 2)
      ensures code == Deleted <==> DeletesAll(old(View()), row, works, old(clock))
      ensures AllWorked(old(clock)) ==> View() == Apply(old(View()), Delete(row))
      ensures Good(old(View())) ==> (Good(View()) <==> DeletesWell(old(View()), row, works, old(clock)))
      ensures AllWorked(old(clock)) && Good(old(View())) ==> (Good(View()) <==> Allowed(old(View()), Delete(row)))
    {
      ghost var t := View();
      if Good(t) {
        UnreferKeeps(t, row);
        DeletedWell(t, row, works, clock);
      }
      hide Good, DeletesWell, RefCount, DropUser, DropFile, SetCount, CountOf;
      var ok := Try();
      if !ok { return DeleteFailed; }
      ok := Try();
      if !ok { return DeleteFailed; }
      rows := DropUser(rows, row);
      var count := SelectCount(row.md5);
      if count == Crash { return DeleteCrash; }
      if count == NoRecord { return DeleteFailed; }
      var n := count.n;
      if n > 0 {
        n := n - 1;
        ok := UpdateCount(row.md5, n);
        if !ok { return DeleteFailed; }
      }
      ok := n != 0;
      if n == 0 { ok := RemoveFile(row.md5); }
      return if ok then Deleted else DeleteFailed;
    }
  }

  /** A file row without its reference. */
  lemma HalfStored(t: Tables, file: FileRow)
    requires Good(t) && CountOf(t.files, file.md5) == None && file.count == 1
    ensures !Good(t.(files := t.files + [file]))
  {
    AppendFile(t.files, file, file.md5);
    assert CountedFor(t.files, t.rows, file.md5);
    assert !CountedFor(t.files + [file], t.rows, file.md5);
  }

  /** The states that a deletion can stop in, from a good one. */
  lemma Unreferred(t: Tables, row: UserRow)
    requires Good(t)
    ensures var gone := t.(rows := DropUser(t.rows, row)); var count := CountOf(t.files, row.md5);
      && (Good(gone) <==> row !in t.rows)
      && (row in t.rows ==> count.Some?)
      && (count.Some? ==>
            count.value > 0
            && (Good(gone.(files := SetCount(t.files, row.md5, count.value - 1))) <==> row in t.rows && count.value > 1))
  {
    assert CountedFor(t.files, t.rows, row.md5);
    var gone, count := t.(rows := DropUser(t.rows, row)), CountOf(t.files, row.md5);
    if row in t.rows {
      RefPositive(t.rows, row);
      DropUserAt(t.rows, row, row.md5);
      assert !CountedFor(gone.files, gone.rows, row.md5);
    } else {
      DropNone(t.rows, row);
    }
    if count.Some? { Lowered(t, row); }
  }

  lemma DeletedWell(t: Tables, row: UserRow, works: nat -> bool, start: nat)
    requires Good(t)
    ensures Good(DeleteTo(t, row, works, start)) <==> DeletesWell(t, row, works, start)
  {
    Unreferred(t, row);
    UnreferKeeps(t, row);
    hide Good, DropUser, DropFile, SetCount, CountOf;
  }

  lemma Lowered(t: Tables, row: UserRow)
    requires Good(t) && CountOf(t.files, row.md5).Some?
    ensures var n := CountOf(t.files, row.md5).value - 1;
      n >= 0 && (Good(Tables(SetCount(t.files, row.md5, n), DropUser(t.rows, row))) <==> row in t.rows && n > 0)
  {
    var n := CountOf(t.files, row.md5).value - 1;
    var less, rows := SetCount(t.files, row.md5, n), DropUser(t.rows, row);
    assert CountedFor(t.files, t.rows, row.md5);
    SetCountAt(t.files, row.md5, n, row.md5);
    if row in t.rows {
      DropUserAt(t.rows, row, row.md5);
      DeleteKeeps(t.files, t.rows, row);
      if n == 0 { assert !CountedFor(less, rows, row.md5); }
    } else {
      DropNone(t.rows, row);
      assert !CountedFor(less, rows, row.md5);
    }
  }

  lemma UniqueIff(rows: seq<UserRow>, row: UserRow)
    requires Unique(rows)
    ensures Unique(rows + [row]) <==> row !in rows
  {
    if row in rows {
      var i :| 0 <= i < |rows| && rows[i] == row;
      assert (rows + [row])[i] == (rows + [row])[|rows|];
    }
  }

  lemma ReferKeepsIf(t: Tables, row: UserRow)
    ensures Good(t) ==> Good(Refer(t, row))
  {
    if Good(t) { ReferKeeps(t, row); }
  }

  /** The count is raised and the reference is missing. */
  lemma HalfReferred(t: Tables, row: UserRow)
    requires CountOf(t.files, row.md5).Some?
    ensures var files := SetCount(t.files, row.md5, CountOf(t.files, row.md5).value + 1);
            files != t.files && (Good(t) ==> !Good(Tables(files, t.rows)))
  {
    var n := CountOf(t.files, row.md5).value + 1;
    SetCountAt(t.files, row.md5, n, row.md5);
    if Good(t) {
      assert CountedFor(t.files, t.rows, row.md5);
      assert !CountedFor(SetCount(t.files, row.md5, n), t.rows, row.md5);
    }
  }
}
