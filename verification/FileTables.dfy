/** The tables `file_info` and `user_file_list` behind the handlers in api/. Neither has a unique key that would
    keep what is proved here; the handlers have to. */
module FileTables {
  import opened Options

  datatype FileRow = FileRow(md5: string, fileId: string, count: int)
  datatype UserRow = UserRow(user: string, md5: string, name: string)

  // ---------------------------------------------------------------- rows

  /** `select count from file_info where md5 = ...`: the first row. */
  function CountOf(files: seq<FileRow>, md5: string): Option<int> {
    if files == [] then None
    else if files[0].md5 == md5 then Some(files[0].count)
    else CountOf(files[1..], md5)
  }

  /** `update file_info set count = ... where md5 = ...`. */
  function SetCount(files: seq<FileRow>, md5: string, count: int): (r: seq<FileRow>)
    ensures |r| == |files|
  {
    seq(|files|, i requires 0 <= i < |files| => if files[i].md5 == md5 then files[i].(count := count) else files[i])
  }

  /** `delete from file_info where md5 = ...`. */
  function DropFile(files: seq<FileRow>, md5: string): seq<FileRow> {
    if files == [] then []
    else if files[0].md5 == md5 then DropFile(files[1..], md5)
    else [files[0]] + DropFile(files[1..], md5)
  }

  /** `delete from user_file_list where user = ... and md5 = ... and file_name = ...`. */
  function DropUser(rows: seq<UserRow>, row: UserRow): seq<UserRow> {
    if rows == [] then []
    else if rows[0] == row then DropUser(rows[1..], row)
    else [rows[0]] + DropUser(rows[1..], row)
  }

  /** The number of references to a file. */
  function RefCount(rows: seq<UserRow>, md5: string): nat {
    if rows == [] then 0 else (if rows[0].md5 == md5 then 1 else 0) + RefCount(rows[1..], md5)
  }

  // ---------------------------------------------------------------- invariants

  /** Each file has one row, which counts its references, of which there are some. */
  ghost predicate Counted(files: seq<FileRow>, rows: seq<UserRow>) {
    forall md5 :: CountedFor(files, rows, md5)
  }

  ghost predicate CountedFor(files: seq<FileRow>, rows: seq<UserRow>, md5: string) {
    && Occurs(files, md5) <= 1
    && CountOf(files, md5) == if RefCount(rows, md5) == 0 then None else Some(RefCount(rows, md5))
  }

  function Occurs(files: seq<FileRow>, md5: string): nat {
    if files == [] then 0 else (if files[0].md5 == md5 then 1 else 0) + Occurs(files[1..], md5)
  }

  /** A user has a file under a name once. */
  ghost predicate Unique(rows: seq<UserRow>) { forall i, j :: 0 <= i < j < |rows| ==> rows[i] != rows[j] }

  // ---------------------------------------------------------------- what statements do to them

  lemma {:induction false} CountOccurs(files: seq<FileRow>, md5: string)
    ensures CountOf(files, md5) == None <==> Occurs(files, md5) == 0
    decreases |files|
  {
    if files != [] { CountOccurs(files[1..], md5); }
  }

  lemma {:induction false} AppendFile(files: seq<FileRow>, row: FileRow, md5: string)
    ensures Occurs(files + [row], md5) == Occurs(files, md5) + if row.md5 == md5 then 1 else 0
    ensures CountOf(files + [row], md5) ==
            if CountOf(files, md5).Some? then CountOf(files, md5) else if row.md5 == md5 then Some(row.count) else None
    decreases |files|
  {
    if files == [] {
      assert [row][1..] == [];
    } else {
      assert (files + [row])[1..] == files[1..] + [row];
      AppendFile(files[1..], row, md5);
    }
  }

  lemma {:induction false} SetCountAt(files: seq<FileRow>, md5: string, count: int, other: string)
    ensures Occurs(SetCount(files, md5, count), other) == Occurs(files, other)
    ensures CountOf(SetCount(files, md5, count), other) ==
            if other == md5 && CountOf(files, md5).Some? then Some(count) else CountOf(files, other)
    decreases |files|
  {
    if files != [] {
      assert SetCount(files, md5, count)[1..] == SetCount(files[1..], md5, count);
      SetCountAt(files[1..], md5, count, other);
    }
  }

  lemma {:induction false} DropFileAt(files: seq<FileRow>, md5: string, other: string)
    ensures Occurs(DropFile(files, md5), other) == if other == md5 then 0 else Occurs(files, other)
    ensures CountOf(DropFile(files, md5), other) == if other == md5 then None else CountOf(files, other)
    decreases |files|
  {
    if files != [] {
      DropFileAt(files[1..], md5, other);
      if files[0].md5 != md5 { assert ([files[0]] + DropFile(files[1..], md5))[1..] == DropFile(files[1..], md5); }
    }
  }

  lemma {:induction false} AppendUser(rows: seq<UserRow>, row: UserRow, md5: string)
    ensures RefCount(rows + [row], md5) == RefCount(rows, md5) + if row.md5 == md5 then 1 else 0
    decreases |rows|
  {
    if rows == [] {
      assert [row][1..] == [];
    } else {
      assert (rows + [row])[1..] == rows[1..] + [row];
      AppendUser(rows[1..], row, md5);
    }
  }

  lemma {:induction false} DropNone(rows: seq<UserRow>, row: UserRow)
    requires row !in rows
    ensures DropUser(rows, row) == rows
    decreases |rows|
  {
    if rows != [] {
      forall r | r in rows[1..] ensures r in rows {}
      DropNone(rows[1..], row);
      assert rows == [rows[0]] + rows[1..] && rows[0] in rows;
    }
  }

  lemma {:induction false} DropUserAt(rows: seq<UserRow>, row: UserRow, md5: string)
    requires Unique(rows)
    ensures RefCount(DropUser(rows, row), md5) == RefCount(rows, md5) - if row in rows && row.md5 == md5 then 1 else 0
    ensures Unique(DropUser(rows, row)) && row !in DropUser(rows, row)
    ensures forall r :: r in DropUser(rows, row) ==> r in rows
    decreases |rows|
  {
    if rows != [] {
      var rest := rows[1..];
      assert rows == [rows[0]] + rest;
      if rows[0] == row {
        assert row !in rest;
        DropNone(rest, row);
      } else {
        assert row in rows <==> row in rest;
        DropUserAt(rest, row, md5);
        var d := DropUser(rest, row);
        assert ([rows[0]] + d)[1..] == d;
        assert rows[0] !in rest;
      }
    }
  }

  lemma {:induction false} RefPositive(rows: seq<UserRow>, row: UserRow)
    requires row in rows
    ensures RefCount(rows, row.md5) > 0
    decreases |rows|
  {
    if rows[0] != row {
      assert row in rows[1..];
      RefPositive(rows[1..], row);
    }
  }

  // ---------------------------------------------------------------- whole operations

  /** The first upload of a file. If the file is known already, it gets a second row: the counts
      stay right exactly when it is not. */
  lemma UploadKeeps(files: seq<FileRow>, rows: seq<UserRow>, file: FileRow, row: UserRow)
    requires Counted(files, rows) && file.md5 == row.md5 && file.count == 1
    ensures Counted(files + [file], rows + [row]) <==> CountOf(files, file.md5) == None
  {
    if CountOf(files, file.md5) == None {
      forall md5 ensures CountedFor(files + [file], rows + [row], md5) {
        assert CountedFor(files, rows, md5);
        CountOccurs(files, md5);
        AppendFile(files, file, md5);
        AppendUser(rows, row, md5);
      }
    } else {
      var md5 := file.md5;
      CountOccurs(files, md5);
      AppendFile(files, file, md5);
      assert !CountedFor(files + [file], rows + [row], md5);
    }
  }

  /** One more reference to a file that is known. */
  lemma ReferenceKeeps(files: seq<FileRow>, rows: seq<UserRow>, row: UserRow)
    requires Counted(files, rows) && CountOf(files, row.md5).Some?
    ensures Counted(SetCount(files, row.md5, CountOf(files, row.md5).value + 1), rows + [row])
  {
    var n := CountOf(files, row.md5).value + 1;
    forall md5 ensures CountedFor(SetCount(files, row.md5, n), rows + [row], md5) {
      assert CountedFor(files, rows, md5);
      SetCountAt(files, row.md5, n, md5);
      AppendUser(rows, row, md5);
    }
  }

  /** A reference goes; the row of the file goes with the last one. */
  lemma DeleteKeeps(files: seq<FileRow>, rows: seq<UserRow>, row: UserRow)
    requires Counted(files, rows) && Unique(rows) && row in rows
    ensures CountOf(files, row.md5) == Some(RefCount(rows, row.md5)) && RefCount(rows, row.md5) > 0
    ensures var n := RefCount(rows, row.md5) - 1;
      var less := SetCount(files, row.md5, n);
      Counted(if n == 0 then DropFile(less, row.md5) else less, DropUser(rows, row))
  {
    assert CountedFor(files, rows, row.md5);
    RefPositive(rows, row);
    var n := RefCount(rows, row.md5) - 1;
    var less := SetCount(files, row.md5, n);
    var files' := if n == 0 then DropFile(less, row.md5) else less;
    forall md5 ensures CountedFor(files', DropUser(rows, row), md5) {
      assert CountedFor(files, rows, md5);
      SetCountAt(files, row.md5, n, md5);
      DropFileAt(less, row.md5, md5);
      DropUserAt(rows, row, md5);
    }
  }
}
