/** `handle_data`: merge freshly downloaded speed-test exports into the
    master table, deduplicated by test id, then delete the exports. */
module Broadband {
  import opened Wrappers
  import opened Clock
  import Text
  import opened Measurements

  /** The header a missing master table is created with, in this order. */
  const MasterColumns: seq<string> :=
    ["Messzeitpunkt", "Download (Mbit/s)", "Upload (Mbit/s)", "Laufzeit (ms)",
     "Test-ID", "Version", "Betriebssystem", "Internet-Browser"]

  /** The master table as stored: its header and its rows. */
  datatype Table = Table(columns: seq<string>, rows: seq<Record>)

  /** One row of a downloaded export, every cell still text: the date
      (`Messzeitpunkt`, `DD.MM.YYYY`) and time (`Uhrzeit`) of the test, the
      rates with a decimal comma, and the cells copied over unchanged. */
  datatype ExportRow = ExportRow(date: string, time: string, download: string,
                                 upload: string, runtime: string, testId: TestId,
                                 version: string, os: string, browser: string)

  datatype ExportFile = ExportFile(name: string, rows: seq<ExportRow>)

  /** `pd.to_datetime(_, format='%d.%m.%Y %H:%M:%S')` and `astype(float)`,
      which this model does not re-implement: partial functions, `None`
      where pandas raises. */
  datatype Parsers = Parsers(parseTime: string -> Option<DateTime>,
                             toFloat: string -> Option<real>)

  /** The export directory: the master table if it exists, and the other
      files in the order the directory listing gives them. */
  datatype Store = Store(master: Option<Table>, files: seq<ExportFile>)

  /** What `handle_data` does to the directory, in order. */
  datatype Step = CreateMaster | WriteMaster(table: Table) | Remove(name: string)

  /** The steps taken, and whether an exception ended the call after them. */
  datatype Merge = Merge(steps: seq<Step>, raised: bool)

  const ExportPrefix: string := "Breitbandmessung_"
  const ExportSuffix: string := ".csv"

  /** The file name matches the pattern `Breitbandmessung_*.csv`. */
  predicate IsExportName(name: string) {
    && |ExportPrefix| + |ExportSuffix| <= |name|
    && name[..|ExportPrefix|] == ExportPrefix
    && name[|name| - |ExportSuffix|..] == ExportSuffix
  }

  /** The files the glob picks up, in listing order. */
  function Pending(files: seq<ExportFile>): (ps: seq<ExportFile>)
    ensures forall i :: 0 <= i < |ps| ==> ps[i] in files && IsExportName(ps[i].name)
    ensures forall f :: f in files && IsExportName(f.name) ==> f in ps
    ensures (forall f :: f in files ==> !IsExportName(f.name)) ==> ps == []
  {
    if |files| == 0 then []
    else if IsExportName(files[0].name) then [files[0]] + Pending(files[1..])
    else Pending(files[1..])
  }

  /** The helper column `Messzeitpunkt_formatted`: date, one space, time. */
  function CombinedTimestamp(row: ExportRow): (t: string)
    ensures |t| == |row.date| + 1 + |row.time|
    ensures t[..|row.date|] == row.date && t[|row.date|] == ' '
    ensures t[|row.date| + 1..] == row.time
  {
    row.date + " " + row.time
  }

  /** The combined text splits back at its one space into the date and the
      time, so the `%d.%m.%Y %H:%M:%S` parse sees each cell whole, as long
      as neither cell holds a space itself. */
  lemma CombinedTimestampSplits(row: ExportRow)
    requires !Text.Contains(row.date, " ") && !Text.Contains(row.time, " ")
    ensures Text.Split(CombinedTimestamp(row), " ") == [row.date, row.time]
  {
    var parts := [row.date, row.time];
    assert parts[1..] == [row.time];
    assert Text.Join(parts, " ") == CombinedTimestamp(row);
    Text.SplitJoin(parts, " ");
  }

  /** `.str.replace(',', '.')`: a decimal comma becomes a decimal point. */
  function DecimalPoint(s: string): (r: string)
    ensures |r| == |s| && ',' !in r
    ensures forall i :: 0 <= i < |s| && s[i] != ',' ==> r[i] == s[i]
    ensures forall i :: 0 <= i < |s| && s[i] == ',' ==> r[i] == '.'
  {
    Text.ReplaceCharRemoves(s, ',', '.');
    Text.ReplaceChar(s, ',', '.')
  }

  /** The normalised row for `row`, given its parsed cells. The time column
      and the helper column are gone; the other cells are kept. */
  function Normalised(row: ExportRow, at: DateTime, down: real, up: real): Record
  {
    Record(at, down, up, row.runtime, row.testId, row.version, row.os, row.browser)
  }

  /** One row normalised on its own: the reference the column-wise pass is
      checked against. */
  function NormaliseRow(p: Parsers, row: ExportRow): (r: Option<Record>)
    ensures r.Some? <==> && p.parseTime(CombinedTimestamp(row)).Some?
                         && p.toFloat(DecimalPoint(row.download)).Some?
                         && p.toFloat(DecimalPoint(row.upload)).Some?
    ensures r.Some? ==> && Some(r.value.measuredAt) == p.parseTime(CombinedTimestamp(row))
                        && Some(r.value.download) == p.toFloat(DecimalPoint(row.download))
                        && Some(r.value.upload) == p.toFloat(DecimalPoint(row.upload))
                        && r.value.testId == row.testId && r.value.runtime == row.runtime
                        && r.value.version == row.version && r.value.os == row.os
                        && r.value.browser == row.browser
  {
    var at :- p.parseTime(CombinedTimestamp(row));
    var down :- p.toFloat(DecimalPoint(row.download));
    var up :- p.toFloat(DecimalPoint(row.upload));
    Some(Normalised(row, at, down, up))
  }

  /** The `Messzeitpunkt` column parsed, every cell or none. */
  function Times(p: Parsers, rows: seq<ExportRow>): (r: Option<seq<DateTime>>)
    ensures r.Some? <==> forall i :: 0 <= i < |rows| ==> p.parseTime(CombinedTimestamp(rows[i])).Some?
    ensures r.Some? ==> |r.value| == |rows|
    ensures r.Some? ==> forall i :: 0 <= i < |rows| ==>
                          Some(r.value[i]) == p.parseTime(CombinedTimestamp(rows[i]))
  {
    MapAll(rows, (row: ExportRow) => p.parseTime(CombinedTimestamp(row)))
  }

  /** The download column with decimal points, as floats. */
  function Downloads(p: Parsers, rows: seq<ExportRow>): (r: Option<seq<real>>)
    ensures r.Some? <==> forall i :: 0 <= i < |rows| ==> p.toFloat(DecimalPoint(rows[i].download)).Some?
    ensures r.Some? ==> |r.value| == |rows|
    ensures r.Some? ==> forall i :: 0 <= i < |rows| ==>
                          Some(r.value[i]) == p.toFloat(DecimalPoint(rows[i].download))
  {
    MapAll(rows, (row: ExportRow) => p.toFloat(DecimalPoint(row.download)))
  }

  /** The upload column with decimal points, as floats. */
  function Uploads(p: Parsers, rows: seq<ExportRow>): (r: Option<seq<real>>)
    ensures r.Some? <==> forall i :: 0 <= i < |rows| ==> p.toFloat(DecimalPoint(rows[i].upload)).Some?
    ensures r.Some? ==> |r.value| == |rows|
    ensures r.Some? ==> forall i :: 0 <= i < |rows| ==>
                          Some(r.value[i]) == p.toFloat(DecimalPoint(rows[i].upload))
  {
    MapAll(rows, (row: ExportRow) => p.toFloat(DecimalPoint(row.upload)))
  }

  /** One export normalised the way pandas does it, a column at a time: all
      timestamps, then all downloads, then all uploads. Any cell that does
      not parse makes the whole file fail. */
  function NormaliseFile(p: Parsers, rows: seq<ExportRow>): (r: Option<seq<Record>>)
    ensures r.Some? ==> |r.value| == |rows|
  {
    var ats :- Times(p, rows);
    var downs :- Downloads(p, rows);
    var ups :- Uploads(p, rows);
    Some(seq(|rows|, i requires 0 <= i < |rows| => Normalised(rows[i], ats[i], downs[i], ups[i])))
  }

  /** The export normalised one row at a time: the reference the column-wise
      pass is checked against. */
  function Rowwise(p: Parsers, rows: seq<ExportRow>): (r: Option<seq<Record>>)
    ensures r.Some? <==> forall i :: 0 <= i < |rows| ==> NormaliseRow(p, rows[i]).Some?
    ensures r.Some? ==> |r.value| == |rows|
    ensures r.Some? ==> forall i :: 0 <= i < |rows| ==> Some(r.value[i]) == NormaliseRow(p, rows[i])
  {
    MapAll(rows, (row: ExportRow) => NormaliseRow(p, row))
  }

  /** Normalising column by column gives the same table as normalising row
      by row, and fails exactly when some row fails. */
  lemma NormaliseFileRowwise(p: Parsers, rows: seq<ExportRow>)
    ensures NormaliseFile(p, rows) == Rowwise(p, rows)
  {
    if Rowwise(p, rows).Some? {
      RowwiseSucceeds(p, rows);
    } else {
      RowwiseFails(p, rows);
    }
  }

  lemma RowwiseSucceeds(p: Parsers, rows: seq<ExportRow>)
    requires Rowwise(p, rows).Some?
    ensures NormaliseFile(p, rows) == Rowwise(p, rows)
  {
    var byRow := Rowwise(p, rows).value;
    forall i | 0 <= i < |rows|
      ensures p.parseTime(CombinedTimestamp(rows[i])).Some?
      ensures p.toFloat(DecimalPoint(rows[i].download)).Some?
      ensures p.toFloat(DecimalPoint(rows[i].upload)).Some?
    {
      assert NormaliseRow(p, rows[i]).Some?;
    }
    var ats, downs, ups := Times(p, rows).value, Downloads(p, rows).value, Uploads(p, rows).value;
    assert NormaliseFile(p, rows).Some?;
    var byColumn := NormaliseFile(p, rows).value;
    forall i | 0 <= i < |rows|
      ensures byColumn[i] == byRow[i]
    {
      assert byColumn[i] == Normalised(rows[i], ats[i], downs[i], ups[i]);
      assert Some(byRow[i]) == NormaliseRow(p, rows[i]);
    }
    assert byColumn == byRow;
  }

  lemma RowwiseFails(p: Parsers, rows: seq<ExportRow>)
    requires Rowwise(p, rows).None?
    ensures NormaliseFile(p, rows).None?
  {
    var i :| 0 <= i < |rows| && NormaliseRow(p, rows[i]).None?;
    if p.parseTime(CombinedTimestamp(rows[i])).None? {
      assert Times(p, rows).None?;
    } else if p.toFloat(DecimalPoint(rows[i].download)).None? {
      assert Downloads(p, rows).None?;
    } else {
      assert Uploads(p, rows).None?;
    }
  }

  /** Every export normalised, in order; `None` when any of them fails. */
  function NormaliseAll(p: Parsers, files: seq<ExportFile>): (r: Option<seq<seq<Record>>>)
    ensures r.Some? <==> forall i :: 0 <= i < |files| ==> NormaliseFile(p, files[i].rows).Some?
    ensures r.Some? ==> |r.value| == |files|
    ensures r.Some? ==> forall i :: 0 <= i < |files| ==> Some(r.value[i]) == NormaliseFile(p, files[i].rows)
  {
    MapAll(files, (f: ExportFile) => NormaliseFile(p, f.rows))
  }

  /** The rows of several tables one after another (`pd.concat`). */
  function Flatten(tables: seq<seq<Record>>): seq<Record>
  {
    if |tables| == 0 then [] else tables[0] + Flatten(tables[1..])
  }

  /** In the concatenation each file's rows sit, unchanged, after the rows
      of every earlier file and before those of every later one. */
  lemma {:induction false} FlattenAround(tables: seq<seq<Record>>, k: nat)
    requires k < |tables|
    ensures Flatten(tables) == Flatten(tables[..k]) + tables[k] + Flatten(tables[k + 1..])
    decreases k
  {
    if k == 0 {
      assert tables[..0] == [];
    } else {
      var rest := tables[1..];
      FlattenAround(rest, k - 1);
      assert rest[..k - 1] == tables[1..k];
      assert rest[k..] == tables[k + 1..];
      assert tables[..k][0] == tables[0] && tables[..k][1..] == tables[1..k];
    }
  }

  /** The removal of each consumed export, in glob order. */
  function Removals(files: seq<ExportFile>): (steps: seq<Step>)
    ensures |steps| == |files|
    ensures forall i :: 0 <= i < |files| ==> steps[i] == Remove(files[i].name)
  {
    seq(|files|, i requires 0 <= i < |files| => Remove(files[i].name))
  }

  /** `handle_data`. A missing master is created first; with no exports
      nothing else happens. Otherwise every export is normalised (a cell
      that does not parse raises, after the master was created), the master
      rows and then the exports' rows are concatenated, duplicates by test
      id are dropped keeping the first, the master is overwritten and only
      then are the exports removed. */
  function HandleData(p: Parsers, s: Store): (m: Merge)
  {
    var exports := Pending(s.files);
    if |exports| == 0 then Merge(Creation(s), false)
    else
      match NormaliseAll(p, exports)
      case None => Merge(Creation(s), true)
      case Some(tables) => Merge(MergeSteps(Creation(s), Merged(Existing(s), tables), exports), false)
  }

  /** The master as the merge reads it: a missing one has just been created
      with the fixed header and no rows. */
  function Existing(s: Store): Table {
    if s.master.Some? then s.master.value else Table(MasterColumns, [])
  }

  function Creation(s: Store): seq<Step> {
    if s.master.None? then [CreateMaster] else []
  }

  /** The master rows, then the exports' rows, without repeated test ids. */
  function Merged(existing: Table, tables: seq<seq<Record>>): Table {
    Table(existing.columns, DropDuplicates(existing.rows + Flatten(tables)))
  }

  /** The steps of a successful merge: the write, then the removals. */
  function MergeSteps(created: seq<Step>, merged: Table, exports: seq<ExportFile>): seq<Step>
  {
    created + [WriteMaster(merged)] + Removals(exports)
  }

  function WithoutName(files: seq<ExportFile>, name: string): (r: seq<ExportFile>)
    ensures forall f :: f in r <==> f in files && f.name != name
  {
    if |files| == 0 then []
    else if files[0].name == name then WithoutName(files[1..], name)
    else [files[0]] + WithoutName(files[1..], name)
  }

  /** The directory after one step. */
  function ApplyStep(s: Store, step: Step): Store
  {
    match step
    case CreateMaster => s.(master := Some(Table(MasterColumns, [])))
    case WriteMaster(t) => s.(master := Some(t))
    case Remove(name) => s.(files := WithoutName(s.files, name))
  }

  /** The directory after a sequence of steps. */
  function Apply(s: Store, steps: seq<Step>): Store
    decreases |steps|
  {
    if |steps| == 0 then s else Apply(ApplyStep(s, steps[0]), steps[1..])
  }

  lemma {:induction false} ApplyAppend(s: Store, a: seq<Step>, b: seq<Step>)
    ensures Apply(s, a + b) == Apply(Apply(s, a), b)
    decreases |a|
  {
    if |a| == 0 {
      assert a + b == b;
    } else {
      assert (a + b)[0] == a[0] && (a + b)[1..] == a[1..] + b;
      ApplyAppend(ApplyStep(s, a[0]), a[1..], b);
    }
  }

  /** Removing the exports leaves the master alone and deletes exactly the
      files with their names. */
  lemma {:induction false} ApplyRemovals(s: Store, exports: seq<ExportFile>)
    ensures Apply(s, Removals(exports)).master == s.master
    ensures forall f :: f in Apply(s, Removals(exports)).files <==>
                        f in s.files && forall e :: e in exports ==> e.name != f.name
    decreases |exports|
  {
    if |exports| > 0 {
      var s' := ApplyStep(s, Remove(exports[0].name));
      assert Removals(exports) == [Remove(exports[0].name)] + Removals(exports[1..]);
      assert Removals(exports)[1..] == Removals(exports[1..]);
      ApplyRemovals(s', exports[1..]);
      forall e | e in exports ensures e == exports[0] || e in exports[1..] {
        var i :| 0 <= i < |exports| && exports[i] == e;
        if i > 0 { assert exports[1..][i - 1] == e; }
      }
    }
  }

  /** With no export present, `handle_data` only creates a missing master:
      the table it finds is kept and no file is touched. */
  lemma NoExportsOnlyCreatesMaster(p: Parsers, s: Store)
    requires |Pending(s.files)| == 0
    ensures var m := HandleData(p, s);
            && !m.raised
            && m.steps == (if s.master.None? then [CreateMaster] else [])
            && Apply(s, m.steps) == s.(master := Some(if s.master.Some? then s.master.value
                                                       else Table(MasterColumns, [])))
  {
    var m := HandleData(p, s);
    if s.master.None? {
      assert m.steps[1..] == [];
    }
  }

  /** A missing master is created before anything else, with the fixed
      eight-column header and no rows. */
  lemma MissingMasterCreatedFirst(p: Parsers, s: Store)
    requires s.master.None?
    ensures var m := HandleData(p, s);
            |m.steps| > 0 && m.steps[0] == CreateMaster
            && ApplyStep(s, m.steps[0]).master == Some(Table(MasterColumns, []))
            && |MasterColumns| == 8
  {
  }

  /** When a cell of some export does not parse, the call raises having
      done nothing beyond creating a missing master: the master keeps its
      rows and every export stays in place for the next run. */
  lemma ParseFailureKeepsExports(p: Parsers, s: Store)
    requires |Pending(s.files)| > 0
    requires exists i :: 0 <= i < |Pending(s.files)| && NormaliseFile(p, Pending(s.files)[i].rows).None?
    ensures var m := HandleData(p, s);
            && m.raised
            && (forall i :: 0 <= i < |m.steps| ==> m.steps[i] == CreateMaster)
            && Apply(s, m.steps).files == s.files
            && (s.master.Some? ==> Apply(s, m.steps).master == s.master)
  {
    var m := HandleData(p, s);
    if s.master.None? {
      assert m.steps[1..] == [];
    }
  }

  /** A successful merge overwrites the master before it removes any
      export, and removes each consumed export once, in glob order. */
  lemma WriteBeforeRemovals(p: Parsers, s: Store)
    requires NormaliseAll(p, Pending(s.files)).Some? && |Pending(s.files)| > 0
    ensures var m := HandleData(p, s);
            var exports := Pending(s.files);
            var w := if s.master.None? then 1 else 0;
            && !m.raised
            && |m.steps| == w + 1 + |exports|
            && m.steps[w].WriteMaster?
            && (forall i :: 0 <= i < |m.steps| && m.steps[i].Remove? ==> w < i)
            && (forall i :: 0 <= i < |exports| ==> m.steps[w + 1 + i] == Remove(exports[i].name))
  {
    var tables := NormaliseAll(p, Pending(s.files)).value;
    StepsInOrder(Creation(s), Merged(Existing(s), tables), Pending(s.files));
  }

  lemma StepsInOrder(created: seq<Step>, merged: Table, exports: seq<ExportFile>)
    requires |created| <= 1 && forall i :: 0 <= i < |created| ==> created[i] == CreateMaster
    ensures var steps := MergeSteps(created, merged, exports);
            && |steps| == |created| + 1 + |exports|
            && steps[|created|] == WriteMaster(merged)
            && (forall i :: 0 <= i < |steps| && steps[i].Remove? ==> |created| < i)
            && (forall i :: 0 <= i < |exports| ==> steps[|created| + 1 + i] == Remove(exports[i].name))
  {
    var head := created + [WriteMaster(merged)];
    var steps := MergeSteps(created, merged, exports);
    assert steps == head + Removals(exports);
    assert forall i :: |head| <= i < |steps| ==> steps[i] == Removals(exports)[i - |head|];
  }

  /** What a successful merge leaves behind. The master holds the old
      master's rows and then the exports' rows in file order, with only the
      first row of every test id kept; every export is gone and every other
      file is untouched. */
  lemma MergeResult(p: Parsers, s: Store)
    requires NormaliseAll(p, Pending(s.files)).Some? && |Pending(s.files)| > 0
    ensures var tables := NormaliseAll(p, Pending(s.files)).value;
            var after := Apply(s, HandleData(p, s).steps);
            && after.master == Some(Table(Existing(s).columns,
                                          DropDuplicates(Existing(s).rows + Flatten(tables))))
            && (forall f :: f in after.files <==> f in s.files && !IsExportName(f.name))
  {
    var exports := Pending(s.files);
    var merged := Merged(Existing(s), NormaliseAll(p, exports).value);
    var head := Creation(s) + [WriteMaster(merged)];
    assert HandleData(p, s).steps == head + Removals(exports);
    ApplyAppend(s, head, Removals(exports));
    var written := Apply(s, head);
    assert written == s.(master := Some(merged)) by {
      ApplyAppend(s, Creation(s), [WriteMaster(merged)]);
      if s.master.None? {
        assert Apply(s, Creation(s)) == ApplyStep(s, CreateMaster);
      }
    }
    ApplyRemovals(written, exports);
    forall f | f in s.files && !IsExportName(f.name)
      ensures forall e :: e in exports ==> e.name != f.name
    {
    }
  }

  /** The master a merge writes never holds two rows with one test id, and
      holds every test id of the old master and of the exports. */
  lemma MergedMasterUnique(p: Parsers, s: Store)
    requires NormaliseAll(p, Pending(s.files)).Some? && |Pending(s.files)| > 0
    ensures var tables := NormaliseAll(p, Pending(s.files)).value;
            var after := Apply(s, HandleData(p, s).steps);
            && after.master.Some?
            && Unique(after.master.value.rows)
            && Ids(after.master.value.rows) == Ids(Existing(s).rows) + Ids(Flatten(tables))
  {
    MergeResult(p, s);
    IdsAppend(Existing(s).rows, Flatten(NormaliseAll(p, Pending(s.files)).value));
  }

  /** Against a master without duplicate ids, its rows survive the merge in
      place, and the rows added after them carry only new test ids. */
  lemma MasterRowsKept(p: Parsers, s: Store)
    requires NormaliseAll(p, Pending(s.files)).Some? && |Pending(s.files)| > 0
    requires s.master.Some? ==> Unique(s.master.value.rows)
    ensures var existing := Existing(s).rows;
            var after := Apply(s, HandleData(p, s).steps).master;
            && after.Some?
            && existing <= after.value.rows
            && forall i :: |existing| <= i < |after.value.rows| ==>
                 after.value.rows[i].testId !in Ids(existing)
  {
    MergeResult(p, s);
    MasterRowsWin(Existing(s).rows, Flatten(NormaliseAll(p, Pending(s.files)).value));
  }

  /** Exports holding only tests the master already has (a merge replayed
      after a crash before the removals) leave the master as it was. */
  lemma ReplayAbsorbed(p: Parsers, s: Store)
    requires NormaliseAll(p, Pending(s.files)).Some? && |Pending(s.files)| > 0
    requires s.master.Some? && Unique(s.master.value.rows)
    requires Ids(Flatten(NormaliseAll(p, Pending(s.files)).value)) <= Ids(s.master.value.rows)
    ensures Apply(s, HandleData(p, s).steps).master == s.master
  {
    MergeResult(p, s);
    KnownRowsAbsorbed(s.master.value.rows, Flatten(NormaliseAll(p, Pending(s.files)).value));
  }

  /** Running `handle_data` again right after a successful run changes
      nothing: there is a master and no export left. */
  lemma SecondRunIsNoOp(p: Parsers, s: Store)
    requires !HandleData(p, s).raised
    ensures var after := Apply(s, HandleData(p, s).steps);
            HandleData(p, after) == Merge([], false)
  {
    var after := Apply(s, HandleData(p, s).steps);
    if |Pending(s.files)| == 0 {
      NoExportsOnlyCreatesMaster(p, s);
      assert after.files == s.files;
    } else {
      assert NormaliseAll(p, Pending(s.files)).Some?;
      MergeResult(p, s);
    }
    NothingPendingNoOp(p, after);
  }

  /** A directory with a master and no export gives `handle_data` nothing
      to do. */
  lemma NothingPendingNoOp(p: Parsers, s: Store)
    requires s.master.Some? && forall f :: f in s.files ==> !IsExportName(f.name)
    ensures HandleData(p, s) == Merge([], false)
  {
    assert Pending(s.files) == [];
  }
}
