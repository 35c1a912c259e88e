/** Broadband speed-test rows and pandas' `drop_duplicates(subset=['Test-ID'])`
    with its default `keep='first'`. */
module Measurements {
  import opened Wrappers
  import opened Clock

  type TestId = string

  /** One row of the master table, in its column order: measurement time,
      download and upload in Mbit/s, run time in ms, test id, version,
      operating system and browser. */
  datatype Record = Record(measuredAt: DateTime, download: real, upload: real,
                           runtime: string, testId: TestId, version: string,
                           os: string, browser: string)

  function Ids(rows: seq<Record>): set<TestId>
  {
    set r | r in rows :: r.testId
  }

  /** No two rows share a test id. */
  predicate Unique(rows: seq<Record>) {
    forall i, j :: 0 <= i < j < |rows| ==> rows[i].testId != rows[j].testId
  }

  /** The first row, in table order, that carries `id`. */
  function FirstWithId(rows: seq<Record>, id: TestId): Option<Record>
  {
    if |rows| == 0 then None
    else if rows[0].testId == id then Some(rows[0])
    else FirstWithId(rows[1..], id)
  }

  /** `a` is `b` with some rows left out and the rest in their order. */
  ghost predicate IsSubsequence(a: seq<Record>, b: seq<Record>)
    decreases |b|
  {
    if |a| == 0 then true
    else if |b| == 0 then false
    else if a[|a| - 1] == b[|b| - 1] && IsSubsequence(a[..|a| - 1], b[..|b| - 1]) then true
    else IsSubsequence(a, b[..|b| - 1])
  }

  lemma IdsSnoc(rows: seq<Record>, x: Record)
    ensures Ids(rows + [x]) == Ids(rows) + {x.testId}
  {
    assert forall r :: r in rows + [x] <==> r in rows || r == x;
  }

  lemma IdsAppend(a: seq<Record>, b: seq<Record>)
    ensures Ids(a + b) == Ids(a) + Ids(b)
  {
    assert forall r :: r in a + b <==> r in a || r in b;
  }

  lemma {:induction false} FirstWithIdFound(rows: seq<Record>, id: TestId)
    ensures FirstWithId(rows, id).Some? <==> id in Ids(rows)
    ensures FirstWithId(rows, id).Some? ==>
              FirstWithId(rows, id).value in rows && FirstWithId(rows, id).value.testId == id
    decreases |rows|
  {
    if |rows| > 0 {
      FirstWithIdFound(rows[1..], id);
      assert rows == [rows[0]] + rows[1..];
      IdsAppend([rows[0]], rows[1..]);
      assert Ids([rows[0]]) == {rows[0].testId};
    }
  }

  /** Rows appended after a table never change which row is first for an
      id the table already has. */
  lemma {:induction false} FirstWithIdAppend(a: seq<Record>, b: seq<Record>, id: TestId)
    ensures FirstWithId(a + b, id)
            == if FirstWithId(a, id).Some? then FirstWithId(a, id) else FirstWithId(b, id)
    decreases |a|
  {
    if |a| > 0 {
      assert (a + b)[0] == a[0];
      assert (a + b)[1..] == a[1..] + b;
      FirstWithIdAppend(a[1..], b, id);
    } else {
      assert a + b == b;
    }
  }

  /** `drop_duplicates(subset=['Test-ID'])`: keep the first row of every test
      id, in table order. */
  function DropDuplicates(rows: seq<Record>): (r: seq<Record>)
    ensures Unique(r)
    ensures Ids(r) == Ids(rows)
    ensures forall i :: 0 <= i < |r| ==> FirstWithId(rows, r[i].testId) == Some(r[i])
    decreases |rows|
  {
    if |rows| == 0 then []
    else
      var init, last := rows[..|rows| - 1], rows[|rows| - 1];
      assert rows == init + [last];
      var d := DropDuplicates(init);
      IdsSnoc(init, last);
      forall i | 0 <= i < |d|
        ensures FirstWithId(rows, d[i].testId) == Some(d[i])
      {
        FirstWithIdAppend(init, [last], d[i].testId);
      }
      if last.testId in Ids(d) then d
      else
        IdsSnoc(d, last);
        FirstWithIdAppend(init, [last], last.testId);
        FirstWithIdFound(init, last.testId);
        assert forall i :: 0 <= i < |d| ==> d[i] in d;
        d + [last]
  }

  /** The kept rows are the input with some rows left out, order intact. */
  lemma {:induction false} DropDuplicatesIsSubsequence(rows: seq<Record>)
    ensures IsSubsequence(DropDuplicates(rows), rows)
    decreases |rows|
  {
    if |rows| > 0 {
      var init, last := rows[..|rows| - 1], rows[|rows| - 1];
      assert rows == init + [last];
      DropDuplicatesIsSubsequence(init);
      SubsequenceExtend(DropDuplicates(init), init, last);
    }
  }

  lemma SubsequenceExtend(a: seq<Record>, b: seq<Record>, x: Record)
    requires IsSubsequence(a, b)
    ensures IsSubsequence(a, b + [x]) && IsSubsequence(a + [x], b + [x])
  {
    assert (b + [x])[..|b|] == b;
    assert (a + [x])[..|a|] == a;
  }

  /** Exactly one row per distinct test id survives. */
  lemma {:induction false} UniqueSize(rows: seq<Record>)
    requires Unique(rows)
    ensures |rows| == |Ids(rows)|
    decreases |rows|
  {
    if |rows| > 0 {
      var init, last := rows[..|rows| - 1], rows[|rows| - 1];
      assert rows == init + [last];
      UniqueSize(init);
      IdsSnoc(init, last);
      LastIdIsNew(rows);
    }
  }

  /** In a unique table the last row's id does not occur before it. */
  lemma LastIdIsNew(rows: seq<Record>)
    requires |rows| > 0 && Unique(rows)
    ensures rows[|rows| - 1].testId !in Ids(rows[..|rows| - 1])
  {
    var init := rows[..|rows| - 1];
    forall r | r in init
      ensures r.testId != rows[|rows| - 1].testId
    {
      var i :| 0 <= i < |init| && init[i] == r;
      assert rows[i] == r;
    }
  }

  lemma DropDuplicatesSize(rows: seq<Record>)
    ensures |DropDuplicates(rows)| == |Ids(rows)|
  {
    UniqueSize(DropDuplicates(rows));
  }

  /** A table that is already unique is left as it is. */
  lemma {:induction false} DropDuplicatesOfUnique(rows: seq<Record>)
    requires Unique(rows)
    ensures DropDuplicates(rows) == rows
    decreases |rows|
  {
    if |rows| > 0 {
      var init, last := rows[..|rows| - 1], rows[|rows| - 1];
      assert Unique(init) by {
        forall i, j | 0 <= i < j < |init|
          ensures init[i].testId != init[j].testId
        {
          assert init[i] == rows[i] && init[j] == rows[j];
        }
      }
      DropDuplicatesOfUnique(init);
      LastIdIsNew(rows);
      assert rows == init + [last];
    }
  }

  /** Dropping duplicates twice is dropping them once. */
  lemma DropDuplicatesIdempotent(rows: seq<Record>)
    ensures DropDuplicates(DropDuplicates(rows)) == DropDuplicates(rows)
  {
    DropDuplicatesOfUnique(DropDuplicates(rows));
  }

  /** Deduplicating a longer table starts with the deduplicated shorter one:
      rows that come first always win. */
  lemma {:induction false} DropDuplicatesPrefix(a: seq<Record>, b: seq<Record>)
    ensures DropDuplicates(a) <= DropDuplicates(a + b)
    decreases |b|
  {
    if |b| == 0 {
      assert a + b == a;
    } else {
      var b', x := b[..|b| - 1], b[|b| - 1];
      assert a + b == (a + b') + [x];
      assert (a + b)[..|a + b| - 1] == a + b';
      DropDuplicatesPrefix(a, b');
    }
  }

  /** Merging new rows under a unique master keeps every master row, in
      place and unchanged, and adds only rows with test ids the master does
      not have, one per such id. */
  lemma MasterRowsWin(master: seq<Record>, incoming: seq<Record>)
    requires Unique(master)
    ensures var merged := DropDuplicates(master + incoming);
            && |master| <= |merged|
            && merged[..|master|] == master
            && (forall i :: |master| <= i < |merged| ==> merged[i].testId !in Ids(master))
            && Ids(merged) == Ids(master) + Ids(incoming)
  {
    var merged := DropDuplicates(master + incoming);
    DropDuplicatesOfUnique(master);
    DropDuplicatesPrefix(master, incoming);
    IdsAppend(master, incoming);
    LaterRowsNew(master, merged);
  }

  /** In a unique table that starts with `prefix`, the rows after the prefix
      carry ids the prefix does not have. */
  lemma LaterRowsNew(prefix: seq<Record>, rows: seq<Record>)
    requires Unique(rows) && prefix <= rows
    ensures forall i :: |prefix| <= i < |rows| ==> rows[i].testId !in Ids(prefix)
  {
    forall i, r | |prefix| <= i < |rows| && r in prefix
      ensures r.testId != rows[i].testId
    {
      var j :| 0 <= j < |prefix| && prefix[j] == r;
      assert rows[j] == r;
    }
  }

  /** Rows whose test ids the master already holds change nothing: a merge
      replayed with the same files leaves the master as it was. */
  lemma {:induction false} KnownRowsAbsorbed(master: seq<Record>, incoming: seq<Record>)
    requires Unique(master) && Ids(incoming) <= Ids(master)
    ensures DropDuplicates(master + incoming) == master
    decreases |incoming|
  {
    if |incoming| == 0 {
      assert master + incoming == master;
      DropDuplicatesOfUnique(master);
    } else {
      var init, last := incoming[..|incoming| - 1], incoming[|incoming| - 1];
      assert incoming == init + [last];
      IdsSnoc(init, last);
      KnownRowsAbsorbed(master, init);
      assert master + incoming == (master + init) + [last];
      assert (master + incoming)[..|master + incoming| - 1] == master + init;
    }
  }

  /** The same deduplication done the way pandas does it: one pass with a
      set of the test ids seen so far. */
  method DropDuplicatesScan(rows: seq<Record>) returns (kept: seq<Record>)
    ensures kept == DropDuplicates(rows)
  {
    kept := [];
    var seen: set<TestId> := {};
    var i := 0;
    while i < |rows|
      invariant 0 <= i <= |rows|
      invariant kept == DropDuplicates(rows[..i])
      invariant seen == Ids(kept)
    {
      assert rows[..i + 1][..i] == rows[..i];
      if rows[i].testId !in seen {
        IdsSnoc(kept, rows[i]);
        kept := kept + [rows[i]];
        seen := seen + {rows[i].testId};
      }
      i := i + 1;
    }
    assert rows[..i] == rows;
  }
}
