/** The retry loop of `get_temperature`: the helper script is started again
    and again, its output read line by line, transient failures backed off
    exponentially up to a ceiling, a busy sensor abandoned at once, and
    every plausible reading appended to the CSV file.

    Each start of the helper script is a "run", given here as the finite
    sequence of lines it prints; the end of that sequence is end of file.
    The sleeps and the written readings are recorded instead of performed. */
module Acquisition {
  import opened Wrappers
  import Text
  import opened Temperature

  /** The retry ceiling: a failure seen with this many retries gives up. */
  const MaxRetries: nat := 5

  function Pow2(n: nat): (r: nat)
    ensures r >= 1
  {
    if n == 0 then 1 else 2 * Pow2(n - 1)
  }

  /** What one output line means to the loop, decided in the source's order:
      blank, transient failure, busy, then the three-field split. */
  datatype LineKind =
    | EndOfRun
    | TransientFailure
    | SensorBusy
    | Malformed
    | Fields(location: string, temperature: string, humidity: string)

  predicate IsFailureLine(line: string) {
    Text.Contains(line, "reading failed") || Text.Contains(line, "error")
  }

  predicate IsBusyLine(line: string) {
    Text.Contains(line, "busy")
  }

  predicate IsBlank(line: string) {
    forall i :: 0 <= i < |line| ==> Text.IsSpace(line[i])
  }

  lemma BlankIffStripsToEmpty(raw: string)
    ensures Text.RStrip(raw) == "" <==> IsBlank(raw)
  {
    Text.RStripSpec(raw);
  }

  /** Markers are searched in the stripped line; since none ends in
      whitespace, that is the same as searching the line as read. */
  lemma MarkersSurviveRStrip(raw: string)
    ensures IsFailureLine(Text.RStrip(raw)) <==> IsFailureLine(raw)
    ensures IsBusyLine(Text.RStrip(raw)) <==> IsBusyLine(raw)
  {
    Text.ContainsRStrip(raw, "reading failed");
    Text.ContainsRStrip(raw, "error");
    Text.ContainsRStrip(raw, "busy");
  }

  function Classify(raw: string): LineKind
  {
    var line := Text.RStrip(raw);
    if line == "" then EndOfRun
    else if IsFailureLine(line) then TransientFailure
    else if IsBusyLine(line) then SensorBusy
    else DataLine(Text.RStrip(line))
  }

  /** A line that is neither blank nor a marker: three fields, or malformed. */
  function DataLine(line: string): LineKind
  {
    var parts := Text.Split(line, Separator);
    if |parts| != 3 then Malformed else Fields(parts[0], parts[1], parts[2])
  }

  /** What each kind of line says about the line as read: blank lines end
      the run, the failure markers are looked for before the busy marker,
      and a data line is exactly its three fields joined by the separator. */
  lemma ClassifyMeaning(raw: string)
    ensures Classify(raw) == EndOfRun <==> IsBlank(raw)
    ensures Classify(raw) == TransientFailure <==> IsFailureLine(raw)
    ensures Classify(raw) == SensorBusy <==> !IsFailureLine(raw) && IsBusyLine(raw)
    ensures Classify(raw).Fields? || Classify(raw).Malformed? ==>
              !IsBlank(raw) && !IsFailureLine(raw) && !IsBusyLine(raw)
  {
    BlankIffStripsToEmpty(raw);
    MarkersSurviveRStrip(raw);
    if Text.RStrip(raw) == "" {
      assert !Text.Contains("", "error") && !Text.Contains("", "reading failed");
    }
  }

  /** A data line is exactly its three fields joined by the separator, and
      no field contains the separator; any other split count is malformed. */
  lemma ClassifyFields(raw: string)
    requires Classify(raw).Fields? || Classify(raw).Malformed?
    ensures var k := Classify(raw);
            k.Fields? ==> Text.Join([k.location, k.temperature, k.humidity], Separator)
                          == Text.RStrip(raw)
    ensures var k := Classify(raw);
            k.Fields? ==> forall i :: 0 <= i < 3 ==>
                            !Text.Contains([k.location, k.temperature, k.humidity][i], Separator)
    ensures Classify(raw).Malformed? ==> |Text.Split(Text.RStrip(raw), Separator)| != 3
  {
    var line := Text.RStrip(raw);
    Text.RStripSpec(raw);
    assert Text.RStrip(line) == line;
    assert Classify(raw) == DataLine(line);
    DataLineJoinsBack(line);
  }

  lemma DataLineJoinsBack(line: string)
    ensures var k := DataLine(line);
            k.Fields? ==> Text.Join([k.location, k.temperature, k.humidity], Separator) == line
    ensures var k := DataLine(line);
            k.Fields? ==> forall i :: 0 <= i < 3 ==>
                            !Text.Contains([k.location, k.temperature, k.humidity][i], Separator)
    ensures DataLine(line).Malformed? ==> |Text.Split(line, Separator)| != 3
  {
    var parts := Text.Split(line, Separator);
    Text.SplitJoinsBack(line, Separator);
    if |parts| == 3 {
      assert parts == [parts[0], parts[1], parts[2]];
    }
  }

  /** The reading a line yields, if it is a data line whose fields coerce. */
  function ReadingOf(c: Coercion, raw: string): Option<Reading>
  {
    match Classify(raw)
    case Fields(l, t, h) => NewReading(c, l, t, h)
    case _ => None
  }

  /** How the whole acquisition ends. `Crash` is the uncaught `ValueError`
      of a field that does not coerce; `Exhausted` means the given runs ran
      out while the source would have started the script again. */
  datatype Outcome = Done | GaveUp | Busy | Crash | Exhausted

  /** How one run ends: `break` out of the inner loop, or `return` (or an
      exception) out of the whole function. */
  datatype Exit = Break | Return(outcome: Outcome)

  datatype RunEnd = RunEnd(exit: Exit, retries: nat, success: bool,
                           sleeps: seq<nat>, writes: seq<Reading>)

  datatype Trace = Trace(outcome: Outcome, sleeps: seq<nat>, writes: seq<Reading>)

  /** The lines of one run, each classified. Classification looks at one
      line only, so classifying a whole run first changes nothing. */
  function Kinds(lines: seq<string>): seq<LineKind>
  {
    seq(|lines|, i requires 0 <= i < |lines| => Classify(lines[i]))
  }

  lemma KindsCons(lines: seq<string>)
    requires |lines| > 0
    ensures Kinds(lines) == [Classify(lines[0])] + Kinds(lines[1..])
  {
    assert Kinds(lines)[1..] == Kinds(lines[1..]);
  }

  /** The inner `while True` loop over one run's classified lines. */
  function Run(kinds: seq<LineKind>, retries: nat, success: bool, c: Coercion): (e: RunEnd)
    ensures e.retries == retries + |e.sleeps| && |e.sleeps| <= 1
    ensures |e.sleeps| == 1 ==>
              e.exit == Break && retries < MaxRetries && e.sleeps[0] == Pow2(retries + 1)
    ensures e.exit == Return(GaveUp) ==> retries >= MaxRetries
    ensures e.exit.Return? ==> e.exit.outcome in {GaveUp, Busy, Crash}
    ensures e.success <==> success || |e.writes| > 0
    ensures AllValid(e.writes)
    decreases |kinds|
  {
    if |kinds| == 0 then RunEnd(Break, retries, success, [], [])
    else
      match kinds[0]
      case EndOfRun => RunEnd(Break, retries, success, [], [])
      case TransientFailure =>
        if retries >= MaxRetries then RunEnd(Return(GaveUp), retries, success, [], [])
        else RunEnd(Break, retries + 1, success, [Pow2(retries + 1)], [])
      case SensorBusy => RunEnd(Return(Busy), retries, success, [], [])
      case Malformed => RunEnd(Break, retries, success, [], [])
      case Fields(l, t, h) =>
        match NewReading(c, l, t, h)
        case None => RunEnd(Return(Crash), retries, success, [], [])
        case Some(r) =>
          if r.IsValid() then
            var rest := Run(kinds[1..], retries, true, c);
            AllValidAppend([r], rest.writes);
            rest.(writes := [r] + rest.writes)
          else Run(kinds[1..], retries, success, c)
  }

  /** Each sleep doubles the previous one, the first after `retries`
      earlier ones lasting 2^(retries + 1) seconds. */
  predicate Backoff(sleeps: seq<nat>, retries: nat)
    decreases |sleeps|
  {
    |sleeps| == 0 || (sleeps[0] == Pow2(retries + 1) && Backoff(sleeps[1..], retries + 1))
  }

  lemma {:induction false} BackoffAppend(a: seq<nat>, b: seq<nat>, retries: nat)
    requires Backoff(a, retries) && Backoff(b, retries + |a|)
    ensures Backoff(a + b, retries)
    decreases |a|
  {
    if |a| > 0 {
      assert (a + b)[1..] == a[1..] + b;
      BackoffAppend(a[1..], b, retries + 1);
    } else {
      assert a + b == b;
    }
  }

  predicate AllValid(ws: seq<Reading>) {
    forall i :: 0 <= i < |ws| ==> ws[i].IsValid()
  }

  lemma AllValidAppend(a: seq<Reading>, b: seq<Reading>)
    requires AllValid(a) && AllValid(b)
    ensures AllValid(a + b)
  {
  }

  /** The outer `while not success` loop over classified runs, entered
      with `success` false. */
  function Acquire(runs: seq<seq<LineKind>>, retries: nat, c: Coercion): (t: Trace)
    ensures |t.sleeps| == 0 || retries + |t.sleeps| <= MaxRetries
    ensures t.outcome == GaveUp ==> retries + |t.sleeps| >= MaxRetries
    ensures t.outcome == Done ==> |t.writes| > 0
    ensures |t.writes| > 0 ==> t.outcome != Exhausted
    ensures AllValid(t.writes)
    decreases |runs|
  {
    if |runs| == 0 then Trace(Exhausted, [], [])
    else
      var e := Run(runs[0], retries, false, c);
      match e.exit
      case Return(o) => Trace(o, e.sleeps, e.writes)
      case Break =>
        if e.success then Trace(Done, e.sleeps, e.writes)
        else
          var t := Acquire(runs[1..], e.retries, c);
          AllValidAppend(e.writes, t.writes);
          Trace(t.outcome, e.sleeps + t.sleeps, e.writes + t.writes)
  }

  /** Over all runs the sleeps keep doubling from `2^(retries+1)`. */
  lemma {:induction false} AcquireBackoff(runs: seq<seq<LineKind>>, retries: nat, c: Coercion)
    ensures Backoff(Acquire(runs, retries, c).sleeps, retries)
    decreases |runs|
  {
    if |runs| > 0 {
      var e := Run(runs[0], retries, false, c);
      if e.exit.Break? && !e.success {
        AcquireBackoff(runs[1..], e.retries, c);
        BackoffAppend(e.sleeps, Acquire(runs[1..], e.retries, c).sleeps, retries);
      }
    }
  }

  /** The backoff sleeps of one acquisition: 2, 4, 8, 16 and 32 seconds. */
  const BackoffSchedule: seq<nat> := [2, 4, 8, 16, 32]

  /** Starting from no retries, the sleeps follow the schedule. */
  lemma BackoffFromStart(sleeps: seq<nat>)
    requires Backoff(sleeps, 0) && |sleeps| <= MaxRetries
    ensures sleeps == BackoffSchedule[..|sleeps|]
  {
    var s := sleeps;
    if |s| > 0 {
      var s1 := s[1..];
      assert s[0] == 2 && Backoff(s1, 1);
      if |s1| > 0 {
        var s2 := s1[1..];
        assert s1[0] == 4 && Backoff(s2, 2);
        if |s2| > 0 {
          var s3 := s2[1..];
          assert s2[0] == 8 && Backoff(s3, 3);
          if |s3| > 0 {
            var s4 := s3[1..];
            assert s3[0] == 16 && Backoff(s4, 4);
            if |s4| > 0 {
              assert s4[0] == 32;
            }
          }
        }
      }
    }
  }

  /** Every run, classified line by line. */
  function Classified(runs: seq<seq<string>>): seq<seq<LineKind>>
  {
    seq(|runs|, i requires 0 <= i < |runs| => Kinds(runs[i]))
  }

  /** `get_temperature(sensor)`, starting with no retries. */
  function GetTemperature(runs: seq<seq<string>>, c: Coercion): (t: Trace)
    ensures |t.sleeps| <= MaxRetries
    ensures t.sleeps == BackoffSchedule[..|t.sleeps|]
    ensures t.outcome == GaveUp ==> t.sleeps == BackoffSchedule
    ensures t.outcome == Done ==> |t.writes| > 0
    ensures forall i :: 0 <= i < |t.writes| ==> t.writes[i].IsValid()
  {
    var t := Acquire(Classified(runs), 0, c);
    AcquireBackoff(Classified(runs), 0, c);
    BackoffFromStart(t.sleeps);
    t
  }

  /** A line that reports both a failure and a busy sensor is a failure. */
  lemma FailureCheckedBeforeBusy(raw: string)
    requires IsFailureLine(raw) && IsBusyLine(raw)
    ensures Classify(raw) == TransientFailure
  {
    ClassifyMeaning(raw);
  }

  /** A busy line ends everything at once: no sleep, no write, no retry. */
  lemma BusyAbortsAcquisition(run: seq<string>, later: seq<seq<string>>, retries: nat, c: Coercion)
    requires |run| > 0 && !IsFailureLine(run[0]) && IsBusyLine(run[0])
    ensures Run(Kinds(run), retries, false, c) == RunEnd(Return(Busy), retries, false, [], [])
    ensures GetTemperature([run] + later, c) == Trace(Busy, [], [])
  {
    ClassifyMeaning(run[0]);
    KindsCons(run);
    assert Classified([run] + later)[0] == Kinds(run);
  }

  /** A blank line, end of file, or a line that does not split into exactly
      three fields ends the run and leaves the retry count alone. */
  lemma EndOfRunKeepsRetries(lines: seq<string>, retries: nat, success: bool, c: Coercion)
    requires |lines| == 0 || IsBlank(lines[0]) || Classify(lines[0]).Malformed?
    ensures Run(Kinds(lines), retries, success, c) == RunEnd(Break, retries, success, [], [])
  {
    if |lines| > 0 {
      ClassifyMeaning(lines[0]);
      KindsCons(lines);
    }
  }

  /** A three-field line whose temperature is not a float or whose humidity
      is not an int raises out of `get_temperature`: nothing is caught. */
  lemma CoercionFailureCrashes(lines: seq<string>, retries: nat, success: bool, c: Coercion)
    requires |lines| > 0 && Classify(lines[0]).Fields?
    requires c.toFloat(Classify(lines[0]).temperature).None?
             || c.toInt(Classify(lines[0]).humidity).None?
    ensures Run(Kinds(lines), retries, success, c) == RunEnd(Return(Crash), retries, success, [], [])
  {
    KindsCons(lines);
  }

  /** A plausible reading is written, and the rest of the same run is still
      read: success only stops the outer loop. */
  lemma WriteContinuesRun(lines: seq<string>, retries: nat, success: bool, c: Coercion)
    requires |lines| > 0 && ReadingOf(c, lines[0]).Some? && ReadingOf(c, lines[0]).value.IsValid()
    ensures var rest := Run(Kinds(lines[1..]), retries, true, c);
            Run(Kinds(lines), retries, success, c)
            == rest.(writes := [ReadingOf(c, lines[0]).value] + rest.writes)
  {
    KindsCons(lines);
  }

  /** Two plausible readings in one run are both written. */
  lemma TwoReadingsInOneRun(a: string, b: string, c: Coercion)
    requires ReadingOf(c, a).Some? && ReadingOf(c, a).value.IsValid()
    requires ReadingOf(c, b).Some? && ReadingOf(c, b).value.IsValid()
    ensures GetTemperature([[a, b]], c) == Trace(Done, [], [ReadingOf(c, a).value, ReadingOf(c, b).value])
  {
    assert Classified([[a, b]]) == [Kinds([a, b])];
    WriteContinuesRun([a, b], 0, false, c);
    assert [a, b][1..] == [b];
    WriteContinuesRun([b], 0, true, c);
    assert [b][1..] == [];
  }

  /** N runs that each start with a failure, then a run holding one
      plausible reading: the reading is written after N backoffs exactly
      when N stays within the ceiling; otherwise the loop gives up with no
      write after the ceiling's worth of backoffs. */
  lemma FailuresThenReading(fails: seq<seq<LineKind>>, last: LineKind,
                             r: Reading, retries: nat, c: Coercion)
    requires forall i :: 0 <= i < |fails| ==> |fails[i]| > 0 && fails[i][0] == TransientFailure
    requires last.Fields? && NewReading(c, last.location, last.temperature, last.humidity) == Some(r)
    requires r.IsValid()
    requires retries <= MaxRetries
    ensures var t := Acquire(fails + [[last]], retries, c);
            if retries + |fails| <= MaxRetries
            then t.outcome == Done && t.writes == [r] && |t.sleeps| == |fails|
            else t.outcome == GaveUp && t.writes == [] && retries + |t.sleeps| == MaxRetries
  {
    var runs := fails + [[last]];
    assert forall i :: 0 <= i < |runs| - 1 ==> runs[i] == fails[i];
    if retries + |fails| <= MaxRetries {
      FailingRunsThenDone(runs, last, r, retries, c);
    } else {
      FailingRunsGiveUp(runs, retries, c);
    }
  }

  /** Within the ceiling: the reading is written after one sleep per
      failing run. */
  lemma {:induction false} FailingRunsThenDone(runs: seq<seq<LineKind>>, last: LineKind,
                                               r: Reading, retries: nat, c: Coercion)
    requires |runs| > 0 && runs[|runs| - 1] == [last]
    requires forall i :: 0 <= i < |runs| - 1 ==> |runs[i]| > 0 && runs[i][0] == TransientFailure
    requires last.Fields? && NewReading(c, last.location, last.temperature, last.humidity) == Some(r)
    requires r.IsValid()
    requires retries + |runs| - 1 <= MaxRetries
    ensures Acquire(runs, retries, c).outcome == Done
    ensures Acquire(runs, retries, c).writes == [r]
    ensures |Acquire(runs, retries, c).sleeps| == |runs| - 1
    decreases |runs|, 1
  {
    if |runs| == 1 {
      ReadingOnlyRun(runs, last, r, retries, c);
    } else {
      FailingRunThenDone(runs, last, r, retries, c);
    }
  }

  /** The inductive step: one failing run, then the rest. */
  lemma {:induction false} FailingRunThenDone(runs: seq<seq<LineKind>>, last: LineKind,
                                              r: Reading, retries: nat, c: Coercion)
    requires |runs| > 1 && runs[|runs| - 1] == [last]
    requires forall i :: 0 <= i < |runs| - 1 ==> |runs[i]| > 0 && runs[i][0] == TransientFailure
    requires last.Fields? && NewReading(c, last.location, last.temperature, last.humidity) == Some(r)
    requires r.IsValid()
    requires retries + |runs| - 1 <= MaxRetries
    ensures Acquire(runs, retries, c).outcome == Done
    ensures Acquire(runs, retries, c).writes == [r]
    ensures |Acquire(runs, retries, c).sleeps| == |runs| - 1
    decreases |runs|, 0
  {
    var rest := runs[1..];
    assert rest[|rest| - 1] == [last];
    assert forall i :: 0 <= i < |rest| - 1 ==> rest[i] == runs[i + 1];
    FailingStep(runs, retries, c);
    FailingRunsThenDone(rest, last, r, retries + 1, c);
  }

  /** Past the ceiling: the call gives up before the reading. */
  lemma {:induction false} FailingRunsGiveUp(runs: seq<seq<LineKind>>, retries: nat, c: Coercion)
    requires |runs| > 0
    requires forall i :: 0 <= i < |runs| - 1 ==> |runs[i]| > 0 && runs[i][0] == TransientFailure
    requires retries <= MaxRetries < retries + |runs| - 1
    ensures Acquire(runs, retries, c).outcome == GaveUp
    ensures Acquire(runs, retries, c).writes == []
    ensures retries + |Acquire(runs, retries, c).sleeps| == MaxRetries
    decreases |runs|
  {
    if retries < MaxRetries {
      FailingStep(runs, retries, c);
      FailingRunsGiveUp(runs[1..], retries + 1, c);
    } else {
      GivingUpStep(runs, retries, c);
    }
  }

  lemma FailingStep(runs: seq<seq<LineKind>>, retries: nat, c: Coercion)
    requires |runs| > 0 && |runs[0]| > 0 && runs[0][0] == TransientFailure && retries < MaxRetries
    ensures var t := Acquire(runs[1..], retries + 1, c);
            Acquire(runs, retries, c) == Trace(t.outcome, [Pow2(retries + 1)] + t.sleeps, t.writes)
  {
    FailureStartsRun(runs[0], retries, c);
    AcquireAfterBreak(runs, retries, c);
  }

  lemma GivingUpStep(runs: seq<seq<LineKind>>, retries: nat, c: Coercion)
    requires |runs| > 0 && |runs[0]| > 0 && runs[0][0] == TransientFailure && retries >= MaxRetries
    ensures Acquire(runs, retries, c) == Trace(GaveUp, [], [])
  {
    FailureStartsRun(runs[0], retries, c);
    AcquireAfterReturn(runs, retries, c);
  }

  /** A run that returns ends the whole acquisition with its own logs. */
  lemma AcquireAfterReturn(runs: seq<seq<LineKind>>, retries: nat, c: Coercion)
    requires |runs| > 0 && Run(runs[0], retries, false, c).exit.Return?
    ensures var e := Run(runs[0], retries, false, c);
            Acquire(runs, retries, c) == Trace(e.exit.outcome, e.sleeps, e.writes)
  {
  }

  /** A run holding just one valid reading writes it and is done. */
  lemma ReadingOnlyRun(runs: seq<seq<LineKind>>, last: LineKind, r: Reading, retries: nat, c: Coercion)
    requires runs == [[last]]
    requires last.Fields? && NewReading(c, last.location, last.temperature, last.humidity) == Some(r)
    requires r.IsValid()
    ensures Acquire(runs, retries, c) == Trace(Done, [], [r])
  {
    assert [last][1..] == [];
    assert Run([last], retries, false, c) == RunEnd(Break, retries, true, [], [r]);
  }

  /** A run whose first line is a failure backs off once, or gives up at
      the ceiling. */
  lemma FailureStartsRun(kinds: seq<LineKind>, retries: nat, c: Coercion)
    requires |kinds| > 0 && kinds[0] == TransientFailure
    ensures Run(kinds, retries, false, c)
            == if retries >= MaxRetries then RunEnd(Return(GaveUp), retries, false, [], [])
               else RunEnd(Break, retries + 1, false, [Pow2(retries + 1)], [])
  {
  }

  /** A run that breaks without success hands its retries to the next run,
      and the logs of both are concatenated. */
  lemma AcquireAfterBreak(runs: seq<seq<LineKind>>, retries: nat, c: Coercion)
    requires |runs| > 0
    requires Run(runs[0], retries, false, c).exit == Break && !Run(runs[0], retries, false, c).success
    ensures var e := Run(runs[0], retries, false, c);
            var t := Acquire(runs[1..], e.retries, c);
            Acquire(runs, retries, c) == Trace(t.outcome, e.sleeps + t.sleeps, e.writes + t.writes)
  {
  }

  /** With no retries yet, a reading is written after at most five failing
      runs; a sixth failing run makes the loop give up. */
  lemma CeilingOfFive(fails: seq<seq<string>>, last: string, c: Coercion)
    requires forall i :: 0 <= i < |fails| ==> |fails[i]| > 0 && IsFailureLine(fails[i][0])
    requires ReadingOf(c, last).Some? && ReadingOf(c, last).value.IsValid()
    ensures GetTemperature(fails + [[last]], c).outcome == Done <==> |fails| <= 5
    ensures GetTemperature(fails + [[last]], c).outcome == GaveUp <==> |fails| > 5
    ensures GetTemperature(fails + [[last]], c).writes
            == if |fails| <= 5 then [ReadingOf(c, last).value] else []
  {
    var kinds := Classified(fails);
    forall i | 0 <= i < |fails|
      ensures |kinds[i]| > 0 && kinds[i][0] == TransientFailure
    {
      ClassifyMeaning(fails[i][0]);
    }
    assert Classified(fails + [[last]]) == kinds + [[Classify(last)]] by {
      assert Kinds([last]) == [Classify(last)];
    }
    FailuresThenReading(kinds, Classify(last), ReadingOf(c, last).value, 0, c);
  }

  /** What `get_temperature` leaves in the CSV file: the old content, then
      one line per written reading in the order written; a call that
      succeeds always adds at least one line. */
  lemma AcquisitionFile(file: string, runs: seq<seq<string>>, c: Coercion, show: Rendering)
    ensures var t := GetTemperature(runs, c);
            && WriteAll(file, t.writes, show) == file + Lines(t.writes, show)
            && (t.outcome == Done ==> |WriteAll(file, t.writes, show)| > |file|)
  {
    WriteAllAppendsLines(file, GetTemperature(runs, c).writes, show);
  }

  /** The file after up to five failing runs and then a valid reading gains
      exactly that reading's line; after more failures it is unchanged. */
  lemma CeilingOfFiveFile(fails: seq<seq<string>>, last: string, c: Coercion,
                          file: string, show: Rendering)
    requires forall i :: 0 <= i < |fails| ==> |fails[i]| > 0 && IsFailureLine(fails[i][0])
    requires ReadingOf(c, last).Some? && ReadingOf(c, last).value.IsValid()
    ensures WriteAll(file, GetTemperature(fails + [[last]], c).writes, show)
            == if |fails| <= 5 then file + CsvLine(ReadingOf(c, last).value, show) + "\n" else file
  {
    CeilingOfFive(fails, last, c);
    var r := ReadingOf(c, last).value;
    if |fails| <= 5 {
      assert WriteAll(file, [r], show) == WriteAll(AppendLine(file, r, show), [], show);
    }
  }
}
