/** One reading of a Xiaomi temperature/humidity sensor: how it is built
    from the three text fields of a helper-script line, when it counts as
    plausible, and the CSV line it is appended as. */
module Temperature {
  import opened Wrappers
  import Text

  /** Python's `float(text)` and `int(text)`, which this model does not
      re-implement: each is a partial function, `None` where Python raises
      `ValueError`. `now` is the `%Y-%m-%dT%H:%M:%S` text of the clock. */
  datatype Coercion = Coercion(now: string,
                               toFloat: string -> Option<real>,
                               toInt: string -> Option<int>)

  datatype Reading = Reading(timestamp: string, location: string,
                             temperature: real, humidity: int)
  {
    /** Plausible physical bounds: -10..60 degrees Celsius and 0..100 percent
        relative humidity, all inclusive. */
    predicate IsValid() {
      if temperature > 60.0 || temperature < -10.0 then false
      else if humidity > 100 || humidity < 0 then false
      else true
    }
  }

  lemma ValidIffWithinBounds(r: Reading)
    ensures r.IsValid() <==> -10.0 <= r.temperature <= 60.0 && 0 <= r.humidity <= 100
  {
  }

  /** The constructor `Temperature(location, temperature, humidity)`: the
      location is kept verbatim, the temperature goes through `float` and the
      humidity through `int`. `None` means the constructor raised. */
  function NewReading(c: Coercion, location: string, temperature: string, humidity: string)
    : (r: Option<Reading>)
    ensures r.Some? <==> c.toFloat(temperature).Some? && c.toInt(humidity).Some?
    ensures r.Some? ==> r.value.location == location && r.value.timestamp == c.now
    ensures r.Some? ==> Some(r.value.temperature) == c.toFloat(temperature)
    ensures r.Some? ==> Some(r.value.humidity) == c.toInt(humidity)
  {
    var t :- c.toFloat(temperature);
    var h :- c.toInt(humidity);
    Some(Reading(c.now, location, t, h))
  }

  /** How Python's `str` renders the two numbers; not modelled further. */
  datatype Rendering = Rendering(showReal: real -> string, showInt: int -> string)

  const Separator: string := ", "

  /** The four comma-separated fields of `str(reading)`, in order:
      timestamp, location, temperature with a degree-Celsius suffix and
      humidity with a percent suffix. */
  function CsvFields(r: Reading, show: Rendering): (f: seq<string>)
  {
    [r.timestamp, r.location, show.showReal(r.temperature) + "°C", show.showInt(r.humidity) + "%"]
  }

  /** `str(reading)`, the line `write_to_file` appends. */
  function CsvLine(r: Reading, show: Rendering): string
  {
    Text.Join(CsvFields(r, show), Separator)
  }

  /** The appended line splits back into the four fields, in order, as long
      as no field itself contains the separator. */
  lemma CsvLineSplitsIntoFields(r: Reading, show: Rendering)
    requires forall i :: 0 <= i < 4 ==> !Text.Contains(CsvFields(r, show)[i], Separator)
    ensures Text.Split(CsvLine(r, show), Separator) == CsvFields(r, show)
    ensures Text.Split(CsvLine(r, show), Separator)[0] == r.timestamp
    ensures Text.Split(CsvLine(r, show), Separator)[1] == r.location
  {
    assert Text.BorderFree(Separator) by {
      assert Separator[1..][0] == ' ' && Separator[..1][0] == ',';
    }
    Text.SplitJoin(CsvFields(r, show), Separator);
  }

  /** `write_to_file`: append the reading's line and a newline to the file. */
  function AppendLine(file: string, r: Reading, show: Rendering): (f: string)
    ensures |f| == |file| + |CsvLine(r, show)| + 1
    ensures f[..|file|] == file
    ensures f[|file|..] == CsvLine(r, show) + "\n"
  {
    file + CsvLine(r, show) + "\n"
  }

  /** The lines several readings contribute to the file, one per reading
      and each ended by a newline, in order. */
  function Lines(rs: seq<Reading>, show: Rendering): string
  {
    if |rs| == 0 then "" else CsvLine(rs[0], show) + "\n" + Lines(rs[1..], show)
  }

  /** `write_to_file` called for each reading in turn. */
  function WriteAll(file: string, rs: seq<Reading>, show: Rendering): string
    decreases |rs|
  {
    if |rs| == 0 then file else WriteAll(AppendLine(file, rs[0], show), rs[1..], show)
  }

  /** Appending readings one call at a time leaves the old file in front,
      followed by exactly one line per reading, in the order written. */
  lemma {:induction false} WriteAllAppendsLines(file: string, rs: seq<Reading>, show: Rendering)
    ensures WriteAll(file, rs, show) == file + Lines(rs, show)
    ensures |rs| > 0 ==> |WriteAll(file, rs, show)| > |file|
    decreases |rs|
  {
    if |rs| > 0 {
      var line := CsvLine(rs[0], show) + "\n";
      WriteAllAppendsLines(AppendLine(file, rs[0], show), rs[1..], show);
      assert AppendLine(file, rs[0], show) == file + line;
      assert (file + line) + Lines(rs[1..], show) == file + (line + Lines(rs[1..], show));
    }
  }
}
