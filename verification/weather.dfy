/** The OpenWeatherMap poller: the current-weather response turned into a
    report, the report's validity check, the point written to the
    time-series database, and the script's top level. */
module Weather {
  import opened Wrappers
  import opened Clock
  import opened Json

  datatype ReportType = Current | Forecast

  /** The measurement a report of each kind is written under. */
  function MeasurementName(t: ReportType): string
  {
    match t
    case Current => "current_weather"
    case Forecast => "forecast_weather"
  }

  /** Which kind of report a measurement name belongs to, if any. */
  function ReportTypeOf(name: string): Option<ReportType>
  {
    if name == "current_weather" then Some(Current)
    else if name == "forecast_weather" then Some(Forecast)
    else None
  }

  /** The measurement name determines the report kind, and only the two
      names are used. */
  lemma MeasurementNameRoundTrip(t: ReportType, name: string)
    ensures ReportTypeOf(MeasurementName(t)) == Some(t)
    ensures ReportTypeOf(name).Some? ==> MeasurementName(ReportTypeOf(name).value) == name
    ensures MeasurementName(Current) != MeasurementName(Forecast)
  {
  }

  datatype Coords = Coords(lat: Json, lon: Json)

  /** The keys of a report's data. */
  datatype Field =
    | Weather | WeatherDescription
    | Temperature | TemperatureMin | TemperatureMax | FeltTemp | Humidity | Pressure
    | Visibility | CloudCoverage | WindSpeed | WindDeg
    | Sunrise | Sunset
    | RainNextHour | RainNext3Hours | SnowNextHour | SnowNext3Hours

  /** The key each field is stored under in the report's data. */
  function Key(f: Field): string
  {
    match f
    case Weather => "weather"
    case WeatherDescription => "weather description"
    case Temperature => "temperature"
    case TemperatureMin => "temperature min"
    case TemperatureMax => "temperature max"
    case FeltTemp => "felt temp"
    case Humidity => "humidity"
    case Pressure => "pressure"
    case Visibility => "visibility"
    case CloudCoverage => "cloud coverage"
    case WindSpeed => "wind speed"
    case WindDeg => "wind deg"
    case Sunrise => "sunrise"
    case Sunset => "sunset"
    case RainNextHour => "rain next hour"
    case RainNext3Hours => "rain next 3 hours"
    case SnowNextHour => "snow next hour"
    case SnowNext3Hours => "snow next 3 hours"
  }

  /** The field a data key names, if any. */
  function FieldOf(key: string): Option<Field>
  {
    if key == "weather" then Some(Weather)
    else if key == "weather description" then Some(WeatherDescription)
    else if key == "temperature" then Some(Temperature)
    else if key == "temperature min" then Some(TemperatureMin)
    else if key == "temperature max" then Some(TemperatureMax)
    else if key == "felt temp" then Some(FeltTemp)
    else if key == "humidity" then Some(Humidity)
    else if key == "pressure" then Some(Pressure)
    else if key == "visibility" then Some(Visibility)
    else if key == "cloud coverage" then Some(CloudCoverage)
    else if key == "wind speed" then Some(WindSpeed)
    else if key == "wind deg" then Some(WindDeg)
    else if key == "sunrise" then Some(Sunrise)
    else if key == "sunset" then Some(Sunset)
    else if key == "rain next hour" then Some(RainNextHour)
    else if key == "rain next 3 hours" then Some(RainNext3Hours)
    else if key == "snow next hour" then Some(SnowNextHour)
    else if key == "snow next 3 hours" then Some(SnowNext3Hours)
    else None
  }

  /** Every field's key names that field back. */
  lemma KeyRoundTrip(f: Field)
    ensures FieldOf(Key(f)) == Some(f)
  {
    if f in {Weather, WeatherDescription, Temperature, TemperatureMin, TemperatureMax, FeltTemp} {
      KeyRoundTripFirst(f);
    } else if f in {Humidity, Pressure, Visibility, CloudCoverage, WindSpeed, WindDeg} {
      KeyRoundTripSecond(f);
    } else if f in {Sunrise, Sunset, RainNextHour} {
      KeyRoundTripThird(f);
    } else {
      KeyRoundTripFourth(f);
    }
  }

  lemma KeyRoundTripFirst(f: Field)
    requires f in {Weather, WeatherDescription, Temperature, TemperatureMin, TemperatureMax, FeltTemp}
    ensures FieldOf(Key(f)) == Some(f)
  {
  }

  lemma KeyRoundTripSecond(f: Field)
    requires f in {Humidity, Pressure, Visibility, CloudCoverage, WindSpeed, WindDeg}
    ensures FieldOf(Key(f)) == Some(f)
  {
  }

  lemma KeyRoundTripThird(f: Field)
    requires f in {Sunrise, Sunset, RainNextHour}
    ensures FieldOf(Key(f)) == Some(f)
  {
  }

  lemma KeyRoundTripFourth(f: Field)
    requires f in {RainNext3Hours, SnowNextHour, SnowNext3Hours}
    ensures FieldOf(Key(f)) == Some(f)
  {
  }

  /** Distinct fields have distinct keys, so a map keyed by `Field` holds
      exactly what the source's string-keyed `data` dict holds. */
  lemma KeyInjective(f: Field, g: Field)
    ensures Key(f) == Key(g) <==> f == g
  {
    KeyRoundTrip(f);
    KeyRoundTrip(g);
  }

  /** The report's data as the source's dict: each field under its key. */
  function DataDict(data: map<Field, Json>): (d: map<string, Json>)
    ensures forall f :: f in data ==> Key(f) in d && d[Key(f)] == data[f]
    ensures forall k :: k in d ==> FieldOf(k).Some? && FieldOf(k).value in data
  {
    forall f, g | f in data && g in data && Key(f) == Key(g) ensures f == g {
      KeyInjective(f, g);
    }
    forall f | f in data ensures FieldOf(Key(f)) == Some(f) {
      KeyRoundTrip(f);
    }
    map f | f in data :: Key(f) := data[f]
  }

  /** `WeatherReport`. A Python `None` in `location` or the coordinates is
      `JNull`, just as a JSON `null` is. */
  datatype Report = Report(timestamp: DateTime, location: Json, coords: Coords,
                           kind: ReportType, data: map<Field, Json>)

  /** A freshly constructed report: no location, no coordinates, no data. */
  function EmptyReport(now: DateTime, kind: ReportType): Report
  {
    Report(now, JNull, Coords(JNull, JNull), kind, map[])
  }

  /** `is_valid`: `Some(false)` when the temperature is `None`, `None` when
      the data has no temperature at all, where Python raises `KeyError`. */
  function IsValid(r: Report): (v: Option<bool>)
    ensures v.None? <==> Temperature !in r.data
    ensures v == Some(false) <==> Temperature in r.data && r.data[Temperature] == JNull
    ensures v == Some(true) <==> Temperature in r.data && r.data[Temperature] != JNull
  {
    if Temperature in r.data then Some(r.data[Temperature] != JNull) else None
  }

  /** One point for `write_points`. */
  datatype Point = Point(measurement: string, tags: map<string, Json>, time: DateTime,
                         fields: map<Field, Json>)

  /** The point `write_to_influxdb` builds for a report. */
  function ToPoint(r: Report): Point
  {
    Point(MeasurementName(r.kind), map["location" := r.location], r.timestamp, r.data)
  }

  /** Everything in the report but its coordinates can be read back from
      the point: the kind from the measurement name, the location from the
      single tag, the time and the data. */
  lemma PointDeterminesReport(r: Report, s: Report)
    ensures var p := ToPoint(r);
            && ReportTypeOf(p.measurement) == Some(r.kind)
            && p.tags.Keys == {"location"} && p.tags["location"] == r.location
            && p.time == r.timestamp && p.fields == r.data
    ensures ToPoint(r) == ToPoint(s) <==> r.(coords := s.coords) == s
  {
    MeasurementNameRoundTrip(r.kind, "");
    MeasurementNameRoundTrip(s.kind, "");
    if ToPoint(r) == ToPoint(s) {
      assert ToPoint(r).tags["location"] == ToPoint(s).tags["location"];
    }
  }

  /** `write_to_influxdb`: one point appended to what the database holds. */
  function WriteToInflux(r: Report, db: seq<Point>): (db': seq<Point>)
    ensures |db'| == |db| + 1 && db'[..|db|] == db
    ensures ReportTypeOf(db'[|db|].measurement) == Some(r.kind)
    ensures db'[|db|].fields == r.data && db'[|db|].tags == map["location" := r.location]
  {
    PointDeterminesReport(r, r);
    db + [ToPoint(r)]
  }

  /** `datetime.utcfromtimestamp` accepts the seconds from
      0001-01-01 00:00:00 to 9999-12-31 23:59:59 and raises outside. */
  const MinTimestamp: int := -62135596800
  const MaxTimestamp: int := 253402300799

  /** `datetime.utcfromtimestamp(x).strftime('%H:%M:%S')`. */
  function UtcTimeOfDay(x: int): (t: Option<string>)
    ensures t.Some? <==> MinTimestamp <= x <= MaxTimestamp
    ensures t.Some? ==> IsClockText(t.value) && ClockSeconds(t.value) == x % SecondsPerDay
  {
    if MinTimestamp <= x <= MaxTimestamp then Some(TimeOfDay(x)) else None
  }

  /** The seconds since the epoch of `sys[event]` shifted by the response's
      `timezone` offset, taken through `int(...)` as the source does. */
  function ShiftedEvent(res: Json, event: string, parseInt: string -> Option<int>): Option<int>
  {
    var zone :- Get(res, "timezone");
    var shift :- ToInt(zone, parseInt);
    var sys :- Get(res, "sys");
    var at :- Get(sys, event);
    AddSeconds(at, shift)
  }

  const FixedKeys: set<Field> :=
    {Weather, WeatherDescription, Temperature, TemperatureMin, TemperatureMax, FeltTemp,
     Humidity, Pressure, Visibility, CloudCoverage, WindSpeed, WindDeg, Sunrise, Sunset}

  /** The first entry of the `weather` list: its `main` and `description`. */
  function Conditions(res: Json): (m: Option<map<Field, Json>>)
    ensures m.Some? ==> m.value.Keys == ConditionKeys
  {
    var list :- Get(res, "weather");
    var first :- First(list);
    var main :- Get(first, "main");
    var description :- Get(first, "description");
    Some(map[Weather := main, WeatherDescription := description])
  }

  const ConditionKeys: set<Field> := {Weather, WeatherDescription}
  const ReadingKeys: set<Field> :=
    {Temperature, TemperatureMin, TemperatureMax, FeltTemp, Humidity, Pressure,
     Visibility, CloudCoverage, WindSpeed, WindDeg}

  /** The `main`, `visibility`, `clouds` and `wind` readings. */
  function Readings(res: Json): (m: Option<map<Field, Json>>)
    ensures m.Some? ==> m.value.Keys == ReadingKeys
  {
    var main :- Get(res, "main");
    var temp :- Get(main, "temp");
    var tempMin :- Get(main, "temp_min");
    var tempMax :- Get(main, "temp_max");
    var felt :- Get(main, "feels_like");
    var humidity :- Get(main, "humidity");
    var pressure :- Get(main, "pressure");
    var visibility :- Get(res, "visibility");
    var clouds :- Get(res, "clouds");
    var coverage :- Get(clouds, "all");
    var wind :- Get(res, "wind");
    var speed :- Get(wind, "speed");
    var deg :- Get(wind, "deg");
    Some(map[Temperature := temp, TemperatureMin := tempMin, TemperatureMax := tempMax,
             FeltTemp := felt, Humidity := humidity, Pressure := pressure,
             Visibility := visibility, CloudCoverage := coverage,
             WindSpeed := speed, WindDeg := deg])
  }

  /** Sunrise and sunset as local `HH:MM:SS` strings. */
  function SunTimes(res: Json, parseInt: string -> Option<int>): (m: Option<map<Field, Json>>)
    ensures m.Some? ==> m.value.Keys == {Sunrise, Sunset}
  {
    var rise :- ShiftedEvent(res, "sunrise", parseInt);
    var sunrise :- UtcTimeOfDay(rise);
    var set_ :- ShiftedEvent(res, "sunset", parseInt);
    var sunset :- UtcTimeOfDay(set_);
    Some(map[Sunrise := JString(sunrise), Sunset := JString(sunset)])
  }

  /** The optional `rain` or `snow` block: absent gives no keys, present
      must hold both `1h` and `3h` or the lookup raises. */
  function Precipitation(res: Json, block: string, nextHour: Field, next3Hours: Field)
    : (m: Option<map<Field, Json>>)
    ensures m.Some? ==> m.value.Keys == if Has(res, block) then {nextHour, next3Hours} else {}
  {
    if !Has(res, block) then Some(map[])
    else
      var b := res.fields[block];
      var hour :- Get(b, "1h");
      var three :- Get(b, "3h");
      Some(map[nextHour := hour, next3Hours := three])
  }

  const RainKeys: set<Field> := {RainNextHour, RainNext3Hours}
  const SnowKeys: set<Field> := {SnowNextHour, SnowNext3Hours}

  /** The decoded body of a 200 response made into a report; `None` when
      any lookup or conversion raises. */
  function ReportOf(res: Json, now: DateTime, parseInt: string -> Option<int>): Option<Report>
  {
    var location :- Get(res, "name");
    var coords :- CoordsOf(res);
    var data :- DataOf(res, parseInt);
    Some(Report(now, location, coords, Current, data))
  }

  function CoordsOf(res: Json): Option<Coords>
  {
    var coord :- Get(res, "coord");
    var lat :- Get(coord, "lat");
    var lon :- Get(coord, "lon");
    Some(Coords(lat, lon))
  }

  /** The report's data: every part, each under its own keys. */
  function DataOf(res: Json, parseInt: string -> Option<int>): Option<map<Field, Json>>
  {
    var conditions :- Conditions(res);
    var readings :- Readings(res);
    var sun :- SunTimes(res, parseInt);
    var rain :- Precipitation(res, "rain", RainNextHour, RainNext3Hours);
    var snow :- Precipitation(res, "snow", SnowNextHour, SnowNext3Hours);
    Some(conditions + readings + sun + rain + snow)
  }

  /** The HTTP answer: the status code and the body, `None` when
      `response.json()` raises. */
  datatype Response = Response(status: int, body: Option<Json>)

  /** `getCurrentData`. `fetch` is `None` when `requests.get` raises and
      `now` is the clock when the report is made. Any exception on the way
      yields `None`; a status other than 200 yields the empty report. */
  function GetCurrentData(fetch: Option<Response>, now: DateTime,
                          parseInt: string -> Option<int>): Option<Report>
  {
    match fetch
    case None => None
    case Some(response) =>
      if response.status != 200 then Some(EmptyReport(now, Current))
      else
        match response.body
        case None => None
        case Some(res) => ReportOf(res, now, parseInt)
  }

  /** A status other than 200 gives a report with no location and no
      data, and it is still a current-weather report stamped `now`. */
  lemma NonOkGivesEmptyReport(response: Response, now: DateTime, parseInt: string -> Option<int>)
    requires response.status != 200
    ensures var r := GetCurrentData(Some(response), now, parseInt);
            && r.Some? && r.value.location == JNull && r.value.data == map[]
            && r.value.kind == Current && r.value.timestamp == now
  {
  }

  /** A failed request or an undecodable body yields no report. */
  lemma ExceptionGivesNone(response: Response, now: DateTime, parseInt: string -> Option<int>)
    ensures GetCurrentData(None, now, parseInt).None?
    ensures response.status == 200 && response.body.None? ==>
              GetCurrentData(Some(response), now, parseInt).None?
  {
  }

  /** The report's data is its parts put together. */
  lemma DataOfParts(res: Json, parseInt: string -> Option<int>)
    requires DataOf(res, parseInt).Some?
    ensures Conditions(res).Some? && Readings(res).Some? && SunTimes(res, parseInt).Some?
    ensures Precipitation(res, "rain", RainNextHour, RainNext3Hours).Some?
    ensures Precipitation(res, "snow", SnowNextHour, SnowNext3Hours).Some?
    ensures DataOf(res, parseInt).value
            == Conditions(res).value + Readings(res).value + SunTimes(res, parseInt).value
               + Precipitation(res, "rain", RainNextHour, RainNext3Hours).value
               + Precipitation(res, "snow", SnowNextHour, SnowNext3Hours).value
  {
  }

  /** The parts of a report use disjoint keys, and the fixed keys are
      those of the three parts always present. */
  lemma KeySetsDisjoint()
    ensures ConditionKeys !! ReadingKeys && ConditionKeys !! {Sunrise, Sunset}
    ensures ReadingKeys !! {Sunrise, Sunset}
    ensures (RainKeys + SnowKeys) !! FixedKeys && RainKeys !! SnowKeys
    ensures FixedKeys == ConditionKeys + ReadingKeys + {Sunrise, Sunset}
  {
  }

  /** The union of the parts has each part's keys. */
  lemma PartsKeys(c: map<Field, Json>, m: map<Field, Json>, s: map<Field, Json>,
                  r: map<Field, Json>, n: map<Field, Json>, rain: bool, snow: bool)
    requires c.Keys == ConditionKeys && m.Keys == ReadingKeys && s.Keys == {Sunrise, Sunset}
    requires r.Keys == (if rain then RainKeys else {})
    requires n.Keys == (if snow then SnowKeys else {})
    ensures var keys := (c + m + s + r + n).Keys;
            && FixedKeys <= keys
            && (RainNextHour in keys <==> rain) && (RainNext3Hours in keys <==> rain)
            && (SnowNextHour in keys <==> snow) && (SnowNext3Hours in keys <==> snow)
            && keys <= FixedKeys + RainKeys + SnowKeys
  {
    KeySetsDisjoint();
    assert (c + m + s + r + n).Keys == FixedKeys + r.Keys + n.Keys;
  }

  /** In the union of the parts every key keeps its own part's value. */
  lemma PartsLookup(c: map<Field, Json>, m: map<Field, Json>, s: map<Field, Json>,
                    r: map<Field, Json>, n: map<Field, Json>)
    requires c.Keys == ConditionKeys && m.Keys == ReadingKeys && s.Keys == {Sunrise, Sunset}
    requires r.Keys <= RainKeys + SnowKeys && n.Keys <= RainKeys + SnowKeys
    ensures forall f :: f in c ==> (c + m + s + r + n)[f] == c[f]
    ensures forall f :: f in m ==> (c + m + s + r + n)[f] == m[f]
    ensures forall f :: f in s ==> (c + m + s + r + n)[f] == s[f]
  {
    KeySetsDisjoint();
  }

  /** A report built from a response holds the fourteen fixed keys, the
      rain keys exactly when the response has `rain`, the snow keys exactly
      when it has `snow`, and nothing else. */
  lemma ReportKeys(res: Json, now: DateTime, parseInt: string -> Option<int>)
    requires ReportOf(res, now, parseInt).Some?
    ensures var keys := ReportOf(res, now, parseInt).value.data.Keys;
            && FixedKeys <= keys
            && (RainNextHour in keys <==> Has(res, "rain"))
            && (RainNext3Hours in keys <==> Has(res, "rain"))
            && (SnowNextHour in keys <==> Has(res, "snow"))
            && (SnowNext3Hours in keys <==> Has(res, "snow"))
            && keys <= FixedKeys + RainKeys + SnowKeys
  {
    DataOfParts(res, parseInt);
    PartsKeys(Conditions(res).value, Readings(res).value, SunTimes(res, parseInt).value,
              Precipitation(res, "rain", RainNextHour, RainNext3Hours).value,
              Precipitation(res, "snow", SnowNextHour, SnowNext3Hours).value,
              Has(res, "rain"), Has(res, "snow"));
  }

  /** `data[f]` is the `HH:MM:SS` text of the shifted event second `x`,
      which lies in the range `utcfromtimestamp` accepts. */
  predicate ShowsTimeOfDay(data: map<Field, Json>, f: Field, x: Option<int>) {
    && x.Some? && MinTimestamp <= x.value <= MaxTimestamp
    && f in data && data[f].JString?
    && IsClockText(data[f].s) && ClockSeconds(data[f].s) == x.value % SecondsPerDay
  }

  lemma SunTimesShow(res: Json, parseInt: string -> Option<int>)
    requires SunTimes(res, parseInt).Some?
    ensures ShowsTimeOfDay(SunTimes(res, parseInt).value, Sunrise, ShiftedEvent(res, "sunrise", parseInt))
    ensures ShowsTimeOfDay(SunTimes(res, parseInt).value, Sunset, ShiftedEvent(res, "sunset", parseInt))
  {
  }

  /** Sunrise and sunset are the zero-padded time of day of the event's
      epoch second plus the time-zone shift: hours, minutes and seconds
      add up to that second modulo one day. */
  lemma SunTimesAreShiftedTimeOfDay(res: Json, now: DateTime, parseInt: string -> Option<int>)
    requires ReportOf(res, now, parseInt).Some?
    ensures var data := ReportOf(res, now, parseInt).value.data;
            && ShowsTimeOfDay(data, Sunrise, ShiftedEvent(res, "sunrise", parseInt))
            && ShowsTimeOfDay(data, Sunset, ShiftedEvent(res, "sunset", parseInt))
  {
    DataOfParts(res, parseInt);
    var s := SunTimes(res, parseInt).value;
    PartsLookup(Conditions(res).value, Readings(res).value, s,
                Precipitation(res, "rain", RainNextHour, RainNext3Hours).value,
                Precipitation(res, "snow", SnowNextHour, SnowNext3Hours).value);
    SunTimesShow(res, parseInt);
  }

  /** The two descriptive fields come from the first entry of the
      `weather` list. */
  lemma ConditionsFromFirstEntry(res: Json)
    requires Conditions(res).Some?
    ensures var c := Conditions(res).value;
            && Has(res, "weather") && First(res.fields["weather"]).Some?
            && Get(First(res.fields["weather"]).value, "main") == Some(c[Weather])
            && Get(First(res.fields["weather"]).value, "description") == Some(c[WeatherDescription])
  {
  }

  /** Each reading is copied unchanged from its place in the response,
      under its report key. */
  lemma ReadingsCopied(res: Json)
    requires Readings(res).Some?
    ensures var m := Readings(res).value;
            && Has(res, "main") && Has(res, "clouds") && Has(res, "wind")
            && Get(res.fields["main"], "temp") == Some(m[Temperature])
            && Get(res.fields["main"], "temp_min") == Some(m[TemperatureMin])
            && Get(res.fields["main"], "temp_max") == Some(m[TemperatureMax])
            && Get(res.fields["main"], "feels_like") == Some(m[FeltTemp])
            && Get(res.fields["main"], "humidity") == Some(m[Humidity])
            && Get(res.fields["main"], "pressure") == Some(m[Pressure])
            && Get(res, "visibility") == Some(m[Visibility])
            && Get(res.fields["clouds"], "all") == Some(m[CloudCoverage])
            && Get(res.fields["wind"], "speed") == Some(m[WindSpeed])
            && Get(res.fields["wind"], "deg") == Some(m[WindDeg])
  {
  }

  /** The report carries the response's `name` as its location, is a
      current-weather report stamped `now`, and its descriptive fields and
      readings are the response's values. */
  lemma ReportCopiesResponse(res: Json, now: DateTime, parseInt: string -> Option<int>)
    requires ReportOf(res, now, parseInt).Some?
    ensures var r := ReportOf(res, now, parseInt).value;
            && Has(res, "name") && r.location == res.fields["name"]
            && r.kind == Current && r.timestamp == now
            && r.data[Weather] == Conditions(res).value[Weather]
            && r.data[WeatherDescription] == Conditions(res).value[WeatherDescription]
            && (forall f :: f in ReadingKeys ==> r.data[f] == Readings(res).value[f])
  {
    DataOfParts(res, parseInt);
    PartsLookup(Conditions(res).value, Readings(res).value, SunTimes(res, parseInt).value,
                Precipitation(res, "rain", RainNextHour, RainNext3Hours).value,
                Precipitation(res, "snow", SnowNextHour, SnowNext3Hours).value);
  }

  /** A `rain` (or `snow`) block without a `3h` entry makes the whole
      report fail, even when `1h` is there. */
  lemma PrecipitationNeedsBothHorizons(res: Json, block: string, now: DateTime,
                                       parseInt: string -> Option<int>)
    requires block in {"rain", "snow"}
    requires Has(res, block) && !Has(res.fields[block], "3h")
    ensures ReportOf(res, now, parseInt).None?
  {
  }

  /** A sunrise or sunset outside the years 1 to 9999 makes the whole
      report fail. */
  lemma SunOutOfRangeFails(res: Json, event: string, now: DateTime,
                           parseInt: string -> Option<int>)
    requires event in {"sunrise", "sunset"}
    requires ShiftedEvent(res, event, parseInt).Some?
    requires !(MinTimestamp <= ShiftedEvent(res, event, parseInt).value <= MaxTimestamp)
    ensures ReportOf(res, now, parseInt).None?
  {
  }

  /** How the script's top level ends: the points in the database, and
      whether an exception escaped. */
  datatype PollEnd = PollEnd(db: seq<Point>, crashed: bool)

  /** The script's `__main__`: fetch, check, write when valid. A missing
      report (`None.is_valid()`) and a report without a temperature both
      raise out of the script. */
  function Poll(fetch: Option<Response>, now: DateTime, parseInt: string -> Option<int>,
                db: seq<Point>): PollEnd
  {
    match GetCurrentData(fetch, now, parseInt)
    case None => PollEnd(db, true)
    case Some(r) =>
      match IsValid(r)
      case None => PollEnd(db, true)
      case Some(valid) => if valid then PollEnd(WriteToInflux(r, db), false) else PollEnd(db, false)
  }

  /** A status other than 200 is not absorbed: the empty report has no
      temperature, so `is_valid` raises and nothing is written. */
  lemma NonOkCrashesPoll(response: Response, now: DateTime, parseInt: string -> Option<int>,
                         db: seq<Point>)
    requires response.status != 200
    ensures Poll(Some(response), now, parseInt, db) == PollEnd(db, true)
  {
    NonOkGivesEmptyReport(response, now, parseInt);
  }

  /** The script writes at most one point, and only for a report whose
      temperature is present and not `None`; such a report is always
      written. */
  lemma PollWritesOnlyValid(fetch: Option<Response>, now: DateTime,
                            parseInt: string -> Option<int>, db: seq<Point>)
    ensures var e := Poll(fetch, now, parseInt, db);
            var r := GetCurrentData(fetch, now, parseInt);
            && db <= e.db && |e.db| <= |db| + 1
            && (|e.db| == |db| + 1 <==> r.Some? && IsValid(r.value) == Some(true))
            && (|e.db| == |db| + 1 ==>
                  && !e.crashed && e.db[|db|] == ToPoint(r.value)
                  && e.db[|db|].fields[Temperature] != JNull)
  {
  }
}
