/** The first-occurrence reduction of the hourly forecast into three alert
    slots (the loop in `main` and the `weather_report_item` dictionary of
    WeatherNotifier.py). */
module Aggregation {
  import opened Wrappers
  import opened Forecast

  /** A float slot value; the slots start at Python's `float('inf')` and
      `float('-inf')`. */
  datatype Bound = NegInf | Finite(x: real) | PosInf

  /** One entry of `weather_report_item`. A slot counts as unset while its
      time is 0. */
  datatype Slot<T> = Slot(value: T, time: int)

  /** The whole `weather_report_item` dictionary. */
  datatype Report = Report(minTemperature: Slot<Bound>, maxWind: Slot<Bound>, rain: Slot<string>)

  /** The dictionary as the module defines it, before any reading. */
  function Initial(): (rep: Report)
    ensures rep.minTemperature.time == 0 && rep.maxWind.time == 0 && rep.rain.time == 0
  {
    Report(Slot(PosInf, 0), Slot(NegInf, 0), Slot("Rain", 0))
  }

  /** One pass of the loop body: each condition that holds fills its own
      slot if, and only if, that slot's time is still 0. */
  function Step(rep: Report, r: Reading, c: Classification): (next: Report)
    ensures rep.minTemperature.time != 0 || !c.tooCold ==> next.minTemperature == rep.minTemperature
    ensures rep.maxWind.time != 0 || !c.tooWindy ==> next.maxWind == rep.maxWind
    ensures rep.rain.time != 0 || !c.rain ==> next.rain == rep.rain
    ensures rep.minTemperature.time == 0 && c.tooCold ==>
      next.minTemperature == Slot(Finite(r.temperature), r.timeTicks)
    ensures rep.maxWind.time == 0 && c.tooWindy ==>
      next.maxWind == Slot(Finite(r.windSpeed), r.timeTicks)
    ensures rep.rain.time == 0 && c.rain ==>
      next.rain == Slot(c.weatherReport, r.timeTicks)
  {
    Report(
      if c.tooCold && rep.minTemperature.time == 0 then Slot(Finite(r.temperature), r.timeTicks) else rep.minTemperature,
      if c.tooWindy && rep.maxWind.time == 0 then Slot(Finite(r.windSpeed), r.timeTicks) else rep.maxWind,
      if c.rain && rep.rain.time == 0 then Slot(c.weatherReport, r.timeTicks) else rep.rain)
  }

  /** The run over a prefix of the forecast, as a value: readings are
      classified in order, and the first one whose rain code is missing
      from the table aborts the run. */
  function Scan(th: Thresholds, codes: CodeTable, title: string -> string, s: seq<Reading>)
    : (r: Result<Report, LookupError>)
    ensures r.Success? && r.value.minTemperature.time != 0 ==>
      exists i :: 0 <= i < |s| && Triggers(th, Cold, s[i]) &&
        r.value.minTemperature == Slot(Finite(s[i].temperature), s[i].timeTicks)
    ensures r.Success? && r.value.maxWind.time != 0 ==>
      exists i :: 0 <= i < |s| && Triggers(th, Windy, s[i]) &&
        r.value.maxWind == Slot(Finite(s[i].windSpeed), s[i].timeTicks)
    ensures r.Success? && r.value.rain.time != 0 ==>
      exists i :: 0 <= i < |s| && Triggers(th, Rainy, s[i]) && s[i].weatherCode in codes &&
        r.value.rain == Slot(title(codes[s[i].weatherCode]), s[i].timeTicks)
    decreases |s|
  {
    if s == [] then Success(Initial())
    else
      match Scan(th, codes, title, s[..|s| - 1])
      case Failure(e) => Failure(e)
      case Success(rep) =>
        assert forall j :: 0 <= j < |s| - 1 ==> s[..|s| - 1][j] == s[j];
        match Classify(th, codes, title, s[|s| - 1])
        case Failure(e) => Failure(e)
        case Success(c) => Success(Step(rep, s[|s| - 1], c))
  }

  /** Index of the earliest reading that triggers `cond`, if any. */
  function FirstTrigger(th: Thresholds, cond: Condition, s: seq<Reading>): (k: Option<nat>)
    ensures k.Some? ==>
      && k.value < |s|
      && Triggers(th, cond, s[k.value])
      && forall j :: 0 <= j < k.value ==> !Triggers(th, cond, s[j])
    ensures k.None? ==> forall j :: 0 <= j < |s| ==> !Triggers(th, cond, s[j])
    decreases |s|
  {
    if s == [] then None
    else if Triggers(th, cond, s[0]) then Some(0)
    else
      match FirstTrigger(th, cond, s[1..])
      case None => None
      case Some(k) => Some(k + 1)
  }

  /** The slots the first-occurrence policy calls for: each holds the value
      and time of the earliest reading that triggers its condition, or its
      initial value with time 0 when no reading does. */
  predicate FirstOccurrences(th: Thresholds, codes: CodeTable, title: string -> string,
                             s: seq<Reading>, rep: Report)
  {
    && (match FirstTrigger(th, Cold, s)
        case None => rep.minTemperature == Slot(PosInf, 0)
        case Some(i) => rep.minTemperature == Slot(Finite(s[i].temperature), s[i].timeTicks))
    && (match FirstTrigger(th, Windy, s)
        case None => rep.maxWind == Slot(NegInf, 0)
        case Some(i) => rep.maxWind == Slot(Finite(s[i].windSpeed), s[i].timeTicks))
    && (match FirstTrigger(th, Rainy, s)
        case None => rep.rain == Slot("Rain", 0)
        case Some(i) =>
          s[i].weatherCode in codes &&
          rep.rain == Slot(title(codes[s[i].weatherCode]), s[i].timeTicks))
  }

  /** The mutable `weather_report_item` dictionary: one field per slot. */
  class ReportItems {
    var minTemperature: Slot<Bound>
    var maxWind: Slot<Bound>
    var rain: Slot<string>

    function Snapshot(): Report
      reads this
    {
      Report(minTemperature, maxWind, rain)
    }

    constructor ()
      ensures Snapshot() == Initial()
    {
      minTemperature := Slot(PosInf, 0);
      maxWind := Slot(NegInf, 0);
      rain := Slot("Rain", 0);
    }

    /** The body of the loop in `main` for one classified reading. */
    method Record(r: Reading, c: Classification)
      modifies this
      ensures Snapshot() == Step(old(Snapshot()), r, c)
    {
      if c.tooCold {
        if minTemperature.time == 0 {
          minTemperature := minTemperature.(value := Finite(r.temperature), time := r.timeTicks);
        }
      }
      if c.tooWindy {
        if maxWind.time == 0 {
          maxWind := maxWind.(value := Finite(r.windSpeed), time := r.timeTicks);
        }
      }
      if c.rain {
        if rain.time == 0 {
          rain := rain.(value := c.weatherReport, time := r.timeTicks);
        }
      }
    }
  }

  /** The aggregation loop of `main` over the hourly forecast. */
  method Aggregate(th: Thresholds, codes: CodeTable, title: string -> string, readings: seq<Reading>)
    returns (res: Result<Report, LookupError>)
    ensures res == Scan(th, codes, title, readings)
    ensures res.Failure? <==> exists i :: 0 <= i < |readings| && LacksDescription(th, codes, readings[i])
    ensures res.Success? && (forall i :: 0 <= i < |readings| ==> readings[i].timeTicks != 0) ==>
      FirstOccurrences(th, codes, title, readings, res.value)
  {
    var items := new ReportItems();
    var i := 0;
    while i < |readings|
      invariant 0 <= i <= |readings|
      invariant Scan(th, codes, title, readings[..i]) == Success(items.Snapshot())
    {
      var c := Classify(th, codes, title, readings[i]);
      assert readings[..i + 1][..i] == readings[..i];
      if c.Failure? {
        assert readings[..i + 1] + readings[i + 1..] == readings;
        FailureIsFinal(th, codes, title, readings[..i + 1], readings[i + 1..]);
        res := Failure(c.error);
        ScanFailure(th, codes, title, readings);
        return;
      }
      items.Record(readings[i], c.value);
      i := i + 1;
    }
    assert readings[..i] == readings;
    res := Success(items.Snapshot());
    ScanFailure(th, codes, title, readings);
    if forall j :: 0 <= j < |readings| ==> readings[j].timeTicks != 0 {
      FirstOccurrence(th, codes, title, readings);
    }
  }

  /** Scan of a non-empty sequence, in terms of its last reading. */
  lemma ScanSnoc(th: Thresholds, codes: CodeTable, title: string -> string, s: seq<Reading>, x: Reading)
    ensures Scan(th, codes, title, s + [x]) ==
      match Scan(th, codes, title, s)
      case Failure(e) => Failure(e)
      case Success(rep) =>
        match Classify(th, codes, title, x)
        case Failure(e) => Failure(e)
        case Success(c) => Success(Step(rep, x, c))
  {
    assert (s + [x])[..|s|] == s;
  }

  /** A lookup failure ends the run: later readings cannot change it. */
  lemma {:induction false} FailureIsFinal(th: Thresholds, codes: CodeTable, title: string -> string,
                                          s: seq<Reading>, t: seq<Reading>)
    requires Scan(th, codes, title, s).Failure?
    ensures Scan(th, codes, title, s + t) == Scan(th, codes, title, s)
    decreases |t|
  {
    if t != [] {
      var t' := t[..|t| - 1];
      FailureIsFinal(th, codes, title, s, t');
      assert s + t == (s + t') + [t[|t| - 1]];
      ScanSnoc(th, codes, title, s + t', t[|t| - 1]);
    } else {
      assert s + t == s;
    }
  }

  /** The run fails exactly when some reading lacks a rain description, and
      the error names the code of the earliest such reading. */
  lemma {:induction false} ScanFailure(th: Thresholds, codes: CodeTable, title: string -> string, s: seq<Reading>)
    ensures Scan(th, codes, title, s).Failure? <==>
      exists i :: 0 <= i < |s| && LacksDescription(th, codes, s[i])
    ensures Scan(th, codes, title, s).Failure? ==>
      exists i :: 0 <= i < |s| && LacksDescription(th, codes, s[i]) &&
        (forall j :: 0 <= j < i ==> !LacksDescription(th, codes, s[j])) &&
        Scan(th, codes, title, s).error == MissingWeatherCode(s[i].weatherCode)
    decreases |s|
  {
    if s != [] {
      var p, x := s[..|s| - 1], s[|s| - 1];
      assert s == p + [x];
      ScanFailure(th, codes, title, p);
      ScanSnoc(th, codes, title, p, x);
      if Scan(th, codes, title, p).Failure? {
        var i :| 0 <= i < |p| && LacksDescription(th, codes, p[i]) &&
          (forall j :: 0 <= j < i ==> !LacksDescription(th, codes, p[j])) &&
          Scan(th, codes, title, p).error == MissingWeatherCode(p[i].weatherCode);
        assert s[i] == p[i];
      } else {
        assert forall j :: 0 <= j < |p| ==> s[j] == p[j];
        if LacksDescription(th, codes, x) {
          assert s[|p|] == x;
        }
      }
    }
  }

  /** The first trigger of an extended forecast: the old one if there was
      one, else the new reading if it triggers. */
  lemma {:induction false} FirstTriggerSnoc(th: Thresholds, cond: Condition, s: seq<Reading>, x: Reading)
    ensures FirstTrigger(th, cond, s + [x]) ==
      match FirstTrigger(th, cond, s)
      case Some(k) => Some(k)
      case None => if Triggers(th, cond, x) then Some(|s|) else None
    decreases |s|
  {
    if s != [] {
      assert (s + [x])[0] == s[0];
      assert (s + [x])[1..] == s[1..] + [x];
      FirstTriggerSnoc(th, cond, s[1..], x);
    }
  }

  /** With no reading at time 0, each slot ends up holding the earliest
      reading that triggers its condition, however severe later ones are. */
  lemma {:induction false} FirstOccurrence(th: Thresholds, codes: CodeTable, title: string -> string, s: seq<Reading>)
    requires forall i :: 0 <= i < |s| ==> s[i].timeTicks != 0
    requires Scan(th, codes, title, s).Success?
    ensures FirstOccurrences(th, codes, title, s, Scan(th, codes, title, s).value)
    decreases |s|
  {
    if s != [] {
      var p, x := s[..|s| - 1], s[|s| - 1];
      assert s == p + [x];
      ScanSnoc(th, codes, title, p, x);
      FirstOccurrence(th, codes, title, p);
      FirstTriggerSnoc(th, Cold, p, x);
      FirstTriggerSnoc(th, Windy, p, x);
      FirstTriggerSnoc(th, Rainy, p, x);
      assert forall j :: 0 <= j < |p| ==> s[j] == p[j];
    }
  }

  /** Once a slot's time is non-zero, no later reading changes its value or
      its time. */
  lemma {:induction false} SetSlotsStay(th: Thresholds, codes: CodeTable, title: string -> string,
                                        s: seq<Reading>, t: seq<Reading>)
    requires Scan(th, codes, title, s + t).Success?
    ensures Scan(th, codes, title, s).Success?
    ensures var before, after := Scan(th, codes, title, s).value, Scan(th, codes, title, s + t).value;
      && (before.minTemperature.time != 0 ==> after.minTemperature == before.minTemperature)
      && (before.maxWind.time != 0 ==> after.maxWind == before.maxWind)
      && (before.rain.time != 0 ==> after.rain == before.rain)
    decreases |t|
  {
    if t == [] {
      assert s + t == s;
    } else {
      var t', x := t[..|t| - 1], t[|t| - 1];
      assert s + t == (s + t') + [x];
      ScanSnoc(th, codes, title, s + t', x);
      SetSlotsStay(th, codes, title, s, t');
    }
  }

  /** A forecast in which nothing triggers leaves every slot at its initial
      value; an empty forecast is one such. */
  lemma {:induction false} QuietForecast(th: Thresholds, codes: CodeTable, title: string -> string, s: seq<Reading>)
    requires forall i :: 0 <= i < |s| ==>
      !Triggers(th, Cold, s[i]) && !Triggers(th, Windy, s[i]) && !Triggers(th, Rainy, s[i])
    ensures Scan(th, codes, title, s) == Success(Initial())
    decreases |s|
  {
    if s != [] {
      var p := s[..|s| - 1];
      assert s == p + [s[|s| - 1]];
      ScanSnoc(th, codes, title, p, s[|s| - 1]);
      QuietForecast(th, codes, title, p);
    }
  }

  /** The conditions are independent: after any stretch in which nothing
      triggers, one reading that triggers all three conditions fills all
      three slots with its own values and time. */
  lemma OneReadingFillsAll(th: Thresholds, codes: CodeTable, title: string -> string,
                           s: seq<Reading>, x: Reading)
    requires forall i :: 0 <= i < |s| ==>
      !Triggers(th, Cold, s[i]) && !Triggers(th, Windy, s[i]) && !Triggers(th, Rainy, s[i])
    requires Triggers(th, Cold, x) && Triggers(th, Windy, x) && Triggers(th, Rainy, x)
    requires x.weatherCode in codes
    ensures Scan(th, codes, title, s + [x]) == Success(Report(
      Slot(Finite(x.temperature), x.timeTicks),
      Slot(Finite(x.windSpeed), x.timeTicks),
      Slot(title(codes[x.weatherCode]), x.timeTicks)))
  {
    QuietForecast(th, codes, title, s);
    ScanSnoc(th, codes, title, s, x);
  }

  /** Loosening a threshold never makes its alert come later: with a higher
      cold threshold (or a lower wind one) the first triggering reading is
      the same one or an earlier one. */
  lemma LooserColdThresholdAlertsNoLater(th: Thresholds, th': Thresholds, s: seq<Reading>)
    requires th.temperature <= th'.temperature
    ensures FirstTrigger(th, Cold, s).Some? ==>
      FirstTrigger(th', Cold, s).Some? && FirstTrigger(th', Cold, s).value <= FirstTrigger(th, Cold, s).value
  {
    // The first index under `th` triggers under `th'` as well, and
    // FirstTrigger's contract makes the one under `th'` the least such.
  }

  /** The wind half of the previous lemma. */
  lemma LooserWindThresholdAlertsNoLater(th: Thresholds, th': Thresholds, s: seq<Reading>)
    requires th'.windSpeed <= th.windSpeed
    ensures FirstTrigger(th, Windy, s).Some? ==>
      FirstTrigger(th', Windy, s).Some? && FirstTrigger(th', Windy, s).value <= FirstTrigger(th, Windy, s).value
  {
    // The first index under `th` triggers under `th'` as well, and
    // FirstTrigger's contract makes the one under `th'` the least such.
  }

  /** The time-0 sentinel: a triggering reading stamped 0 writes its value
      but leaves the slot looking unset, so the next triggering reading
      replaces it and the slot does not hold the earliest trigger. */
  lemma ZeroTimestampIsOverwritten(title: string -> string)
    ensures var th := Thresholds(32.0, 20.0, false);
      var s := [Reading(0, 10.0, 5.0, 800), Reading(3600, 30.0, 5.0, 800)];
      && FirstTrigger(th, Cold, s) == Some(0)
      && Scan(th, map[], title, s) == Success(Report(Slot(Finite(30.0), 3600), Slot(NegInf, 0), Slot("Rain", 0)))
  {
    var th := Thresholds(32.0, 20.0, false);
    var a, b := Reading(0, 10.0, 5.0, 800), Reading(3600, 30.0, 5.0, 800);
    ScanSnoc(th, map[], title, [], a);
    ScanSnoc(th, map[], title, [a], b);
    assert [a] + [b] == [a, b];
  }
}
