/** One run of `main` after the forecast has been fetched: aggregate the
    hourly readings, then compose an alert if some slot is set. */
module Notifier {
  import opened Wrappers
  import opened Forecast
  import opened Aggregation
  import opened Compose

  /** The outcome of a run as a value: the lookup error that aborts it, or
      the alert text to send (None when nothing is sent). */
  function Notification(th: Thresholds, codes: CodeTable, title: string -> string, fmt: Format,
                        s: seq<Reading>): (r: Result<Option<string>, LookupError>)
    ensures s == [] ==> r == Success(None)
    ensures r.Success? && r.value.Some? ==> r.value.value != ""
  {
    match Scan(th, codes, title, s)
    case Failure(e) => Failure(e)
    case Success(rep) => Success(Alert(rep, fmt))
  }

  /** Lines 125-154 of `main`: the aggregation loop, the gate, and
      `create_alert_body` (whose hand-off to `send_text` is the returned
      text). */
  method CheckForecast(th: Thresholds, codes: CodeTable, title: string -> string, fmt: Format,
                       readings: seq<Reading>)
    returns (outcome: Result<Option<string>, LookupError>)
    ensures outcome == Notification(th, codes, title, fmt, readings)
    ensures outcome.Failure? <==> exists i :: 0 <= i < |readings| && LacksDescription(th, codes, readings[i])
    ensures readings == [] ==> outcome == Success(None)
  {
    var res := Aggregate(th, codes, title, readings);
    if res.Failure? {
      return Failure(res.error);
    }
    var rep := res.value;
    if rep.minTemperature.time > 0 || rep.maxWind.time > 0 || rep.rain.time > 0 {
      var body := CreateAlertBody(rep, fmt);
      outcome := Success(Some(body));
    } else {
      outcome := Success(None);
    }
  }

  /** With every reading stamped after time 0 and every rain code in the
      table, an alert is sent exactly when some reading triggers some
      condition. */
  lemma AlertIffTrigger(th: Thresholds, codes: CodeTable, title: string -> string, fmt: Format, s: seq<Reading>)
    requires forall i :: 0 <= i < |s| ==> s[i].timeTicks > 0
    requires forall i :: 0 <= i < |s| ==> !LacksDescription(th, codes, s[i])
    ensures Notification(th, codes, title, fmt, s).Success?
    ensures Notification(th, codes, title, fmt, s).value.Some? <==>
      exists i, cond :: 0 <= i < |s| && Triggers(th, cond, s[i])
  {
    ScanFailure(th, codes, title, s);
    FirstOccurrence(th, codes, title, s);
    var rep := Scan(th, codes, title, s).value;
    if exists i, cond :: 0 <= i < |s| && Triggers(th, cond, s[i]) {
      var i, cond :| 0 <= i < |s| && Triggers(th, cond, s[i]);
      match cond
      case Cold => assert FirstTrigger(th, Cold, s).Some?;
      case Windy => assert FirstTrigger(th, Windy, s).Some?;
      case Rainy => assert FirstTrigger(th, Rainy, s).Some?;
    }
  }

  /** A forecast in which nothing triggers, the empty forecast included,
      sends nothing. */
  lemma QuietForecastSendsNothing(th: Thresholds, codes: CodeTable, title: string -> string, fmt: Format,
                                  s: seq<Reading>)
    requires forall i :: 0 <= i < |s| ==>
      !Triggers(th, Cold, s[i]) && !Triggers(th, Windy, s[i]) && !Triggers(th, Rainy, s[i])
    ensures Notification(th, codes, title, fmt, s) == Success(None)
  {
    QuietForecast(th, codes, title, s);
  }

  /** A three-hour forecast whose second hour is cold, windy and rainy: the
      colder and windier third hour changes nothing, and every slot holds
      the second hour. */
  lemma WorkedExampleReport(title: string -> string)
    ensures var th := Thresholds(32.0, 20.0, true);
      var s := [Reading(1000, 40.0, 5.0, 800), Reading(2000, 30.0, 25.0, 500), Reading(3000, 20.0, 30.0, 800)];
      Scan(th, map[500 := "moderate rain"], title, s) ==
        Success(Report(Slot(Finite(30.0), 2000), Slot(Finite(25.0), 2000), Slot(title("moderate rain"), 2000)))
  {
    var th := Thresholds(32.0, 20.0, true);
    var codes := map[500 := "moderate rain"];
    var a, b, c := Reading(1000, 40.0, 5.0, 800), Reading(2000, 30.0, 25.0, 500), Reading(3000, 20.0, 30.0, 800);
    ScanSnoc(th, codes, title, [], a);
    assert Scan(th, codes, title, [a]) == Success(Initial());
    ScanSnoc(th, codes, title, [a], b);
    assert [a] + [b] == [a, b];
    ScanSnoc(th, codes, title, [a, b], c);
    assert [a, b] + [c] == [a, b, c];
  }

  /** The alert for that report: three lines, cold first and rain last, all
      at the second hour. */
  lemma WorkedExampleAlert(title: string -> string, fmt: Format)
    ensures Alert(Report(Slot(Finite(30.0), 2000), Slot(Finite(25.0), 2000), Slot(title("moderate rain"), 2000)), fmt)
      == Some(Join([ColdAlert(Finite(30.0), 2000), WindAlert(Finite(25.0), 2000), RainAlert(title("moderate rain"), 2000)], fmt))
  {
    var rep := Report(Slot(Finite(30.0), 2000), Slot(Finite(25.0), 2000), Slot(title("moderate rain"), 2000));
    assert Lines(rep) == [ColdAlert(Finite(30.0), 2000), WindAlert(Finite(25.0), 2000), RainAlert(title("moderate rain"), 2000)];
  }

  /** The same example end to end. */
  lemma WorkedExample(title: string -> string, fmt: Format)
    ensures var th := Thresholds(32.0, 20.0, true);
      var s := [Reading(1000, 40.0, 5.0, 800), Reading(2000, 30.0, 25.0, 500), Reading(3000, 20.0, 30.0, 800)];
      Notification(th, map[500 := "moderate rain"], title, fmt, s) == Success(Some(
        Join([ColdAlert(Finite(30.0), 2000), WindAlert(Finite(25.0), 2000), RainAlert(title("moderate rain"), 2000)], fmt)))
  {
    WorkedExampleReport(title);
    WorkedExampleAlert(title, fmt);
  }
}
