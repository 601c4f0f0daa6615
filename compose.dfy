/** The alert text (`create_alert_body` of WeatherNotifier.py) and the gate
    in `main` that decides whether an alert is composed at all. */
module Compose {
  import opened Wrappers
  import opened Aggregation

  /** The renderings the source borrows from the platform: `friendly_time`
      (strftime in the local time zone) and `str` of a float. */
  datatype Format = Format(friendlyTime: int -> string, number: real -> string)

  /** `str` of a slot's float value, including the two infinities. */
  function NumberText(b: Bound, fmt: Format): string
  {
    match b
    case Finite(x) => fmt.number(x)
    case PosInf => "inf"
    case NegInf => "-inf"
  }

  /** One line of the alert, before rendering. */
  datatype AlertLine =
    | ColdAlert(degrees: Bound, time: int)
    | WindAlert(mph: Bound, time: int)
    | RainAlert(description: string, time: int)

  /** Position of a line's kind in the fixed cold, wind, rain order. */
  function Rank(l: AlertLine): nat
  {
    match l
    case ColdAlert(_, _) => 0
    case WindAlert(_, _) => 1
    case RainAlert(_, _) => 2
  }

  /** The three f-strings of `create_alert_body`. The cold and wind lines end
      in a newline; the rain line has none of its own. */
  function LineText(l: AlertLine, fmt: Format): (text: string)
    ensures l.ColdAlert? ==> "Cold Alert: " <= text && text[|text| - 1] == '\n'
    ensures l.WindAlert? ==> "Wind Alert: " <= text && text[|text| - 1] == '\n'
    ensures l.RainAlert? ==> l.description + ": " <= text
    ensures |text| > 0
  {
    match l
    case ColdAlert(v, t) => "Cold Alert: " + NumberText(v, fmt) + " degrees at " + fmt.friendlyTime(t) + "\n"
    case WindAlert(v, t) => "Wind Alert: " + NumberText(v, fmt) + " mph at " + fmt.friendlyTime(t) + "\n"
    case RainAlert(d, t) => d + ": " + fmt.friendlyTime(t)
  }

  /** The lines rendered one after the other, with no separator added. */
  function Join(ls: seq<AlertLine>, fmt: Format): string
  {
    if ls == [] then "" else LineText(ls[0], fmt) + Join(ls[1..], fmt)
  }

  /** The lines an alert is made of: one per slot whose time is positive,
      always in the order cold, wind, rain whatever their times. */
  function Lines(rep: Report): (ls: seq<AlertLine>)
    ensures forall i, j :: 0 <= i < j < |ls| ==> Rank(ls[i]) < Rank(ls[j])
    ensures ColdAlert(rep.minTemperature.value, rep.minTemperature.time) in ls <==> rep.minTemperature.time > 0
    ensures WindAlert(rep.maxWind.value, rep.maxWind.time) in ls <==> rep.maxWind.time > 0
    ensures RainAlert(rep.rain.value, rep.rain.time) in ls <==> rep.rain.time > 0
    ensures forall l :: l in ls ==>
      l == ColdAlert(rep.minTemperature.value, rep.minTemperature.time) ||
      l == WindAlert(rep.maxWind.value, rep.maxWind.time) ||
      l == RainAlert(rep.rain.value, rep.rain.time)
  {
    (if rep.minTemperature.time > 0 then [ColdAlert(rep.minTemperature.value, rep.minTemperature.time)] else []) +
    (if rep.maxWind.time > 0 then [WindAlert(rep.maxWind.value, rep.maxWind.time)] else []) +
    (if rep.rain.time > 0 then [RainAlert(rep.rain.value, rep.rain.time)] else [])
  }

  /** True when some slot's time is positive: the condition `main` tests
      before composing anything. */
  predicate AnySet(rep: Report): (b: bool)
    ensures b <==> Lines(rep) != []
  {
    rep.minTemperature.time > 0 || rep.maxWind.time > 0 || rep.rain.time > 0
  }

  /** The alert a report gives rise to, if any. */
  function Alert(rep: Report, fmt: Format): (msg: Option<string>)
    ensures msg.None? <==> !AnySet(rep)
    ensures msg.Some? ==> msg.value == Join(Lines(rep), fmt) && msg.value != ""
  {
    var ls := Lines(rep);
    if ls == [] then None
    else
      assert ls[0] in ls;
      Some(Join(ls, fmt))
  }

  /** Rendering one more line appends its text. */
  lemma {:induction false} JoinSnoc(ls: seq<AlertLine>, l: AlertLine, fmt: Format)
    ensures Join(ls + [l], fmt) == Join(ls, fmt) + LineText(l, fmt)
    decreases |ls|
  {
    if ls == [] {
      assert [] + [l] == [l];
    } else {
      assert (ls + [l])[1..] == ls[1..] + [l];
      JoinSnoc(ls[1..], l, fmt);
    }
  }

  /** `create_alert_body`: the text is built by appending, under the same
      three tests, each line in turn. */
  method CreateAlertBody(rep: Report, fmt: Format) returns (alertText: string)
    ensures alertText == Join(Lines(rep), fmt)
  {
    alertText := "";
    ghost var ls: seq<AlertLine> := [];
    if rep.minTemperature.time > 0 {
      var line := "Cold Alert: " + NumberText(rep.minTemperature.value, fmt) +
        " degrees at " + fmt.friendlyTime(rep.minTemperature.time) + "\n";
      ghost var l := ColdAlert(rep.minTemperature.value, rep.minTemperature.time);
      assert line == LineText(l, fmt);
      JoinSnoc(ls, l, fmt);
      alertText, ls := alertText + line, ls + [l];
    }
    assert alertText == Join(ls, fmt);
    if rep.maxWind.time > 0 {
      var line := "Wind Alert: " + NumberText(rep.maxWind.value, fmt) +
        " mph at " + fmt.friendlyTime(rep.maxWind.time) + "\n";
      ghost var l := WindAlert(rep.maxWind.value, rep.maxWind.time);
      assert line == LineText(l, fmt);
      JoinSnoc(ls, l, fmt);
      alertText, ls := alertText + line, ls + [l];
    }
    assert alertText == Join(ls, fmt);
    if rep.rain.time > 0 {
      var line := rep.rain.value + ": " + fmt.friendlyTime(rep.rain.time);
      ghost var l := RainAlert(rep.rain.value, rep.rain.time);
      assert line == LineText(l, fmt);
      JoinSnoc(ls, l, fmt);
      alertText, ls := alertText + line, ls + [l];
    }
    assert ls == Lines(rep);
  }

  /** The text starts with the cold line when there is one; it ends with the
      rain line, with no newline after it, when there is one, and with a
      newline otherwise. */
  lemma AlertBodyShape(rep: Report, fmt: Format)
    requires AnySet(rep)
    ensures var text := Join(Lines(rep), fmt);
      && (rep.minTemperature.time > 0 ==>
            LineText(ColdAlert(rep.minTemperature.value, rep.minTemperature.time), fmt) <= text)
      && (rep.rain.time > 0 ==>
            var last := LineText(RainAlert(rep.rain.value, rep.rain.time), fmt);
            |last| <= |text| && text[|text| - |last|..] == last)
      && (rep.rain.time <= 0 ==> text[|text| - 1] == '\n')
  {
    var ls := Lines(rep);
    var k := |ls| - 1;
    assert ls[k] in ls;
    assert ls == ls[..k] + [ls[k]];
    JoinSnoc(ls[..k], ls[k], fmt);
    if rep.rain.time <= 0 {
      assert !ls[k].RainAlert?;
    } else {
      assert RainAlert(rep.rain.value, rep.rain.time) in ls;
      assert ls[k] == RainAlert(rep.rain.value, rep.rain.time);
    }
  }
}
