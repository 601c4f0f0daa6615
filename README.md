# WeatherNotifier forecast reduction, modelled in Dafny

WeatherNotifier fetches an hourly forecast, checks every hour against three
alert thresholds (too cold, too windy, rain) and, if any hour crosses one,
texts a short summary. This project models the part of `WeatherNotifier.py`
that decides what is sent:

- **Classification** (`Forecast`): `WeatherItems.__init__` as the function
  `Classify`. A reading is too cold when its temperature is at or below the
  threshold, too windy when its wind speed is at or above it, and rain when
  rain alerts are on and its weather code lies in `range(200, 600)`. A rain
  reading's description is looked up in the code table and title-cased; a
  missing code raises, which here is `Failure(MissingWeatherCode(code))`.
- **Aggregation** (`Aggregation`): the `weather_report_item` dictionary is
  the class `ReportItems`, one field per slot (`min_temperature`,
  `max_wind`, `rain`), each a value and a time. The loop of `main` is the
  method `Aggregate`. It is proved equal to the function `Scan`, a fold over
  the readings. The first-occurrence policy, the stickiness of set slots and
  the failure behaviour are proved as lemmas about `Scan`. A slot is unset
  while its time is 0, as in the source. Slots start at `float('inf')`,
  `float('-inf')` and `'Rain'`; the infinities are the `Bound` datatype.
- **Composition** (`Compose`): `create_alert_body` is the method
  `CreateAlertBody`, which appends the three f-string lines under the
  `time > 0` tests. It is proved equal to rendering `Lines(rep)`, the
  structured list of lines whose order and membership are the contract.
  `Alert` is the gate of `main`: no text unless some slot's time is
  positive.
- **Run** (`Notifier`): `CheckForecast` chains aggregation, gate and
  composition for one run. It returns the text handed to `send_text`, or
  `None` when nothing is sent, or the lookup error that aborts the run.

Platform renderings are parameters: `friendly_time` (strftime in local
time), `str` of a float (`Format`), and `str.title` (`title`). The thresholds
and the code table are parameters too. The source reloads them from JSON
files for every reading.

How the program marks a slot as set shapes what can be proved:
- The program keeps no set flag. The loop treats `time == 0` as unset
  (lines 136, 141 and 147), while `create_alert_body` and the gate in
  `main` treat `time > 0` as set (lines 78-82 and 151-153). So a triggering
  reading stamped 0 writes its value but leaves the slot open, and a later
  trigger replaces it (`ZeroTimestampIsOverwritten`). A slot filled by a
  negative timestamp is closed to later readings but never reported. The
  first-occurrence results therefore assume non-zero timestamps, and the
  "alert iff some hour triggers" result assumes positive ones.
- `create_alert_body` always builds a text; the decision whether to build
  one at all is the gate in `main` (lines 151-154). Here the gate is
  `Alert` and the builder is `CreateAlertBody`.

## Model

| member | source | states |
|---|---|---|
| `Forecast.Classify` | WeatherNotifier.py:47-58 | too cold iff temperature <= threshold, too windy iff wind speed >= threshold, rain iff the rain flag is on and 200 <= code < 600; no rain gives the empty report; a rain code missing from the table is a failure naming that code, otherwise the report is the title-cased table entry |
| `Aggregation.LooserColdThresholdAlertsNoLater` | WeatherNotifier.py:55 | with a cold threshold at least as high, a forecast that triggers a cold alert still does, at the same reading or an earlier one |
| `Aggregation.LooserWindThresholdAlertsNoLater` | WeatherNotifier.py:56 | with a wind threshold at least as low, a forecast that triggers a wind alert still does, at the same reading or an earlier one |
| `Aggregation.Initial` | WeatherNotifier.py:60-64 | all three slots start unset (time 0) |
| `Aggregation.Step` | WeatherNotifier.py:135-149 | a slot whose time is non-zero, or whose condition does not hold, is left unchanged; an unset slot whose condition holds takes this reading's value and time |
| `Aggregation.ReportItems.constructor` | WeatherNotifier.py:60-64 | the dictionary starts at +inf / -inf / 'Rain', all at time 0 |
| `Aggregation.ReportItems.Record` | WeatherNotifier.py:135-149 | one loop pass updates the slots exactly as `Step` does |
| `Aggregation.Scan` | WeatherNotifier.py:125-149 | the run over the readings, stopping at the first failed lookup; on success every slot whose time is non-zero holds the value (temperature, wind speed, or the title-cased table description) and the time of some reading of the forecast that triggers that slot's condition |
| `Aggregation.FirstTrigger` | WeatherNotifier.py:126-149 | the index returned triggers the condition and no earlier reading does; none is returned only when no reading triggers it |
| `Aggregation.Aggregate` | WeatherNotifier.py:125-149 | the loop computes `Scan`; it fails exactly when some reading lacks a rain description; with no time-0 reading, each slot holds the earliest triggering reading's value and time, or its initial value at time 0 |
| `Aggregation.FailureIsFinal` | WeatherNotifier.py:126-133 | once a reading's lookup fails, no later reading changes the outcome: the run is aborted |
| `Aggregation.ScanFailure` | WeatherNotifier.py:58 | a run fails iff some reading is rain with a code missing from the table, and the error names the code of the earliest such reading |
| `Aggregation.FirstOccurrence` | WeatherNotifier.py:126-149 | with no time-0 reading, each slot holds the value and time of the earliest reading that triggers it, regardless of later, more severe readings, or stays at its initial value with time 0 |
| `Aggregation.SetSlotsStay` | WeatherNotifier.py:136-149 | a slot whose time is non-zero after some readings keeps its value and time whatever readings follow |
| `Aggregation.QuietForecast` | WeatherNotifier.py:126-149 | if no reading triggers any condition (the empty forecast included), every slot keeps its initial value |
| `Aggregation.OneReadingFillsAll` | WeatherNotifier.py:135-149 | the conditions are independent: after any readings that trigger nothing, one reading that triggers all three fills all three slots with its own values and time |
| `Aggregation.ZeroTimestampIsOverwritten` | WeatherNotifier.py:136-138 | a triggering reading stamped 0 leaves the slot open, so the next trigger replaces its value: the slot is not the earliest trigger |
| `Compose.LineText` | WeatherNotifier.py:79-83 | the cold line starts "Cold Alert: " and the wind line "Wind Alert: ", both ending in a newline; the rain line starts with the description and ": "; no line is empty |
| `Compose.Lines` | WeatherNotifier.py:77-83 | one line per slot whose time is > 0 and no other, carrying that slot's value and time, in the fixed order cold, wind, rain whatever the times |
| `Compose.AnySet` | WeatherNotifier.py:151-153 | the gate's condition holds exactly when the report gives rise to at least one alert line |
| `Compose.Alert` | WeatherNotifier.py:151-154 | no text exactly when no slot's time is > 0; otherwise the rendered lines, which are never empty |
| `Compose.CreateAlertBody` | WeatherNotifier.py:75-83 | the appended text equals the rendering of `Lines`, line after line with no separator added |
| `Compose.AlertBodyShape` | WeatherNotifier.py:78-83 | the text starts with the cold line when there is one; it ends with the rain line, with no newline after it, when there is one, and with a newline otherwise |
| `Notifier.CheckForecast` | WeatherNotifier.py:125-154 | one run yields the lookup error, no alert, or the alert text of `Notification`; it fails exactly when some reading lacks a rain description; an empty forecast sends nothing |
| `Notifier.Notification` | WeatherNotifier.py:125-154 | the run as a value: an empty forecast sends nothing, and any alert it sends is a non-empty text |
| `Notifier.AlertIffTrigger` | WeatherNotifier.py:126-154 | with positive timestamps and a complete code table, an alert is produced exactly when some reading triggers some condition |
| `Notifier.QuietForecastSendsNothing` | WeatherNotifier.py:151-154 | a forecast where nothing triggers, the empty one included, produces no alert |
| `Notifier.WorkedExample` | WeatherNotifier.py:125-154 | three hours, the second cold, windy and rainy and the third colder and windier: all slots hold the second hour and the alert is its cold, wind and rain lines in that order |

## Left out

- Fetching the forecast over HTTP and decoding its JSON, with the API URL and units built in `main`: network I/O. The model starts from the list of readings.
- `load_json` and its catch-all handler that returns `{}`: file I/O. The thresholds and the code table are parameters, and the per-reading reload of both files is not modelled.
- `send_text`: SMTP delivery, message headers, per-recipient error handling and the carrier address: network I/O. A run ends with the text that would be sent.
- `friendly_time`, `str` of a float and `str.title`: platform formatting, taken as opaque parameters.
- `Format.number`: the model takes readings as reals, so it does not distinguish JSON integers from floats, which Python's `str` renders differently ("30" and "30.0").
- The module-level dictionary surviving from one `main` call to the next in the same process: the model covers one run from the initial slots.
- Reading a forecast entry's fields (`h['dt']`, `h['weather'][0]['id']`, ...) and the `KeyError` or `IndexError` a malformed entry raises: input decoding.
