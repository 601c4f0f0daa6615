/** Per-hour classification of one forecast reading against the alert
    thresholds (the WeatherItems class of WeatherNotifier.py). */
module Forecast {
  import opened Wrappers

  /** One hourly forecast entry: `dt`, `temp`, `wind_speed` and the id of the
      first `weather` element. Temperatures and speeds are only ever compared,
      so they are kept as reals. */
  datatype Reading = Reading(timeTicks: int, temperature: real, windSpeed: real, weatherCode: int)

  /** The `alert_thressholds` record of the configuration. */
  datatype Thresholds = Thresholds(temperature: real, windSpeed: real, rain: bool)

  /** What `WeatherItems` computes about one reading. */
  datatype Classification = Classification(tooCold: bool, tooWindy: bool, rain: bool, weatherReport: string)

  /** The `KeyError` raised when a rain code has no entry in the code table. */
  datatype LookupError = MissingWeatherCode(code: int)

  /** The weather_codes table, with its keys already converted to integers. */
  type CodeTable = map<int, string>

  /** The three alert conditions, in the order the alert lists them. */
  datatype Condition = Cold | Windy | Rainy

  /** Codes of the provider's precipitation groups: `range(200, 600)`. */
  predicate IsRainCode(code: int)
  {
    200 <= code < 600
  }

  predicate Triggers(th: Thresholds, cond: Condition, r: Reading)
  {
    match cond
    case Cold => r.temperature <= th.temperature
    case Windy => r.windSpeed >= th.windSpeed
    case Rainy => th.rain && IsRainCode(r.weatherCode)
  }

  /** A reading whose rain description cannot be looked up: classifying it
      raises instead of producing a default description. */
  predicate LacksDescription(th: Thresholds, codes: CodeTable, r: Reading)
  {
    Triggers(th, Rainy, r) && r.weatherCode !in codes
  }

  /** `WeatherItems.__init__`: the thresholds and the code table, which the
      source reloads from disk for every reading, are parameters here, and
      `title` stands for Python's `str.title`. */
  function Classify(th: Thresholds, codes: CodeTable, title: string -> string, r: Reading)
    : (c: Result<Classification, LookupError>)
    ensures c.Failure? <==> th.rain && 200 <= r.weatherCode < 600 && r.weatherCode !in codes
    ensures c.Failure? ==> c.error == MissingWeatherCode(r.weatherCode)
    ensures c.Success? ==>
      && (c.value.tooCold <==> r.temperature <= th.temperature)
      && (c.value.tooWindy <==> r.windSpeed >= th.windSpeed)
      && (c.value.rain <==> th.rain && 200 <= r.weatherCode < 600)
      && (!c.value.rain ==> c.value.weatherReport == "")
      && (c.value.rain ==> r.weatherCode in codes && c.value.weatherReport == title(codes[r.weatherCode]))
  {
    var rain := Triggers(th, Rainy, r);
    if rain && r.weatherCode !in codes then
      Failure(MissingWeatherCode(r.weatherCode))
    else
      Success(Classification(
        Triggers(th, Cold, r),
        Triggers(th, Windy, r),
        rain,
        if rain then title(codes[r.weatherCode]) else ""))
  }
}
