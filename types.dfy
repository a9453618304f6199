/** The typed forecast records of my-weather/src/types.rs and the
    Celsius-to-Fahrenheit map applied when a record is built. */
module Types {
  import Feed

  /** Unit markers. They carry no data: the type parameter of `Temperature`
      is what keeps Celsius and Fahrenheit values apart. */
  datatype Celsius = Celsius
  datatype Fahrenheit = Fahrenheit

  /** A temperature reading tagged with its kind and (statically) its unit. */
  datatype Temperature<Unit> = High(value: real) | Low(value: real) | Current(value: real)

  datatype DayNight = Day | Night

  datatype DayOfWeek = Monday | Tuesday | Wednesday | Thursday | Friday | Saturday | Sunday

  /** `DayOfWeek::as_str`. */
  function DayOfWeekName(d: DayOfWeek): string {
    match d
    case Monday => "Monday"
    case Tuesday => "Tuesday"
    case Wednesday => "Wednesday"
    case Thursday => "Thursday"
    case Friday => "Friday"
    case Saturday => "Saturday"
    case Sunday => "Sunday"
  }

  datatype Forecast = Forecast(
    celsius: Temperature<Celsius>,
    fahrenheit: Temperature<Fahrenheit>,
    description: string,
    day: DayNight,
    dayOfWeek: DayOfWeek)

  datatype CurrentForecast = CurrentForecast(
    celsius: Temperature<Celsius>,
    fahrenheit: Temperature<Fahrenheit>,
    description: string)

  datatype ForecastWithEntry = ForecastWithEntry(forecast: Forecast, entry: Feed.Entry)

  datatype CurrentForecastWithEntry = CurrentForecastWithEntry(current: CurrentForecast, entry: Feed.Entry)

  // ---------------------------------------------------------------------
  // `From<Temperature<Celsius>> for Temperature<Fahrenheit>`

  function Convert(n: real): real {
    n * 2.0 + 30.0
  }

  /** The conversion keeps the kind of reading and maps its value by `n*2 + 30`. */
  function ToFahrenheit(t: Temperature<Celsius>): (f: Temperature<Fahrenheit>)
    ensures t.High? <==> f.High?
    ensures t.Low? <==> f.Low?
    ensures t.Current? <==> f.Current?
    ensures f.value == t.value * 2.0 + 30.0
  {
    match t
    case High(n) => High(Convert(n))
    case Low(n) => Low(Convert(n))
    case Current(n) => Current(Convert(n))
  }

  /** The exact formula `n*9/5 + 32`, for comparison. */
  function ExactFahrenheit(n: real): real {
    n * 9.0 / 5.0 + 32.0
  }

  /** The map used agrees with the exact conversion at 10 degrees Celsius only. */
  lemma FahrenheitExactOnlyAtTen(t: Temperature<Celsius>)
    ensures ToFahrenheit(t).value == ExactFahrenheit(t.value) <==> t.value == 10.0
  {
  }
}
