/**
 The weather service module and the weather panel's forecast list: the
 geocoding and forecast requests with their cache keys, the icon and
 description of a WMO weather interpretation code (code table 4677 of the
 WMO Manual on Codes, the subset Open-Meteo reports), and the pairing of the
 daily forecast arrays into one entry per day.
 */
module Weather {

  import opened Js
  import opened Strings
  import opened Requests

  const GeocodeEndpoint := "https://geocoding-api.open-meteo.com/v1/search?name="
  const GeocodeOptions := "&count=5&language=ko&format=json"
  const ForecastEndpoint := "https://api.open-meteo.com/v1/forecast"
  const GeoKeyPrefix := "geo5:"
  const WeatherKeyPrefix := "wx7:"
  const DefaultUnit := "c"

  /** The current-conditions variables, as the comma-joined list the request sends. */
  const CurrentVariables :=
    "temperature_2m,apparent_temperature,is_day,precipitation,rain,showers,snowfall,"
    + "weather_code,cloud_cover,pressure_msl,wind_speed_10m,wind_gusts_10m,"
    + "wind_direction_10m,relative_humidity_2m"

  /** The daily variables, as the comma-joined list the request sends. */
  const DailyVariables :=
    "temperature_2m_max,temperature_2m_min,sunrise,sunset,"
    + "uv_index_max,precipitation_sum,precipitation_probability_max,"
    + "wind_speed_10m_max,wind_gusts_10m_max"

  /** Cache key of a city search: the lower-cased city name. */
  function GeoKey(city: string): string {
    GeoKeyPrefix + Lower(city)
  }

  /** `geocodeMany`: up to five Korean-labelled matches for a city name. */
  function GeocodeMany(city: string, encode: string -> string): (r: CachedGet)
    ensures r.url == Literal(GeocodeEndpoint + encode(city) + GeocodeOptions)
    ensures r.cacheKey == GeoKey(city)
  {
    CachedGet(Literal(GeocodeEndpoint + encode(city) + GeocodeOptions), GeoKey(city))
  }

  /** Two city searches share a cache slot exactly when the names differ only
      in the case of their letters. */
  lemma GeoKeySharedIff(a: string, b: string)
    ensures GeoKey(a) == GeoKey(b) <==> EqualIgnoringCase(a, b)
  {
    LowerEqualIff(a, b);
    if GeoKey(a) == GeoKey(b) {
      assert Lower(a) == GeoKey(a)[|GeoKeyPrefix|..];
    }
  }

  /** The temperature unit the forecast asks for: Fahrenheit for `f`, Celsius for anything else. */
  function TempUnit(unit: string): (r: string)
    ensures r == "fahrenheit" <==> unit == "f"
    ensures r == "celsius" <==> unit != "f"
  {
    if unit == "f" then "fahrenheit" else "celsius"
  }

  /** Cache key of a forecast: the coordinates as `toFixed(2)` writes them
      (given here as text), then the unit after a comma. */
  function WeatherKey(latFixed: string, lonFixed: string, unit: string): (r: string)
    ensures |r| > |unit| && r[|r| - |unit| - 1..] == "," + unit
  {
    WeatherKeyPrefix + latFixed + "," + lonFixed + "," + unit
  }

  /** `getWeather`: the forecast request for a place, in the chosen unit
      (Celsius when none is given). The coordinates arrive as the text
      `String(lat)` and `toFixed(2)` make of them. */
  function GetWeather(latText: string, lonText: string, latFixed: string, lonFixed: string,
                      unit: Option<string>): (r: CachedGet)
    ensures r.url.WithParams? && r.url.base == ForecastEndpoint
    ensures Lookup(r.url.params, "temperature_unit")
            == Some(if unit == Some("f") then "fahrenheit" else "celsius")
    ensures r.cacheKey == WeatherKey(latFixed, lonFixed, unit.GetOr(DefaultUnit))
  {
    var u := unit.GetOr(DefaultUnit);
    CachedGet(WithParams(ForecastEndpoint, ForecastParams(latText, lonText, TempUnit(u))),
              WeatherKey(latFixed, lonFixed, u))
  }

  /** The forecast's query string: place, local time zone, unit, and the
      current and daily variables it asks for. */
  function ForecastParams(latText: string, lonText: string, tempUnit: string): (r: seq<Param>)
    ensures Lookup(r, "temperature_unit") == Some(tempUnit)
  {
    var r := [
      Param("latitude", latText),
      Param("longitude", lonText),
      Param("timezone", "auto"),
      Param("temperature_unit", tempUnit),
      Param("current", CurrentVariables),
      Param("daily", DailyVariables)
    ];
    LookupFirst(r, 3, "temperature_unit");
    r
  }

  /** A Celsius forecast and a Fahrenheit forecast never share a cache slot,
      whatever their coordinates. */
  lemma WeatherKeyUnitsNeverShared(lat1: string, lon1: string, lat2: string, lon2: string)
    ensures WeatherKey(lat1, lon1, "c") != WeatherKey(lat2, lon2, "f")
  {
    var a := WeatherKey(lat1, lon1, "c");
    var b := WeatherKey(lat2, lon2, "f");
    assert a[|a| - 1] == 'c';
    assert b[|b| - 1] == 'f';
  }

  /** The pictures the panel can show. */
  datatype Icon =
    | Sun | FullMoon | SunBehindSmallCloud | SunBehindCloud | Cloud | FogIcon
    | SunBehindRainCloud | RainCloud | SnowCloud | Snowflake | ThunderCloud | QuestionMark

  /** The descriptions the panel can show; `NoDescription` is the `-` of an unknown code. */
  datatype Description =
    | Clear | MainlyClear | PartlyCloudy | Overcast | Fog | RimeFog
    | Drizzle | DenseDrizzle | LightRain | Rain | HeavyRain
    | LightSnow | Snow | HeavySnow
    | RainShowers | HeavyRainShowers | ViolentRainShowers
    | Thunderstorm | ThunderstormWithHail | HeavyHailThunderstorm
    | NoDescription

  /** One row of the lookup table: day picture, night picture, description. */
  datatype Entry = Entry(day: Icon, night: Icon, desc: Description)

  /** The lookup table `M`: the entry of each code it lists. */
  function TableEntry(code: int): Option<Entry> {
    match code
    case 0 => Some(Entry(Sun, FullMoon, Clear))
    case 1 => Some(Entry(SunBehindSmallCloud, SunBehindSmallCloud, MainlyClear))
    case 2 => Some(Entry(SunBehindCloud, SunBehindCloud, PartlyCloudy))
    case 3 => Some(Entry(Cloud, Cloud, Overcast))
    case 45 => Some(Entry(FogIcon, FogIcon, Fog))
    case 48 => Some(Entry(FogIcon, FogIcon, RimeFog))
    case 51 => Some(Entry(SunBehindRainCloud, RainCloud, Drizzle))
    case 53 => Some(Entry(SunBehindRainCloud, RainCloud, Drizzle))
    case 55 => Some(Entry(RainCloud, RainCloud, DenseDrizzle))
    case 61 => Some(Entry(SunBehindRainCloud, RainCloud, LightRain))
    case 63 => Some(Entry(RainCloud, RainCloud, Rain))
    case 65 => Some(Entry(RainCloud, RainCloud, HeavyRain))
    case 71 => Some(Entry(SnowCloud, SnowCloud, LightSnow))
    case 73 => Some(Entry(SnowCloud, SnowCloud, Snow))
    case 75 => Some(Entry(Snowflake, Snowflake, HeavySnow))
    case 80 => Some(Entry(SunBehindRainCloud, RainCloud, RainShowers))
    case 81 => Some(Entry(RainCloud, RainCloud, HeavyRainShowers))
    case 82 => Some(Entry(ThunderCloud, ThunderCloud, ViolentRainShowers))
    case 95 => Some(Entry(ThunderCloud, ThunderCloud, Thunderstorm))
    case 96 => Some(Entry(ThunderCloud, ThunderCloud, ThunderstormWithHail))
    case 99 => Some(Entry(ThunderCloud, ThunderCloud, HeavyHailThunderstorm))
    case _ => None
  }

  /** The codes the table lists. */
  const TableCodes: set<int> := {0, 1, 2, 3, 45, 48, 51, 53, 55, 61, 63, 65, 71, 73, 75, 80, 81, 82, 95, 96, 99}

  /** The entry used for a code missing from the table. */
  const Unknown := Entry(QuestionMark, QuestionMark, NoDescription)

  /** The codes with a different picture by night. */
  const NightVariantCodes: set<int> := {0, 51, 53, 61, 80}

  /** The panel's icon and description for a weather code. */
  datatype Shown = Shown(icon: Icon, desc: Description)

  /** `codeToIcon`: the table entry of the code (the fallback entry for an
      unknown code), its day or night picture, and its description. */
  function CodeToIcon(code: int, isDay: bool): (r: Shown)
    ensures TableEntry(code).Some? ==> r.desc == TableEntry(code).value.desc
    ensures TableEntry(code).Some? ==> r.icon == if isDay then TableEntry(code).value.day else TableEntry(code).value.night
    ensures TableEntry(code).None? ==> r == Shown(QuestionMark, NoDescription)
  {
    var item := TableEntry(code).GetOr(Unknown);
    Shown(if isDay then item.day else item.night, item.desc)
  }

  /** The table lists exactly the codes of `TableCodes`, and an unknown code,
      and only an unknown code, is described as `-`. */
  lemma CodeToIconKnownCodes(code: int, isDay: bool)
    ensures TableEntry(code).Some? <==> code in TableCodes
    ensures CodeToIcon(code, isDay).desc == NoDescription <==> code !in TableCodes
  {
  }

  /** Day and night agree on the description of every code, and on the
      picture of every code except 0, 51, 53, 61 and 80. */
  lemma CodeToIconDayNight(code: int)
    ensures CodeToIcon(code, true).desc == CodeToIcon(code, false).desc
    ensures CodeToIcon(code, true).icon != CodeToIcon(code, false).icon <==> code in NightVariantCodes
  {
  }

  /** The code a description names, the inverse of the table on descriptions;
      drizzle names the first of its two codes. */
  function DescriptionCode(d: Description): Option<int> {
    match d
    case Clear => Some(0)
    case MainlyClear => Some(1)
    case PartlyCloudy => Some(2)
    case Overcast => Some(3)
    case Fog => Some(45)
    case RimeFog => Some(48)
    case Drizzle => Some(51)
    case DenseDrizzle => Some(55)
    case LightRain => Some(61)
    case Rain => Some(63)
    case HeavyRain => Some(65)
    case LightSnow => Some(71)
    case Snow => Some(73)
    case HeavySnow => Some(75)
    case RainShowers => Some(80)
    case HeavyRainShowers => Some(81)
    case ViolentRainShowers => Some(82)
    case Thunderstorm => Some(95)
    case ThunderstormWithHail => Some(96)
    case HeavyHailThunderstorm => Some(99)
    case NoDescription => None
  }

  /** The description recovers the code, except that 53 reads back as 51. */
  lemma DescriptionRecoversCode(code: int, isDay: bool)
    ensures DescriptionCode(CodeToIcon(code, isDay).desc)
            == if code !in TableCodes then None else if code == 53 then Some(51) else Some(code)
  {
  }

  /** Descriptions tell codes apart, except that codes 51 and 53 are both drizzle. */
  lemma DescriptionsDistinguishCodes(c1: int, c2: int, isDay: bool)
    requires c1 in TableCodes && c2 in TableCodes && c1 < c2
    requires CodeToIcon(c1, isDay).desc == CodeToIcon(c2, isDay).desc
    ensures c1 == 51 && c2 == 53
  {
    DescriptionRecoversCode(c1, isDay);
    DescriptionRecoversCode(c2, isDay);
  }

  /** The daily forecast arrays; any of them may be shorter than `time`. */
  datatype Daily = Daily(time: seq<string>, tempMax: seq<real>, tempMin: seq<real>)

  /** One forecast day; a missing temperature is `undefined` in JavaScript. */
  datatype Day = Day(date: string, tmax: Option<real>, tmin: Option<real>)

  /** `array[i]`: the element, or nothing past the end. */
  function At(xs: seq<real>, i: nat): (r: Option<real>)
    ensures r.Some? <==> i < |xs|
    ensures i < |xs| ==> r.value == xs[i]
  {
    if i < |xs| then Some(xs[i]) else None
  }

  /** The panel's `days`: one entry per date of `daily.time`, pairing the i-th
      date with the i-th maximum and minimum; none without a daily forecast. */
  function Days(daily: Option<Daily>): (r: seq<Day>)
    ensures daily.None? ==> r == []
    ensures daily.Some? ==> |r| == |daily.value.time|
    ensures daily.Some? ==> forall i :: 0 <= i < |r| ==>
      r[i].date == daily.value.time[i]
      && (r[i].tmax.Some? <==> i < |daily.value.tempMax|)
      && (r[i].tmin.Some? <==> i < |daily.value.tempMin|)
      && (i < |daily.value.tempMax| ==> r[i].tmax.value == daily.value.tempMax[i])
      && (i < |daily.value.tempMin| ==> r[i].tmin.value == daily.value.tempMin[i])
  {
    match daily
    case None => []
    case Some(d) =>
      seq(|d.time|, i requires 0 <= i < |d.time| => Day(d.time[i], At(d.tempMax, i), At(d.tempMin, i)))
  }
}
