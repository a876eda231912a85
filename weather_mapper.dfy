/**
 * Mapping of the weather API's transfer objects to domain entities:
 * icon URLs get a scheme and a larger icon size, epoch seconds become
 * milliseconds, and a forecast drops its first day (today, already covered
 * by the current weather).
 */
module WeatherMapper {
  import opened Domain

  // Transfer objects, field for field as the API delivers them.
  datatype ConditionDto = ConditionDto(text: string, iconUrl: string)
  datatype WeatherDto = WeatherDto(date: int, tempC: real, condition: ConditionDto)
  datatype WeatherCurrentDto = WeatherCurrentDto(current: WeatherDto)
  datatype DayWeatherDto = DayWeatherDto(tempC: real, condition: ConditionDto)
  datatype DayDto = DayDto(date: int, day: DayWeatherDto)
  datatype ForecastDto = ForecastDto(forecastDay: seq<DayDto>)
  datatype WeatherForecastDto = WeatherForecastDto(current: WeatherDto, forecast: ForecastDto)

  const Scheme: string := "https:"
  const SmallIcon: string := "64x64"
  const LargeIcon: string := "128x128"

  const TwoTo63: int := 0x8000_0000_0000_0000
  const TwoTo64: int := 0x1_0000_0000_0000_0000

  /** The value of `x` as a 64-bit two's-complement Long (wrap-around on overflow). */
  function ToLong(x: int): (r: int)
    ensures -TwoTo63 <= r < TwoTo63
    ensures (r - x) % TwoTo64 == 0
  {
    (x + TwoTo63) % TwoTo64 - TwoTo63
  }

  /** Epoch seconds to epoch milliseconds, as the app's Long multiplication computes it. */
  function EpochMillis(seconds: int): int
  {
    ToLong(seconds * 1000)
  }

  /** Without overflow the conversion is exact: every date the API sends is far inside this range. */
  lemma EpochMillisExact(seconds: int)
    requires -TwoTo63 <= seconds * 1000 < TwoTo63
    ensures EpochMillis(seconds) == seconds * 1000
  {
  }

  /** True when `p` occurs in `s` starting at index `i`. */
  predicate OccursAt(s: string, p: string, i: int)
  {
    0 <= i && i + |p| <= |s| && s[i..i + |p|] == p
  }

  /** True when `p` occurs anywhere in `s`. */
  predicate Occurs(s: string, p: string)
  {
    exists i :: 0 <= i <= |s| - |p| && OccursAt(s, p, i)
  }

  /**
   * Replaces every occurrence of "64x64" by "128x128", scanning left to right
   * without overlaps, as Kotlin's `String.replace(oldValue, newValue)` does.
   */
  function ReplaceIconSize(s: string): string
    decreases |s|
  {
    if |s| < |SmallIcon| then s
    else if s[..|SmallIcon|] == SmallIcon then LargeIcon + ReplaceIconSize(s[|SmallIcon|..])
    else [s[0]] + ReplaceIconSize(s[1..])
  }

  /** The icon URL fix-up: prepend the scheme, then replace every icon size. */
  function CorrectImageUrl(icon: string): string
  {
    ReplaceIconSize(Scheme + icon)
  }

  /** A string without "64x64" comes back unchanged. */
  lemma {:induction false} ReplaceWithoutOccurrence(s: string)
    requires !Occurs(s, SmallIcon)
    ensures ReplaceIconSize(s) == s
    decreases |s|
  {
    if |s| >= |SmallIcon| {
      assert !OccursAt(s, SmallIcon, 0);
      forall i | 0 <= i <= |s[1..]| - |SmallIcon| ensures !OccursAt(s[1..], SmallIcon, i) {
        assert s[1..][i..i + |SmallIcon|] == s[i + 1..i + 1 + |SmallIcon|];
        assert !OccursAt(s, SmallIcon, i + 1);
      }
      ReplaceWithoutOccurrence(s[1..]);
      assert [s[0]] + s[1..] == s;
    }
  }

  /** A leading character other than '6' cannot start an occurrence. */
  lemma ReplaceNoSixHead(c: char, s: string)
    requires c != '6'
    ensures ReplaceIconSize([c] + s) == [c] + ReplaceIconSize(s)
  {
    var t := [c] + s;
    assert t[1..] == s;
    if |t| >= |SmallIcon| {
      assert t[..|SmallIcon|][0] == c;
    }
  }

  /** A prefix without '6' passes through the rewrite unchanged. */
  lemma {:induction false} ReplaceNoSixPrefix(p: string, s: string)
    requires '6' !in p
    ensures ReplaceIconSize(p + s) == p + ReplaceIconSize(s)
    decreases |p|
  {
    if |p| > 0 {
      var tail := p[1..];
      assert p == [p[0]] + tail;
      assert p + s == [p[0]] + (tail + s);
      assert p[0] in p;
      ReplaceNoSixHead(p[0], tail + s);
      assert '6' !in tail by {
        forall k | 0 <= k < |tail| ensures tail[k] != '6' {
          assert tail[k] == p[k + 1];
        }
      }
      ReplaceNoSixPrefix(tail, s);
      assert [p[0]] + (tail + ReplaceIconSize(s)) == p + ReplaceIconSize(s);
    } else {
      assert p + s == s;
    }
  }

  /** The scheme contains no '6', so it passes through the rewrite unchanged. */
  lemma ReplaceAfterScheme(s: string)
    ensures ReplaceIconSize(Scheme + s) == Scheme + ReplaceIconSize(s)
  {
    ReplaceNoSixPrefix(Scheme, s);
  }

  /**
   * If the rewritten string starts with `p`, and `p` has no '1' (the first
   * character of "128x128"), then the original string started with `p`.
   */
  lemma {:induction false} ReplacePrefix(s: string, p: string)
    requires '1' !in p
    ensures |p| <= |ReplaceIconSize(s)| && ReplaceIconSize(s)[..|p|] == p ==> |p| <= |s| && s[..|p|] == p
    decreases |s|
  {
    var r := ReplaceIconSize(s);
    if |p| > 0 && |s| >= |SmallIcon| {
      assert p[0] in p;
      if s[..|SmallIcon|] == SmallIcon {
        assert r[0] == '1' != p[0];
      } else {
        var rest := ReplaceIconSize(s[1..]);
        assert r == [s[0]] + rest;
        var tail := p[1..];
        assert '1' !in tail by {
          forall k | 0 <= k < |tail| ensures tail[k] != '1' {
            assert tail[k] == p[k + 1];
          }
        }
        ReplacePrefix(s[1..], tail);
        if |p| <= |r| && r[..|p|] == p {
          assert tail == r[..|p|][1..] == rest[..|p| - 1];
          assert s[..|p|] == [s[0]] + s[1..][..|p| - 1];
          assert p == [p[0]] + tail;
        }
      }
    }
  }

  /** "128x128" followed by a string without "64x64" holds no "64x64". */
  lemma NoSmallIconAfterLarge(rest: string)
    requires !Occurs(rest, SmallIcon)
    ensures !Occurs(LargeIcon + rest, SmallIcon)
  {
    var r := LargeIcon + rest;
    forall i | 0 <= i <= |r| - |SmallIcon| ensures !OccursAt(r, SmallIcon, i) {
      if i < |LargeIcon| {
        assert r[i..i + |SmallIcon|][0] == LargeIcon[i] != '6';
      } else {
        assert r[i..i + |SmallIcon|] == rest[i - |LargeIcon|..i - |LargeIcon| + |SmallIcon|];
        assert !OccursAt(rest, SmallIcon, i - |LargeIcon|);
      }
    }
  }

  /**
   * A character that does not start a "64x64" in `s`, followed by the
   * rewrite of the rest of `s`, holds no "64x64".
   */
  lemma NoSmallIconAfterChar(s: string)
    requires |s| >= |SmallIcon| && s[..|SmallIcon|] != SmallIcon
    requires !Occurs(ReplaceIconSize(s[1..]), SmallIcon)
    ensures !Occurs([s[0]] + ReplaceIconSize(s[1..]), SmallIcon)
  {
    var rest := ReplaceIconSize(s[1..]);
    var r := [s[0]] + rest;
    forall i | 0 <= i <= |r| - |SmallIcon| ensures !OccursAt(r, SmallIcon, i) {
      if i == 0 {
        if s[0] == '6' {
          assert s[..|SmallIcon|] == [s[0]] + s[1..][..4];
          assert s[1..][..4] != "4x64";
          ReplacePrefix(s[1..], "4x64");
          assert rest[..4] != "4x64";
          assert r[..|SmallIcon|][1..] == rest[..4];
        } else {
          assert r[..|SmallIcon|][0] != '6';
        }
      } else {
        assert r[i..i + |SmallIcon|] == rest[i - 1..i - 1 + |SmallIcon|];
        assert !OccursAt(rest, SmallIcon, i - 1);
      }
    }
  }

  /** After the rewrite no "64x64" is left: every occurrence became "128x128". */
  lemma {:induction false} ReplaceLeavesNoSmallIcon(s: string)
    ensures !Occurs(ReplaceIconSize(s), SmallIcon)
    decreases |s|
  {
    if |s| < |SmallIcon| {
      assert ReplaceIconSize(s) == s;
      assert forall i | 0 <= i <= |s| - |SmallIcon| :: !OccursAt(s, SmallIcon, i);
    } else if s[..|SmallIcon|] == SmallIcon {
      ReplaceLeavesNoSmallIcon(s[|SmallIcon|..]);
      NoSmallIconAfterLarge(ReplaceIconSize(s[|SmallIcon|..]));
    } else {
      ReplaceLeavesNoSmallIcon(s[1..]);
      NoSmallIconAfterChar(s);
    }
  }

  /** The corrected URL always starts with the scheme. */
  lemma CorrectedUrlHasScheme(icon: string)
    ensures |CorrectImageUrl(icon)| >= |Scheme| && CorrectImageUrl(icon)[..|Scheme|] == Scheme
  {
    ReplaceAfterScheme(icon);
  }

  /** The corrected URL never holds the small icon size. */
  lemma CorrectedUrlHasNoSmallIcon(icon: string)
    ensures !Occurs(CorrectImageUrl(icon), SmallIcon)
  {
    ReplaceLeavesNoSmallIcon(Scheme + icon);
  }

  /** The URL is only prefixed with the scheme exactly when it holds no small icon size. */
  lemma CorrectedUrlIsPrefixOnly(icon: string)
    ensures CorrectImageUrl(icon) == Scheme + icon <==> !Occurs(icon, SmallIcon)
  {
    ReplaceAfterScheme(icon);
    if !Occurs(icon, SmallIcon) {
      ReplaceWithoutOccurrence(icon);
    } else {
      var i :| 0 <= i <= |icon| - |SmallIcon| && OccursAt(icon, SmallIcon, i);
      assert (Scheme + icon)[i + |Scheme|..i + |Scheme| + |SmallIcon|] == icon[i..i + |SmallIcon|];
      assert OccursAt(Scheme + icon, SmallIcon, i + |Scheme|);
      CorrectedUrlHasNoSmallIcon(icon);
    }
  }

  /**
   * The first "64x64" of a string becomes "128x128": the text before it is
   * kept as it is, and the rewrite goes on after it. With
   * `ReplaceWithoutOccurrence` this fixes the result for every string.
   */
  lemma {:induction false} FirstOccurrenceReplaced(s: string, i: nat)
    requires OccursAt(s, SmallIcon, i)
    requires forall k :: 0 <= k < i ==> !OccursAt(s, SmallIcon, k)
    ensures ReplaceIconSize(s) == s[..i] + LargeIcon + ReplaceIconSize(s[i + |SmallIcon|..])
    decreases i
  {
    if i == 0 {
      assert s[..0] == [];
    } else {
      var t := s[1..];
      FirstOccurrenceShifts(s, i);
      FirstOccurrenceReplaced(t, i - 1);
      assert ReplaceIconSize(s) == [s[0]] + ReplaceIconSize(t) by {
        assert !OccursAt(s, SmallIcon, 0);
      }
      assert t[i - 1 + |SmallIcon|..] == s[i + |SmallIcon|..];
      assert [s[0]] + t[..i - 1] == s[..i];
    }
  }

  /** Dropping the first character moves the first "64x64" one place left. */
  lemma FirstOccurrenceShifts(s: string, i: nat)
    requires 0 < i && OccursAt(s, SmallIcon, i)
    requires forall k :: 0 <= k < i ==> !OccursAt(s, SmallIcon, k)
    ensures OccursAt(s[1..], SmallIcon, i - 1)
    ensures forall k :: 0 <= k < i - 1 ==> !OccursAt(s[1..], SmallIcon, k)
  {
    var t := s[1..];
    assert t[i - 1..i - 1 + |SmallIcon|] == s[i..i + |SmallIcon|];
    forall k | 0 <= k < i - 1 ensures !OccursAt(t, SmallIcon, k) {
      assert !OccursAt(s, SmallIcon, k + 1);
      if k + |SmallIcon| <= |t| {
        assert t[k..k + |SmallIcon|] == s[k + 1..k + 1 + |SmallIcon|];
      }
    }
  }

  /**
   * In the corrected URL the icon's first "64x64" has become "128x128",
   * after the scheme and the unchanged text before it.
   */
  lemma CorrectedUrlReplacesFirst(icon: string, i: nat)
    requires OccursAt(icon, SmallIcon, i)
    requires forall k :: 0 <= k < i ==> !OccursAt(icon, SmallIcon, k)
    ensures CorrectImageUrl(icon) == Scheme + icon[..i] + LargeIcon + ReplaceIconSize(icon[i + |SmallIcon|..])
  {
    ReplaceAfterScheme(icon);
    FirstOccurrenceReplaced(icon, i);
  }

  /** `WeatherDTO.toEntity`: copies temperature and condition text, fixes the icon URL, converts the date. */
  function WeatherToEntity(dto: WeatherDto): Weather
  {
    Weather(dto.tempC, dto.condition.text, CorrectImageUrl(dto.condition.iconUrl), EpochMillis(dto.date))
  }

  /**
   * The mapped weather keeps the temperature and the condition text; its
   * icon URL is the API's URL corrected (the scheme in front, every small
   * icon size replaced, as `CorrectedUrlReplacesFirst` and
   * `ReplaceWithoutOccurrence` fix), so it carries the scheme and no small
   * icon size, and is the API's URL with the scheme in front exactly when
   * that held no small icon size; its date is the epoch seconds in
   * milliseconds, exact whenever that fits in a Long.
   */
  lemma WeatherEntitySpec(dto: WeatherDto)
    ensures var w := WeatherToEntity(dto);
            w.tempC == dto.tempC && w.conditionText == dto.condition.text &&
            w.conditionUrl == CorrectImageUrl(dto.condition.iconUrl) &&
            |w.conditionUrl| >= |Scheme| && w.conditionUrl[..|Scheme|] == Scheme &&
            !Occurs(w.conditionUrl, SmallIcon) &&
            (w.conditionUrl == Scheme + dto.condition.iconUrl <==> !Occurs(dto.condition.iconUrl, SmallIcon)) &&
            w.date == EpochMillis(dto.date)
    ensures -TwoTo63 <= dto.date * 1000 < TwoTo63 ==> WeatherToEntity(dto).date == dto.date * 1000
  {
    CorrectedUrlHasScheme(dto.condition.iconUrl);
    CorrectedUrlHasNoSmallIcon(dto.condition.iconUrl);
    CorrectedUrlIsPrefixOnly(dto.condition.iconUrl);
    if -TwoTo63 <= dto.date * 1000 < TwoTo63 {
      EpochMillisExact(dto.date);
    }
  }

  /** `WeatherCurrentDTO.toEntity`: the entity of the wrapped current weather. */
  function CurrentToEntity(dto: WeatherCurrentDto): Weather
  {
    WeatherToEntity(dto.current)
  }

  /** One upcoming forecast day as a Weather: the day's average temperature, its condition, its date. */
  function DayToWeather(day: DayDto): Weather
  {
    Weather(day.day.tempC, day.day.condition.text, CorrectImageUrl(day.day.condition.iconUrl), EpochMillis(day.date))
  }

  /** `map` of DayToWeather over a list of days. */
  function DaysToWeather(days: seq<DayDto>): (ws: seq<Weather>)
    ensures |ws| == |days|
    ensures forall i :: 0 <= i < |days| ==> ws[i] == DayToWeather(days[i])
    decreases |days|
  {
    if |days| == 0 then [] else [DayToWeather(days[0])] + DaysToWeather(days[1..])
  }

  /** `List.drop(1)`: all but the first element; the empty list stays empty. */
  function DropFirst<T>(xs: seq<T>): seq<T>
  {
    if |xs| == 0 then [] else xs[1..]
  }

  /** `WeatherForecastDTO.toEntity`: current weather plus every forecast day after the first. */
  function ForecastToEntity(dto: WeatherForecastDto): Forecast
  {
    Forecast(WeatherToEntity(dto.current), DaysToWeather(DropFirst(dto.forecast.forecastDay)))
  }

  /** The forecast's current weather is the mapped current weather, as for a current-weather reply. */
  lemma ForecastCurrentIsCurrentEntity(dto: WeatherForecastDto)
    ensures ForecastToEntity(dto).currentWeather == CurrentToEntity(WeatherCurrentDto(dto.current))
  {
  }

  /** n forecast days give max(0, n - 1) upcoming entries; entry i comes from day i + 1. */
  lemma ForecastDropsFirstDay(dto: WeatherForecastDto)
    ensures var n := |dto.forecast.forecastDay|;
            |ForecastToEntity(dto).upcoming| == (if n == 0 then 0 else n - 1)
    ensures forall i :: 0 <= i < |ForecastToEntity(dto).upcoming| ==>
              var day := dto.forecast.forecastDay[i + 1];
              var w := ForecastToEntity(dto).upcoming[i];
              w.tempC == day.day.tempC && w.conditionText == day.day.condition.text &&
              w.conditionUrl == CorrectImageUrl(day.day.condition.iconUrl) &&
              w.date == EpochMillis(day.date)
  {
  }
}
