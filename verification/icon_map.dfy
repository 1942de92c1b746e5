/** The weather-icon classifier: an OpenWeatherMap icon code ("01d", "10n",
    ...) is mapped to one of ten icon categories. The rendered JSX element
    (component, size, colour) is not modelled, only which icon is chosen. */
module IconMap {
  import opened Text

  datatype Icon = Sun | Moon | CloudSun | CloudMoon | Cloud | Drizzle | Rain | Lightning | Snow | Fog
  {
    /** The two night-time variants. */
    predicate IsNightVariant() { this == Moon || this == CloudMoon }
  }

  /** No character of `s` is an ASCII digit. */
  predicate NoDigits(s: string)
  {
    forall i :: 0 <= i < |s| ==> !IsDigit(s[i])
  }

  /** The digits of a string, in order: `s.replace(/\D/g, '')`. JavaScript's
      `\D` without the `u` flag is everything except the ASCII digits. */
  function DigitsOf(s: string): (r: string)
    ensures AllDigits(r)
    ensures AllDigits(s) ==> r == s
  {
    if |s| == 0 then []
    else (if IsDigit(s[0]) then [s[0]] else []) + DigitsOf(s[1..])
  }

  /** A string without digits is stripped to nothing. With
      `DigitsOfAppend` and the all-digits clause of `DigitsOf`, this fixes
      the result for every input. */
  lemma {:induction false} DigitsOfNoDigits(s: string)
    requires NoDigits(s)
    ensures DigitsOf(s) == []
    decreases |s|
  {
    if |s| > 0 {
      assert !IsDigit(s[0]);
      assert NoDigits(s[1..]) by {
        forall i | 0 <= i < |s[1..]| ensures !IsDigit(s[1..][i]) {
          assert s[1..][i] == s[i + 1];
        }
      }
      DigitsOfNoDigits(s[1..]);
    }
  }

  /** Stripping non-digits distributes over concatenation. */
  lemma {:induction false} DigitsOfAppend(a: string, b: string)
    ensures DigitsOf(a + b) == DigitsOf(a) + DigitsOf(b)
    decreases |a|
  {
    if |a| == 0 {
      assert a + b == b;
    } else {
      assert (a + b)[0] == a[0];
      assert (a + b)[1..] == a[1..] + b;
      DigitsOfAppend(a[1..], b);
    }
  }

  /** A documented OpenWeatherMap icon code with its day and night icons. */
  datatype IconEntry = IconEntry(code: string, day: Icon, night: Icon)

  /** OpenWeatherMap's icon codes as the classifier's comment lists them:
      clear sky, few clouds, scattered and broken clouds, shower rain, rain,
      thunderstorm, snow and mist. */
  const IconTable: seq<IconEntry> := [
    IconEntry("01", Sun, Moon),
    IconEntry("02", CloudSun, CloudMoon),
    IconEntry("03", Cloud, Cloud),
    IconEntry("04", Cloud, Cloud),
    IconEntry("09", Drizzle, Drizzle),
    IconEntry("10", Rain, Rain),
    IconEntry("11", Lightning, Lightning),
    IconEntry("13", Snow, Snow),
    IconEntry("50", Fog, Fog)
  ]

  /** Reference reading of a table: the first entry for `code` decides, and an
      unlisted code falls back to the clear-sky day icon. */
  function Lookup(table: seq<IconEntry>, code: string, night: bool): Icon
  {
    if |table| == 0 then Sun
    else if table[0].code == code then (if night then table[0].night else table[0].day)
    else Lookup(table[1..], code, night)
  }

  /** A lookup returns the icons of the first entry listing the code. */
  lemma {:induction false} LookupFindsFirst(table: seq<IconEntry>, code: string, night: bool, k: nat)
    requires k < |table| && table[k].code == code
    requires forall j :: 0 <= j < k ==> table[j].code != code
    ensures Lookup(table, code, night) == if night then table[k].night else table[k].day
    decreases k
  {
    if k > 0 {
      LookupFindsFirst(table[1..], code, night, k - 1);
    }
  }

  /** A code no entry lists falls back to the clear-sky day icon. */
  lemma {:induction false} LookupMissing(table: seq<IconEntry>, code: string, night: bool)
    requires forall j :: 0 <= j < |table| ==> table[j].code != code
    ensures Lookup(table, code, night) == Sun
    decreases |table|
  {
    if |table| > 0 {
      LookupMissing(table[1..], code, night);
    }
  }

  /** The `switch (code)` on the stripped code, with the night flag for the
      two cases that read it. */
  function SwitchOn(code: string, isNight: bool): (r: Icon)
    ensures r.IsNightVariant() ==> isNight
  {
    if code == "01" then (if isNight then Moon else Sun)
    else if code == "02" then (if isNight then CloudMoon else CloudSun)
    else if code == "03" || code == "04" then Cloud
    else if code == "09" then Drizzle
    else if code == "10" then Rain
    else if code == "11" then Lightning
    else if code == "13" then Snow
    else if code == "50" then Fog
    else Sun
  }

  /** `getWeatherIcon(weatherCode, isDay)`. The `isDay` argument is accepted
      and never read; night is "the raw code contains an 'n' anywhere". The
      result is the table's reading of the code's digits. */
  function GetWeatherIcon(weatherCode: string, isDay: bool): (r: Icon)
    ensures r.IsNightVariant() ==> 'n' in weatherCode
  {
    SwitchOn(DigitsOf(weatherCode), 'n' in weatherCode)
  }

  /** The switch agrees with the reference table for every code. */
  lemma SwitchMatchesTable(code: string, night: bool)
    ensures SwitchOn(code, night) == Lookup(IconTable, code, night)
  {
    if code == "01" { LookupFindsFirst(IconTable, code, night, 0); }
    else if code == "02" { LookupFindsFirst(IconTable, code, night, 1); }
    else if code == "03" { LookupFindsFirst(IconTable, code, night, 2); }
    else if code == "04" { LookupFindsFirst(IconTable, code, night, 3); }
    else if code == "09" { LookupFindsFirst(IconTable, code, night, 4); }
    else if code == "10" { LookupFindsFirst(IconTable, code, night, 5); }
    else if code == "11" { LookupFindsFirst(IconTable, code, night, 6); }
    else if code == "13" { LookupFindsFirst(IconTable, code, night, 7); }
    else if code == "50" { LookupFindsFirst(IconTable, code, night, 8); }
    else { LookupMissing(IconTable, code, night); }
  }

  /** `getWeatherIcon` agrees with the reference table for every input. */
  lemma MatchesTable(weatherCode: string, isDay: bool)
    ensures GetWeatherIcon(weatherCode, isDay) == Lookup(IconTable, DigitsOf(weatherCode), 'n' in weatherCode)
  {
    SwitchMatchesTable(DigitsOf(weatherCode), 'n' in weatherCode);
  }

  /** Any code whose digits the table does not list gets the clear-sky day
      icon, even when the code asks for night. */
  lemma UnknownCodeIsSun(weatherCode: string, isDay: bool)
    requires forall j :: 0 <= j < |IconTable| ==> IconTable[j].code != DigitsOf(weatherCode)
    ensures GetWeatherIcon(weatherCode, isDay) == Sun
  {
    MatchesTable(weatherCode, isDay);
    LookupMissing(IconTable, DigitsOf(weatherCode), 'n' in weatherCode);
  }

  /** The `isDay` flag never changes the icon. */
  lemma IsDayIgnored(weatherCode: string)
    ensures GetWeatherIcon(weatherCode, true) == GetWeatherIcon(weatherCode, false)
  {
  }

  /** A night icon is chosen exactly when the code's digits are "01" or "02"
      and the raw code contains an 'n'. */
  lemma NightVariantIff(weatherCode: string, isDay: bool)
    ensures GetWeatherIcon(weatherCode, isDay).IsNightVariant()
        <==> (DigitsOf(weatherCode) == "01" || DigitsOf(weatherCode) == "02") && 'n' in weatherCode
  {
  }

  /** Codes "03" and "04" share the cloud icon, by day and by night. */
  lemma ScatteredAndBrokenShareCloud(a: string, b: string, dayA: bool, dayB: bool)
    requires DigitsOf(a) in {"03", "04"} && DigitsOf(b) in {"03", "04"}
    ensures GetWeatherIcon(a, dayA) == GetWeatherIcon(b, dayB) == Cloud
  {
  }

  /** A well-formed OpenWeatherMap code, two digits and a 'd' or 'n' suffix,
      gets the table's day or night icon for those digits. */
  lemma {:induction false} WellFormedCode(digits: string, suffix: char, isDay: bool)
    requires |digits| == 2 && AllDigits(digits)
    requires suffix == 'd' || suffix == 'n'
    ensures GetWeatherIcon(digits + [suffix], isDay) == Lookup(IconTable, digits, suffix == 'n')
  {
    DigitsOfAppend(digits, [suffix]);
    MatchesTable(digits + [suffix], isDay);
    assert DigitsOf([suffix]) == [];
    assert 'n' in digits + [suffix] <==> suffix == 'n' by {
      assert (digits + [suffix])[2] == suffix;
    }
  }

  /** Clear sky by day and by night. */
  lemma ClearSkyExamples()
    ensures GetWeatherIcon("01d", true) == Sun
    ensures GetWeatherIcon("01n", true) == Moon
    ensures GetWeatherIcon("02n", false) == CloudMoon
  {
    assert DigitsOf("01d") == "01";
    assert DigitsOf("01n") == "01";
    assert DigitsOf("02n") == "02";
  }

  /** Scattered and broken clouds share one icon. */
  lemma CloudExamples()
    ensures GetWeatherIcon("03d", true) == GetWeatherIcon("04n", true) == Cloud
  {
    assert DigitsOf("03d") == "03";
    assert DigitsOf("04n") == "04";
  }

  /** The permissive fallback for an unknown or empty code. */
  lemma FallbackExamples()
    ensures GetWeatherIcon("99n", true) == Sun
    ensures GetWeatherIcon("99d", true) == Sun
    ensures GetWeatherIcon("", false) == Sun
  {
    assert DigitsOf("99n") == "99";
    assert DigitsOf("99d") == "99";
    UnknownCodeIsSun("99n", true);
    UnknownCodeIsSun("99d", true);
  }
}
