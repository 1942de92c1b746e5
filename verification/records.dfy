/** Data shapes shared by the client and the backend of the weather app.
    Temperatures, feels-like values and humidity are floating-point numbers in
    the system; no modelled rule computes with them, so they are carried as
    opaque `real` payload fields. */
module Records {

  /** A value that may be absent (JavaScript `null`/`undefined`, Python `None`). */
  datatype Option<+T> = None | Some(value: T)

  /** The settled outcome of an awaited external call: the resolved value,
      or a rejection (any thrown error). */
  datatype Call<+T> = Resolved(value: T) | Rejected

  /** No element occurs twice. */
  predicate Distinct<T(==)>(s: seq<T>)
  {
    forall i, j :: 0 <= i < j < |s| ==> s[i] != s[j]
  }

  /** A sequence with one element put in front is free of repeats exactly
      when the rest is and does not hold that element. */
  lemma DistinctCons<T>(x: T, s: seq<T>)
    ensures Distinct([x] + s) <==> Distinct(s) && x !in s
  {
    var t := [x] + s;
    if Distinct(s) && x !in s {
      forall i, j | 0 <= i < j < |t| ensures t[i] != t[j] {
        assert t[j] == s[j - 1];
        if i > 0 { assert t[i] == s[i - 1]; }
      }
    }
    if Distinct(t) {
      forall i, j | 0 <= i < j < |s| ensures s[i] != s[j] {
        assert s[i] == t[i + 1] && s[j] == t[j + 1];
      }
      forall j | 0 <= j < |s| ensures s[j] != x {
        assert t[0] == x && s[j] == t[j + 1];
      }
    }
  }

  /** A repeat-free sequence has as many elements as its set. */
  lemma {:induction false} DistinctCard<T>(s: seq<T>)
    requires Distinct(s)
    ensures |set x | x in s| == |s|
  {
    if |s| > 0 {
      var rest := s[1..];
      assert Distinct(rest) by {
        forall i, j | 0 <= i < j < |rest| ensures rest[i] != rest[j] {
          assert rest[i] == s[i + 1] && rest[j] == s[j + 1];
        }
      }
      DistinctCard(rest);
      assert s[0] !in rest by {
        forall j | 0 <= j < |rest| ensures rest[j] != s[0] {
          assert rest[j] == s[j + 1];
        }
      }
      assert (set x | x in s) == {s[0]} + (set x | x in rest) by {
        assert s == [s[0]] + rest;
      }
    }
  }

  /** The measured part of a weather sample, as the backend projects it from an
      OpenWeatherMap response: `main.temp`, `main.feels_like`, `main.humidity`,
      `weather[0].description` and `weather[0].icon`. */
  datatype Reading = Reading(
    temperature: real,
    feelsLike: real,
    humidity: real,
    description: string,
    icon: string)

  /** One sub-daily forecast sample as the client receives it: the `datetime`
      text (either "YYYY-MM-DD HH:MM:SS" from a live forecast or
      "YYYY-MM-DDTHH:MM:SS" from a saved one) and the reading. */
  datatype ForecastItem = ForecastItem(datetime: string, reading: Reading)

  /** The body of `GET /weather`: the location text the user typed, the city
      name OpenWeatherMap resolved it to (possibly absent) and the reading. */
  datatype CurrentWeather = CurrentWeather(
    location: string,
    city: Option<string>,
    reading: Reading)

  /** A row of the saved-search history as the client receives it.
      `startDate`/`endDate` are the optional trip range fields the history
      card looks at; the backend table does not hold them, so rows it lists
      carry `None` there. */
  datatype WeatherRecord = WeatherRecord(
    id: int,
    location: string,
    reading: Reading,
    dateSearched: string,
    startDate: Option<string>,
    endDate: Option<string>)

  /** A travel video descriptor (never persisted). */
  datatype Video = Video(id: string, title: string, thumbnailUrl: string)

  /** A sequence is free of repeats exactly when no element is counted
      twice. */
  lemma {:induction false} DistinctCounts<T>(s: seq<T>)
    ensures Distinct(s) <==> forall x :: multiset(s)[x] <= 1
    decreases |s|
  {
    if |s| > 0 {
      var x, rest := s[0], s[1..];
      assert s == [x] + rest;
      DistinctCons(x, rest);
      DistinctCounts(rest);
      assert multiset(s) == multiset{x} + multiset(rest);
      if forall y :: multiset(s)[y] <= 1 {
        assert multiset(s)[x] == 1 + multiset(rest)[x];
        forall y ensures multiset(rest)[y] <= 1 {
          assert multiset(rest)[y] <= multiset(s)[y];
        }
      }
    }
  }

  /** Reordering keeps a sequence free of repeats. */
  lemma DistinctPermutation<T>(a: seq<T>, b: seq<T>)
    requires multiset(a) == multiset(b)
    ensures Distinct(a) <==> Distinct(b)
  {
    DistinctCounts(a);
    DistinctCounts(b);
  }
}
