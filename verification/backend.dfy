/** The backend API: the two OpenWeatherMap fetch helpers with their status
    check, the live endpoints and their projection, and the CRUD endpoints
    over the two tables. The weather table is a finite map from id to row;
    the forecast table is the sequence of its rows, each tagged with the id
    of the weather row it belongs to. Every upstream answer is an input. */
module Backend {
  import opened Records
  import opened Text
  import LocationInput
  import SavedLocations

  const NotFound := 404

  /* ---- the upstream service ---- */

  /** The two upstream feeds, `/data/2.5/weather` and `/data/2.5/forecast`. */
  datatype Feed = CurrentFeed | ForecastFeed

  /** A request to the upstream service: the feed, the location parameters,
      the API key and the unit system. */
  datatype UpstreamRequest = UpstreamRequest(
    feed: Feed, params: LocationInput.LocationParams, appid: string, units: string)

  /** An upstream answer: its status code and its decoded body. */
  datatype Response<+T> = Response(status: int, json: T)

  /** An endpoint's outcome: a body, or an HTTP error with its status. */
  datatype Outcome<+T> = Ok(value: T) | HttpError(status: int)

  /** The upstream request both fetch helpers build for a location: its
      classified parameters plus the key and metric units. */
  function UpstreamFor(feed: Feed, location: string, apiKey: string): (r: UpstreamRequest)
    ensures r.feed == feed && r.appid == apiKey && r.units == "metric"
  {
    UpstreamRequest(feed, LocationInput.ParseLocationInput(location), apiKey, "metric")
  }

  /** Surrounding whitespace of the location never reaches the upstream
      request, and the units are always metric. */
  lemma UpstreamIgnoresSurroundingSpace(feed: Feed, location: string, apiKey: string)
    ensures UpstreamFor(feed, Trim(Python, location), apiKey) == UpstreamFor(feed, location, apiKey)
    ensures UpstreamFor(feed, location, apiKey).units == "metric"
    ensures UpstreamFor(feed, location, apiKey).appid == apiKey
    ensures UpstreamFor(feed, location, apiKey).params == LocationInput.ParseLocationInput(location)
  {
    LocationInput.StripInvariant(location);
  }

  /** The status check of both fetch helpers: any status other than 200 is
      raised as an HTTP error with that same status. */
  function Checked<T>(resp: Response<T>): (r: Outcome<T>)
    ensures r.Ok? <==> resp.status == 200
    ensures r.Ok? ==> r.value == resp.json
    ensures r.HttpError? ==> r.status == resp.status
  {
    if resp.status != 200 then HttpError(resp.status) else Ok(resp.json)
  }

  /* ---- the live endpoints ---- */

  /** The parts of a current-weather answer the backend reads. */
  datatype WeatherPayload = WeatherPayload(name: Option<string>, reading: Reading)

  /** One upstream forecast sample: its Unix time, its `dt_txt` text and
      its reading. */
  datatype UpstreamItem = UpstreamItem(dt: int, dtTxt: string, reading: Reading)

  /** The parts of a forecast answer the backend reads. */
  datatype ForecastPayload = ForecastPayload(cityName: Option<string>, country: Option<string>, list: seq<UpstreamItem>)

  /** The body of `GET /forecast`. */
  datatype ForecastResponse = ForecastResponse(
    location: string, city: Option<string>, country: Option<string>, forecast: seq<ForecastItem>)

  /** `GET /weather`: the location as typed, the resolved city name and the
      reading; the upstream status on failure. */
  function GetWeather(location: string, resp: Response<WeatherPayload>): (r: Outcome<CurrentWeather>)
    ensures r.Ok? <==> resp.status == 200
    ensures r.HttpError? ==> r.status == resp.status
    ensures r.Ok? ==> r.value.location == location && r.value.city == resp.json.name
                      && r.value.reading == resp.json.reading
  {
    match Checked(resp)
    case HttpError(status) => HttpError(status)
    case Ok(data) => Ok(CurrentWeather(location, data.name, data.reading))
  }

  /** The projection of the upstream list: one item per sample, in order,
      keeping `dt_txt` and the reading. */
  function Project(list: seq<UpstreamItem>): (r: seq<ForecastItem>)
    ensures |r| == |list|
    ensures forall k :: 0 <= k < |list| ==> r[k] == ForecastItem(list[k].dtTxt, list[k].reading)
  {
    if |list| == 0 then []
    else [ForecastItem(list[0].dtTxt, list[0].reading)] + Project(list[1..])
  }

  /** `GET /forecast`. */
  function GetForecast(location: string, resp: Response<ForecastPayload>): (r: Outcome<ForecastResponse>)
    ensures r.Ok? <==> resp.status == 200
    ensures r.HttpError? ==> r.status == resp.status
    ensures r.Ok? ==> r.value.location == location && r.value.city == resp.json.cityName
                      && r.value.country == resp.json.country
                      && |r.value.forecast| == |resp.json.list|
                      && forall k :: 0 <= k < |resp.json.list| ==>
                           r.value.forecast[k].datetime == resp.json.list[k].dtTxt
                           && r.value.forecast[k].reading == resp.json.list[k].reading
  {
    match Checked(resp)
    case HttpError(status) => HttpError(status)
    case Ok(data) => Ok(ForecastResponse(location, data.cityName, data.country, Project(data.list)))
  }

  /* ---- the tables ---- */

  /** A weather row: the location as given, the reading, and the time the
      row was inserted (the column's server default). */
  datatype WeatherRow = WeatherRow(location: string, reading: Reading, dateSearched: string)

  /** A forecast row, tagged with its weather row's id. The timestamp is kept
      as the upstream `dt_txt` text. */
  datatype ForecastRow = ForecastRow(weatherId: int, datetime: string, reading: Reading)

  /** The two tables, and the next id the database's key sequence hands
      out. */
  datatype Store = Store(weather: map<int, WeatherRow>, forecasts: seq<ForecastRow>, nextId: int)

  /** An endpoint's effect: the tables afterwards, its outcome, and the
      upstream requests it made. */
  datatype Reply<+T> = Reply(store: Store, result: Outcome<T>, upstream: seq<UpstreamRequest>)

  /** Every forecast row belongs to an existing weather row. */
  predicate Linked(st: Store)
  {
    forall k :: 0 <= k < |st.forecasts| ==> st.forecasts[k].weatherId in st.weather
  }

  /** Every weather row's id was handed out before `nextId`. */
  predicate Fresh(st: Store)
  {
    forall k :: k in st.weather ==> k < st.nextId
  }

  /** The tables are well formed: ids still to come are unused and every
      forecast row belongs to a weather row. */
  predicate Valid(st: Store)
  {
    Fresh(st) && Linked(st)
  }

  /** The forecast rows the upstream samples become under weather id `id`. */
  function Rows(id: int, list: seq<UpstreamItem>): (r: seq<ForecastRow>)
    ensures |r| == |list|
    ensures forall k :: 0 <= k < |list| ==> r[k] == ForecastRow(id, list[k].dtTxt, list[k].reading)
  {
    if |list| == 0 then []
    else [ForecastRow(id, list[0].dtTxt, list[0].reading)] + Rows(id, list[1..])
  }

  /** `WHERE weather_id == id`: the rows of one weather id, in table order. */
  function RowsOf(rows: seq<ForecastRow>, id: int): (r: seq<ForecastRow>)
    ensures forall x :: x in r <==> x in rows && x.weatherId == id
    ensures |r| <= |rows|
  {
    if |rows| == 0 then []
    else if rows[0].weatherId == id then [rows[0]] + RowsOf(rows[1..], id)
    else RowsOf(rows[1..], id)
  }

  /** The table after `DELETE ... WHERE weather_id == id`. */
  function Without(rows: seq<ForecastRow>, id: int): (r: seq<ForecastRow>)
    ensures forall x :: x in r <==> x in rows && x.weatherId != id
    ensures |r| <= |rows|
  {
    if |rows| == 0 then []
    else if rows[0].weatherId == id then Without(rows[1..], id)
    else [rows[0]] + Without(rows[1..], id)
  }

  /* ---- facts about the row filters ---- */

  lemma {:induction false} RowsOfConcat(a: seq<ForecastRow>, b: seq<ForecastRow>, id: int)
    ensures RowsOf(a + b, id) == RowsOf(a, id) + RowsOf(b, id)
    decreases |a|
  {
    if |a| > 0 {
      assert (a + b)[1..] == a[1..] + b;
      RowsOfConcat(a[1..], b, id);
    } else {
      assert a + b == b;
    }
  }

  lemma {:induction false} WithoutConcat(a: seq<ForecastRow>, b: seq<ForecastRow>, id: int)
    ensures Without(a + b, id) == Without(a, id) + Without(b, id)
    decreases |a|
  {
    if |a| > 0 {
      assert (a + b)[0] == a[0] && (a + b)[1..] == a[1..] + b;
      WithoutConcat(a[1..], b, id);
      if a[0].weatherId == id {
        assert Without(a + b, id) == Without(a[1..] + b, id);
        assert Without(a, id) == Without(a[1..], id);
      } else {
        assert Without(a + b, id) == [a[0]] + Without(a[1..] + b, id);
        assert Without(a, id) == [a[0]] + Without(a[1..], id);
      }
    } else {
      assert a + b == b;
    }
  }

  /** Rows none of which carry the id filter to nothing. */
  lemma {:induction false} RowsOfAbsent(rows: seq<ForecastRow>, id: int)
    requires forall k :: 0 <= k < |rows| ==> rows[k].weatherId != id
    ensures RowsOf(rows, id) == []
    decreases |rows|
  {
    if |rows| > 0 {
      assert rows[0].weatherId != id;
      assert forall k :: 0 <= k < |rows[1..]| ==> rows[1..][k].weatherId == rows[k + 1].weatherId;
      RowsOfAbsent(rows[1..], id);
      assert RowsOf(rows, id) == RowsOf(rows[1..], id);
    }
  }

  /** Rows none of which carry the id survive its deletion unchanged. */
  lemma {:induction false} WithoutAbsent(rows: seq<ForecastRow>, id: int)
    requires forall k :: 0 <= k < |rows| ==> rows[k].weatherId != id
    ensures Without(rows, id) == rows
    decreases |rows|
  {
    if |rows| > 0 {
      assert rows[0].weatherId != id;
      assert forall k :: 0 <= k < |rows[1..]| ==> rows[1..][k].weatherId == rows[k + 1].weatherId;
      WithoutAbsent(rows[1..], id);
      assert Without(rows, id) == [rows[0]] + Without(rows[1..], id);
      assert rows == [rows[0]] + rows[1..];
    }
  }

  /** Rows that all carry the id are all selected by it. */
  lemma {:induction false} RowsOfAll(rows: seq<ForecastRow>, id: int)
    requires forall k :: 0 <= k < |rows| ==> rows[k].weatherId == id
    ensures RowsOf(rows, id) == rows
    decreases |rows|
  {
    if |rows| > 0 {
      assert rows[0].weatherId == id;
      assert forall k :: 0 <= k < |rows[1..]| ==> rows[1..][k].weatherId == rows[k + 1].weatherId;
      RowsOfAll(rows[1..], id);
      assert RowsOf(rows, id) == [rows[0]] + RowsOf(rows[1..], id);
      assert rows == [rows[0]] + rows[1..];
    }
  }

  /** Deleting one id's rows leaves every other id's rows as they were. */
  lemma {:induction false} RowsOfWithout(rows: seq<ForecastRow>, id: int, other: int)
    ensures RowsOf(Without(rows, id), other) == if other == id then [] else RowsOf(rows, other)
    decreases |rows|
  {
    if |rows| > 0 {
      RowsOfWithout(rows[1..], id, other);
      if rows[0].weatherId != id {
        assert Without(rows, id) == [rows[0]] + Without(rows[1..], id);
        assert ([rows[0]] + Without(rows[1..], id))[1..] == Without(rows[1..], id);
      }
    }
  }

  /** Deleting twice is deleting once. */
  lemma WithoutIdempotent(rows: seq<ForecastRow>, id: int)
    ensures Without(Without(rows, id), id) == Without(rows, id)
  {
    var once := Without(rows, id);
    forall k | 0 <= k < |once| ensures once[k].weatherId != id {
      assert once[k] in once;
    }
    WithoutAbsent(once, id);
  }

  /* ---- the CRUD endpoints ---- */

  /** The row as the history endpoint lists it. The table has no trip
      columns. */
  function ToRecord(id: int, row: WeatherRow): WeatherRecord
  {
    WeatherRecord(id, row.location, row.reading, row.dateSearched, None, None)
  }

  /** `POST /weather/save`: one fetch; on success one new row under the
      next id of the key sequence and nothing else changes; on failure
      nothing changes. */
  function SaveWeather(st: Store, location: string, apiKey: string, now: string,
                       resp: Response<WeatherPayload>): (r: Reply<int>)
    ensures r.upstream == [UpstreamFor(CurrentFeed, location, apiKey)]
    ensures r.result.Ok? <==> resp.status == 200
    ensures r.result.HttpError? ==> r.store == st && r.result.status == resp.status
    ensures r.result.Ok? ==>
              && r.store.weather == st.weather[r.result.value := WeatherRow(location, resp.json.reading, now)]
              && r.store.forecasts == st.forecasts
              && r.store.nextId > r.result.value
              && (Fresh(st) ==> r.result.value !in st.weather)
    ensures Valid(st) ==> Valid(r.store)
  {
    var sent := [UpstreamFor(CurrentFeed, location, apiKey)];
    match Checked(resp)
    case HttpError(status) => Reply(st, HttpError(status), sent)
    case Ok(data) =>
      var id := st.nextId;
      Reply(st.(weather := st.weather[id := WeatherRow(location, data.reading, now)], nextId := id + 1), Ok(id), sent)
  }

  /** `GET /weather/history`: every weather row, as records. */
  function GetHistory(st: Store): (r: set<WeatherRecord>)
    ensures forall rec :: rec in r <==> rec.id in st.weather && rec == ToRecord(rec.id, st.weather[rec.id])
  {
    set id | id in st.weather :: ToRecord(id, st.weather[id])
  }

  /** No record the backend lists has a trip line: the dates never reach
      the table. */
  lemma HistoryHasNoTrips(st: Store, rec: WeatherRecord)
    requires rec in GetHistory(st)
    ensures SavedLocations.TripLine(rec).None?
  {
  }

  /** The messages of `update_weather`. */
  datatype UpdateMessage = RecordUpdated | NoChangesMade

  /** `PUT /weather/update/{id}`: 404 for a missing id. The row is re-fetched
      and rewritten only for a non-empty location that differs from the
      stored one; then its location and reading change and its insertion
      time stays. Otherwise nothing is fetched and nothing changes. */
  function UpdateWeather(st: Store, id: int, location: Option<string>, apiKey: string,
                         resp: Response<WeatherPayload>): (r: Reply<UpdateMessage>)
    ensures id !in st.weather ==> r == Reply(st, HttpError(NotFound), [])
    ensures r.store.forecasts == st.forecasts
    ensures r.store != st ==> r.result == Ok(RecordUpdated)
    ensures id in st.weather ==>
              var row := st.weather[id];
              var changed := location.Some? && location.value != [] && location.value != row.location;
              && (!changed ==> r == Reply(st, Ok(NoChangesMade), []))
              && (changed ==> r.upstream == [UpstreamFor(CurrentFeed, location.value, apiKey)])
              && (changed && resp.status != 200 ==> r.store == st && r.result == HttpError(resp.status))
              && (changed && resp.status == 200 ==>
                    r.result == Ok(RecordUpdated)
                    && r.store.weather == st.weather[id := WeatherRow(location.value, resp.json.reading, row.dateSearched)])
  {
    if id !in st.weather then Reply(st, HttpError(NotFound), [])
    else
      var row := st.weather[id];
      if location.Some? && location.value != [] && location.value != row.location then
        var sent := [UpstreamFor(CurrentFeed, location.value, apiKey)];
        match Checked(resp)
        case HttpError(status) => Reply(st, HttpError(status), sent)
        case Ok(data) =>
          var updated := WeatherRow(location.value, data.reading, row.dateSearched);
          Reply(st.(weather := st.weather[id := updated]), Ok(RecordUpdated), sent)
      else Reply(st, Ok(NoChangesMade), [])
  }

  /** `DELETE /weather/delete/{id}`: 404 for a missing id; otherwise only
      that weather row goes, and its forecast rows stay. */
  function DeleteWeather(st: Store, id: int): (r: Reply<()>)
    ensures r.upstream == []
    ensures id !in st.weather ==> r == Reply(st, HttpError(NotFound), [])
    ensures id in st.weather ==>
              r.result.Ok? && r.store.forecasts == st.forecasts
              && r.store.weather.Keys == st.weather.Keys - {id}
              && forall k :: k in r.store.weather ==> r.store.weather[k] == st.weather[k]
  {
    if id !in st.weather then Reply(st, HttpError(NotFound), [])
    else Reply(st.(weather := st.weather - {id}), Ok(()), [])
  }

  /** `POST /forecast/save`: the current weather is fetched and saved under
      a fresh id first; then the forecast is fetched and each sample is
      saved under that id. A failing forecast fetch leaves the new weather
      row in place. */
  function SaveForecast(st: Store, location: string, apiKey: string, now: string,
                        weatherResp: Response<WeatherPayload>,
                        forecastResp: Response<ForecastPayload>): (r: Reply<int>)
    ensures weatherResp.status != 200 ==>
              r == Reply(st, HttpError(weatherResp.status), [UpstreamFor(CurrentFeed, location, apiKey)])
    ensures weatherResp.status == 200 ==>
              var id := st.nextId;
              && r.upstream == [UpstreamFor(CurrentFeed, location, apiKey), UpstreamFor(ForecastFeed, location, apiKey)]
              && r.store.weather == st.weather[id := WeatherRow(location, weatherResp.json.reading, now)]
              && r.store.nextId == id + 1
              && (forecastResp.status != 200 ==>
                    r.result == HttpError(forecastResp.status) && r.store.forecasts == st.forecasts)
              && (forecastResp.status == 200 ==>
                    r.result == Ok(id) && r.store.forecasts == st.forecasts + Rows(id, forecastResp.json.list))
  {
    var saved := SaveWeather(st, location, apiKey, now, weatherResp);
    match saved.result
    case HttpError(status) => saved
    case Ok(id) =>
      var sent := saved.upstream + [UpstreamFor(ForecastFeed, location, apiKey)];
      match Checked(forecastResp)
      case HttpError(status) => Reply(saved.store, HttpError(status), sent)
      case Ok(data) =>
        Reply(saved.store.(forecasts := saved.store.forecasts + Rows(id, data.list)), Ok(id), sent)
  }

  /** `GET /forecast/history/{id}`: the rows of that id in table order, or
      404 when there are none. */
  function GetSavedForecast(st: Store, id: int): (r: Outcome<seq<ForecastRow>>)
    ensures r.HttpError? <==> forall k :: 0 <= k < |st.forecasts| ==> st.forecasts[k].weatherId != id
    ensures r.HttpError? ==> r.status == NotFound
    ensures r.Ok? ==> r.value != [] && forall x :: x in r.value <==> x in st.forecasts && x.weatherId == id
  {
    var rows := RowsOf(st.forecasts, id);
    if rows == [] then
      assert forall k :: 0 <= k < |st.forecasts| ==> st.forecasts[k] !in rows;
      HttpError(NotFound)
    else
      assert rows[0] in st.forecasts;
      Ok(rows)
  }

  /** `PUT /forecast/refresh/{id}`: 404 without a weather row. Otherwise the
      id's forecast rows are deleted before the stored location is fetched
      again, so a failing fetch leaves the id with no rows; on success the
      new samples are appended under the id. */
  function RefreshForecast(st: Store, id: int, apiKey: string, resp: Response<ForecastPayload>): (r: Reply<()>)
    ensures id !in st.weather ==> r == Reply(st, HttpError(NotFound), [])
    ensures id in st.weather ==>
              && r.upstream == [UpstreamFor(ForecastFeed, st.weather[id].location, apiKey)]
              && r.store.weather == st.weather
              && (resp.status != 200 ==>
                    r.result == HttpError(resp.status) && r.store.forecasts == Without(st.forecasts, id))
              && (resp.status == 200 ==>
                    r.result == Ok(()) && r.store.forecasts == Without(st.forecasts, id) + Rows(id, resp.json.list))
  {
    if id !in st.weather then Reply(st, HttpError(NotFound), [])
    else
      var cleared := st.(forecasts := Without(st.forecasts, id));
      var sent := [UpstreamFor(ForecastFeed, st.weather[id].location, apiKey)];
      match Checked(resp)
      case HttpError(status) => Reply(cleared, HttpError(status), sent)
      case Ok(data) => Reply(cleared.(forecasts := cleared.forecasts + Rows(id, data.list)), Ok(()), sent)
  }

  /** `DELETE /forecast/{id}`: removes the id's forecast rows and its weather
      row, whether or not they exist; it never answers 404. */
  function DeleteForecast(st: Store, id: int): (r: Reply<()>)
    ensures r.result.Ok? && r.upstream == []
    ensures r.store.weather.Keys == st.weather.Keys - {id}
    ensures forall k :: k in r.store.weather ==> r.store.weather[k] == st.weather[k]
    ensures forall x :: x in r.store.forecasts <==> x in st.forecasts && x.weatherId != id
  {
    Reply(st.(weather := st.weather - {id}, forecasts := Without(st.forecasts, id)), Ok(()), [])
  }

  /* ---- properties across endpoints ---- */

  /** What a history listing taken right after `DELETE /forecast/{id}`
      holds: no record of `id`, every other saved row, and nothing exactly
      when `id` was the only saved row. */
  lemma ListedAfterDelete(st: Store, id: int, listed: seq<WeatherRecord>)
    requires forall rec :: rec in listed <==> rec in GetHistory(DeleteForecast(st, id).store)
    ensures forall rec :: rec in listed ==> rec.id != id
    ensures forall other :: other in st.weather && other != id ==> ToRecord(other, st.weather[other]) in listed
    ensures |listed| == 0 <==> st.weather.Keys <= {id}
  {
    var post := DeleteForecast(st, id).store;
    forall rec | rec in listed ensures rec.id != id {
      assert rec in GetHistory(post);
    }
    forall other | other in st.weather && other != id
      ensures ToRecord(other, st.weather[other]) in listed
    {
      assert other in post.weather && post.weather[other] == st.weather[other];
      assert ToRecord(other, post.weather[other]) in GetHistory(post);
    }
    if |listed| > 0 {
      assert listed[0] in GetHistory(post);
      assert listed[0].id in st.weather && listed[0].id != id;
    }
    if !(st.weather.Keys <= {id}) {
      var other :| other in st.weather && other != id;
      assert ToRecord(other, st.weather[other]) in listed;
    }
  }

  /** The saved-location list's delete against this endpoint: once the
      delete of `id` and the reload both succeed, and the reload lists the
      table as the delete left it, no card shows `id`, every other saved row
      still has a card, and the list is empty exactly when `id` was the only
      saved row. */
  lemma DeleteHidesRecord(st: Store, id: int, history: seq<WeatherRecord>, listed: seq<WeatherRecord>)
    requires forall rec :: rec in listed <==> rec in GetHistory(DeleteForecast(st, id).store)
    ensures var r := SavedLocations.HandleDelete(history, id, true, Resolved(()), Resolved(listed));
            var cards := SavedLocations.Render(r.history);
            && r.requests == [SavedLocations.DeleteForecast(id), SavedLocations.ListHistory]
            && (cards.None? <==> st.weather.Keys <= {id})
            && (cards.Some? ==> forall k :: 0 <= k < |cards.value| ==> cards.value[k].record.id != id)
            && (forall other :: other in st.weather && other != id ==>
                  exists k :: 0 <= k < |r.history| && r.history[k] == ToRecord(other, st.weather[other]))
  {
    ListedAfterDelete(st, id, listed);
    var shown := SavedLocations.HandleDelete(history, id, true, Resolved(()), Resolved(listed)).history;
    assert multiset(shown) == multiset(listed);
    assert |shown| == |listed| by {
      assert |multiset(shown)| == |multiset(listed)|;
    }
    forall k | 0 <= k < |shown| ensures shown[k].id != id {
      assert shown[k] in multiset(listed);
    }
    forall other | other in st.weather && other != id
      ensures exists k :: 0 <= k < |shown| && shown[k] == ToRecord(other, st.weather[other])
    {
      assert ToRecord(other, st.weather[other]) in multiset(shown);
    }
  }

  /** Deleting a saved search twice leaves the tables as deleting it once. */
  lemma DeleteForecastIdempotent(st: Store, id: int)
    ensures DeleteForecast(DeleteForecast(st, id).store, id) == DeleteForecast(st, id)
  {
    WithoutIdempotent(st.forecasts, id);
    assert (st.weather - {id}) - {id} == st.weather - {id};
  }

  /** A saved forecast reads back as exactly the rows built from the
      upstream samples, in their order, when the tables were well formed
      before; an empty upstream list reads back as 404. */
  lemma SavedForecastReadsBack(st: Store, location: string, apiKey: string, now: string,
                               weatherResp: Response<WeatherPayload>, forecastResp: Response<ForecastPayload>)
    requires Valid(st)
    requires weatherResp.status == 200 && forecastResp.status == 200
    ensures var r := SaveForecast(st, location, apiKey, now, weatherResp, forecastResp);
            var id := st.nextId;
            var list := forecastResp.json.list;
            && r.result == Ok(id)
            && RowsOf(r.store.forecasts, id) == Rows(id, list)
            && (list == [] ==> GetSavedForecast(r.store, id) == HttpError(NotFound))
            && (list != [] ==> GetSavedForecast(r.store, id) == Ok(Rows(id, list)))
  {
    var id := st.nextId;
    var rows := Rows(id, forecastResp.json.list);
    RowsOfAbsent(st.forecasts, id);
    RowsOfAll(rows, id);
    RowsOfConcat(st.forecasts, rows, id);
    if forecastResp.json.list != [] {
      assert rows[0] in rows;
    }
  }

  /** After a successful refresh the id's rows are exactly the new samples
      and every other id's rows are as they were; after a failed one the id
      has no rows left and every other id's rows are as they were. */
  lemma RefreshForecastRows(st: Store, id: int, apiKey: string, resp: Response<ForecastPayload>, other: int)
    requires id in st.weather
    ensures var r := RefreshForecast(st, id, apiKey, resp);
            && RowsOf(r.store.forecasts, id) == (if resp.status == 200 then Rows(id, resp.json.list) else [])
            && (other != id ==> RowsOf(r.store.forecasts, other) == RowsOf(st.forecasts, other))
  {
    var cleared := Without(st.forecasts, id);
    RowsOfWithout(st.forecasts, id, id);
    RowsOfWithout(st.forecasts, id, other);
    if resp.status == 200 {
      var rows := Rows(id, resp.json.list);
      RowsOfConcat(cleared, rows, id);
      RowsOfConcat(cleared, rows, other);
      RowsOfAll(rows, id);
      if other != id {
        RowsOfAbsent(rows, other);
      }
    }
  }

  /** Appending rows of an existing weather id keeps the tables linked. */
  lemma LinkedAppend(st: Store, rows: seq<ForecastRow>, id: int)
    requires Linked(st) && id in st.weather
    requires forall k :: 0 <= k < |rows| ==> rows[k].weatherId == id
    ensures Linked(st.(forecasts := st.forecasts + rows))
  {
    var f := st.forecasts + rows;
    forall k | 0 <= k < |f| ensures f[k].weatherId in st.weather {
      if k >= |st.forecasts| {
        assert f[k] == rows[k - |st.forecasts|];
      }
    }
  }

  /** Deleting forecast rows keeps the tables linked, also when the weather
      row of the deleted id goes with them. */
  lemma LinkedWithout(st: Store, id: int)
    requires Linked(st)
    ensures Linked(st.(forecasts := Without(st.forecasts, id)))
    ensures Linked(st.(weather := st.weather - {id}, forecasts := Without(st.forecasts, id)))
  {
    var f := Without(st.forecasts, id);
    forall k | 0 <= k < |f| ensures f[k].weatherId in st.weather && f[k].weatherId != id {
      assert f[k] in f;
      var j :| 0 <= j < |st.forecasts| && st.forecasts[j] == f[k];
    }
  }

  /** `save_forecast` keeps the tables well formed, on every path. */
  lemma SaveForecastValid(st: Store, location: string, apiKey: string, now: string,
                          weatherResp: Response<WeatherPayload>, forecastResp: Response<ForecastPayload>)
    requires Valid(st)
    ensures Valid(SaveForecast(st, location, apiKey, now, weatherResp, forecastResp).store)
  {
    var saved := SaveWeather(st, location, apiKey, now, weatherResp);
    if weatherResp.status == 200 && forecastResp.status == 200 {
      LinkedAppend(saved.store, Rows(st.nextId, forecastResp.json.list), st.nextId);
    }
  }

  /** Every endpoint but `delete_weather` keeps the tables well formed. */
  lemma ValidPreserved(st: Store, id: int, location: Option<string>, apiKey: string,
                       weatherResp: Response<WeatherPayload>, forecastResp: Response<ForecastPayload>)
    requires Valid(st)
    ensures Valid(UpdateWeather(st, id, location, apiKey, weatherResp).store)
    ensures Valid(RefreshForecast(st, id, apiKey, forecastResp).store)
    ensures Valid(DeleteForecast(st, id).store)
    ensures Valid(RefreshWeather(st, id, apiKey, weatherResp).store)
  {
    UpdateWeatherValid(st, id, location, apiKey, weatherResp);
    RefreshForecastValid(st, id, apiKey, forecastResp);
    LinkedWithout(st, id);
    RefreshWeatherValid(st, id, apiKey, weatherResp);
  }

  /** An update rewrites at most one existing row, so the ids stay. */
  lemma UpdateWeatherValid(st: Store, id: int, location: Option<string>, apiKey: string,
                           resp: Response<WeatherPayload>)
    requires Valid(st)
    ensures Valid(UpdateWeather(st, id, location, apiKey, resp).store)
  {
    var r := UpdateWeather(st, id, location, apiKey, resp);
    assert r.store.weather.Keys == st.weather.Keys && r.store.nextId == st.nextId;
  }

  /** A refresh re-attaches new rows to the same, existing id. */
  lemma RefreshForecastValid(st: Store, id: int, apiKey: string, resp: Response<ForecastPayload>)
    requires Valid(st)
    ensures Valid(RefreshForecast(st, id, apiKey, resp).store)
  {
    LinkedWithout(st, id);
    if id in st.weather && resp.status == 200 {
      LinkedAppend(st.(forecasts := Without(st.forecasts, id)), Rows(id, resp.json.list), id);
    }
  }

  /** The corrected re-fetch changes one reading and nothing else. */
  lemma RefreshWeatherValid(st: Store, id: int, apiKey: string, resp: Response<WeatherPayload>)
    requires Valid(st)
    ensures Valid(RefreshWeather(st, id, apiKey, resp).store)
  {
    var r := RefreshWeather(st, id, apiKey, resp);
    assert r.store.weather.Keys == st.weather.Keys && r.store.nextId == st.nextId;
  }

  /** `delete_weather` strands the forecast rows of the row it removes. */
  lemma DeleteWeatherStrandsForecast(st: Store, id: int)
    requires id in st.weather && RowsOf(st.forecasts, id) != []
    ensures !Linked(DeleteWeather(st, id).store)
    ensures RowsOf(DeleteWeather(st, id).store.forecasts, id) == RowsOf(st.forecasts, id)
  {
    var x := RowsOf(st.forecasts, id)[0];
    assert x in RowsOf(st.forecasts, id);
    var k :| 0 <= k < |st.forecasts| && st.forecasts[k] == x;
    assert DeleteWeather(st, id).store.forecasts[k].weatherId !in DeleteWeather(st, id).store.weather;
  }

  /* ---- refreshing a saved search ---- */

  /** As written, the refresh of a saved search asks `update_weather` for
      the row's own stored location, which is the location the history
      lists for it; that never differs from the stored one, so nothing is
      re-fetched and the saved reading stays as it was. */
  lemma RefreshKeepsStaleWeather(st: Store, rec: WeatherRecord, apiKey: string, resp: Response<WeatherPayload>)
    requires rec in GetHistory(st)
    ensures UpdateWeather(st, rec.id, Some(rec.location), apiKey, resp) == Reply(st, Ok(NoChangesMade), [])
  {
  }

  /** The weather half of a refresh as intended: the stored location is
      fetched again and the row's reading replaced; its location and
      insertion time stay. 404 for a missing id; nothing changes when the
      fetch fails. */
  function RefreshWeather(st: Store, id: int, apiKey: string, resp: Response<WeatherPayload>): (r: Reply<()>)
    ensures id !in st.weather ==> r == Reply(st, HttpError(NotFound), [])
    ensures r.store.forecasts == st.forecasts
    ensures id in st.weather ==>
              && r.upstream == [UpstreamFor(CurrentFeed, st.weather[id].location, apiKey)]
              && (r.result.Ok? <==> resp.status == 200)
              && (resp.status != 200 ==> r.store == st && r.result == HttpError(resp.status))
              && (resp.status == 200 ==>
                    r.store.weather.Keys == st.weather.Keys
                    && r.store.weather[id].reading == resp.json.reading
                    && r.store.weather[id].location == st.weather[id].location
                    && r.store.weather[id].dateSearched == st.weather[id].dateSearched
                    && forall k :: k in st.weather && k != id ==> r.store.weather[k] == st.weather[k])
  {
    if id !in st.weather then Reply(st, HttpError(NotFound), [])
    else
      var row := st.weather[id];
      var sent := [UpstreamFor(CurrentFeed, row.location, apiKey)];
      match Checked(resp)
      case HttpError(status) => Reply(st, HttpError(status), sent)
      case Ok(data) => Reply(st.(weather := st.weather[id := row.(reading := data.reading)]), Ok(()), sent)
  }

  /** The backend side of refreshing a saved search: the weather row, then
      the forecast, stopping at the first failure as the client does. */
  function RefreshSavedSearch(st: Store, id: int, apiKey: string,
                              weatherResp: Response<WeatherPayload>,
                              forecastResp: Response<ForecastPayload>): (r: Reply<()>)
    ensures id !in st.weather ==> r == Reply(st, HttpError(NotFound), [])
    ensures id in st.weather && weatherResp.status != 200 ==>
              r.store == st && r.result == HttpError(weatherResp.status)
              && r.upstream == [UpstreamFor(CurrentFeed, st.weather[id].location, apiKey)]
    ensures r.result.Ok? <==> id in st.weather && weatherResp.status == 200 && forecastResp.status == 200
    ensures id in st.weather && weatherResp.status == 200 ==>
              r.upstream == [UpstreamFor(CurrentFeed, st.weather[id].location, apiKey),
                             UpstreamFor(ForecastFeed, st.weather[id].location, apiKey)]
  {
    var first := RefreshWeather(st, id, apiKey, weatherResp);
    if first.result.HttpError? then first
    else
      var second := RefreshForecast(first.store, id, apiKey, forecastResp);
      Reply(second.store, second.result, first.upstream + second.upstream)
  }

  /** Refreshing a saved search keeps the tables well formed, whichever
      step fails. */
  lemma RefreshSavedSearchValid(st: Store, id: int, apiKey: string,
                                weatherResp: Response<WeatherPayload>,
                                forecastResp: Response<ForecastPayload>)
    requires Valid(st)
    ensures Valid(RefreshSavedSearch(st, id, apiKey, weatherResp, forecastResp).store)
  {
    ValidPreserved(st, id, None, apiKey, weatherResp, forecastResp);
    var first := RefreshWeather(st, id, apiKey, weatherResp);
    ValidPreserved(first.store, id, None, apiKey, weatherResp, forecastResp);
  }

  /** A fully successful refresh of a saved search leaves its row with the
      fresh reading and its forecast rows exactly the fresh samples, and
      every other saved search as it was. */
  lemma RefreshSavedSearchIsFresh(st: Store, id: int, apiKey: string,
                                  weatherResp: Response<WeatherPayload>,
                                  forecastResp: Response<ForecastPayload>, other: int)
    requires id in st.weather && weatherResp.status == 200 && forecastResp.status == 200
    ensures var r := RefreshSavedSearch(st, id, apiKey, weatherResp, forecastResp);
            && r.result == Ok(())
            && r.store.weather[id].reading == weatherResp.json.reading
            && r.store.weather[id].location == st.weather[id].location
            && RowsOf(r.store.forecasts, id) == Rows(id, forecastResp.json.list)
            && (other != id ==> RowsOf(r.store.forecasts, other) == RowsOf(st.forecasts, other))
            && (other != id && other in st.weather ==> r.store.weather[other] == st.weather[other])
  {
    var first := RefreshWeather(st, id, apiKey, weatherResp);
    RefreshForecastRows(first.store, id, apiKey, forecastResp, other);
  }
}
