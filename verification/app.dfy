/** The view orchestrator: the top-level component's state and its five
    handlers (search, save click, confirmed save, history select, refresh)
    plus closing the dialog. Each handler is a total function from the state
    before the event and the outcomes of the external calls it awaits to the
    state after it has settled and the requests it sent, in order. */
module App {
  import opened Records
  import ForecastReducer
  import DateRangeModal
  import Text

  const SearchFailedMessage := "Could not fetch weather data. Please check the city name."
  const SaveFailedMessage := "Failed to save to history."
  const SelectFailedMessage := "Could not load saved forecast."
  const RefreshFailedMessage := "Failed to refresh data."

  /** What the weather card shows: a live lookup, or a saved history row. */
  datatype Weather = Live(current: CurrentWeather) | Saved(record: WeatherRecord)
  {
    /** `weather.location`. */
    function Location(): string
    {
      match this
      case Live(current) => current.location
      case Saved(record) => record.location
    }
  }

  /** The component's state. `savedId` is the id of the history row on
      show, if any; `historyRefresh` is the counter that makes the history
      list reload when it changes. */
  datatype ViewState = ViewState(
    weather: Option<Weather>,
    forecast: Option<ForecastReducer.ForecastData>,
    loading: bool,
    error: string,
    savedId: Option<int>,
    historyRefresh: int,
    modalOpen: bool,
    videos: seq<Video>)

  /** The state before any event. */
  const Initial := ViewState(None, None, false, "", None, 0, false, [])

  /** The requests the handlers send through the client service layer. */
  datatype ApiRequest =
    | GetWeather(location: string)
    | GetForecast(location: string)
    | GetVideos(location: string)
    | SaveForecast(location: string)
    | GetForecastHistory(weatherId: int)
    | UpdateWeather(weatherId: int, location: string)
    | RefreshForecast(weatherId: int)
    | GetWeatherHistory

  /** A settled handler: the state afterwards and the requests sent. */
  datatype Step = Step(state: ViewState, requests: seq<ApiRequest>)

  /* ---- handleSearch ---- */

  /** The synchronous start of `handleSearch`, before the first await. */
  function SearchStart(st: ViewState): (r: ViewState)
    ensures r.loading && r.error == "" && r.savedId.None? && r.weather.None? && r.forecast.None?
    ensures r.videos == st.videos && r.historyRefresh == st.historyRefresh && r.modalOpen == st.modalOpen
  {
    st.(loading := true, error := "", savedId := None, weather := None, forecast := None)
  }

  /** `handleSearch(location)`: the weather and forecast requests go out
      together (`Promise.all`: both resolve or the handler fails); only then
      are the videos requested. Any failure, the video request's included,
      leaves weather and forecast empty and the videos as they were. */
  function HandleSearch(st: ViewState, location: string,
                        weather: Call<CurrentWeather>, forecast: Call<ForecastReducer.ForecastData>,
                        videos: Call<seq<Video>>): (r: Step)
    ensures !r.state.loading && r.state.savedId.None?
    ensures r.state.historyRefresh == st.historyRefresh && r.state.modalOpen == st.modalOpen
    ensures |r.requests| >= 2 && r.requests[..2] == [GetWeather(location), GetForecast(location)]
    ensures |r.requests| == 3 <==> weather.Resolved? && forecast.Resolved?
    ensures |r.requests| == 3 ==> r.requests[2] == GetVideos(location)
    ensures r.state.error == "" <==> weather.Resolved? && forecast.Resolved? && videos.Resolved?
    ensures r.state.error == "" ==>
              r.state.weather == Some(Live(weather.value)) && r.state.forecast == Some(forecast.value)
              && r.state.videos == videos.value
    ensures r.state.error != "" ==>
              r.state.error == SearchFailedMessage && r.state.weather.None? && r.state.forecast.None?
              && r.state.videos == st.videos
  {
    var started := SearchStart(st);
    var pair := [GetWeather(location), GetForecast(location)];
    if weather.Rejected? || forecast.Rejected? then
      Step(started.(error := SearchFailedMessage, loading := false), pair)
    else if videos.Rejected? then
      Step(started.(error := SearchFailedMessage, loading := false), pair + [GetVideos(location)])
    else
      Step(started.(weather := Some(Live(weather.value)), forecast := Some(forecast.value),
                    videos := videos.value, loading := false),
           pair + [GetVideos(location)])
  }

  /* ---- saving ---- */

  /** `handleSaveClick`: opens the dialog when there is weather on show, and
      changes nothing otherwise. */
  function HandleSaveClick(st: ViewState): (r: ViewState)
    ensures st.weather.None? ==> r == st
    ensures st.weather.Some? ==> r == st.(modalOpen := true)
  {
    if st.weather.None? then st else st.(modalOpen := true)
  }

  /** Closing the dialog. */
  function CloseModal(st: ViewState): (r: ViewState)
    ensures r == st.(modalOpen := false)
  {
    st.(modalOpen := false)
  }

  /** `handleConfirmSave(startDate, endDate)`: always closes the dialog.
      The save request carries only the location (the service drops the
      dates); with no weather on show, reading `weather.location` throws
      and no request is made. Success bumps the history counter by one;
      failure sets the save error. The error line is not cleared first. */
  function HandleConfirmSave(st: ViewState, range: DateRangeModal.DateRange, saved: Call<()>): (r: Step)
    ensures !r.state.modalOpen && !r.state.loading
    ensures r.state.weather == st.weather && r.state.forecast == st.forecast
    ensures r.state.savedId == st.savedId && r.state.videos == st.videos
    ensures st.weather.None? ==> r.requests == []
    ensures st.weather.Some? ==> r.requests == [SaveForecast(st.weather.value.Location())]
    ensures r.state.historyRefresh == st.historyRefresh + 1 <==> st.weather.Some? && saved.Resolved?
    ensures r.state.historyRefresh != st.historyRefresh ==> r.state.historyRefresh == st.historyRefresh + 1
    ensures r.state.historyRefresh == st.historyRefresh ==> r.state.error == SaveFailedMessage
    ensures r.state.historyRefresh != st.historyRefresh ==> r.state.error == st.error
  {
    var started := st.(modalOpen := false, loading := true);
    match st.weather
    case None => Step(started.(error := SaveFailedMessage, loading := false), [])
    case Some(w) =>
      var sent := [SaveForecast(w.Location())];
      match saved
      case Rejected => Step(started.(error := SaveFailedMessage, loading := false), sent)
      case Resolved(_) => Step(started.(historyRefresh := st.historyRefresh + 1, loading := false), sent)
  }

  /** The dialog's submit followed by the save it triggers: a range the
      dialog rejects sends nothing and leaves the view as it was. */
  function SubmitTripDates(st: ViewState, modal: DateRangeModal.ModalState, saved: Call<()>): (r: (Step, DateRangeModal.ModalState))
    ensures var accepted := st.modalOpen && modal.startDate != [] && modal.endDate != []
                            && !Text.JsLess(modal.endDate, modal.startDate);
            && (r.0.requests != [] <==> accepted && st.weather.Some?)
            && (r.0.requests != [] ==> r.0.requests == [SaveForecast(st.weather.value.Location())])
            && (r.0.state.historyRefresh == st.historyRefresh + 1 <==> accepted && st.weather.Some? && saved.Resolved?)
            && (!accepted ==> r.0 == Step(st, []))
            && (accepted ==> !r.0.state.modalOpen)
    ensures r.1.startDate == modal.startDate && r.1.endDate == modal.endDate
  {
    var m := DateRangeModal.Submit(st.modalOpen, modal);
    match m.confirmed
    case None => (Step(st, []), m.state)
    case Some(range) => (HandleConfirmSave(st, range, saved), m.state)
  }

  /** In the open dialog, a trip whose start date is later than its end
      date is refused with the order message and never reaches the backend,
      whatever the outcome the save would have had. */
  lemma InvertedTripSendsNothing(st: ViewState, modal: DateRangeModal.ModalState, saved: Call<()>)
    requires st.modalOpen
    requires DateRangeModal.IsIsoDate(modal.startDate) && DateRangeModal.IsIsoDate(modal.endDate)
    requires DateRangeModal.DayNumber(modal.startDate) > DateRangeModal.DayNumber(modal.endDate)
    ensures SubmitTripDates(st, modal, saved).0 == Step(st, [])
    ensures SubmitTripDates(st, modal, saved).1 == modal.(error := DateRangeModal.OrderMessage)
  {
    DateRangeModal.IsoDateOrder(modal.endDate, modal.startDate);
  }

  /* ---- handleHistorySelect ---- */

  /** `handleHistorySelect(record)`: the row's id and the row itself are put
      on show before anything is fetched, so both stay even if a fetch
      fails. The saved forecast is wrapped as `{forecast: list}`; the video
      request follows it. A failed forecast fetch leaves the previous
      forecast in place; a failed video fetch leaves the new forecast. */
  function HandleHistorySelect(st: ViewState, record: WeatherRecord,
                               forecast: Call<seq<ForecastItem>>, videos: Call<seq<Video>>): (r: Step)
    ensures !r.state.loading
    ensures r.state.savedId == Some(record.id) && r.state.weather == Some(Saved(record))
    ensures r.state.historyRefresh == st.historyRefresh && r.state.modalOpen == st.modalOpen
    ensures forecast.Resolved? ==> r.state.forecast == Some(ForecastReducer.ForecastData(Some(forecast.value)))
    ensures forecast.Rejected? ==> r.state.forecast == st.forecast
    ensures r.state.error == "" <==> forecast.Resolved? && videos.Resolved?
    ensures r.state.error != "" ==> r.state.error == SelectFailedMessage && r.state.videos == st.videos
    ensures r.state.error == "" ==> r.state.videos == videos.value
    ensures r.requests == if forecast.Resolved? then [GetForecastHistory(record.id), GetVideos(record.location)]
                          else [GetForecastHistory(record.id)]
  {
    var started := st.(loading := true, error := "", savedId := Some(record.id), weather := Some(Saved(record)));
    match forecast
    case Rejected =>
      Step(started.(error := SelectFailedMessage, loading := false), [GetForecastHistory(record.id)])
    case Resolved(list) =>
      var shown := started.(forecast := Some(ForecastReducer.ForecastData(Some(list))));
      var sent := [GetForecastHistory(record.id), GetVideos(record.location)];
      match videos
      case Rejected => Step(shown.(error := SelectFailedMessage, loading := false), sent)
      case Resolved(v) => Step(shown.(videos := v, loading := false), sent)
  }

  /* ---- handleRefresh ---- */

  /** `savedId` is truthy: present and not 0. */
  predicate HasSavedId(st: ViewState)
  {
    st.savedId.Some? && st.savedId.value != 0
  }

  /** `history.find(r => r.id === id)`: the first row with that id. */
  function FindById(history: seq<WeatherRecord>, id: int): (r: Option<WeatherRecord>)
    ensures r.None? <==> forall k :: 0 <= k < |history| ==> history[k].id != id
    ensures r.Some? ==> r.value.id == id && r.value in history
  {
    if |history| == 0 then None
    else if history[0].id == id then Some(history[0])
    else FindById(history[1..], id)
  }

  /** No row before position `k` has the id. */
  predicate NoIdBefore(history: seq<WeatherRecord>, id: int, k: int)
  {
    forall j :: 0 <= j < k && j < |history| ==> history[j].id != id
  }

  /** `find` returns the first row with the id: the row at the first
      position holding it. */
  lemma {:induction false} FindByIdFirst(history: seq<WeatherRecord>, id: int, k: nat)
    requires k < |history| && history[k].id == id && NoIdBefore(history, id, k)
    ensures FindById(history, id) == Some(history[k])
    decreases k
  {
    if k > 0 {
      assert history[0].id != id;
      FindByIdFirst(history[1..], id, k - 1);
    }
  }

  /** The outcomes of the four awaited calls of a refresh, in order. */
  datatype RefreshCalls = RefreshCalls(
    updated: Call<()>,
    refreshed: Call<()>,
    forecast: Call<seq<ForecastItem>>,
    history: Call<seq<WeatherRecord>>)

  /** How far a refresh got: the number of awaited calls that resolved
      before the first rejection (4 when all did). */
  function Progress(calls: RefreshCalls): nat
  {
    if calls.updated.Rejected? then 0
    else if calls.refreshed.Rejected? then 1
    else if calls.forecast.Rejected? then 2
    else if calls.history.Rejected? then 3
    else 4
  }

  /** `handleRefresh()`: nothing happens without a truthy `savedId`.
      Otherwise the weather row is re-fetched (with the location on show;
      with no weather on show this throws before any request), the saved
      forecast is refreshed and re-read, and the history is re-listed; the
      weather on show is replaced only by a listed row with the same id.
      Each completed step's effect stays when a later one fails; the counter
      moves only when all four succeeded. The error line is not cleared
      first. */
  function HandleRefresh(st: ViewState, calls: RefreshCalls): (r: Step)
    ensures !HasSavedId(st) ==> r == Step(st, [])
    ensures HasSavedId(st) ==> !r.state.loading
    ensures r.state.savedId == st.savedId && r.state.modalOpen == st.modalOpen && r.state.videos == st.videos
    ensures HasSavedId(st) && st.weather.None? ==>
              r == Step(st.(error := RefreshFailedMessage, loading := false), [])
    ensures HasSavedId(st) && st.weather.Some? ==>
              var id := st.savedId.value;
              var all := [UpdateWeather(id, st.weather.value.Location()), RefreshForecast(id),
                          GetForecastHistory(id), GetWeatherHistory];
              var n := Progress(calls);
              && r.requests == all[..if n == 4 then 4 else n + 1]
              && (r.state.historyRefresh == st.historyRefresh + 1 <==> n == 4)
              && (n < 4 ==> r.state.historyRefresh == st.historyRefresh && r.state.error == RefreshFailedMessage)
              && (n == 4 ==> r.state.error == st.error)
              && (r.state.forecast == if n >= 3 then Some(ForecastReducer.ForecastData(Some(calls.forecast.value)))
                                      else st.forecast)
              && (n == 4 && FindById(calls.history.value, id).Some? ==>
                    r.state.weather == Some(Saved(FindById(calls.history.value, id).value)))
              && (n < 4 || FindById(calls.history.value, id).None? ==> r.state.weather == st.weather)
  {
    if !HasSavedId(st) then Step(st, [])
    else
      var id := st.savedId.value;
      var started := st.(loading := true);
      var failed := RefreshFailedMessage;
      match st.weather
      case None => Step(started.(error := failed, loading := false), [])
      case Some(w) =>
        var sent1 := [UpdateWeather(id, w.Location())];
        if calls.updated.Rejected? then Step(started.(error := failed, loading := false), sent1)
        else
          var sent2 := sent1 + [RefreshForecast(id)];
          if calls.refreshed.Rejected? then Step(started.(error := failed, loading := false), sent2)
          else
            var sent3 := sent2 + [GetForecastHistory(id)];
            if calls.forecast.Rejected? then Step(started.(error := failed, loading := false), sent3)
            else
              var shown := started.(forecast := Some(ForecastReducer.ForecastData(Some(calls.forecast.value))));
              var sent4 := sent3 + [GetWeatherHistory];
              if calls.history.Rejected? then Step(shown.(error := failed, loading := false), sent4)
              else
                var found := FindById(calls.history.value, id);
                var updated := if found.Some? then shown.(weather := Some(Saved(found.value))) else shown;
                Step(updated.(historyRefresh := st.historyRefresh + 1, loading := false), sent4)
  }

  /* ---- the view invariant ---- */

  /** `savedId` names exactly the history row on show: it is set precisely
      when a saved row is shown, and then it is that row's id. */
  predicate Consistent(st: ViewState)
  {
    && (st.savedId.Some? <==> st.weather.Some? && st.weather.value.Saved?)
    && (st.savedId.Some? ==> st.weather.value.record.id == st.savedId.value)
  }

  /** One event of the user interface, with the outcomes of its calls. */
  datatype Event =
    | Search(location: string, weather: Call<CurrentWeather>,
             forecast: Call<ForecastReducer.ForecastData>, videos: Call<seq<Video>>)
    | SaveClick
    | ConfirmSave(range: DateRangeModal.DateRange, saved: Call<()>)
    | Close
    | Select(record: WeatherRecord, selectForecast: Call<seq<ForecastItem>>, selectVideos: Call<seq<Video>>)
    | Refresh(calls: RefreshCalls)

  /** The state after one event. */
  function Next(st: ViewState, e: Event): (r: ViewState)
    ensures Consistent(st) ==> Consistent(r)
  {
    match e
    case Search(location, weather, forecast, videos) => HandleSearch(st, location, weather, forecast, videos).state
    case SaveClick => HandleSaveClick(st)
    case ConfirmSave(range, saved) => HandleConfirmSave(st, range, saved).state
    case Close => CloseModal(st)
    case Select(record, forecast, videos) => HandleHistorySelect(st, record, forecast, videos).state
    case Refresh(calls) => HandleRefresh(st, calls).state
  }

  /** The state after a run of events. */
  function Run(st: ViewState, events: seq<Event>): (r: ViewState)
    ensures Consistent(st) ==> Consistent(r)
    decreases |events|
  {
    if |events| == 0 then st else Run(Next(st, events[0]), events[1..])
  }

  lemma InitialConsistent()
    ensures Consistent(Initial)
  {
  }

  /** The refresh button only shows with a saved row on show; with live
      weather on show and no saved id, a refresh changes nothing. */
  lemma LiveWeatherRefreshIsInert(st: ViewState, calls: RefreshCalls)
    requires Consistent(st) && st.weather.Some? && st.weather.value.Live?
    ensures HandleRefresh(st, calls) == Step(st, [])
  {
  }
}
