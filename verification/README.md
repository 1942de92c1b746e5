# Weather app: a verified model of its sequential core

This Dafny project models the parts of a small weather client, and of the
FastAPI backend behind it, that are plain sequential rules:

- **`ForecastReducer`** (`forecast_reducer.dfy`) models the forecast strip's
  `processForecast`:
  - grouping sub-daily samples by the date part of their timestamp;
  - `Object.keys` ordering of the groups;
  - the `reduce` that keeps the sample nearest to noon;
  - the five-day cut.
  It also models the component's null guard and both `TypeError` paths of
  the code as written.
- **`IconMap`** (`icon_map.dfy`) models `getWeatherIcon` as a total function
  from icon-code text to an icon category.
- **`LocationInput`** (`location_input.dfy`) models the backend's
  `parse_location_input`. It strips the input and sorts it into coordinates,
  postal code or free-text query; the two regular expressions are
  hand-written predicates.
- **`DateRangeModal`** and **`WeatherForm`** (`date_range_modal.dfy`,
  `weather_form.dfy`) model the trip-date dialog's validation and the
  search form's submit guard.
- **`SavedLocations`** (`saved_locations.dfy`) models the history list:
  - the id-descending sort;
  - the confirmed delete with its reload;
  - what is rendered.
- **`App`** (`app.dfy`) models the view orchestrator as a state record with
  one total transition function per handler. Every awaited call is an input
  that either resolves with a payload or rejects.
- **`Backend`** (`backend.dfy`) models:
  - the status check of the two upstream fetch helpers;
  - the `/forecast` projection;
  - the CRUD endpoints over the two tables. The weather table is a finite
    map from id to row; the forecast table is a sequence of rows tagged
    with a weather id.
- **`Text`** and **`Records`** (`text.dfy`, `records.dfy`) hold the shared
  pieces:
  - the two whitespace sets: JavaScript's `trim`/`parseInt` and Python's
    `str.strip`;
  - decimal digits, and JavaScript string order by UTF-16 code units;
  - `Option`, and `Call` (the outcome of an awaited call);
  - the payload records.

## Model

| member | source | states |
|---|---|---|
| ForecastReducer.RenderForecast | frontend/src/components/Forecast.jsx:4-5 | The strip renders nothing exactly when the data or its `forecast` field is missing; otherwise it shows what `processForecast` returns for that list |
| ForecastReducer.EmptyForecastRendersNoDays | frontend/src/components/Forecast.jsx:5 | An empty list is truthy, so it is processed and yields no days rather than a null strip |
| ForecastReducer.FirstSep | frontend/src/components/Forecast.jsx:14 | The position `split(/[T ]/)` cuts at is the first 'T' or ' ', and there is none exactly when no character is a separator |
| ForecastReducer.TimestampParts | frontend/src/components/Forecast.jsx:13-14 | The date key is the text before the first separator and the time part is the text after it |
| ForecastReducer.SeparatorsAgree | frontend/src/components/Forecast.jsx:12-14 | "D HH:MM:SS" and "DTHH:MM:SS" get the same date key and the same hour, so live and saved forecasts group identically |
| ForecastReducer.WellFormedTimestamp | frontend/src/components/Forecast.jsx:28-31 | For a timestamp with a time part, the hour is the integer value of the digits before the first ':' |
| ForecastReducer.HourOfTime | frontend/src/components/Forecast.jsx:30 | `parseInt(timePart.split(':')[0], 10)` is the decimal value of the leading hour digits |
| ForecastReducer.ParseIntPrefix | frontend/src/components/Forecast.jsx:30 | `parseInt` reads the longest run of leading digits and ignores what follows them |
| ForecastReducer.ParseIntNaN | frontend/src/components/Forecast.jsx:30 | Text starting with anything but whitespace, a sign or a digit parses to NaN |
| ForecastReducer.BestIndex | frontend/src/components/Forecast.jsx:27-36 | The fold keeps a sample no numeric hour is nearer to noon than, and every earlier numeric hour is strictly farther (the strict `<` keeps the earlier sample on ties); when the first hour is NaN, nothing displaces the first sample |
| ForecastReducer.DateKeysSpec | frontend/src/components/Forecast.jsx:16-20 | The group keys hold every date key of the input exactly once and nothing else |
| ForecastReducer.DateKeysFirstAppearance | frontend/src/components/Forecast.jsx:16-20 | Keys are created in first-appearance order: an earlier key occurs in the input before any occurrence of a later key |
| ForecastReducer.GroupSpec | frontend/src/components/Forecast.jsx:16-19 | A sample is in a key's group exactly when it is in the input with that date key; a group is non-empty exactly when its key occurs |
| ForecastReducer.GroupConcat | frontend/src/components/Forecast.jsx:11-19 | The `push` loop keeps input order: the group of a concatenation is the first part's group followed by the second's, so "earliest" in a group is earliest in the input |
| ForecastReducer.RepresentativeChosen | frontend/src/components/Forecast.jsx:23-37 | Each group's representative is its earliest sample nearest to noon, or its first sample when that one's hour is NaN |
| ForecastReducer.ObjectKeys | frontend/src/components/Forecast.jsx:23 | `Object.keys` lists every own key once: a reordering of the insertion order |
| ForecastReducer.ObjectKeysLayout | frontend/src/components/Forecast.jsx:23 | Array-index keys come first in ascending numeric order, then the other keys in insertion order |
| ForecastReducer.SortAscending | frontend/src/components/Forecast.jsx:23 | The array-index keys are listed in ascending numeric order |
| ForecastReducer.ObjectKeysNoIndices | frontend/src/components/Forecast.jsx:23 | Without integer-like keys, `Object.keys` is the insertion order |
| ForecastReducer.DashedKeysNotIndices | frontend/src/components/Forecast.jsx:14 | Date keys containing '-' are never array indices |
| ForecastReducer.Representatives | frontend/src/components/Forecast.jsx:23-38 | The mapped list has one representative per key, in key order |
| ForecastReducer.ThrowingGroupHasUntimedSample | frontend/src/components/Forecast.jsx:27-30 | A group's reduce throws only if one of its samples has no time part and the group has at least two samples |
| ForecastReducer.UntimedSampleThrows | frontend/src/components/Forecast.jsx:27-30 | A sample with no time part that shares its date with another sample makes the reduce throw |
| ForecastReducer.ProcessForecastFails | frontend/src/components/Forecast.jsx:16-36 | `processForecast` throws exactly when a date key names an inherited `Object.prototype` member, or a sample without a time part shares its date with another sample |
| ForecastReducer.ProcessForecast | frontend/src/components/Forecast.jsx:8-41 | `processForecast` throws exactly when a date key names an inherited `Object.prototype` member or an untimed sample shares its date with another sample; otherwise it returns min(5, number of distinct dates) days |
| ForecastReducer.DayKey | frontend/src/components/Forecast.jsx:23-41 | The i-th day carries the i-th key that `Object.keys` lists |
| ForecastReducer.KeyCount | frontend/src/components/Forecast.jsx:16-23 | There are as many groups as distinct date keys |
| ForecastReducer.ProcessForecastDays | frontend/src/components/Forecast.jsx:16-41 | The result has min(5, number of distinct dates) entries. Each is an input sample chosen from its own date's group, and no two share a date |
| ForecastReducer.DayIsChosen | frontend/src/components/Forecast.jsx:23-41 | The i-th day is the sample chosen from the i-th key's group and carries that key |
| ForecastReducer.ProcessForecastFirstAppearance | frontend/src/components/Forecast.jsx:16-41 | With dashed date keys, the days come in the order their dates first appear in the input |
| IconMap.DigitsOf | frontend/src/utils/iconMap.js:27 | The numeric code holds only digits and leaves a digit string as it is; with `DigitsOfNoDigits` and `DigitsOfAppend` this fixes the result for every input |
| IconMap.DigitsOfNoDigits | frontend/src/utils/iconMap.js:27 | A string without digits is stripped to the empty code |
| IconMap.DigitsOfAppend | frontend/src/utils/iconMap.js:27 | Removing non-digits distributes over concatenation |
| IconMap.GetWeatherIcon | frontend/src/utils/iconMap.js:14-52 | A night variant (Moon, CloudMoon) is returned only for text containing 'n' |
| IconMap.SwitchOn | frontend/src/utils/iconMap.js:31-51 | The `switch` on the stripped code returns a night variant only when the night flag is set |
| IconMap.SwitchMatchesTable | frontend/src/utils/iconMap.js:31-51 | The `switch` gives, for every code and night flag, the reference table's day or night icon of the first entry listing the code, and Sun for an unlisted code |
| IconMap.MatchesTable | frontend/src/utils/iconMap.js:27-51 | The icon is the table entry for the input's digits, picked by whether the raw text contains 'n'; any other code gives Sun |
| IconMap.LookupFindsFirst | frontend/src/utils/iconMap.js:31-48 | The switch answers with the first case whose label equals the code |
| IconMap.LookupMissing | frontend/src/utils/iconMap.js:49-50 | A code matching no case falls to the Sun default |
| IconMap.UnknownCodeIsSun | frontend/src/utils/iconMap.js:49-50 | Any other code, including "99n" and "", gives Sun even at night |
| IconMap.IsDayIgnored | frontend/src/utils/iconMap.js:14 | The `isDay` argument never changes the result |
| IconMap.NightVariantIff | frontend/src/utils/iconMap.js:28-35 | A night variant appears exactly for codes "01"/"02" with an 'n' anywhere in the raw text |
| IconMap.ScatteredAndBrokenShareCloud | frontend/src/utils/iconMap.js:36-38 | Codes "03" and "04" give Cloud by day and by night |
| IconMap.WellFormedCode | frontend/src/utils/iconMap.js:15-29 | A two-digit code with a 'd' or 'n' suffix is looked up by its digits, with night exactly for 'n' |
| IconMap.ClearSkyExamples | frontend/src/utils/iconMap.js:32-35 | "01d" is Sun, "01n" is Moon, "02n" is CloudMoon |
| IconMap.CloudExamples | frontend/src/utils/iconMap.js:36-38 | "03d" and "04n" are both Cloud |
| IconMap.FallbackExamples | frontend/src/utils/iconMap.js:49-50 | "99n", "99d" and "" are Sun |
| LocationInput.ParseLocationInput | backend/app/utils.py:3-20 | The result is coordinates exactly when the stripped text matches the coordinate pattern, a postal code exactly when it matches only the postal pattern, and a query otherwise. Coordinates rejoin to the stripped text around ',' and both parts are decimals; the other two shapes keep the whole stripped text |
| LocationInput.StripInvariant | backend/app/utils.py:8 | Classifying the stripped text gives the same result as classifying the original |
| LocationInput.ParseStripped | backend/app/utils.py:8-20 | The three branches stated in terms of the stripped text |
| LocationInput.CoordinatesAndZipDisjoint | backend/app/utils.py:11-17 | No text matches both patterns |
| LocationInput.DigitPairIsCoordinates | backend/app/utils.py:11-16 | Two digit runs around a comma are coordinates, so "12345,67" is not a postal code |
| LocationInput.ZipWithCountry | backend/app/utils.py:16-17 | Four or five digits, a comma and two ASCII letters are a postal code, kept whole |
| LocationInput.NameIsQuery | backend/app/utils.py:20 | Comma-free text that is not all digits, and the empty text, become a query of the stripped text |
| LocationInput.CoordinateSplit | backend/app/utils.py:11-13 | Coordinate text splits at ',' into exactly two decimals that rejoin to it |
| LocationInput.UnsignedDecimalMatchesLanguage | backend/app/utils.py:11 | The hand-written unsigned-decimal predicate accepts exactly the language of `\d+(\.\d+)?` |
| LocationInput.DecimalHasNoComma | backend/app/utils.py:11-12 | A decimal contains no comma, so the split yields two parts |
| LocationInput.JoinSplit | backend/app/utils.py:12 | Splitting at a character and joining back gives the original text |
| DateRangeModal.Submit | frontend/src/components/DateRangeModal.jsx:15-27 | The confirm callback is called exactly when the dialog is open, both dates are non-empty and the end is not before the start, and it gets the dates unchanged with the error left as it was. The two error messages otherwise, and a closed dialog changes nothing |
| DateRangeModal.IsoDateOrder | frontend/src/components/DateRangeModal.jsx:22 | For zero-padded YYYY-MM-DD dates, the string comparison is chronological order |
| DateRangeModal.SubmitIsChronological | frontend/src/components/DateRangeModal.jsx:17-27 | With two ISO dates, an open dialog confirms exactly when the start day is not after the end day |
| DateRangeModal.MissingDateFirst | frontend/src/components/DateRangeModal.jsx:18-25 | A missing date is reported before the order check |
| WeatherForm.Submit | frontend/src/components/WeatherForm.jsx:6-12 | A search happens exactly when the text holds a non-whitespace character, with the raw untrimmed text, and the field is reset; a blank submit changes nothing |
| WeatherForm.ResubmitIsInert | frontend/src/components/WeatherForm.jsx:8-10 | Submitting again right after a search does nothing |
| SavedLocations.SortByIdDesc | frontend/src/components/SavedLocations.jsx:17 | `data.sort((a, b) => b.id - a.id)` returns a reordering of the rows with ids never increasing |
| SavedLocations.InsertNonIncreasing | frontend/src/components/SavedLocations.jsx:17 | Each step of the stable sort keeps the list ordered by id, largest first |
| SavedLocations.DescendingUnique | frontend/src/components/SavedLocations.jsx:17 | With unique ids there is only one strictly descending order of the rows |
| SavedLocations.LoadHistory | frontend/src/components/SavedLocations.jsx:12-22 | A fetched list replaces the history as a non-increasing reordering of it; a failed fetch keeps the previous history |
| SavedLocations.LoadedHistoryDescending | frontend/src/components/SavedLocations.jsx:14-18 | For primary-keyed rows the loaded history is strictly descending by id and a reordering of the fetched rows |
| SavedLocations.HandleDelete | frontend/src/components/SavedLocations.jsx:24-34 | A delete request goes out exactly when the user confirms; the list is reloaded exactly after a successful delete; otherwise the history is unchanged |
| SavedLocations.TripLine | frontend/src/components/SavedLocations.jsx:58-62 | The trip line appears exactly when both dates are present and non-empty, and shows them |
| SavedLocations.Render | frontend/src/components/SavedLocations.jsx:36-67 | Nothing is rendered for an empty history; otherwise one card per record, in history order |
| App.SearchStart | frontend/src/App.js:25-30 | A search starts with loading on, the error cleared, and the saved id, weather and forecast emptied |
| App.HandleSearch | frontend/src/App.js:25-55 | Weather and forecast are requested together and the videos only after both resolve. Success shows the two payloads and the videos with no saved id. Any failure, the video fetch included, sets the search error with weather and forecast empty and the videos unchanged. Loading ends off |
| App.HandleSaveClick | frontend/src/App.js:57-60 | With no weather nothing changes; otherwise only the dialog opens |
| App.CloseModal | frontend/src/App.js:195 | Closing the dialog changes nothing else |
| App.HandleConfirmSave | frontend/src/App.js:62-75 | The dialog always closes. The only request saves the shown location. The counter grows by exactly one on success; on failure, or with no weather to read, the save error is set and the counter stays. Weather, forecast and saved id stay |
| App.InvertedTripSendsNothing | frontend/src/components/DateRangeModal.jsx:22-25 | A trip whose start is after its end sends no save request and leaves the view unchanged; the dialog shows the order error |
| App.SubmitTripDates | frontend/src/components/DateRangeModal.jsx:17-27 | The dialog's submit wired to the save handler: a save request for the shown location goes out exactly when the dialog is open, both dates are set, the end is not before the start, and weather is on show; a rejected range leaves the view unchanged and sends nothing; the counter grows exactly when such a save succeeds |
| App.HandleHistorySelect | frontend/src/App.js:77-99 | The saved id and the row are shown before any fetch and stay if a fetch fails. A fetched forecast is wrapped as `{forecast: list}`, and a failed forecast fetch keeps the previous forecast. The videos are requested only after the forecast |
| App.FindById | frontend/src/App.js:115-116 | `find` returns a row with the requested id, and nothing exactly when no row has it |
| App.FindByIdFirst | frontend/src/App.js:116 | `find` returns the first row with the id |
| App.HandleRefresh | frontend/src/App.js:101-129 | Nothing happens without a truthy saved id. Otherwise the four requests go out in order up to the first failure, and each completed step's effect stays. The weather is replaced only by a listed row with the same id. The counter grows by one exactly on full success; any failure sets the refresh error |
| App.LiveWeatherRefreshIsInert | frontend/src/App.js:102 | With live (unsaved) weather on show, refresh does nothing |
| App.InitialConsistent | frontend/src/App.js:14-21 | Initially no saved id and no weather |
| App.Next | frontend/src/App.js:25-129 | Each handler's settled state keeps the saved id naming exactly the history row on show |
| App.Run | frontend/src/App.js:25-129 | A run of events keeps the saved id naming exactly the history row on show |
| Backend.Checked | backend/app/main.py:33-37 | A fetch succeeds exactly on status 200 and otherwise raises with the upstream status |
| Backend.UpstreamFor | backend/app/main.py:26-28 | Both fetch helpers ask the requested feed with the API key and metric units (the location parameters are the subject of `UpstreamIgnoresSurroundingSpace`) |
| Backend.UpstreamIgnoresSurroundingSpace | backend/app/main.py:26-28 | The upstream request carries `parse_location_input` of the location as its parameters, the key and metric units, and surrounding whitespace never changes it |
| Backend.GetWeather | backend/app/main.py:64-81 | `/weather` answers the location as typed, the resolved city and the reading, or the upstream status |
| Backend.Project | backend/app/main.py:93-102 | The projection has one item per upstream sample, in order, with its `dt_txt` and reading |
| Backend.GetForecast | backend/app/main.py:83-109 | `/forecast` answers the typed location, city, country and the projected list, or the upstream status |
| Backend.SaveWeather | backend/app/main.py:124-138 | A successful save adds exactly one row under a new id and changes nothing else; a failed fetch changes nothing |
| Backend.GetHistory | backend/app/main.py:142-146 | The history lists exactly the stored rows |
| Backend.HistoryHasNoTrips | backend/app/models/weather.py:5-16 | Listed rows never carry trip dates, so no history card shows a trip line |
| Backend.Rows | backend/app/main.py:215-228 | The insert loop adds one forecast row per upstream sample, in order, each under the given weather id with that sample's `dt_txt` and reading |
| Backend.RowsOf | backend/app/main.py:238 | `where(weather_id == id)` selects exactly the rows of that id and never more rows than the table holds |
| Backend.Without | backend/app/main.py:262-264 | The delete keeps exactly the rows of other ids |
| Backend.UpdateWeather | backend/app/main.py:149-174 | A missing id is 404 with no fetch. The row is re-fetched and rewritten only for a non-empty location that differs from the stored one; otherwise nothing is fetched or changed |
| Backend.DeleteWeather | backend/app/main.py:177-187 | A missing id is 404; otherwise exactly that weather row goes and the forecast rows stay |
| Backend.SaveForecast | backend/app/main.py:192-230 | A new weather row, then one forecast row per sample under its id. A failed forecast fetch keeps the new weather row; a failed weather fetch changes nothing |
| Backend.GetSavedForecast | backend/app/main.py:233-244 | The answer is exactly the id's forecast rows, or 404 when it has none |
| Backend.RefreshForecast | backend/app/main.py:247-286 | A missing weather row is 404. Otherwise the id's rows are deleted before the re-fetch, then the new samples are appended; the weather table is untouched |
| Backend.DeleteForecast | backend/app/main.py:289-299 | The id's forecast rows and weather row are removed, whether or not they exist; never 404 |
| Backend.DeleteForecastIdempotent | backend/app/main.py:293-298 | Deleting a saved search twice equals deleting it once |
| Backend.ListedAfterDelete | backend/app/main.py:289-299 | A history listing taken after the delete holds no record of the id, every other saved row, and nothing exactly when the id was the only row |
| Backend.DeleteHidesRecord | frontend/src/components/SavedLocations.jsx:24-34 | A confirmed delete that succeeds, followed by a reload of the table as the delete left it, shows no card for the id and still shows every other saved row; the list disappears exactly when that was the only row |
| Backend.SavedForecastReadsBack | backend/app/main.py:209-244 | In well-formed tables, a saved forecast reads back as exactly its samples' rows in order; an empty upstream list reads back as 404 |
| Backend.RefreshForecastRows | backend/app/main.py:261-284 | After a refresh the id's rows are exactly the new samples (none if the fetch failed), and other ids' rows are unchanged |
| Backend.SaveForecastValid | backend/app/main.py:201-228 | Saving a forecast keeps every forecast row attached to an existing weather row |
| Backend.ValidPreserved | backend/app/main.py:149-299 | Update, forecast refresh and forecast delete keep the tables well formed |
| Backend.UpdateWeatherValid | backend/app/main.py:149-174 | An update keeps the tables well formed: it rewrites at most one existing row and keeps the ids |
| Backend.RefreshForecastValid | backend/app/main.py:247-286 | A forecast refresh keeps every forecast row attached to an existing weather row, on success and on failure |
| Backend.RefreshWeatherValid | backend/app/main.py:157-172 | The intended re-fetch keeps the tables well formed |
| Backend.DeleteWeatherStrandsForecast | backend/app/main.py:185-186 | Deleting a weather row that has forecast rows strands them, breaking well-formedness |
| Backend.RefreshKeepsStaleWeather | backend/app/main.py:158 | Asking to update a row with the location the history lists for it fetches nothing and changes nothing |
| Backend.RefreshWeather | backend/app/main.py:157-172 | The intended re-fetch: the stored location is fetched again and only the row's reading changes |
| Backend.RefreshSavedSearch | frontend/src/App.js:104-108 | The backend side of the refresh button with the intended re-fetch: a missing id is 404 with nothing fetched; a failed weather fetch changes nothing and skips the forecast; it succeeds exactly when both fetches do, fetching the stored location for the weather and then the forecast |
| Backend.RefreshSavedSearchValid | frontend/src/App.js:104-108 | Refreshing a saved search keeps the tables well formed whichever step fails |
| Backend.RefreshSavedSearchIsFresh | frontend/src/App.js:104-108 | With the intended re-fetch, a successful refresh leaves the saved row with the fresh reading and its forecast with exactly the fresh samples; other saved searches are unchanged |
| Text.TrimEmptyIff | frontend/src/components/WeatherForm.jsx:8 | Trimming leaves nothing exactly when the text is all whitespace |
| Text.Trim | backend/app/utils.py:8 | The stripped text neither starts nor ends with whitespace, is no longer than the input, and is the input itself when that already holds; `TrimIsSlice` fixes which piece of the input it is |
| Text.TrimIsSlice | backend/app/utils.py:8 | The stripped text is a contiguous slice of the input with only whitespace before and after it |
| Text.TrimIdempotent | backend/app/utils.py:8 | Stripping twice is stripping once |
| Text.DigitStringOrder | frontend/src/components/DateRangeModal.jsx:22 | For digit strings of one length, string order is numeric order |

## Left out

- `backend/app/main.py:9` imports `forecast_searches` from `app/models/weather.py`, which defines only `weather_searches` (weather.py:5-16), so the backend as given does not start. The model assumes a forecast table with exactly the columns the inserts name (main.py:219-227: `weather_id`, `datetime`, `temperature`, `feels_like`, `humidity`, `weather`, `icon`) and no `ON DELETE CASCADE` from `weather_searches`. `Backend.DeleteWeather` ("the forecast rows stay") and `Backend.DeleteWeatherStrandsForecast` describe the tables only under that assumption; with a cascading foreign key, deleting a weather row would also remove its forecast rows.
- `frontend/src/App.js:11` imports `getYouTubeVideos`, `updateWeather` and `getExportUrl` from `weatherService.js`, which defines none of them. A bundler that checks named exports, or native ES modules, rejects the import; otherwise the first render calls `getExportUrl('csv')` (App.js:138-139) on `undefined` and throws, so no handler is ever reached and the frontend as given does not render. The model assumes a service layer that defines all three, and takes each awaited call as an outcome that either resolves or rejects. The export links `getExportUrl` builds are rendering only and are not modelled.
- A video failure during a search takes the search error path and clears weather and forecast, because `getYouTubeVideos` is awaited inside the same `try` as the weather and forecast requests (frontend/src/App.js:39-43). The model has no separate, swallowed video failure.
- `saveForecast` sends only the location, so the trip dates never reach the backend and are not modelled as stored.
- HTTP and frameworks are not modelled: FastAPI routing and query validation, the `databases` connection lifecycle, `requests`, the thread pool, dotenv and the API-key check, and the root endpoint's fixed message. Upstream payloads are taken as well formed, so a missing JSON field, which would raise a server error, is not modelled.
- `app/database.py` is not part of this model, so the id rule is assumed: new weather ids come from a key sequence that never hands out an id twice. A database that reuses the largest id after a delete would behave differently once `delete_weather` has stranded forecast rows.
- Stored forecast timestamps stay the upstream `dt_txt` text. The `strptime` parse, and a parse failure part-way through the insert loop, are not modelled.
- Forecast rows are read back in table (insertion) order, which SQL does not promise without `ORDER BY`. The weather history is modelled as a set with no order at all (`Backend.GetHistory`); the client sorts it by id before showing it, so its order never reaches the screen. The insertion time of a weather row is an input (`now`) rather than a clock.
- Temperatures, feels-like and humidity are opaque `real` payload fields. `Math.round` and floating-point formatting are not modelled.
- Rendering is not modelled: JSX, the map, video and footer components, day names from `new Date`/`getDay`, `toLocaleDateString`, and the dialog's default dates. `window.alert` and `console.error` are left out. `window.confirm` is a boolean input.
- Concurrency is reduced: `Promise.all` is "both resolve or the handler fails". Overlapping handlers, stale responses and React's batching of intermediate states are not modelled; each handler is its settled state, plus the start of a search.
- LocationInput.ParseLocationInput: Python's `\d` also matches non-ASCII decimal digits; the model accepts ASCII digits only.
- ForecastReducer.ProcessForecast: timestamps are strings, so `String(item.datetime)` on a non-string value is not modelled. `parseInt` values are exact integers, without the precision loss of very long digit runs.

## Findings

| source | as written | input that shows it | evidently intended | confidence | as-written member | corrected member |
|---|---|---|---|---|---|---|
| frontend/src/App.js:106 | The refresh asks `update_weather` for the saved row with `weather.location`, which is the stored location of that same row. `update_weather` (backend/app/main.py:158) re-fetches only when the location differs, so the saved current weather is never refreshed | any saved search: select it from the history and press refresh | the row's current weather is re-fetched for its stored location, as the comment on line 105 says | medium; not executed | Backend.RefreshKeepsStaleWeather | Backend.RefreshWeather |
