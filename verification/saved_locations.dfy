/** The saved-search list: loading and ordering the history, the confirmed
    delete with its reload, and which cards it shows. */
module SavedLocations {
  import opened Records

  /* ---- ordering: data.sort((a, b) => b.id - a.id) ---- */

  /** Ids never increase along the list. */
  predicate NonIncreasing(s: seq<WeatherRecord>)
  {
    forall i, j :: 0 <= i < j < |s| ==> s[i].id >= s[j].id
  }

  /** Ids strictly decrease along the list. */
  predicate StrictlyDescending(s: seq<WeatherRecord>)
  {
    forall i, j :: 0 <= i < j < |s| ==> s[i].id > s[j].id
  }

  /** No two records share an id, as for rows keyed by a primary key. */
  predicate UniqueIds(s: seq<WeatherRecord>)
  {
    forall i, j :: 0 <= i < j < |s| ==> s[i].id != s[j].id
  }

  /** Places `r` after every record whose id is at least its own, so records
      with equal ids keep their input order (the sort is stable). */
  function InsertById(r: WeatherRecord, sorted: seq<WeatherRecord>): (out: seq<WeatherRecord>)
    ensures multiset(out) == multiset(sorted) + multiset{r}
  {
    if |sorted| == 0 then [r]
    else if sorted[0].id < r.id then [r] + sorted
    else
      assert sorted == [sorted[0]] + sorted[1..];
      [sorted[0]] + InsertById(r, sorted[1..])
  }

  /** The history ordering: a stable sort by id, largest first. */
  function SortByIdDesc(data: seq<WeatherRecord>): (out: seq<WeatherRecord>)
    ensures multiset(out) == multiset(data)
    ensures NonIncreasing(out)
  {
    if |data| == 0 then []
    else
      assert data == data[..|data| - 1] + [data[|data| - 1]];
      var sorted := SortByIdDesc(data[..|data| - 1]);
      InsertNonIncreasing(data[|data| - 1], sorted);
      InsertById(data[|data| - 1], sorted)
  }

  /** A list stays non-increasing with a head at least as large as every
      element. */
  lemma NonIncreasingCons(r: WeatherRecord, s: seq<WeatherRecord>)
    requires NonIncreasing(s)
    requires forall k :: 0 <= k < |s| ==> s[k].id <= r.id
    ensures NonIncreasing([r] + s)
  {
    var t := [r] + s;
    forall i, j | 0 <= i < j < |t| ensures t[i].id >= t[j].id {
      assert t[j] == s[j - 1];
      if i > 0 { assert t[i] == s[i - 1]; }
    }
  }

  /** An upper bound of a list and of the inserted record bounds the result. */
  lemma InsertUpperBound(r: WeatherRecord, sorted: seq<WeatherRecord>, bound: int)
    requires r.id <= bound
    requires forall k :: 0 <= k < |sorted| ==> sorted[k].id <= bound
    ensures forall k :: 0 <= k < |InsertById(r, sorted)| ==> InsertById(r, sorted)[k].id <= bound
  {
    var out := InsertById(r, sorted);
    forall k | 0 <= k < |out| ensures out[k].id <= bound {
      assert out[k] in multiset(sorted) + multiset{r};
      if out[k] != r {
        assert out[k] in sorted;
      }
    }
  }

  /** Inserting into a non-increasing list keeps it non-increasing. */
  lemma {:induction false} InsertNonIncreasing(r: WeatherRecord, sorted: seq<WeatherRecord>)
    requires NonIncreasing(sorted)
    ensures NonIncreasing(InsertById(r, sorted))
    decreases |sorted|
  {
    if |sorted| > 0 {
      if sorted[0].id < r.id {
        NonIncreasingCons(r, sorted);
      } else {
        var tail := sorted[1..];
        InsertNonIncreasing(r, tail);
        InsertUpperBound(r, tail, sorted[0].id);
        NonIncreasingCons(sorted[0], InsertById(r, tail));
      }
    }
  }

  /** Reordering keeps ids unique. */
  lemma UniqueIdsPermutation(a: seq<WeatherRecord>, b: seq<WeatherRecord>)
    requires multiset(a) == multiset(b) && UniqueIds(a)
    ensures UniqueIds(b)
  {
    assert Distinct(a) by {
      forall x, y | 0 <= x < y < |a| ensures a[x] != a[y] {
        assert a[x].id != a[y].id;
      }
    }
    DistinctPermutation(a, b);
    forall i, j | 0 <= i < j < |b| ensures b[i].id != b[j].id {
      assert b[i] in multiset(a) && b[j] in multiset(a);
      var p :| 0 <= p < |a| && a[p] == b[i];
      var q :| 0 <= q < |a| && a[q] == b[j];
      assert b[i] != b[j];
    }
  }

  /** With unique ids, the history is strictly descending by id. */
  lemma SortedStrictly(data: seq<WeatherRecord>)
    requires UniqueIds(data)
    ensures StrictlyDescending(SortByIdDesc(data))
  {
    UniqueIdsPermutation(data, SortByIdDesc(data));
  }

  /** Two strictly descending reorderings of the same non-empty rows
      start with the same row, the one with the largest id. */
  lemma DescendingHeads(a: seq<WeatherRecord>, b: seq<WeatherRecord>)
    requires multiset(a) == multiset(b) && |a| > 0
    requires StrictlyDescending(a) && StrictlyDescending(b)
    ensures |b| == |a| && a[0] == b[0]
  {
    assert |b| == |a| by {
      assert |multiset(a)| == |multiset(b)|;
    }
    assert a[0] in multiset(b) && b[0] in multiset(a);
    var p :| 0 <= p < |b| && b[p] == a[0];
    var q :| 0 <= q < |a| && a[q] == b[0];
    assert a[0].id >= b[0].id;
    assert b[0].id >= a[0].id;
    assert p == 0;
  }

  /** Dropping the same head from two reorderings of the same rows leaves
      reorderings of the same rows. */
  lemma TailsPermutation(a: seq<WeatherRecord>, b: seq<WeatherRecord>)
    requires multiset(a) == multiset(b) && |a| > 0 && |b| > 0 && a[0] == b[0]
    ensures multiset(a[1..]) == multiset(b[1..])
  {
    assert a == [a[0]] + a[1..] && b == [b[0]] + b[1..];
    assert multiset(a[1..]) == multiset(a) - multiset{a[0]};
    assert multiset(b[1..]) == multiset(b) - multiset{b[0]};
  }

  /** Two strictly descending reorderings of the same rows are the same
      list: with unique ids there is one history order, whatever algorithm
      produced it. */
  lemma {:induction false} DescendingUnique(a: seq<WeatherRecord>, b: seq<WeatherRecord>)
    requires multiset(a) == multiset(b)
    requires StrictlyDescending(a) && StrictlyDescending(b)
    ensures a == b
    decreases |a|
  {
    if |a| == 0 {
      assert |multiset(b)| == 0;
    } else {
      DescendingHeads(a, b);
      TailsPermutation(a, b);
      DescendingUnique(a[1..], b[1..]);
      assert a == [a[0]] + a[1..] && b == [b[0]] + b[1..];
    }
  }

  /* ---- loadHistory and handleDelete ---- */

  /** `loadHistory`: a fetched list replaces the history, sorted; a failed
      fetch is logged and the history stays as it was. */
  function LoadHistory(history: seq<WeatherRecord>, fetched: Call<seq<WeatherRecord>>): (r: seq<WeatherRecord>)
    ensures fetched.Rejected? ==> r == history
    ensures fetched.Resolved? ==> multiset(r) == multiset(fetched.value) && NonIncreasing(r)
  {
    match fetched
    case Rejected => history
    case Resolved(data) => SortByIdDesc(data)
  }

  /** A loaded history of primary-keyed rows is the fetched rows in strictly
      descending id order. */
  lemma LoadedHistoryDescending(history: seq<WeatherRecord>, data: seq<WeatherRecord>)
    requires UniqueIds(data)
    ensures var r := LoadHistory(history, Resolved(data));
            StrictlyDescending(r) && multiset(r) == multiset(data)
  {
    SortedStrictly(data);
  }

  /** The requests the list sends. `deleteWeatherRecord` uses the endpoint
      that removes the saved forecast together with its weather row. */
  datatype Request = DeleteForecast(id: int) | ListHistory

  /** The list after a delete click and the requests it sent, in order. */
  datatype DeleteResult = DeleteResult(history: seq<WeatherRecord>, requests: seq<Request>)

  /** `handleDelete(e, id)`: the user's answer to the confirmation prompt is
      `confirmed`. A delete request goes out only after a yes; the history is
      reloaded only when the delete succeeded, and the reload's own failure
      keeps the old list. */
  function HandleDelete(history: seq<WeatherRecord>, id: int, confirmed: bool,
                        deleted: Call<()>, reloaded: Call<seq<WeatherRecord>>): (r: DeleteResult)
    ensures (DeleteForecast(id) in r.requests) <==> confirmed
    ensures (ListHistory in r.requests) <==> confirmed && deleted.Resolved?
    ensures !(confirmed && deleted.Resolved?) ==> r.history == history
    ensures confirmed && deleted.Resolved? ==>
              r.requests == [DeleteForecast(id), ListHistory] && r.history == LoadHistory(history, reloaded)
  {
    if !confirmed then DeleteResult(history, [])
    else match deleted
      case Rejected => DeleteResult(history, [DeleteForecast(id)])
      case Resolved(_) => DeleteResult(LoadHistory(history, reloaded), [DeleteForecast(id), ListHistory])
  }

  /* ---- what is shown ---- */

  /** The trip line of a card, `Trip: start to end`. */
  datatype Trip = Trip(start: string, end: string)

  /** One card: the record it selects and its optional trip line. */
  datatype Card = Card(record: WeatherRecord, trip: Option<Trip>)

  /** `record.start_date && record.end_date`: both present and non-empty. */
  function TripLine(record: WeatherRecord): (r: Option<Trip>)
    ensures r.Some? <==> record.startDate.Some? && record.endDate.Some?
                         && record.startDate.value != [] && record.endDate.value != []
    ensures r.Some? ==> r.value == Trip(record.startDate.value, record.endDate.value)
  {
    if record.startDate.Some? && record.endDate.Some?
       && record.startDate.value != [] && record.endDate.value != []
    then Some(Trip(record.startDate.value, record.endDate.value))
    else None
  }

  /** The rendered list: nothing for an empty history, otherwise one card
      per record in history order. */
  function Render(history: seq<WeatherRecord>): (r: Option<seq<Card>>)
    ensures r.None? <==> |history| == 0
    ensures r.Some? ==> |r.value| == |history|
                        && forall i :: 0 <= i < |history| ==> r.value[i] == Card(history[i], TripLine(history[i]))
  {
    if |history| == 0 then None
    else Some(seq(|history|, i requires 0 <= i < |history| => Card(history[i], TripLine(history[i]))))
  }
}
