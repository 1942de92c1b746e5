/** The forecast panel's day reducer (`processForecast` with its `getHour`
    helper) and the panel's null guard. Sub-daily samples are grouped by the
    date prefix of their timestamp into a plain JavaScript object; the
    object's keys are listed in `Object.keys` order; each group is reduced to
    the sample whose hour is closest to noon; the first five survive.

    The JavaScript details that decide the result are written out: `split`
    on `/[T ]/`, `parseInt` with its NaN, the strict `<` that is false on
    NaN, `reduce` without an initial value, the ordering of integer-like
    property names, and the TypeErrors thrown when a date key names an
    inherited property or when a sample without a time part is compared. */
module ForecastReducer {
  import opened Records
  import opened Text

  /* ---- the timestamp pieces ---- */

  /** The characters of the class `[T ]`. */
  predicate IsSep(c: char) { c == 'T' || c == ' ' }

  /** Position of the first separator in `s`, if any. */
  function FirstSep(s: string): (r: Option<nat>)
    ensures r.Some? ==> r.value < |s| && IsSep(s[r.value])
                        && forall j :: 0 <= j < r.value ==> !IsSep(s[j])
    ensures r.None? ==> forall j :: 0 <= j < |s| ==> !IsSep(s[j])
  {
    if |s| == 0 then None
    else if IsSep(s[0]) then Some(0)
    else match FirstSep(s[1..])
      case None => None
      case Some(k) => Some(k + 1)
  }

  /** `String(dt).split(/[T ]/)[0]`: the text before the first separator,
      or all of it. */
  function DateKey(datetime: string): string
  {
    match FirstSep(datetime)
    case None => datetime
    case Some(k) => datetime[..k]
  }

  /** `String(dt).split(/[T ]/)[1]`: the text between the first and the
      second separator; `None` stands for `undefined` (no separator). */
  function TimePart(datetime: string): Option<string>
  {
    match FirstSep(datetime)
    case None => None
    case Some(k) =>
      var rest := datetime[k + 1..];
      match FirstSep(rest)
      case None => Some(rest)
      case Some(j) => Some(rest[..j])
  }

  /** `timePart.split(':')[0]`. */
  function HourText(time: string): string
  {
    match IndexOf(time, ':')
    case None => time
    case Some(k) => time[..k]
  }

  /* ---- parseInt(_, 10) ---- */

  /** What `parseInt` returns: an integer or NaN. */
  datatype Number = NaN | Int(value: int)

  /** The longest prefix of ASCII digits. */
  function DigitPrefix(s: string): (r: string)
    ensures AllDigits(r) && r <= s
    ensures |r| < |s| ==> !IsDigit(s[|r|])
  {
    if |s| > 0 && IsDigit(s[0]) then [s[0]] + DigitPrefix(s[1..]) else []
  }

  /** `parseInt(s, 10)`: skip leading whitespace, read one optional sign,
      then the longest run of decimal digits; NaN when that run is empty.
      `ParseIntPrefix` and `ParseIntNaN` say what it reads. */
  function ParseInt(s: string): Number
  {
    ParseSigned(TrimStart(JavaScript, s))
  }

  /** One optional sign, then the digits. */
  function ParseSigned(t: string): Number
  {
    if |t| > 0 && t[0] == '-' then
      match ParseDigits(t[1..])
      case NaN => NaN
      case Int(v) => Int(-v)
    else if |t| > 0 && t[0] == '+' then ParseDigits(t[1..])
    else ParseDigits(t)
  }

  /** The longest run of leading digits as a number; NaN when it is empty. */
  function ParseDigits(body: string): Number
  {
    var digits := DigitPrefix(body);
    if |digits| == 0 then NaN else Int(DecimalValue(digits))
  }

  /** `parseInt` reads the leading digits and ignores what follows them. */
  lemma ParseIntPrefix(digits: string, rest: string)
    requires |digits| > 0 && AllDigits(digits)
    requires rest == [] || !IsDigit(rest[0])
    ensures ParseInt(digits + rest) == Int(DecimalValue(digits))
  {
    var s := digits + rest;
    assert s[0] == digits[0];
    DigitPrefixOf(digits, rest);
    ParseIntDigitStart(s);
  }

  /** A string that starts with a digit parses as its leading digits. */
  lemma ParseIntDigitStart(s: string)
    requires |s| > 0 && IsDigit(s[0])
    ensures ParseInt(s) == Int(DecimalValue(DigitPrefix(s)))
  {
    DigitIsNotSpace(JavaScript, s[0]);
    assert TrimStart(JavaScript, s) == s;
    assert ParseSigned(s) == ParseDigits(s);
    assert |DigitPrefix(s)| > 0;
  }

  lemma {:induction false} DigitPrefixOf(digits: string, rest: string)
    requires AllDigits(digits)
    requires rest == [] || !IsDigit(rest[0])
    ensures DigitPrefix(digits + rest) == digits
    decreases |digits|
  {
    if |digits| == 0 {
      assert digits + rest == rest;
    } else {
      assert (digits + rest)[1..] == digits[1..] + rest;
      DigitPrefixOf(digits[1..], rest);
    }
  }

  /** A string that does not start with whitespace, a sign or a digit is
      NaN. */
  lemma ParseIntNaN(s: string)
    requires |s| > 0 && !IsSpace(JavaScript, s[0]) && !IsDigit(s[0])
    requires s[0] != '-' && s[0] != '+'
    ensures ParseInt(s) == NaN
  {
  }

  /* ---- getHour and the reducer's comparison ---- */

  /** `getHour(dt)`: `None` where the helper throws a TypeError (there is no
      time part to split); otherwise `parseInt` of the text before the
      first ':'. */
  function GetHour(datetime: string): Option<Number>
  {
    match TimePart(datetime)
    case None => None
    case Some(time) => Some(ParseInt(HourText(time)))
  }

  /** `Math.abs(hour - 12)`. */
  function NoonDistance(hour: int): nat
  {
    if hour >= 12 then hour - 12 else 12 - hour
  }

  /** The reducer's test `Math.abs(currentHour - noon) < Math.abs(closestHour
      - noon)`: strict, and false as soon as either side is NaN. */
  predicate Closer(current: Number, closest: Number)
  {
    current.Int? && closest.Int? && NoonDistance(current.value) < NoonDistance(closest.value)
  }

  /** The index `reduce` settles on for the hours `hs`, read left to right
      with the first item as the starting accumulator. When the first hour is
      a number, the result is the earliest item whose hour is nearest to
      noon, NaN hours being skipped. A NaN first hour is never displaced. */
  function BestIndex(hs: seq<Number>): (r: nat)
    requires |hs| > 0
    ensures r < |hs|
    ensures hs[0].NaN? ==> r == 0
    ensures hs[0].Int? ==> hs[r].Int?
    ensures hs[0].Int? ==> forall j :: 0 <= j < |hs| && hs[j].Int? ==>
                             NoonDistance(hs[r].value) <= NoonDistance(hs[j].value)
    ensures hs[0].Int? ==> forall j :: 0 <= j < r && hs[j].Int? ==>
                             NoonDistance(hs[r].value) < NoonDistance(hs[j].value)
    decreases |hs|
  {
    if |hs| == 1 then 0
    else
      var b := BestIndex(hs[..|hs| - 1]);
      if Closer(hs[|hs| - 1], hs[b]) then |hs| - 1 else b
  }

  /* ---- grouping into `dailyData` ---- */

  /** Some sample of `list` has date key `key`. */
  predicate HasKey(list: seq<ForecastItem>, key: string)
  {
    exists i :: 0 <= i < |list| && DateKey(list[i].datetime) == key
  }

  /** The date keys in the order the grouping loop creates them: a key is
      added when a sample first carries it. */
  function DateKeys(list: seq<ForecastItem>): seq<string>
    decreases |list|
  {
    if |list| == 0 then []
    else
      var keys := DateKeys(list[..|list| - 1]);
      var key := DateKey(list[|list| - 1].datetime);
      if key in keys then keys else keys + [key]
  }

  /** The key list holds each key of the input exactly once. */
  lemma {:induction false} DateKeysSpec(list: seq<ForecastItem>)
    ensures Distinct(DateKeys(list))
    ensures forall key :: key in DateKeys(list) <==> HasKey(list, key)
    decreases |list|
  {
    if |list| > 0 {
      var init := list[..|list| - 1];
      var last := DateKey(list[|list| - 1].datetime);
      DateKeysSpec(init);
      forall key ensures HasKey(list, key) <==> HasKey(init, key) || key == last {
        if HasKey(init, key) {
          var i :| 0 <= i < |init| && DateKey(init[i].datetime) == key;
          assert list[i] == init[i];
        }
        if HasKey(list, key) && key != last {
          var i :| 0 <= i < |list| && DateKey(list[i].datetime) == key;
          assert list[i] == init[i];
        }
      }
    }
  }

  /** Adding a sample keeps the earlier keys in place and adds at most
      its own key at the end. */
  lemma DateKeysSnoc(list: seq<ForecastItem>)
    requires |list| > 0
    ensures var keys := DateKeys(list[..|list| - 1]);
            var last := DateKey(list[|list| - 1].datetime);
            DateKeys(list) == if last in keys then keys else keys + [last]
  {
  }

  /** A key of the earlier samples that occurs at `q` also occurs among the
      earlier samples, no later than `q`. */
  lemma OccursInInit(list: seq<ForecastItem>, key: string, q: nat) returns (i: nat)
    requires 0 < |list| && q < |list| && DateKey(list[q].datetime) == key
    requires key in DateKeys(list[..|list| - 1])
    ensures i <= q && i < |list| - 1 && DateKey(list[i].datetime) == key
  {
    var init := list[..|list| - 1];
    if q < |list| - 1 {
      i := q;
    } else {
      DateKeysSpec(init);
      var j :| 0 <= j < |init| && DateKey(init[j].datetime) == key;
      assert init[j] == list[j];
      i := j;
    }
  }

  /** A key new at the last sample occurs only there. */
  lemma NewKeyOnlyLast(list: seq<ForecastItem>, q: nat)
    requires 0 < |list| && q < |list|
    requires DateKey(list[q].datetime) == DateKey(list[|list| - 1].datetime)
    requires DateKey(list[|list| - 1].datetime) !in DateKeys(list[..|list| - 1])
    ensures q == |list| - 1
  {
    var init := list[..|list| - 1];
    DateKeysSpec(init);
    forall i | 0 <= i < |init| ensures DateKey(list[i].datetime) in DateKeys(init) {
      assert init[i] == list[i];
    }
  }

  /** A key of the earlier samples occurs before the last sample. */
  lemma OccursBeforeLast(list: seq<ForecastItem>, key: string) returns (p: nat)
    requires 0 < |list| && key in DateKeys(list[..|list| - 1])
    ensures p < |list| - 1 && DateKey(list[p].datetime) == key
  {
    var init := list[..|list| - 1];
    DateKeysSpec(init);
    var j :| 0 <= j < |init| && DateKey(init[j].datetime) == key;
    assert init[j] == list[j];
    p := j;
  }

  /** A key's position in the key list follows the input: for two keys, the
      earlier one occurs in the input before any occurrence of the later
      one. */
  lemma {:induction false} DateKeysFirstAppearance(list: seq<ForecastItem>, a: nat, b: nat, q: nat)
    requires a < b < |DateKeys(list)|
    requires q < |list| && DateKey(list[q].datetime) == DateKeys(list)[b]
    ensures exists p :: 0 <= p < q && DateKey(list[p].datetime) == DateKeys(list)[a]
    decreases |list|
  {
    var n := |list| - 1;
    var init := list[..n];
    var keys := DateKeys(init);
    DateKeysSnoc(list);
    if b < |keys| {
      assert DateKeys(list)[b] == keys[b] && DateKeys(list)[a] == keys[a];
      var i := OccursInInit(list, keys[b], q);
      assert init[i] == list[i];
      DateKeysFirstAppearance(init, a, b, i);
      var p :| 0 <= p < i && DateKey(init[p].datetime) == keys[a];
      assert list[p] == init[p];
    } else {
      assert DateKeys(list)[a] == keys[a];
      NewKeyOnlyLast(list, q);
      var p := OccursBeforeLast(list, keys[a]);
    }
  }

  /** `dailyData[key]`: the samples carrying `key`, in input order. */
  function Group(list: seq<ForecastItem>, key: string): seq<ForecastItem>
  {
    if |list| == 0 then []
    else (if DateKey(list[0].datetime) == key then [list[0]] else []) + Group(list[1..], key)
  }

  /** A group holds exactly the samples carrying its key. */
  lemma {:induction false} GroupSpec(list: seq<ForecastItem>, key: string)
    ensures forall item :: item in Group(list, key) <==> item in list && DateKey(item.datetime) == key
    ensures |Group(list, key)| > 0 <==> HasKey(list, key)
  {
    if |list| > 0 {
      GroupSpec(list[1..], key);
      assert list == [list[0]] + list[1..];
    }
    if HasKey(list, key) {
      var i :| 0 <= i < |list| && DateKey(list[i].datetime) == key;
      assert list[i] in Group(list, key);
    }
  }

  /** Grouping keeps input order: the group of `a + b` is the group of `a`
      followed by the group of `b`. */
  lemma {:induction false} GroupConcat(a: seq<ForecastItem>, b: seq<ForecastItem>, key: string)
    ensures Group(a + b, key) == Group(a, key) + Group(b, key)
    decreases |a|
  {
    if |a| == 0 {
      assert a + b == b;
    } else {
      var ab := a + b;
      var head := if DateKey(a[0].datetime) == key then [a[0]] else [];
      assert ab[0] == a[0];
      assert ab[1..] == a[1..] + b;
      calc {
        Group(ab, key);
        head + Group(a[1..] + b, key);
        { GroupConcat(a[1..], b, key); }
        head + (Group(a[1..], key) + Group(b, key));
        (head + Group(a[1..], key)) + Group(b, key);
        Group(a, key) + Group(b, key);
      }
    }
  }

  /* ---- reducing a group ---- */

  /** Every sample of the group has a time part, so `getHour` never throws. */
  predicate HasAllHours(group: seq<ForecastItem>)
  {
    forall j :: 0 <= j < |group| ==> GetHour(group[j].datetime).Some?
  }

  /** `reduce` calls its callback, and so `getHour` on every sample, exactly
      when the group has two or more samples. */
  predicate Throws(group: seq<ForecastItem>)
  {
    |group| >= 2 && !HasAllHours(group)
  }

  /** The parsed hours of a group. */
  function Hours(group: seq<ForecastItem>): (hs: seq<Number>)
    requires HasAllHours(group)
    ensures |hs| == |group|
    ensures forall j :: 0 <= j < |group| ==> GetHour(group[j].datetime) == Some(hs[j])
  {
    if |group| == 0 then [] else [GetHour(group[0].datetime).value] + Hours(group[1..])
  }

  /** `dayItems.reduce(...)` without an initial value: a one-sample group is
      returned untouched, a longer one is folded from its first sample. */
  function Representative(group: seq<ForecastItem>): ForecastItem
    requires |group| > 0 && !Throws(group)
  {
    if |group| == 1 then group[0] else group[BestIndex(Hours(group))]
  }

  /** The sample has a time part and its hour text parses to a number. */
  predicate NumericHour(item: ForecastItem)
  {
    GetHour(item.datetime).Some? && GetHour(item.datetime).value.Int?
  }

  function HourValue(item: ForecastItem): int
    requires NumericHour(item)
  {
    GetHour(item.datetime).value.value
  }

  /** `item` is the sample at `p` of `group`, no numeric-hour sample of the
      group is nearer to noon, and every earlier one is strictly farther. */
  predicate NearestToNoonAt(group: seq<ForecastItem>, item: ForecastItem, p: nat)
  {
    && p < |group| && group[p] == item && NumericHour(item)
    && (forall j :: 0 <= j < |group| && NumericHour(group[j]) ==>
          NoonDistance(HourValue(item)) <= NoonDistance(HourValue(group[j])))
    && (forall j :: 0 <= j < p && NumericHour(group[j]) ==>
          NoonDistance(HourValue(item)) < NoonDistance(HourValue(group[j])))
  }

  /** What the reducer keeps of a group: when the first sample's hour is a
      number, the earliest sample nearest to noon; otherwise the first
      sample, which nothing can displace. */
  predicate ChosenFrom(group: seq<ForecastItem>, item: ForecastItem)
  {
    && |group| > 0
    && (if NumericHour(group[0]) then exists p :: 0 <= p < |group| && NearestToNoonAt(group, item, p)
        else item == group[0])
  }

  /** The representative is the sample nearest to noon, earliest on ties. */
  lemma RepresentativeChosen(group: seq<ForecastItem>)
    requires |group| > 0 && !Throws(group)
    ensures ChosenFrom(group, Representative(group))
  {
    if |group| == 1 {
      if NumericHour(group[0]) {
        assert NearestToNoonAt(group, group[0], 0);
      }
    } else {
      if NumericHour(group[0]) {
        BestIsNearest(group);
      }
    }
  }

  /** In a group whose every sample has a time part and whose first hour is
      a number, the fold's index is the earliest sample nearest to noon. */
  lemma BestIsNearest(group: seq<ForecastItem>)
    requires |group| > 0 && HasAllHours(group) && NumericHour(group[0])
    ensures NearestToNoonAt(group, group[BestIndex(Hours(group))], BestIndex(Hours(group)))
  {
    var hs := Hours(group);
    var b := BestIndex(hs);
    assert hs[0].Int? by { assert GetHour(group[0].datetime) == Some(hs[0]); }
    assert GetHour(group[b].datetime) == Some(hs[b]);
    assert HourValue(group[b]) == hs[b].value;
    forall j | 0 <= j < |group| && NumericHour(group[j])
      ensures NoonDistance(HourValue(group[b])) <= NoonDistance(HourValue(group[j]))
    {
      assert GetHour(group[j].datetime) == Some(hs[j]);
    }
    forall j | 0 <= j < b && NumericHour(group[j])
      ensures NoonDistance(HourValue(group[b])) < NoonDistance(HourValue(group[j]))
    {
      assert GetHour(group[j].datetime) == Some(hs[j]);
    }
  }

  /* ---- Object.keys ordering ---- */

  /** The largest array index, 2^32 - 2. */
  const MaxArrayIndex: nat := 4294967294

  /** A property name that is an array index: the canonical decimal form
      (no leading zero except "0" itself) of an integer from 0 to
      2^32 - 2. `Object.keys` lists such names first. */
  predicate IsArrayIndex(key: string)
  {
    |key| > 0 && AllDigits(key) && (key[0] != '0' || |key| == 1) && DecimalValue(key) <= MaxArrayIndex
  }

  predicate AllArrayIndices(keys: seq<string>)
  {
    forall i :: 0 <= i < |keys| ==> IsArrayIndex(keys[i])
  }

  /** Numerically ascending. */
  predicate Ascending(keys: seq<string>)
    requires AllArrayIndices(keys)
  {
    forall i, j :: 0 <= i < j < |keys| ==> DecimalValue(keys[i]) <= DecimalValue(keys[j])
  }

  /** The array-index names, in their insertion order. */
  function IndexKeys(keys: seq<string>): (r: seq<string>)
    ensures AllArrayIndices(r)
  {
    if |keys| == 0 then []
    else (if IsArrayIndex(keys[0]) then [keys[0]] else []) + IndexKeys(keys[1..])
  }

  /** The other names, in their insertion order. */
  function OtherKeys(keys: seq<string>): (r: seq<string>)
    ensures forall i :: 0 <= i < |r| ==> !IsArrayIndex(r[i])
  {
    if |keys| == 0 then []
    else (if IsArrayIndex(keys[0]) then [] else [keys[0]]) + OtherKeys(keys[1..])
  }

  /** Every name goes to exactly one of the two lists. */
  lemma {:induction false} SplitKeys(keys: seq<string>)
    ensures multiset(IndexKeys(keys)) + multiset(OtherKeys(keys)) == multiset(keys)
  {
    if |keys| > 0 {
      SplitKeys(keys[1..]);
      assert keys == [keys[0]] + keys[1..];
    }
  }

  /** Inserts an array index before the first entry it does not exceed. */
  function Insert(key: string, sorted: seq<string>): (r: seq<string>)
    requires IsArrayIndex(key) && AllArrayIndices(sorted)
    ensures AllArrayIndices(r)
    ensures multiset(r) == multiset(sorted) + multiset{key}
  {
    if |sorted| == 0 then [key]
    else if DecimalValue(key) <= DecimalValue(sorted[0]) then [key] + sorted
    else
      assert sorted == [sorted[0]] + sorted[1..];
      [sorted[0]] + Insert(key, sorted[1..])
  }

  /** An ascending list stays ascending with a smaller-or-equal head. */
  lemma AscendingCons(key: string, sorted: seq<string>)
    requires IsArrayIndex(key) && AllArrayIndices(sorted) && Ascending(sorted)
    requires forall k :: 0 <= k < |sorted| ==> DecimalValue(key) <= DecimalValue(sorted[k])
    ensures AllArrayIndices([key] + sorted) && Ascending([key] + sorted)
  {
    var r := [key] + sorted;
    forall i, j | 0 <= i < j < |r| ensures DecimalValue(r[i]) <= DecimalValue(r[j]) {
      assert r[j] == sorted[j - 1];
      if i > 0 { assert r[i] == sorted[i - 1]; }
    }
  }

  /** A lower bound of a list and of the inserted name bounds the result. */
  lemma InsertLowerBound(key: string, sorted: seq<string>, bound: nat)
    requires IsArrayIndex(key) && AllArrayIndices(sorted)
    requires bound <= DecimalValue(key)
    requires forall k :: 0 <= k < |sorted| ==> bound <= DecimalValue(sorted[k])
    ensures forall k :: 0 <= k < |Insert(key, sorted)| ==> bound <= DecimalValue(Insert(key, sorted)[k])
  {
    var r := Insert(key, sorted);
    forall k | 0 <= k < |r| ensures bound <= DecimalValue(r[k]) {
      assert r[k] in multiset(sorted) + multiset{key};
      if r[k] != key {
        assert r[k] in sorted;
      }
    }
  }

  /** Inserting into an ascending list keeps it ascending. */
  lemma {:induction false} InsertAscending(key: string, sorted: seq<string>)
    requires IsArrayIndex(key) && AllArrayIndices(sorted) && Ascending(sorted)
    ensures Ascending(Insert(key, sorted))
    decreases |sorted|
  {
    if |sorted| > 0 {
      var s0 := sorted[0];
      if DecimalValue(key) <= DecimalValue(s0) {
        AscendingCons(key, sorted);
      } else {
        var tail := sorted[1..];
        InsertAscending(key, tail);
        InsertLowerBound(key, tail, DecimalValue(s0));
        AscendingCons(s0, Insert(key, tail));
      }
    }
  }

  /** Insertion sort of array-index names by numeric value. */
  function SortIndices(keys: seq<string>): (r: seq<string>)
    requires AllArrayIndices(keys)
    ensures AllArrayIndices(r)
    ensures multiset(r) == multiset(keys)
  {
    if |keys| == 0 then []
    else
      assert keys == [keys[0]] + keys[1..];
      Insert(keys[0], SortIndices(keys[1..]))
  }

  /** The sort's result is ascending. */
  lemma {:induction false} SortAscending(keys: seq<string>)
    requires AllArrayIndices(keys)
    ensures Ascending(SortIndices(keys))
  {
    if |keys| > 0 {
      SortAscending(keys[1..]);
      InsertAscending(keys[0], SortIndices(keys[1..]));
    }
  }

  /** `Object.keys` of an ordinary object whose properties were created in
      the order `keys`: the same names, array indices first in ascending
      numeric order, then the other names in creation order. */
  function ObjectKeys(keys: seq<string>): (r: seq<string>)
    ensures multiset(r) == multiset(keys)
    ensures Distinct(keys) ==> Distinct(r)
  {
    var r := SortIndices(IndexKeys(keys)) + OtherKeys(keys);
    SplitKeys(keys);
    DistinctPermutation(keys, r);
    r
  }

  /** The array indices come first, in ascending numeric order, and the
      remaining names follow in creation order. */
  lemma ObjectKeysLayout(keys: seq<string>)
    ensures var r := ObjectKeys(keys);
            && (forall i, j :: 0 <= i < j < |r| && IsArrayIndex(r[j]) ==>
                  IsArrayIndex(r[i]) && DecimalValue(r[i]) <= DecimalValue(r[j]))
            && r[|r| - |OtherKeys(keys)|..] == OtherKeys(keys)
  {
    var indices, others := SortIndices(IndexKeys(keys)), OtherKeys(keys);
    var r := indices + others;
    SortAscending(IndexKeys(keys));
    forall k | |indices| <= k < |r| ensures !IsArrayIndex(r[k]) {
      assert r[k] == others[k - |indices|];
    }
    forall i, j | 0 <= i < j < |r| && IsArrayIndex(r[j])
      ensures IsArrayIndex(r[i]) && DecimalValue(r[i]) <= DecimalValue(r[j])
    {
      assert r[i] == indices[i] && r[j] == indices[j];
    }
    assert r[|r| - |others|..] == others;
  }

  /** Without integer-like names, `Object.keys` is creation order. */
  lemma {:induction false} ObjectKeysNoIndices(keys: seq<string>)
    requires forall i :: 0 <= i < |keys| ==> !IsArrayIndex(keys[i])
    ensures ObjectKeys(keys) == keys
  {
    OtherKeysNoIndices(keys);
  }

  lemma {:induction false} OtherKeysNoIndices(keys: seq<string>)
    requires forall i :: 0 <= i < |keys| ==> !IsArrayIndex(keys[i])
    ensures IndexKeys(keys) == [] && OtherKeys(keys) == keys
  {
    if |keys| > 0 {
      OtherKeysNoIndices(keys[1..]);
      assert keys == [keys[0]] + keys[1..];
    }
  }

  /* ---- processForecast ---- */

  /** The names every plain object inherits from `Object.prototype`. Such a
      date key finds the inherited value in `dailyData`: it is truthy, so no
      array is created, and it has no `push` method, so the grouping loop
      throws a TypeError. */
  const InheritedNames: set<string> := {
    "__proto__", "__defineGetter__", "__defineSetter__", "__lookupGetter__",
    "__lookupSetter__", "constructor", "hasOwnProperty", "isPrototypeOf",
    "propertyIsEnumerable", "toLocaleString", "toString", "valueOf"
  }

  /** What `processForecast` produces: the representative samples, or the
      TypeError it throws. */
  datatype Outcome = Days(days: seq<ForecastItem>) | TypeError

  /** Some date key names an inherited property. */
  predicate NamesInherited(list: seq<ForecastItem>)
  {
    exists i :: 0 <= i < |list| && DateKey(list[i].datetime) in InheritedNames
  }

  /** Some key's group throws when reduced. */
  predicate SomeGroupThrows(list: seq<ForecastItem>, keys: seq<string>)
  {
    exists j :: 0 <= j < |keys| && Throws(Group(list, keys[j]))
  }

  /** Some sample without a time part shares its date with another sample. */
  predicate UntimedSampleShared(list: seq<ForecastItem>)
  {
    exists i :: 0 <= i < |list| && GetHour(list[i].datetime).None?
                && |Group(list, DateKey(list[i].datetime))| >= 2
  }

  /** The keys `processForecast` maps over, in order. */
  function OrderedKeys(list: seq<ForecastItem>): seq<string>
  {
    ObjectKeys(DateKeys(list))
  }

  /** Every listed key has a non-empty group. */
  lemma GroupsNonEmpty(list: seq<ForecastItem>)
    ensures forall j :: 0 <= j < |OrderedKeys(list)| ==> |Group(list, OrderedKeys(list)[j])| > 0
  {
    var order := OrderedKeys(list);
    DateKeysSpec(list);
    forall j | 0 <= j < |order| ensures |Group(list, order[j])| > 0 {
      assert order[j] in multiset(DateKeys(list));
      GroupSpec(list, order[j]);
    }
  }

  /** The representatives of the groups of `keys`, in order. */
  function Representatives(list: seq<ForecastItem>, keys: seq<string>): (r: seq<ForecastItem>)
    requires forall j :: 0 <= j < |keys| ==> |Group(list, keys[j])| > 0 && !Throws(Group(list, keys[j]))
    ensures |r| == |keys|
    ensures forall j :: 0 <= j < |keys| ==> r[j] == Representative(Group(list, keys[j]))
  {
    if |keys| == 0 then []
    else
      var rest := Representatives(list, keys[1..]);
      assert forall j :: 0 < j < |keys| ==> rest[j - 1] == Representative(Group(list, keys[j]));
      [Representative(Group(list, keys[0]))] + rest
  }

  /** `processForecast(list)`: group by date key, list the keys in
      `Object.keys` order, reduce every group (so a throwing group anywhere
      in the list throws), then keep the first five. */
  function ProcessForecast(list: seq<ForecastItem>): (r: Outcome)
    ensures r.TypeError? <==> NamesInherited(list) || UntimedSampleShared(list)
    ensures r.Days? ==> |r.days| == if |KeySet(list)| < 5 then |KeySet(list)| else 5
  {
    ThrowingGroupHasUntimedSample(list);
    UntimedSampleThrows(list);
    if NamesInherited(list) then TypeError
    else
      var order := OrderedKeys(list);
      if SomeGroupThrows(list, order) then TypeError
      else
        GroupsNonEmpty(list);
        KeyCount(list);
        var reps := Representatives(list, order);
        Days(reps[..if |order| < 5 then |order| else 5])
  }

  /** The distinct date keys of the input. */
  function KeySet(list: seq<ForecastItem>): set<string>
  {
    set i | 0 <= i < |list| :: DateKey(list[i].datetime)
  }

  lemma ThrowingGroupHasUntimedSample(list: seq<ForecastItem>)
    ensures SomeGroupThrows(list, OrderedKeys(list)) ==> UntimedSampleShared(list)
  {
    var order := OrderedKeys(list);
    if SomeGroupThrows(list, order) {
      var j :| 0 <= j < |order| && Throws(Group(list, order[j]));
      var g := Group(list, order[j]);
      var m :| 0 <= m < |g| && GetHour(g[m].datetime).None?;
      GroupSpec(list, order[j]);
      assert g[m] in g;
      var i :| 0 <= i < |list| && list[i] == g[m];
      assert DateKey(list[i].datetime) == order[j];
    }
  }

  lemma UntimedSampleThrowsAt(list: seq<ForecastItem>, i: nat)
    requires i < |list| && GetHour(list[i].datetime).None?
    requires |Group(list, DateKey(list[i].datetime))| >= 2
    ensures SomeGroupThrows(list, OrderedKeys(list))
  {
    var order := OrderedKeys(list);
    var key := DateKey(list[i].datetime);
    var g := Group(list, key);
    assert key in order by {
      DateKeysSpec(list);
      assert HasKey(list, key);
      assert key in multiset(order);
    }
    var j :| 0 <= j < |order| && order[j] == key;
    assert !HasAllHours(g) by {
      GroupSpec(list, key);
      assert list[i] in g;
      var m :| 0 <= m < |g| && g[m] == list[i];
    }
    assert Throws(Group(list, order[j]));
  }

  lemma UntimedSampleThrows(list: seq<ForecastItem>)
    ensures UntimedSampleShared(list) ==> SomeGroupThrows(list, OrderedKeys(list))
  {
    if UntimedSampleShared(list) {
      var i :| 0 <= i < |list| && GetHour(list[i].datetime).None?
               && |Group(list, DateKey(list[i].datetime))| >= 2;
      UntimedSampleThrowsAt(list, i);
    }
  }

  /** The reducer throws exactly when some date key names an inherited
      property, or some sample without a time part shares its date with
      another sample. */
  lemma ProcessForecastFails(list: seq<ForecastItem>)
    ensures ProcessForecast(list).TypeError? <==> NamesInherited(list) || UntimedSampleShared(list)
  {
    ThrowingGroupHasUntimedSample(list);
    UntimedSampleThrows(list);
  }

  /** There are as many listed keys as distinct dates. */
  lemma KeyCount(list: seq<ForecastItem>)
    ensures |OrderedKeys(list)| == |KeySet(list)|
  {
    var keys := DateKeys(list);
    DateKeysSpec(list);
    DistinctCard(keys);
    assert (set x | x in keys) == KeySet(list) by {
      forall x ensures x in keys <==> x in KeySet(list) {
        if x in keys {
          var i :| 0 <= i < |list| && DateKey(list[i].datetime) == x;
        }
      }
    }
    assert |multiset(OrderedKeys(list))| == |multiset(keys)|;
  }

  /** The `i`-th output sample is the chosen sample of the `i`-th listed
      key's group. */
  lemma DayIsChosen(list: seq<ForecastItem>, i: nat)
    requires ProcessForecast(list).Days? && i < |ProcessForecast(list).days|
    ensures var day := ProcessForecast(list).days[i];
            && DateKey(day.datetime) == OrderedKeys(list)[i]
            && day in list
            && ChosenFrom(Group(list, OrderedKeys(list)[i]), day)
  {
    var order := OrderedKeys(list);
    GroupsNonEmpty(list);
    var g := Group(list, order[i]);
    var day := ProcessForecast(list).days[i];
    assert day == Representative(g);
    RepresentativeChosen(g);
    GroupSpec(list, order[i]);
    assert day in g by {
      if |g| > 1 { assert g[BestIndex(Hours(g))] in g; }
    }
  }

  /** Without an error, the output has one sample for each of the first
      min(5, number of distinct dates) keys: every sample is an input sample,
      no date occurs twice, and each is the one the reducer chooses from its
      own date group (nearest to noon, earliest on ties). */
  lemma ProcessForecastDays(list: seq<ForecastItem>)
    requires ProcessForecast(list).Days?
    ensures var days := ProcessForecast(list).days;
            && |days| == (if |KeySet(list)| < 5 then |KeySet(list)| else 5)
            && (forall i :: 0 <= i < |days| ==> days[i] in list)
            && (forall i, j :: 0 <= i < j < |days| ==> DateKey(days[i].datetime) != DateKey(days[j].datetime))
            && (forall i :: 0 <= i < |days| ==> ChosenFrom(Group(list, DateKey(days[i].datetime)), days[i]))
  {
    var days := ProcessForecast(list).days;
    var order := OrderedKeys(list);
    KeyCount(list);
    DateKeysSpec(list);
    assert Distinct(order);
    forall i | 0 <= i < |days|
      ensures DateKey(days[i].datetime) == order[i] && days[i] in list
      ensures ChosenFrom(Group(list, DateKey(days[i].datetime)), days[i])
    {
      DayIsChosen(list, i);
    }
  }

  /** A key holding a '-' is not integer-like. */
  lemma DashedKeysNotIndices(list: seq<ForecastItem>)
    requires forall k :: 0 <= k < |list| ==> '-' in DateKey(list[k].datetime)
    ensures forall k :: 0 <= k < |DateKeys(list)| ==> !IsArrayIndex(DateKeys(list)[k])
  {
    var keys := DateKeys(list);
    DateKeysSpec(list);
    forall k | 0 <= k < |keys| ensures !AllDigits(keys[k]) {
      assert keys[k] in keys;
      var i :| 0 <= i < |list| && DateKey(list[i].datetime) == keys[k];
      var m :| 0 <= m < |keys[k]| && keys[k][m] == '-';
      assert !IsDigit(keys[k][m]);
    }
  }

  /** When every date key holds a '-', as "YYYY-MM-DD" does, no key is
      integer-like and the output follows the input: the date of an earlier
      output sample occurs in the input before any sample of a later
      output sample's date. */
  lemma ProcessForecastFirstAppearance(list: seq<ForecastItem>, a: nat, b: nat, q: nat)
    requires forall k :: 0 <= k < |list| ==> '-' in DateKey(list[k].datetime)
    requires ProcessForecast(list).Days? && a < b < |ProcessForecast(list).days|
    requires q < |list| && DateKey(list[q].datetime) == DateKey(ProcessForecast(list).days[b].datetime)
    ensures exists p :: 0 <= p < q && DateKey(list[p].datetime) == DateKey(ProcessForecast(list).days[a].datetime)
  {
    var keys := DateKeys(list);
    DashedKeysNotIndices(list);
    ObjectKeysNoIndices(keys);
    assert OrderedKeys(list) == keys;
    DayKey(list, a);
    DayKey(list, b);
    DateKeysFirstAppearance(list, a, b, q);
  }

  /** The `i`-th output sample carries the `i`-th listed key. */
  lemma DayKey(list: seq<ForecastItem>, i: nat)
    requires ProcessForecast(list).Days? && i < |ProcessForecast(list).days|
    ensures i < |OrderedKeys(list)|
    ensures DateKey(ProcessForecast(list).days[i].datetime) == OrderedKeys(list)[i]
  {
    DayIsChosen(list, i);
  }

  /** The first separator of `date + [sep] + rest` when `date` has none. */
  lemma FirstSepAfter(date: string, sep: char, rest: string)
    requires forall k :: 0 <= k < |date| ==> !IsSep(date[k])
    requires IsSep(sep)
    ensures FirstSep(date + [sep] + rest) == Some(|date|)
  {
    var s := date + [sep] + rest;
    assert s[|date|] == sep;
    forall k | 0 <= k < |date| ensures !IsSep(s[k]) {
      assert s[k] == date[k];
    }
  }

  /** A date, one separator and a separator-free time split into that date
      and that time. */
  lemma TimestampParts(date: string, sep: char, time: string)
    requires forall k :: 0 <= k < |date| ==> !IsSep(date[k])
    requires IsSep(sep)
    requires forall k :: 0 <= k < |time| ==> !IsSep(time[k])
    ensures DateKey(date + [sep] + time) == date
    ensures TimePart(date + [sep] + time) == Some(time)
  {
    var s := date + [sep] + time;
    FirstSepAfter(date, sep, time);
    assert s[..|date|] == date;
    assert s[|date| + 1..] == time;
  }

  /** Hour digits, ':' and a separator-free rest hold no separator. */
  lemma TimeHasNoSep(hour: string, rest: string)
    requires AllDigits(hour)
    requires forall k :: 0 <= k < |rest| ==> !IsSep(rest[k])
    ensures forall k :: 0 <= k < |hour + [':'] + rest| ==> !IsSep((hour + [':'] + rest)[k])
  {
    var time := hour + [':'] + rest;
    forall k | 0 <= k < |time| ensures !IsSep(time[k]) {
      if k < |hour| {
        assert time[k] == hour[k];
      } else if k > |hour| {
        assert time[k] == rest[k - |hour| - 1];
      }
    }
  }

  /** The hour text of "HH:rest" is HH, read as its decimal value. */
  lemma HourOfTime(hour: string, rest: string)
    requires |hour| > 0 && AllDigits(hour)
    ensures ParseInt(HourText(hour + [':'] + rest)) == Int(DecimalValue(hour))
  {
    assert HourText(hour + [':'] + rest) == hour by {
      NonDigitNotIn(hour, ':');
      IndexOfAfter(hour, ':', rest);
    }
    ParseIntPrefix(hour, []);
    assert hour + [] == hour;
  }

  /** A well-formed timestamp, a date, one separator ('T' or ' '), hour
      digits, ':' and the rest of the time: the date key is the date and
      the hour is the decimal value of the hour digits. The two timestamp
      formats therefore group and compare identically. */
  lemma WellFormedTimestamp(date: string, sep: char, hour: string, rest: string)
    requires forall k :: 0 <= k < |date| ==> !IsSep(date[k])
    requires IsSep(sep)
    requires |hour| > 0 && AllDigits(hour)
    requires forall k :: 0 <= k < |rest| ==> !IsSep(rest[k])
    ensures DateKey(date + [sep] + (hour + [':'] + rest)) == date
    ensures GetHour(date + [sep] + (hour + [':'] + rest)) == Some(Int(DecimalValue(hour)))
  {
    var time := hour + [':'] + rest;
    HourOfTime(hour, rest);
    TimeHasNoSep(hour, rest);
    TimestampParts(date, sep, time);
  }

  /** Both formats of one timestamp agree on date key and hour. */
  lemma SeparatorsAgree(date: string, hour: string, rest: string)
    requires forall k :: 0 <= k < |date| ==> !IsSep(date[k])
    requires |hour| > 0 && AllDigits(hour)
    requires forall k :: 0 <= k < |rest| ==> !IsSep(rest[k])
    ensures DateKey(date + " " + (hour + ":" + rest)) == DateKey(date + "T" + (hour + ":" + rest))
    ensures GetHour(date + " " + (hour + ":" + rest)) == GetHour(date + "T" + (hour + ":" + rest))
  {
    WellFormedTimestamp(date, ' ', hour, rest);
    WellFormedTimestamp(date, 'T', hour, rest);
  }

  /* ---- the panel's null guard ---- */

  /** The panel's `forecastData` prop when present: an object whose
      `forecast` field may be missing. */
  datatype ForecastData = ForecastData(forecast: Option<seq<ForecastItem>>)

  /** `Forecast({forecastData})`: nothing (`null`) when the prop or its
      `forecast` field is missing, otherwise the reducer's outcome. An empty
      list is an array, hence truthy, and renders an empty panel. */
  function RenderForecast(forecastData: Option<ForecastData>): (r: Option<Outcome>)
    ensures r.None? <==> forecastData.None? || forecastData.value.forecast.None?
    ensures r.Some? ==> r.value == ProcessForecast(forecastData.value.forecast.value)
  {
    match forecastData
    case None => None
    case Some(data) =>
      match data.forecast
      case None => None
      case Some(list) => Some(ProcessForecast(list))
  }

  /** An empty forecast list renders a panel with no days. */
  lemma EmptyForecastRendersNoDays()
    ensures RenderForecast(Some(ForecastData(Some([])))) == Some(Days([]))
  {
    assert OrderedKeys([]) == [] by {
      OtherKeysNoIndices([]);
    }
  }
}
