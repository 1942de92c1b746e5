/** The backend's location-input classifier (`parse_location_input`): the
    stripped input becomes OpenWeatherMap query parameters, either
    coordinates `{lat, lon}`, a postal code `{zip}` or a free-text `{q}`.
    The two regular expressions are written as predicates over characters;
    `\d` is read as the ASCII digits. */
module LocationInput {
  import opened Records
  import opened Text

  /** The three shapes of the returned dictionary. */
  datatype LocationParams = LatLon(lat: string, lon: string) | Zip(zip: string) | Query(q: string)

  /* ---- Python's str.split(sep) for a one-character separator ---- */

  /** The pieces of `s` between occurrences of `c`, as `s.split(c)`. */
  function SplitOn(s: string, c: char): (parts: seq<string>)
    ensures |parts| >= 1
    decreases |s|
  {
    match IndexOf(s, c)
    case None => [s]
    case Some(k) => [s[..k]] + SplitOn(s[k + 1..], c)
  }

  /** `c.join(parts)`. */
  function Join(parts: seq<string>, c: char): string
    requires |parts| >= 1
  {
    if |parts| == 1 then parts[0] else parts[0] + [c] + Join(parts[1..], c)
  }

  /** Joining a first piece in front of at least one more. */
  lemma JoinCons(p: string, rest: seq<string>, c: char)
    requires |rest| >= 1
    ensures Join([p] + rest, c) == p + [c] + Join(rest, c)
  {
    assert ([p] + rest)[1..] == rest;
  }

  /** Splitting and re-joining gives back the string. */
  lemma {:induction false} JoinSplit(s: string, c: char)
    ensures Join(SplitOn(s, c), c) == s
    decreases |s|
  {
    match IndexOf(s, c)
    case None =>
    case Some(k) =>
      var rest := SplitOn(s[k + 1..], c);
      JoinSplit(s[k + 1..], c);
      assert SplitOn(s, c) == [s[..k]] + rest;
      JoinCons(s[..k], rest, c);
      assert s == s[..k] + [c] + s[k + 1..];
  }

  /** A string with exactly one occurrence of `c`, at `k`, splits in two. */
  lemma SplitAtOnly(s: string, c: char, k: nat)
    requires IndexOf(s, c) == Some(k)
    requires c !in s[k + 1..]
    ensures SplitOn(s, c) == [s[..k], s[k + 1..]]
    ensures s == s[..k] + [c] + s[k + 1..]
  {
    assert SplitOn(s[k + 1..], c) == [s[k + 1..]];
  }

  /* ---- the two patterns ---- */

  /** `\d+` */
  predicate IsDigits(s: string)
  {
    |s| > 0 && AllDigits(s)
  }

  /** `\d+(\.\d+)?` read left to right: the first '.' separates the integer
      and fraction digits. */
  predicate IsUnsignedDecimal(s: string)
  {
    match IndexOf(s, '.')
    case None => IsDigits(s)
    case Some(k) => IsDigits(s[..k]) && IsDigits(s[k + 1..])
  }

  /** `-?\d+(\.\d+)?` */
  predicate IsDecimal(s: string)
  {
    if |s| > 0 && s[0] == '-' then IsUnsignedDecimal(s[1..]) else IsUnsignedDecimal(s)
  }

  /** The coordinate pattern `^-?\d+(\.\d+)?,-?\d+(\.\d+)?$`. */
  predicate IsCoordinates(s: string)
  {
    match IndexOf(s, ',')
    case None => false
    case Some(k) => IsDecimal(s[..k]) && IsDecimal(s[k + 1..])
  }

  /** The postal-code pattern `^\d{4,5}(?:,[A-Za-z]{2})?$`. */
  predicate IsZip(s: string)
  {
    match IndexOf(s, ',')
    case None => 4 <= |s| <= 5 && AllDigits(s)
    case Some(k) => 4 <= k <= 5 && AllDigits(s[..k]) && |s| == k + 3
                    && IsLetter(s[k + 1]) && IsLetter(s[k + 2])
  }

  /** The pattern `\d+(\.\d+)?` as the regular expression's language: either
      digits, or digits, one '.', digits, split anywhere. */
  predicate UnsignedDecimalLanguage(s: string)
  {
    || IsDigits(s)
    || exists k :: 0 < k < |s| && s[k] == '.' && IsDigits(s[..k]) && IsDigits(s[k + 1..])
  }

  /** The left-to-right reading of `\d+(\.\d+)?` accepts exactly its language. */
  lemma UnsignedDecimalMatchesLanguage(s: string)
    ensures IsUnsignedDecimal(s) <==> UnsignedDecimalLanguage(s)
  {
    if exists k :: 0 < k < |s| && s[k] == '.' && IsDigits(s[..k]) && IsDigits(s[k + 1..]) {
      var k :| 0 < k < |s| && s[k] == '.' && IsDigits(s[..k]) && IsDigits(s[k + 1..]);
      forall j | 0 <= j < k ensures s[j] != '.' {
        assert IsDigit(s[..k][j]);
      }
      assert IndexOf(s, '.') == Some(k);
    }
  }

  /** A decimal holds no comma, so the comma of a coordinate pair is unique. */
  lemma DecimalHasNoComma(s: string)
    requires IsDecimal(s)
    ensures ',' !in s
  {
    if |s| > 0 && s[0] == '-' {
      UnsignedDecimalHasNoComma(s[1..]);
      assert s == ['-'] + s[1..];
    } else {
      UnsignedDecimalHasNoComma(s);
    }
  }

  /** The unsigned part is digits and at most one '.'. */
  lemma UnsignedDecimalHasNoComma(t: string)
    requires IsUnsignedDecimal(t)
    ensures ',' !in t
  {
    match IndexOf(t, '.')
    case None =>
      DigitsHaveNoComma(t);
    case Some(k) =>
      DigitsHaveNoComma(t[..k]);
      DigitsHaveNoComma(t[k + 1..]);
      assert t == t[..k] + ['.'] + t[k + 1..];
  }

  lemma DigitsHaveNoComma(s: string)
    requires AllDigits(s)
    ensures ',' !in s
  {
    forall i | 0 <= i < |s| ensures s[i] != ',' {
      assert IsDigit(s[i]);
    }
  }

  /** A coordinate pair splits at its comma into exactly two decimals. */
  lemma CoordinateSplit(s: string)
    requires IsCoordinates(s)
    ensures var parts := SplitOn(s, ',');
            |parts| == 2 && parts[0] + [','] + parts[1] == s
            && IsDecimal(parts[0]) && IsDecimal(parts[1])
  {
    var k := IndexOf(s, ',').value;
    DecimalHasNoComma(s[k + 1..]);
    SplitAtOnly(s, ',', k);
  }

  /** `parse_location_input`: strip the input, then try the coordinate
      pattern, then the postal-code pattern, else use the text as a query. */
  function ParseLocationInput(userInput: string): (r: LocationParams)
    ensures var s := Trim(Python, userInput);
            && (r.LatLon? <==> IsCoordinates(s))
            && (r.Zip? <==> !IsCoordinates(s) && IsZip(s))
            && (r.Query? <==> !IsCoordinates(s) && !IsZip(s))
    ensures r.LatLon? ==> r.lat + [','] + r.lon == Trim(Python, userInput)
                          && IsDecimal(r.lat) && IsDecimal(r.lon)
    ensures r.Zip? ==> r.zip == Trim(Python, userInput)
    ensures r.Query? ==> r.q == Trim(Python, userInput)
  {
    var s := Trim(Python, userInput);
    if IsCoordinates(s) then
      CoordinateSplit(s);
      var parts := SplitOn(s, ',');
      LatLon(parts[0], parts[1])
    else if IsZip(s) then Zip(s)
    else Query(s)
  }

  /** A decimal starts with a minus sign or a digit. */
  lemma DecimalStart(s: string)
    requires IsDecimal(s)
    ensures |s| > 0 && (s[0] == '-' || IsDigit(s[0]))
  {
    if s[0] != '-' {
      match IndexOf(s, '.')
      case None =>
      case Some(j) => assert s[..j][0] == s[0];
    }
  }

  /** No string matches both patterns, so trying them in the other order would
      classify every input the same way. */
  lemma CoordinatesAndZipDisjoint(s: string)
    ensures !(IsCoordinates(s) && IsZip(s))
  {
    if IsCoordinates(s) {
      var k := IndexOf(s, ',').value;
      DecimalStart(s[k + 1..]);
      assert s[k + 1] == s[k + 1..][0];
    }
  }

  /** Surrounding whitespace never changes the classification. */
  lemma StripInvariant(userInput: string)
    ensures ParseLocationInput(Trim(Python, userInput)) == ParseLocationInput(userInput)
  {
    TrimIdempotent(Python, userInput);
  }

  /** The classification of an input whose stripped form is known. */
  lemma ParseStripped(userInput: string, s: string)
    requires Trim(Python, userInput) == s
    ensures IsCoordinates(s) ==> ParseLocationInput(userInput) == LatLon(s[..IndexOf(s, ',').value], s[IndexOf(s, ',').value + 1..])
    ensures !IsCoordinates(s) && IsZip(s) ==> ParseLocationInput(userInput) == Zip(s)
    ensures !IsCoordinates(s) && !IsZip(s) ==> ParseLocationInput(userInput) == Query(s)
  {
    if IsCoordinates(s) {
      CoordinateSplit(s);
      var k := IndexOf(s, ',').value;
      assert SplitOn(s, ',') == [s[..k], s[k + 1..]] by {
        DecimalHasNoComma(s[k + 1..]);
        SplitAtOnly(s, ',', k);
      }
    }
  }

  /** Two digit runs joined by a comma are coordinates, even when the first
      run on its own would be a postal code ("12345,67"). */
  lemma DigitPairIsCoordinates(a: string, b: string)
    requires IsDigits(a) && IsDigits(b)
    ensures ParseLocationInput(a + [','] + b) == LatLon(a, b)
  {
    var s := a + [','] + b;
    assert s[0] == a[0];
    assert s[|s| - 1] == b[|b| - 1];
    DigitIsNotSpace(Python, a[0]);
    DigitIsNotSpace(Python, b[|b| - 1]);
    TrimUnchanged(Python, s);
    NonDigitNotIn(a, '.');
    NonDigitNotIn(b, '.');
    NonDigitNotIn(a, ',');
    IndexOfAfter(a, ',', b);
    assert s[..|a|] == a;
    assert s[|a| + 1..] == b;
    ParseStripped(s, s);
  }

  /** A postal code with a country suffix has no surrounding whitespace. */
  lemma ZipCountryStripped(digits: string, x: char, y: char)
    requires 4 <= |digits| <= 5 && AllDigits(digits)
    requires IsLetter(x) && IsLetter(y)
    ensures Trim(Python, digits + [',', x, y]) == digits + [',', x, y]
  {
    var s := digits + [',', x, y];
    assert s[0] == digits[0];
    assert s[|s| - 1] == y;
    DigitIsNotSpace(Python, digits[0]);
    TrimUnchanged(Python, s);
  }

  /** A postal code with a country suffix matches the postal-code pattern. */
  lemma ZipCountryMatches(digits: string, x: char, y: char)
    requires 4 <= |digits| <= 5 && AllDigits(digits)
    requires IsLetter(x) && IsLetter(y)
    ensures IsZip(digits + [',', x, y])
  {
    var s := digits + [',', x, y];
    var k := |digits|;
    assert s == digits + [','] + [x, y];
    assert IndexOf(s, ',') == Some(k) by {
      NonDigitNotIn(digits, ',');
      IndexOfAfter(digits, ',', [x, y]);
    }
    assert s[..k] == digits;
    assert s[k + 1] == x && s[k + 2] == y;
  }

  /** A postal code with a two-letter country code is kept whole. */
  lemma ZipWithCountry(digits: string, x: char, y: char)
    requires 4 <= |digits| <= 5 && AllDigits(digits)
    requires IsLetter(x) && IsLetter(y)
    ensures ParseLocationInput(digits + [',', x, y]) == Zip(digits + [',', x, y])
  {
    var s := digits + [',', x, y];
    ZipCountryStripped(digits, x, y);
    ZipCountryMatches(digits, x, y);
    CoordinatesAndZipDisjoint(s);
    ParseStripped(s, s);
  }

  /** A comma-free input that is not all digits (a city or landmark name) is a
      free-text query, and so is the empty input. */
  lemma {:induction false} NameIsQuery(userInput: string)
    requires ',' !in Trim(Python, userInput)
    requires !AllDigits(Trim(Python, userInput)) || Trim(Python, userInput) == []
    ensures ParseLocationInput(userInput) == Query(Trim(Python, userInput))
  {
    ParseStripped(userInput, Trim(Python, userInput));
  }
}
