/** Character classes and string primitives the modelled code relies on:
    the two whitespace sets (JavaScript's `trim`/`parseInt` and Python's
    `str.strip`), trimming, ASCII digits and letters, decimal values, and
    JavaScript's relational comparison of strings (by UTF-16 code units). */
module Text {
  import opened Records

  /** Whose notion of whitespace a trim uses. */
  datatype Lang = JavaScript | Python

  /** JavaScript WhiteSpace and LineTerminator code points (used by
      `String.prototype.trim` and by `parseInt`), and Python's `str.isspace`
      code points (used by `str.strip()`), enumerated exactly. */
  predicate IsSpace(lang: Lang, c: char)
  {
    match lang
    case JavaScript =>
      || '\t' <= c <= '\r'
      || c == ' ' || c == '\U{A0}' || c == '\U{1680}'
      || '\U{2000}' <= c <= '\U{200A}'
      || c == '\U{2028}' || c == '\U{2029}' || c == '\U{202F}'
      || c == '\U{205F}' || c == '\U{3000}' || c == '\U{FEFF}'
    case Python =>
      || '\t' <= c <= '\r'
      || '\U{1C}' <= c <= '\U{1F}'
      || c == ' ' || c == '\U{85}' || c == '\U{A0}' || c == '\U{1680}'
      || '\U{2000}' <= c <= '\U{200A}'
      || c == '\U{2028}' || c == '\U{2029}' || c == '\U{202F}'
      || c == '\U{205F}' || c == '\U{3000}'
  }

  predicate AllSpace(lang: Lang, s: string)
  {
    forall i :: 0 <= i < |s| ==> IsSpace(lang, s[i])
  }

  /** Drops the leading whitespace. */
  function TrimStart(lang: Lang, s: string): (r: string)
    ensures |r| <= |s| && r == s[|s| - |r|..]
    ensures AllSpace(lang, s[..|s| - |r|])
    ensures r == [] || !IsSpace(lang, r[0])
  {
    if |s| > 0 && IsSpace(lang, s[0]) then
      var r := TrimStart(lang, s[1..]);
      assert s[..|s| - |r|] == [s[0]] + s[1..][..|s| - 1 - |r|];
      r
    else s
  }

  /** Drops the trailing whitespace. */
  function TrimEnd(lang: Lang, s: string): (r: string)
    ensures |r| <= |s| && r == s[..|r|]
    ensures AllSpace(lang, s[|r|..])
    ensures r == [] || !IsSpace(lang, r[|r| - 1])
  {
    if |s| > 0 && IsSpace(lang, s[|s| - 1]) then
      var r := TrimEnd(lang, s[..|s| - 1]);
      assert s[|r|..] == s[..|s| - 1][|r|..] + [s[|s| - 1]];
      r
    else s
  }

  /** `s` with leading and trailing whitespace removed: it neither starts nor
      ends with whitespace, and a string that already does not is left as it
      is. `TrimIsSlice` says which piece of `s` it is. */
  function Trim(lang: Lang, s: string): (r: string)
    ensures |r| <= |s|
    ensures r == [] || (!IsSpace(lang, r[0]) && !IsSpace(lang, r[|r| - 1]))
    ensures (s == [] || (!IsSpace(lang, s[0]) && !IsSpace(lang, s[|s| - 1]))) ==> r == s
  {
    TrimEnd(lang, TrimStart(lang, s))
  }

  /** A string that neither starts nor ends with whitespace trims to itself. */
  lemma TrimUnchanged(lang: Lang, s: string)
    requires |s| > 0 && !IsSpace(lang, s[0]) && !IsSpace(lang, s[|s| - 1])
    ensures Trim(lang, s) == s
  {
  }

  /** Prefixes and suffixes of a suffix are slices of the whole. */
  lemma SuffixSlices(s: string, i: nat, n: nat)
    requires i + n <= |s|
    ensures s[i..][..n] == s[i..i + n] && s[i..][n..] == s[i + n..]
  {
  }

  /** Where the trimmed string starts in `s`. */
  lemma TrimOffset(lang: Lang, s: string) returns (i: nat)
    ensures i + |Trim(lang, s)| <= |s| && Trim(lang, s) == s[i..i + |Trim(lang, s)|]
    ensures AllSpace(lang, s[..i]) && AllSpace(lang, s[i + |Trim(lang, s)|..])
  {
    var t := TrimStart(lang, s);
    var r := TrimEnd(lang, t);
    assert r == Trim(lang, s);
    i := |s| - |t|;
    assert t == s[i..];
    SuffixSlices(s, i, |r|);
  }

  /** The trimmed string is a contiguous piece of `s` and everything outside
      it is whitespace. */
  lemma TrimIsSlice(lang: Lang, s: string)
    ensures var r := Trim(lang, s);
            exists i :: 0 <= i <= |s| - |r| && r == s[i..i + |r|]
                        && AllSpace(lang, s[..i]) && AllSpace(lang, s[i + |r|..])
  {
    var i := TrimOffset(lang, s);
  }

  /** Trimming twice is trimming once. */
  lemma TrimIdempotent(lang: Lang, s: string)
    ensures Trim(lang, Trim(lang, s)) == Trim(lang, s)
  {
  }

  /** A string trims to nothing exactly when every character is whitespace. */
  lemma TrimEmptyIff(lang: Lang, s: string)
    ensures Trim(lang, s) == [] <==> AllSpace(lang, s)
  {
    var t := TrimStart(lang, s);
    if t != [] {
      var r := TrimEnd(lang, t);
      assert r != [];
      assert !IsSpace(lang, s[|s| - |t|]);
    }
  }

  predicate IsDigit(c: char) { '0' <= c <= '9' }

  predicate IsLetter(c: char) { 'A' <= c <= 'Z' || 'a' <= c <= 'z' }

  predicate AllDigits(s: string)
  {
    forall i :: 0 <= i < |s| ==> IsDigit(s[i])
  }

  /** Digits are never whitespace, in either language. */
  lemma DigitIsNotSpace(lang: Lang, c: char)
    requires IsDigit(c)
    ensures !IsSpace(lang, c)
  {
  }

  /** A digit string holds no non-digit character. */
  lemma NonDigitNotIn(s: string, c: char)
    requires AllDigits(s) && !IsDigit(c)
    ensures c !in s
  {
  }

  function DigitValue(c: char): (d: nat)
    requires IsDigit(c)
    ensures d < 10
  {
    c as int - '0' as int
  }

  /** The value of a string of decimal digits, most significant first. */
  function DecimalValue(s: string): nat
    requires AllDigits(s)
  {
    if |s| == 0 then 0 else DecimalValue(s[..|s| - 1]) * 10 + DigitValue(s[|s| - 1])
  }

  /** Position of the first occurrence of `c` in `s`, if any. */
  function IndexOf(s: string, c: char): (r: Option<nat>)
    ensures r.Some? ==> r.value < |s| && s[r.value] == c
                        && forall j :: 0 <= j < r.value ==> s[j] != c
    ensures r.None? <==> c !in s
  {
    if |s| == 0 then None
    else if s[0] == c then Some(0)
    else match IndexOf(s[1..], c)
      case None => None
      case Some(k) => Some(k + 1)
  }

  /** The first occurrence of `c` in `p + [c] + rest`, when `p` has none. */
  lemma IndexOfAfter(p: string, c: char, rest: string)
    requires c !in p
    ensures IndexOf(p + [c] + rest, c) == Some(|p|)
  {
    var s := p + [c] + rest;
    assert s[|p|] == c;
    forall j | 0 <= j < |p| ensures s[j] != c {
      assert s[j] == p[j];
    }
  }

  /* ---- JavaScript string comparison ---- */

  /** The UTF-16 code units that encode `c`. */
  function CodeUnits(c: char): (u: seq<int>)
    ensures |u| == 1 <==> c as int < 0x1_0000
    ensures |u| == 1 ==> u[0] == c as int
    ensures 1 <= |u| <= 2
    ensures forall k :: 0 <= k < |u| ==> 0 <= u[k] < 0x1_0000
  {
    var v := c as int;
    if v < 0x1_0000 then [v]
    else [0xD800 + (v - 0x1_0000) / 0x400, 0xDC00 + (v - 0x1_0000) % 0x400]
  }

  /** The UTF-16 encoding of a string: the code units JavaScript sees. */
  function Utf16(s: string): seq<int>
  {
    if |s| == 0 then [] else Utf16(s[..|s| - 1]) + CodeUnits(s[|s| - 1])
  }

  lemma {:induction false} Utf16Append(a: string, b: string)
    ensures Utf16(a + b) == Utf16(a) + Utf16(b)
    decreases |b|
  {
    if |b| == 0 {
      assert a + b == a;
    } else {
      var b' := b[..|b| - 1];
      assert (a + b)[..|a + b| - 1] == a + b';
      Utf16Append(a, b');
    }
  }

  /** A string whose characters all lie in the Basic Multilingual Plane is
      one code unit per character. */
  lemma {:induction false} Utf16Bmp(s: string)
    requires forall i :: 0 <= i < |s| ==> s[i] as int < 0x1_0000
    ensures |Utf16(s)| == |s|
    ensures forall i :: 0 <= i < |s| ==> Utf16(s)[i] == s[i] as int
    decreases |s|
  {
    if |s| > 0 {
      Utf16Bmp(s[..|s| - 1]);
    }
  }

  /** Lexicographic "less than" on code-unit sequences, as JavaScript's
      IsLessThan compares two strings: a proper prefix is smaller, otherwise
      the first differing unit decides. */
  predicate LexLess(a: seq<int>, b: seq<int>)
  {
    if |a| == 0 then |b| > 0
    else if |b| == 0 then false
    else a[0] < b[0] || (a[0] == b[0] && LexLess(a[1..], b[1..]))
  }

  /** JavaScript's `a < b` on two strings. */
  predicate JsLess(a: string, b: string)
  {
    LexLess(Utf16(a), Utf16(b))
  }

  /** Comparing two concatenations whose first parts have equal length: the
      first parts decide unless they are equal. */
  lemma {:induction false} LexLessAppend(x1: seq<int>, x2: seq<int>, r1: seq<int>, r2: seq<int>)
    requires |x1| == |x2|
    ensures LexLess(x1 + r1, x2 + r2) <==> LexLess(x1, x2) || (x1 == x2 && LexLess(r1, r2))
    decreases |x1|
  {
    if |x1| == 0 {
      assert x1 + r1 == r1 && x2 + r2 == r2;
    } else {
      assert (x1 + r1)[1..] == x1[1..] + r1;
      assert (x2 + r2)[1..] == x2[1..] + r2;
      LexLessAppend(x1[1..], x2[1..], r1, r2);
      if x1[0] == x2[0] {
        assert x1 == x2 <==> x1[1..] == x2[1..] by {
          if x1[1..] == x2[1..] { assert x1 == [x1[0]] + x1[1..]; assert x2 == [x2[0]] + x2[1..]; }
        }
      }
    }
  }

  /** Two-place decimal comparison: the tens place decides unless it ties. */
  lemma PlaceValueOrder(p: nat, q: nat, x: nat, y: nat)
    requires x < 10 && y < 10
    ensures p * 10 + x < q * 10 + y <==> p < q || (p == q && x < y)
    ensures p * 10 + x == q * 10 + y <==> p == q && x == y
  {
    if p < q {
      assert p * 10 + 10 <= q * 10;
    } else if q < p {
      assert q * 10 + 10 <= p * 10;
    }
  }

  /** Comparing two Basic-Multilingual-Plane strings extended by one
      character each. */
  lemma JsLessSnoc(a: string, b: string, x: char, y: char)
    requires |a| == |b|
    requires forall i :: 0 <= i < |a| ==> a[i] as int < 0x1_0000 && b[i] as int < 0x1_0000
    requires x as int < 0x1_0000 && y as int < 0x1_0000
    ensures JsLess(a + [x], b + [y]) <==> JsLess(a, b) || (a == b && x < y)
  {
    Utf16Append(a, [x]);
    Utf16Append(b, [y]);
    Utf16Bmp(a);
    Utf16Bmp(b);
    Utf16Bmp([x]);
    Utf16Bmp([y]);
    LexLessAppend(Utf16(a), Utf16(b), Utf16([x]), Utf16([y]));
    if Utf16(a) == Utf16(b) {
      forall i | 0 <= i < |a| ensures a[i] == b[i] {
        assert Utf16(a)[i] == Utf16(b)[i];
      }
    }
  }

  /** For digit strings of one length, JavaScript's string order is numeric
      order, and equal strings are exactly equal values. */
  lemma {:induction false} DigitStringOrder(a: string, b: string)
    requires |a| == |b| && AllDigits(a) && AllDigits(b)
    ensures JsLess(a, b) <==> DecimalValue(a) < DecimalValue(b)
    ensures a == b <==> DecimalValue(a) == DecimalValue(b)
    decreases |a|
  {
    if |a| > 0 {
      var n := |a| - 1;
      var a', b' := a[..n], b[..n];
      DigitStringOrder(a', b');
      assert a == a' + [a[n]] && b == b' + [b[n]];
      JsLessSnoc(a', b', a[n], b[n]);
      PlaceValueOrder(DecimalValue(a'), DecimalValue(b'), DigitValue(a[n]), DigitValue(b[n]));
    }
  }
}
