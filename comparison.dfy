/** The comparison view of the term-sheet page (src/pages/ResearchPaper.tsx):
    normalising a rating (a number, or text such as "8/10") to a number, the
    colour band that number selects, and the recommended run, taken from a
    stable descending sort of the "Overall Quality" ratings. */
module Comparison {
  import opened Wrappers
  import opened Text
  import opened JsValue

  // ---------------------------------------------------------------------
  // the first numeral in a text

  /** The index of the first decimal digit in `t`. */
  function FirstDigit(t: string): (r: Option<nat>)
    ensures r.Some? ==> r.value < |t| && IsDigit(t[r.value])
    ensures r.Some? ==> forall k :: 0 <= k < r.value ==> !IsDigit(t[k])
    ensures r.None? ==> forall k :: 0 <= k < |t| ==> !IsDigit(t[k])
    decreases |t|
  {
    if t == [] then None
    else if IsDigit(t[0]) then Some(0)
    else match FirstDigit(t[1..])
      case None => None
      case Some(i) => Some(i + 1)
  }

  /** The end of the run of digits starting at `i`. */
  function DigitsEnd(t: string, i: nat): (e: nat)
    requires i <= |t|
    ensures i <= e <= |t|
    ensures forall k :: i <= k < e ==> IsDigit(t[k])
    ensures e < |t| ==> !IsDigit(t[e])
    decreases |t| - i
  {
    if i < |t| && IsDigit(t[i]) then DigitsEnd(t, i + 1) else i
  }

  /** A numeral matched by /\d+(\.\d+)?/: its integer digits and its
      (possibly empty) fraction digits. */
  datatype Numeral = Numeral(whole: string, fraction: string)

  /** The leftmost match of /\d+(\.\d+)?/: the longest run of digits at the
      first digit, then a point and the longest run of digits after it when
      at least one digit follows the point. */
  function FirstNumeral(t: string): (r: Option<Numeral>)
    ensures r.None? <==> forall k :: 0 <= k < |t| ==> !IsDigit(t[k])
    ensures r.Some? ==> r.value.whole != [] && AllDigits(r.value.whole) && AllDigits(r.value.fraction)
  {
    match FirstDigit(t)
    case None => None
    case Some(i) =>
      var e := DigitsEnd(t, i);
      if e + 1 < |t| && t[e] == '.' && IsDigit(t[e + 1]) then
        Some(Numeral(t[i..e], t[e + 1..DigitsEnd(t, e + 1)]))
      else Some(Numeral(t[i..e], ""))
  }

  function Pow10(n: nat): (r: nat)
    ensures r >= 1
  {
    if n == 0 then 1 else 10 * Pow10(n - 1)
  }

  /** `parseFloat` of a matched numeral, as an exact rational. */
  function NumeralValue(n: Numeral): (r: real)
    requires AllDigits(n.whole) && AllDigits(n.fraction)
    ensures r >= 0.0
  {
    DigitsValue(n.whole) as real + DigitsValue(n.fraction) as real / Pow10(|n.fraction|) as real
  }

  /** `parseFloat(text.match(/\d+(\.\d+)?/)?.[0] || "0")`. */
  function NormalizeText(t: string): (r: real)
    ensures r >= 0.0
    ensures (forall k :: 0 <= k < |t| ==> !IsDigit(t[k])) ==> r == 0.0
  {
    match FirstNumeral(t)
    case None => 0.0
    case Some(n) => NumeralValue(n)
  }

  /** The numeric value of a rating: a number is itself; anything else is
      read from its `String` form, where `undefined` (no rating) has no
      digits and so reads as 0. */
  function NormalizeRating(rating: Option<Json>, numText: NumberText): (r: real)
    ensures rating.Some? && rating.value.JNumber? ==> r == rating.value.n
    ensures rating.Some? && rating.value.JString? ==> r == NormalizeText(rating.value.s)
    ensures rating.None? ==> r == 0.0
  {
    match rating
    case None => 0.0
    case Some(JNumber(x)) => x
    case Some(v) => NormalizeText(ToText(v, numText))
  }

  /** The run of digits from `i` ends at `e` when `e` is the first non-digit. */
  lemma {:induction false} DigitsEndAt(t: string, i: nat, e: nat)
    requires i <= e <= |t|
    requires forall k :: i <= k < e ==> IsDigit(t[k])
    requires e == |t| || !IsDigit(t[e])
    ensures DigitsEnd(t, i) == e
    decreases e - i
  {
    if i < e {
      DigitsEndAt(t, i + 1, e);
    }
  }

  /** The first digit of `t` is at `i` when none comes before it. */
  lemma {:induction false} FirstDigitAt(t: string, i: nat)
    requires i < |t| && IsDigit(t[i])
    requires forall k :: 0 <= k < i ==> !IsDigit(t[k])
    ensures FirstDigit(t) == Some(i)
    decreases i
  {
    if i > 0 {
      FirstDigitAt(t[1..], i - 1);
    }
  }

  /** The numeral found is the run of digits from `i` to `e` when no digit
      comes before it and no point followed by a digit comes after it. */
  lemma WholeNumeralAt(t: string, i: nat, e: nat)
    requires i < e <= |t|
    requires forall k :: 0 <= k < i ==> !IsDigit(t[k])
    requires forall k :: i <= k < e ==> IsDigit(t[k])
    requires e == |t| || (!IsDigit(t[e]) && (t[e] != '.' || e + 1 == |t| || !IsDigit(t[e + 1])))
    ensures FirstNumeral(t) == Some(Numeral(t[i..e], ""))
  {
    FirstDigitAt(t, i);
    DigitsEndAt(t, i, e);
  }

  /** A whole number written in decimal, after text without digits and
      before text that does not continue the numeral ("8/10", "Score: 7"),
      reads as that number. */
  lemma NormalizeWholeNumber(pre: string, n: nat, rest: string)
    requires forall k :: 0 <= k < |pre| ==> !IsDigit(pre[k])
    requires rest == [] || (!IsDigit(rest[0]) && (rest[0] != '.' || |rest| == 1 || !IsDigit(rest[1])))
    ensures NormalizeText(pre + NatText(n) + rest) == n as real
  {
    var d := NatText(n);
    WholeNumeralBetween(pre, d, rest);
    DigitsValueOfNatText(n);
    assert NumeralValue(Numeral(d, "")) == n as real by {
      assert DigitsValue("") == 0 && Pow10(0) == 1;
    }
  }

  /** Digits between text without digits and text that does not continue
      the numeral are the numeral found. */
  lemma WholeNumeralBetween(pre: string, d: string, rest: string)
    requires forall k :: 0 <= k < |pre| ==> !IsDigit(pre[k])
    requires d != [] && AllDigits(d)
    requires rest == [] || (!IsDigit(rest[0]) && (rest[0] != '.' || |rest| == 1 || !IsDigit(rest[1])))
    ensures FirstNumeral(pre + d + rest) == Some(Numeral(d, ""))
  {
    var t := pre + d + rest;
    var i := |pre|;
    var e := i + |d|;
    ThreePartIndices(pre, d, rest);
    assert forall k :: i <= k < e ==> IsDigit(t[k]) by {
      forall k | i <= k < e ensures IsDigit(t[k]) {
        assert t[k] == d[k - i];
      }
    }
    WholeNumeralAt(t, i, e);
  }

  /** A decimal numeral after text without digits and before text that
      does not start with a digit ("7.5/10") is the numeral found, with its
      integer and fraction digits. */
  lemma DecimalNumeralBetween(pre: string, w: string, f: string, rest: string)
    requires forall k :: 0 <= k < |pre| ==> !IsDigit(pre[k])
    requires w != [] && AllDigits(w) && f != [] && AllDigits(f)
    requires rest == [] || !IsDigit(rest[0])
    ensures FirstNumeral(pre + w + "." + f + rest) == Some(Numeral(w, f))
  {
    var t := pre + w + "." + f + rest;
    var i := |pre|;
    var e := i + |w|;
    var g := e + 1 + |f|;
    assert forall k :: 0 <= k < i ==> t[k] == pre[k];
    assert forall k :: i <= k < e ==> t[k] == w[k - i];
    assert t[e] == '.';
    assert forall k :: e + 1 <= k < g ==> t[k] == f[k - e - 1];
    assert g < |t| ==> t[g] == rest[0];
    FirstDigitAt(t, i);
    DigitsEndAt(t, i, e);
    DigitsEndAt(t, e + 1, g);
    assert t[i..e] == w;
    assert t[e + 1..g] == f;
  }

  /** A decimal rating reads as its exact value: "7.5/10" gives 7.5. */
  lemma NormalizeDecimal(pre: string, w: string, f: string, rest: string)
    requires forall k :: 0 <= k < |pre| ==> !IsDigit(pre[k])
    requires w != [] && AllDigits(w) && f != [] && AllDigits(f)
    requires rest == [] || !IsDigit(rest[0])
    ensures NormalizeText(pre + w + "." + f + rest)
            == DigitsValue(w) as real + DigitsValue(f) as real / Pow10(|f|) as real
  {
    DecimalNumeralBetween(pre, w, f, rest);
  }

  /** "7.5/10" reads as 7.5. */
  lemma NormalizeSevenAndAHalf()
    ensures NormalizeText("7.5/10") == 7.5
  {
    assert "7.5/10" == "" + "7" + "." + "5" + "/10";
    NormalizeDecimal("", "7", "5", "/10");
    assert DigitsValue("7") == 7 && DigitsValue("5") == 5;
    assert Pow10(1) == 10;
  }

  /** Positions in a text made of three parts. */
  lemma ThreePartIndices(pre: string, d: string, rest: string)
    ensures var t := pre + d + rest;
            && (forall k :: 0 <= k < |pre| ==> t[k] == pre[k])
            && (forall k :: |pre| <= k < |pre| + |d| ==> t[k] == d[k - |pre|])
            && (forall k :: |pre| + |d| <= k < |t| ==> t[k] == rest[k - |pre| - |d|])
            && t[|pre|..|pre| + |d|] == d
  {
  }

  // ---------------------------------------------------------------------
  // colour bands

  datatype Band = Emerald | Indigo | Red | Plain

  /** The colour of a rating cell, chosen from the normalised value (the
      raw rating is what the cell shows). The four bands partition the
      numbers. */
  function RatingBand(x: real): (b: Band)
    ensures b == Emerald <==> x >= 8.0
    ensures b == Indigo <==> 6.0 <= x < 8.0
    ensures b == Red <==> x < 5.0
    ensures b == Plain <==> 5.0 <= x < 6.0
  {
    if x >= 8.0 then Emerald
    else if x >= 6.0 then Indigo
    else if x < 5.0 then Red
    else Plain
  }

  /** The band of the cell for the run at `analysisIndex` (its key is the
      1-based run number). */
  function CellBand(ratings: Json, analysisIndex: nat, numText: NumberText): Band {
    RatingBand(NormalizeRating(Get(ratings, NatText(analysisIndex + 1)), numText))
  }

  /** A rating written "n/10" and the number n colour the cell alike. */
  lemma CellBandOfText(key: nat, n: nat, numText: NumberText)
    ensures var text := JObject([(NatText(key + 1), JString(NatText(n) + "/10"))]);
            var num := JObject([(NatText(key + 1), JNumber(n as real))]);
            CellBand(text, key, numText) == CellBand(num, key, numText)
  {
    NormalizeWholeNumber("", n, "/10");
    assert "" + NatText(n) + "/10" == NatText(n) + "/10";
  }

  // ---------------------------------------------------------------------
  // the stable descending sort

  /** A rated run: its key and its normalised rating. */
  type Scored = (string, real)

  predicate SortedDesc(s: seq<Scored>) {
    forall i, j :: 0 <= i < j < |s| ==> s[i].1 >= s[j].1
  }

  /** Insert before the first element rated no higher: elements already
      there that are rated higher stay in front, equal ones stay behind. */
  function InsertDesc(x: Scored, t: seq<Scored>): (r: seq<Scored>)
    ensures |r| == |t| + 1
    decreases |t|
  {
    if t == [] || t[0].1 <= x.1 then [x] + t else [t[0]] + InsertDesc(x, t[1..])
  }

  /** Insertion adds exactly the inserted element. */
  lemma {:induction false} InsertDescPermutes(x: Scored, t: seq<Scored>)
    ensures multiset(InsertDesc(x, t)) == multiset(t) + multiset{x}
    decreases |t|
  {
    if t != [] && t[0].1 > x.1 {
      InsertDescPermutes(x, t[1..]);
      assert t == [t[0]] + t[1..];
    }
  }

  /** Inserting into a sorted sequence keeps it sorted. */
  lemma {:induction false} InsertDescSorted(x: Scored, t: seq<Scored>)
    requires SortedDesc(t)
    ensures SortedDesc(InsertDesc(x, t))
    decreases |t|
  {
    if t != [] && t[0].1 > x.1 {
      var rest := InsertDesc(x, t[1..]);
      InsertDescSorted(x, t[1..]);
      InsertDescBounded(x, t[1..], t[0].1);
      var r := [t[0]] + rest;
      forall i, j | 0 <= i < j < |r| ensures r[i].1 >= r[j].1 {
        assert r[j] == rest[j - 1];
        if i > 0 { assert r[i] == rest[i - 1]; }
      }
    }
  }

  /** Insertion keeps every rating below a bound that the inserted element
      and the sequence respect. */
  lemma {:induction false} InsertDescBounded(x: Scored, t: seq<Scored>, bound: real)
    requires x.1 <= bound
    requires forall i :: 0 <= i < |t| ==> t[i].1 <= bound
    ensures forall i :: 0 <= i < |InsertDesc(x, t)| ==> InsertDesc(x, t)[i].1 <= bound
    decreases |t|
  {
    if t != [] && t[0].1 > x.1 {
      InsertDescBounded(x, t[1..], bound);
      var r := InsertDesc(x, t);
      forall i | 0 <= i < |r| ensures r[i].1 <= bound {
        if i > 0 { assert r[i] == InsertDesc(x, t[1..])[i - 1]; }
      }
    }
  }

  /** `.sort((a, b) => score(b) - score(a))`: a stable sort, highest rating
      first, equal ratings in their original order. */
  function SortDesc(s: seq<Scored>): (r: seq<Scored>)
    ensures |r| == |s|
    decreases |s|
  {
    if s == [] then [] else InsertDesc(s[0], SortDesc(s[1..]))
  }

  /** The sort is a permutation that puts the highest ratings first. */
  lemma {:induction false} SortDescCorrect(s: seq<Scored>)
    ensures multiset(SortDesc(s)) == multiset(s)
    ensures SortedDesc(SortDesc(s))
    decreases |s|
  {
    if s != [] {
      SortDescCorrect(s[1..]);
      InsertDescSorted(s[0], SortDesc(s[1..]));
      InsertDescPermutes(s[0], SortDesc(s[1..]));
      assert s == [s[0]] + s[1..];
    }
  }

  /** Index `i` holds the first of the highest ratings. */
  predicate IsFirstMax(s: seq<Scored>, i: int) {
    && 0 <= i < |s|
    && (forall j :: 0 <= j < |s| ==> s[j].1 <= s[i].1)
    && (forall j :: 0 <= j < i ==> s[j].1 < s[i].1)
  }

  /** The head of the sort is the first of the highest-rated runs: ties go
      to the earliest one, because the sort is stable. */
  lemma {:induction false} SortHeadIsFirstMax(s: seq<Scored>)
    requires s != []
    ensures exists i :: IsFirstMax(s, i) && SortDesc(s)[0] == s[i]
    decreases |s|
  {
    if |s| == 1 {
      assert IsFirstMax(s, 0);
    } else {
      var tail := s[1..];
      SortHeadIsFirstMax(tail);
      var i' :| IsFirstMax(tail, i') && SortDesc(tail)[0] == tail[i'];
      var t := SortDesc(tail);
      assert SortDesc(s) == InsertDesc(s[0], t);
      if t[0].1 <= s[0].1 {
        assert InsertDesc(s[0], t) == [s[0]] + t;
        forall j | 0 <= j < |s| ensures s[j].1 <= s[0].1 {
          if j > 0 { assert s[j] == tail[j - 1]; }
        }
        assert IsFirstMax(s, 0);
      } else {
        assert InsertDesc(s[0], t) == [t[0]] + InsertDesc(s[0], t[1..]);
        forall j | 0 <= j < |s| ensures s[j].1 <= s[i' + 1].1 {
          if j > 0 { assert s[j] == tail[j - 1]; }
        }
        forall j | 0 <= j < i' + 1 ensures s[j].1 < s[i' + 1].1 {
          if j > 0 { assert s[j] == tail[j - 1]; }
        }
        assert IsFirstMax(s, i' + 1);
      }
    }
  }

  // ---------------------------------------------------------------------
  // the recommendation

  const OverallQuality := "Overall Quality"

  /** `comparisonResults.find(c => c.criteria === "Overall Quality")`. */
  function FindCriteria(cs: seq<Json>, name: string): (r: Option<Json>)
    ensures r.Some? ==> exists i :: 0 <= i < |cs| && cs[i] == r.value && Get(cs[i], "criteria") == Some(JString(name))
    ensures r.None? ==> forall i :: 0 <= i < |cs| ==> Get(cs[i], "criteria") != Some(JString(name))
    decreases |cs|
  {
    if cs == [] then None
    else if Get(cs[0], "criteria") == Some(JString(name)) then Some(cs[0])
    else
      var r := FindCriteria(cs[1..], name);
      assert forall i :: 1 <= i < |cs| ==> cs[i] == cs[1..][i - 1];
      r
  }

  /** The rated runs of a ratings value: `Object.entries(ratings || {})`
      with each value normalised. */
  function ScoredEntries(ratings: Option<Json>, numText: NumberText): (r: seq<Scored>)
    ensures !Truthy(ratings) ==> r == []
    ensures Truthy(ratings) ==> |r| == |Entries(ratings.value)|
    ensures Truthy(ratings) ==> forall i :: 0 <= i < |r| ==>
              r[i] == (Entries(ratings.value)[i].0, NormalizeRating(Some(Entries(ratings.value)[i].1), numText))
  {
    if Truthy(ratings) then
      var es := Entries(ratings.value);
      seq(|es|, i requires 0 <= i < |es| => (es[i].0, NormalizeRating(Some(es[i].1), numText)))
    else []
  }

  /** The key of the recommended run, `None` when there is no rated run
      (`undefined` is shown). */
  function Recommend(cs: seq<Json>, numText: NumberText): Option<string> {
    var ratings := match FindCriteria(cs, OverallQuality)
                   case None => None
                   case Some(c) => Get(c, "ratings");
    var sorted := SortDesc(ScoredEntries(ratings, numText));
    if sorted == [] then None else Some(sorted[0].0)
  }

  /** The recommended run is the first of the highest-rated entries of the
      first "Overall Quality" row, and there is one exactly when that row
      has a rated entry. */
  lemma RecommendIsFirstMax(cs: seq<Json>, numText: NumberText)
    ensures var ratings := match FindCriteria(cs, OverallQuality)
                           case None => None
                           case Some(c) => Get(c, "ratings");
            var scored := ScoredEntries(ratings, numText);
            && (Recommend(cs, numText).Some? <==> scored != [])
            && (Recommend(cs, numText).Some? ==>
                  exists i :: IsFirstMax(scored, i) && Recommend(cs, numText).value == scored[i].0)
  {
    var ratings := match FindCriteria(cs, OverallQuality)
                   case None => None
                   case Some(c) => Get(c, "ratings");
    var scored := ScoredEntries(ratings, numText);
    assert |SortDesc(scored)| == |scored| by {
      assert |multiset(SortDesc(scored))| == |multiset(scored)|;
    }
    if scored != [] {
      SortHeadIsFirstMax(scored);
    }
  }

  /** A comparison holding only an "Overall Quality" row with the given
      ratings. */
  function OverallRow(ratings: Json): Json {
    JObject([("criteria", JString(OverallQuality)), ("ratings", ratings)])
  }

  /** Such a row is found and its ratings are read. */
  lemma OverallRowRatings(ratings: Json)
    ensures FindCriteria([OverallRow(ratings)], OverallQuality) == Some(OverallRow(ratings))
    ensures Get(OverallRow(ratings), "ratings") == Some(ratings)
  {
    var c := OverallRow(ratings);
    assert Get(c, "criteria") == Some(JString(OverallQuality));
    assert c.members[0].0 != "ratings";
    assert c.members[1..] == [("ratings", ratings)];
    assert Lookup([("ratings", ratings)], "ratings") == Some(ratings);
    assert Lookup(c.members, "ratings") == Lookup(c.members[1..], "ratings");
  }

  /** With an "Overall Quality" row, the recommendation is the head of the
      sorted ratings of that row. */
  lemma RecommendOfRow(ratings: Json, numText: NumberText)
    ensures var sorted := SortDesc(ScoredEntries(Some(ratings), numText));
            Recommend([OverallRow(ratings)], numText) == if sorted == [] then None else Some(sorted[0].0)
  {
    OverallRowRatings(ratings);
  }

  /** Sorting two rated runs: the second goes first only when it is rated
      strictly higher. */
  lemma SortDescPair(a: Scored, b: Scored)
    ensures SortDesc([a, b]) == if b.1 <= a.1 then [a, b] else [b, a]
  {
    assert [a, b][1..] == [b];
    assert [b][1..] == [];
    assert SortDesc([b]) == InsertDesc(b, []) == [b];
    assert InsertDesc(a, []) == [a];
    assert SortDesc([a, b]) == InsertDesc(a, [b]);
  }

  /** The rated runs of an object with two members. */
  lemma ScoredPair(m1: (string, Json), m2: (string, Json), numText: NumberText)
    ensures ScoredEntries(Some(JObject([m1, m2])), numText)
            == [(m1.0, NormalizeRating(Some(m1.1), numText)), (m2.0, NormalizeRating(Some(m2.1), numText))]
  {
  }

  lemma NormalizeNineOfTen()
    ensures NormalizeText("9/10") == 9.0
  {
    NormalizeWholeNumber("", 9, "/10");
    assert NatText(9) == "9";
    assert "" + "9" + "/10" == "9/10";
  }

  lemma NormalizeDigit(n: nat)
    requires n < 10
    ensures NormalizeText([DigitChar(n)]) == n as real
  {
    NormalizeWholeNumber("", n, "");
    assert "" + [DigitChar(n)] + "" == [DigitChar(n)];
  }

  /** Two runs rated "9/10" and "7": the first is recommended. */
  lemma RecommendExample(numText: NumberText)
    ensures Recommend([OverallRow(JObject([("1", JString("9/10")), ("2", JString("7"))]))], numText) == Some("1")
  {
    var ratings := JObject([("1", JString("9/10")), ("2", JString("7"))]);
    RecommendOfRow(ratings, numText);
    ScoredPair(("1", JString("9/10")), ("2", JString("7")), numText);
    NormalizeNineOfTen();
    NormalizeDigit(7);
    assert [DigitChar(7)] == "7";
    SortDescPair(("1", 9.0), ("2", 7.0));
  }

  /** A tie between "8" and the number 8: the earlier run is recommended. */
  lemma RecommendTieExample(numText: NumberText)
    ensures Recommend([OverallRow(JObject([("1", JString("8")), ("2", JNumber(8.0))]))], numText) == Some("1")
  {
    var ratings := JObject([("1", JString("8")), ("2", JNumber(8.0))]);
    RecommendOfRow(ratings, numText);
    ScoredPair(("1", JString("8")), ("2", JNumber(8.0)), numText);
    NormalizeDigit(8);
    assert [DigitChar(8)] == "8";
    SortDescPair(("1", 8.0), ("2", 8.0));
  }
}
