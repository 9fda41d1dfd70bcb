/** The course list page's derived data: the title search, the rounded average price and
    the number of distinct languages, each computed from whatever the store holds. */
module CourseDashboard {

  import opened Wrappers
  import opened Js
  import Lists
  import Text

  /** Reading `course.title` or `course.price` of this element throws. */
  predicate IsNullishCourse(c: Value)
  {
    Nullish(c)
  }

  /** `course.title?.toLowerCase()` throws for this element: the element is nullish, or its
      title is set but is not a string. */
  predicate TitleThrows(c: Value)
  {
    Nullish(c) || (!Nullish(Prop(c, "title")) && !Prop(c, "title").Str?)
  }

  /** The search predicate for an element whose title can be read: a string title that
      contains the search term, ignoring case. */
  predicate TitleMatches(c: Value, term: string)
  {
    Prop(c, "title").Str? && Text.Contains(Text.Lower(Prop(c, "title").s), Text.Lower(term))
  }

  /** `filteredCourses`: `None` when the filter throws; otherwise the matching courses in
      their order, or none when the store does not hold an array. */
  function FilteredCourses(courses: Value, term: string): (r: Option<seq<Value>>)
    ensures !courses.Arr? ==> r == Some([])
    ensures courses.Arr? ==> (r.None? <==> exists j | 0 <= j < |courses.items| :: TitleThrows(courses.items[j]))
    ensures r.Some? ==> forall k | 0 <= k < |r.value| :: TitleMatches(r.value[k], term)
    ensures r.Some? && courses.Arr? ==>
              forall k | 0 <= k < |courses.items| && TitleMatches(courses.items[k], term) :: courses.items[k] in r.value
    ensures r.Some? && courses.Arr? ==>
              forall c :: multiset(r.value)[c] == if TitleMatches(c, term) then multiset(courses.items)[c] else 0
  {
    if !courses.Arr? then Some([])
    else if exists j | 0 <= j < |courses.items| :: TitleThrows(courses.items[j]) then None
    else
      var matches := (c: Value) => TitleMatches(c, term);
      Lists.FilterKeepsPassing(courses.items, matches);
      Lists.FilterMultiset(courses.items, matches);
      Some(Lists.Filter(courses.items, matches))
  }

  /** Folding ASCII capitals twice is folding them once. */
  lemma LowerIdempotent(s: string)
    ensures Text.Lower(Text.Lower(s)) == Text.Lower(s)
  {
  }

  /** The search ignores case: a term and its lower-cased form select the same courses. */
  lemma SearchIgnoresCase(courses: Value, term: string)
    ensures FilteredCourses(courses, term) == FilteredCourses(courses, Text.Lower(term))
  {
    LowerIdempotent(term);
    if courses.Arr? {
      Lists.FilterSamePredicate(courses.items, c => TitleMatches(c, term), c => TitleMatches(c, Text.Lower(term)));
    }
  }

  /** An empty search shows every course that has a string title, in order. */
  lemma EmptySearchKeepsTitled(courses: seq<Value>)
    requires forall j | 0 <= j < |courses| :: Prop(courses[j], "title").Str?
    ensures FilteredCourses(Arr(courses), "") == Some(courses)
  {
    forall j | 0 <= j < |courses| ensures TitleMatches(courses[j], "") {
      Text.ContainsEmpty(Text.Lower(Prop(courses[j], "title").s));
    }
    Lists.FilterKeepsAll(courses, c => TitleMatches(c, ""));
  }

  /** A character's digit value. */
  function DigitValue(c: char): nat
    requires '0' <= c <= '9'
  {
    c as int - '0' as int
  }

  /** A non-empty string of decimal digits. */
  predicate IsDigits(s: string)
  {
    s != [] && forall k | 0 <= k < |s| :: '0' <= s[k] <= '9'
  }

  /** The value of a string of decimal digits. */
  function ParseDigits(s: string): nat
    requires forall k | 0 <= k < |s| :: '0' <= s[k] <= '9'
  {
    if s == [] then 0 else ParseDigits(s[..|s| - 1]) * 10 + DigitValue(s[|s| - 1])
  }

  /** The decimal digits of `n`, without leading zeros. */
  function DecimalString(n: nat): (s: string)
    ensures IsDigits(s)
    ensures |s| > 1 ==> s[0] != '0'
  {
    if n < 10 then ['0' + n as char] else DecimalString(n / 10) + ['0' + (n % 10) as char]
  }

  /** Reading the digits back gives the number. */
  lemma {:induction false} DecimalRoundTrip(n: nat)
    ensures ParseDigits(DecimalString(n)) == n
  {
    var s := DecimalString(n);
    if n >= 10 {
      DecimalRoundTrip(n / 10);
      assert s[..|s| - 1] == DecimalString(n / 10);
    }
  }

  /** `Number(course.price) || 0` for the prices the model reads: a number, a boolean, or a
      string of decimal digits; every other value (and `NaN`) counts as 0. */
  function PriceOf(c: Value): (p: int)
    ensures Prop(c, "price").Num? ==> p == Prop(c, "price").n
    ensures Prop(c, "price").Str? && IsDigits(Prop(c, "price").s) ==> p == ParseDigits(Prop(c, "price").s)
    ensures Prop(c, "price").Bool? ==> p == if Prop(c, "price").b then 1 else 0
    ensures !Prop(c, "price").Num? && !Prop(c, "price").Bool? && !(Prop(c, "price").Str? && IsDigits(Prop(c, "price").s)) ==>
              p == 0
  {
    match Prop(c, "price")
    case Num(n) => n
    case Bool(b) => if b then 1 else 0
    case Str(s) => if IsDigits(s) then ParseDigits(s) else 0
    case _ => 0
  }

  /** `x.toFixed(0)` for a non-negative `a / c`: the nearest integer, a half rounding up. */
  function RoundHalfUp(a: nat, c: nat): (r: nat)
    requires c > 0
    ensures 2 * a - c < 2 * r * c <= 2 * a + c
  {
    (2 * a + c) / (2 * c)
  }

  /** `(sum / count).toFixed(0)`: the rounded magnitude, with a minus sign for a negative
      quotient (so a small negative quotient prints as `-0`). */
  function Fixed0(sum: int, count: nat): (s: string)
    requires count > 0
    ensures sum >= 0 ==> IsDigits(s) && ParseDigits(s) == RoundHalfUp(sum, count)
    ensures sum < 0 ==> |s| >= 2 && s[0] == '-' && IsDigits(s[1..]) && ParseDigits(s[1..]) == RoundHalfUp(-sum, count)
  {
    if sum >= 0 then
      DecimalRoundTrip(RoundHalfUp(sum, count));
      DecimalString(RoundHalfUp(sum, count))
    else
      DecimalRoundTrip(RoundHalfUp(-sum, count));
      assert ("-" + DecimalString(RoundHalfUp(-sum, count)))[1..] == DecimalString(RoundHalfUp(-sum, count));
      "-" + DecimalString(RoundHalfUp(-sum, count))
  }

  /** `averagePrice`: `None` when reading a price throws; otherwise `null` (here `None`)
      unless the store holds a non-empty array, and then the mean price rounded to a whole
      number. */
  function AveragePrice(courses: Value): (r: Option<Option<string>>)
    ensures !courses.Arr? || courses.items == [] ==> r == Some(None)
    ensures courses.Arr? && courses.items != [] ==>
              (r.None? <==> exists j | 0 <= j < |courses.items| :: IsNullishCourse(courses.items[j]))
    ensures r.Some? && r.value.Some? ==>
              courses.Arr? && courses.items != []
              && r.value.value == Fixed0(Lists.Sum(courses.items, PriceOf), |courses.items|)
    ensures courses.Arr? && courses.items != [] && r.Some? ==>
              r.value == Some(Fixed0(Lists.Sum(courses.items, PriceOf), |courses.items|))
  {
    if !courses.Arr? || courses.items == [] then Some(None)
    else if exists j | 0 <= j < |courses.items| :: IsNullishCourse(courses.items[j]) then None
    else Some(Some(Fixed0(Lists.Sum(courses.items, PriceOf), |courses.items|)))
  }

  /** With every price a digit string or a non-negative number, the average is printed
      without a sign and lies between the smallest possible and the largest price sum. */
  lemma AverageOfNonNegativePrices(courses: seq<Value>)
    requires courses != []
    requires forall j | 0 <= j < |courses| :: !IsNullishCourse(courses[j]) && PriceOf(courses[j]) >= 0
    ensures AveragePrice(Arr(courses)).Some? && AveragePrice(Arr(courses)).value.Some?
    ensures IsDigits(AveragePrice(Arr(courses)).value.value)
  {
    Lists.SumNonNegative(courses, PriceOf);
  }

  /** The language a course contributes to the set. */
  function LanguageOf(c: Value): Value
  {
    Prop(c, "language")
  }

  /** `uniqueLanguages`: `None` when reading a language throws; otherwise the number of
      distinct `language` values, or 0 when the store does not hold an array. */
  function UniqueLanguages(courses: Value): (r: Option<nat>)
    ensures !courses.Arr? ==> r == Some(0)
    ensures courses.Arr? ==> (r.None? <==> exists j | 0 <= j < |courses.items| :: IsNullishCourse(courses.items[j]))
    ensures r.Some? && courses.Arr? ==> r.value <= |courses.items|
    ensures r.Some? && courses.Arr? && courses.items != [] ==> r.value >= 1
    ensures r.Some? && courses.Arr? ==>
              r.value == |set j | 0 <= j < |courses.items| :: LanguageOf(courses.items[j])|
  {
    if !courses.Arr? then Some(0)
    else if exists j | 0 <= j < |courses.items| :: IsNullishCourse(courses.items[j]) then None
    else
      var values := Lists.ValuesOf(courses.items, LanguageOf);
      assert values == set j | 0 <= j < |courses.items| :: LanguageOf(courses.items[j]);
      Some(|values|)
  }

  /** Courses that all share one language count as one. */
  lemma OneLanguage(courses: seq<Value>, language: Value)
    requires courses != [] && forall j | 0 <= j < |courses| :: !Nullish(courses[j]) && LanguageOf(courses[j]) == language
    ensures UniqueLanguages(Arr(courses)) == Some(1)
  {
    var values := Lists.ValuesOf(courses, LanguageOf);
    assert language in values by { assert LanguageOf(courses[0]) == language; }
    assert values == {language};
  }
}
