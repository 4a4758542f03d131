/**
 * The two pattern rules the monitor applies to a fetched page:
 *   stock  `库存\((\d+)\)`      then `int()` of the digits,
 *   price  `¥\s*(\d+\.\d+)`     then `float()` of the matched lexeme,
 * each found with `re.search`, i.e. at the leftmost position where it matches.
 * `\d` is taken to be the ASCII digits; `\s` is Python's white space for
 * `str` patterns, which includes the separators U+001C to U+001F.
 */
module Extract {
  import opened Wrappers

  predicate IsDigit(c: char) { '0' <= c <= '9' }

  /** What `\s` matches in a `str` pattern (Python's `str.isspace`). */
  predicate IsSpace(c: char) {
    || '\t' <= c <= '\r'
    || '\U{001C}' <= c <= ' '
    || c == '\U{0085}' || c == '\U{00A0}' || c == '\U{1680}'
    || '\U{2000}' <= c <= '\U{200A}'
    || c == '\U{2028}' || c == '\U{2029}' || c == '\U{202F}' || c == '\U{205F}' || c == '\U{3000}'
  }

  predicate AllDigits(ds: string) { forall j | 0 <= j < |ds| :: IsDigit(ds[j]) }

  /** Length of the longest run of characters satisfying `p` that starts at `i`
      (what a greedy `p*` consumes from there). */
  function RunLength(s: string, i: nat, p: char -> bool): (k: nat)
    requires i <= |s|
    ensures i + k <= |s|
    ensures forall j | i <= j < i + k :: p(s[j])
    ensures i + k == |s| || !p(s[i + k])
    decreases |s| - i
  {
    if i < |s| && p(s[i]) then 1 + RunLength(s, i + 1, p) else 0
  }

  /** A greedy run is the only run that is followed by a character outside it. */
  lemma RunLengthUnique(s: string, i: nat, p: char -> bool, m: nat)
    requires i + m <= |s|
    requires forall j | i <= j < i + m :: p(s[j])
    requires i + m == |s| || !p(s[i + m])
    ensures RunLength(s, i, p) == m
  {
  }

  function Pow10(k: nat): (p: nat)
    ensures p > 0
  {
    if k == 0 then 1 else 10 * Pow10(k - 1)
  }

  /** Python's `int()` on a string of ASCII digits, without its length cap:
      the value of k digits is below 10^k. */
  function DigitsValue(ds: string): (v: nat)
    requires AllDigits(ds)
    ensures v < Pow10(|ds|)
  {
    if ds == [] then 0
    else
      var high, low := DigitsValue(ds[..|ds| - 1]), ds[|ds| - 1] as int - '0' as int;
      assert 10 * high + low < 10 * Pow10(|ds| - 1) by {
        assert high + 1 <= Pow10(|ds| - 1);
      }
      10 * high + low
  }

  /** Python's default cap on the number of digits `int()` converts from a
      string (`sys.int_info.default_max_str_digits`): a longer string makes
      `int()` raise `ValueError`. */
  const IntMaxStrDigits: nat := 4300

  function DigitChar(d: nat): (c: char)
    requires d < 10
    ensures IsDigit(c) && c as int - '0' as int == d
  {
    ('0' as int + d) as char
  }

  /** Python's `str()` of a non-negative integer: decimal digits, no leading zero. */
  function Decimal(n: nat): (ds: string)
    ensures |ds| > 0 && AllDigits(ds)
    ensures |ds| > 1 ==> ds[0] != '0'
  {
    if n < 10 then [DigitChar(n)] else Decimal(n / 10) + [DigitChar(n % 10)]
  }

  /** Reading back a printed number gives the number. */
  lemma {:induction false} DecimalRoundTrip(n: nat)
    ensures DigitsValue(Decimal(n)) == n
  {
    if n >= 10 {
      var ds := Decimal(n);
      assert ds[..|ds| - 1] == Decimal(n / 10);
      DecimalRoundTrip(n / 10);
    }
  }

  lemma {:induction false} LeadingDigitPositive(ds: string)
    requires |ds| > 0 && AllDigits(ds) && ds[0] != '0'
    ensures DigitsValue(ds) > 0
  {
    if |ds| > 1 {
      LeadingDigitPositive(ds[..|ds| - 1]);
    }
  }

  /** Printing a digit string without a leading zero after reading it gives it back. */
  lemma {:induction false} CanonicalDigitsRoundTrip(ds: string)
    requires |ds| > 0 && AllDigits(ds)
    requires |ds| > 1 ==> ds[0] != '0'
    ensures Decimal(DigitsValue(ds)) == ds
  {
    if |ds| > 1 {
      var pre := ds[..|ds| - 1];
      LeadingDigitPositive(pre);
      CanonicalDigitsRoundTrip(pre);
      assert ds == pre + [ds[|ds| - 1]];
    }
  }

  /** Leftmost-search semantics of `re.search`. */
  ghost predicate LeftmostMatch<T>(s: string, at: (string, nat) -> Option<T>, i: nat) {
    i <= |s| && at(s, i).Some? && forall j | 0 <= j < i :: at(s, j).None?
  }

  /** At most one position is the leftmost match. */
  lemma LeftmostIsUnique<T>(s: string, at: (string, nat) -> Option<T>)
    ensures forall i, j | LeftmostMatch(s, at, i) && LeftmostMatch(s, at, j) :: i == j
  {
  }

  /** The first position at or after `from` where `at` matches. */
  function FirstMatchFrom<T>(s: string, at: (string, nat) -> Option<T>, from: nat): (r: Option<nat>)
    requires from <= |s|
    ensures r.None? ==> forall i | from <= i <= |s| :: at(s, i).None?
    ensures r.Some? ==> from <= r.value <= |s| && at(s, r.value).Some?
    ensures r.Some? ==> forall j | from <= j < r.value :: at(s, j).None?
    decreases |s| - from
  {
    if at(s, from).Some? then Some(from)
    else if from == |s| then None
    else FirstMatchFrom(s, at, from + 1)
  }

  /** `re.search` with a pattern whose anchored match at each position is `at`. */
  function Search<T>(s: string, at: (string, nat) -> Option<T>): (r: Option<T>)
    ensures r.None? <==> forall i | 0 <= i <= |s| :: at(s, i).None?
    ensures r.Some? ==> exists i :: LeftmostMatch(s, at, i) && r == at(s, i)
  {
    match FirstMatchFrom(s, at, 0)
    case Some(i) =>
      assert LeftmostMatch(s, at, i);
      at(s, i)
    case None => None
  }

  /** The literal `库存(` that opens a stock match. */
  const StockOpen: string := "库存("

  /** `库存\((\d+)\)` anchored at `i`; the result is the text of the group.
      Greedy `\d+` followed by `)` never needs to backtrack, so the group is
      the maximal digit run. */
  function StockGroupAt(s: string, i: nat): (r: Option<string>)
    ensures r.Some? ==> |r.value| > 0 && AllDigits(r.value)
    ensures r.Some? ==>
      var a := i + |StockOpen|;
      && a + |r.value| < |s|
      && s[i..a] == StockOpen
      && s[a..a + |r.value|] == r.value
      && s[a + |r.value|] == ')'
  {
    if i + |StockOpen| <= |s| && s[i..i + |StockOpen|] == StockOpen then
      var a := i + |StockOpen|;
      var k := RunLength(s, a, IsDigit);
      if k > 0 && a + k < |s| && s[a + k] == ')' then Some(s[a..a + k]) else None
    else None
  }

  /** Any way the stock pattern can match at `i` (any length of digits) yields
      the group `StockGroupAt` yields: backtracking would find nothing else. */
  lemma StockGroupAtIsOnlyMatch(s: string, i: nat, m: nat)
    requires i + |StockOpen| + m < |s| && s[i..i + |StockOpen|] == StockOpen
    requires m > 0 && AllDigits(s[i + |StockOpen|..i + |StockOpen| + m])
    requires s[i + |StockOpen| + m] == ')'
    ensures StockGroupAt(s, i) == Some(s[i + |StockOpen|..i + |StockOpen| + m])
  {
    var a := i + |StockOpen|;
    forall j | a <= j < a + m ensures IsDigit(s[j]) {
      assert s[a..a + m][j - a] == s[j];
    }
    RunLengthUnique(s, a, IsDigit, m);
  }

  /** Stock group of a page: the group of the leftmost stock match, or None. */
  function ExtractStockDigits(s: string): (r: Option<string>)
    ensures r.None? <==> forall i | 0 <= i <= |s| :: StockGroupAt(s, i).None?
    ensures r.Some? ==> exists i :: LeftmostMatch(s, StockGroupAt, i) && r == StockGroupAt(s, i)
  {
    Search(s, StockGroupAt)
  }

  /** Stock count of a page: `int()` of the leftmost stock group, or None. */
  function ExtractStock(s: string): (r: Option<nat>)
    ensures r.None? <==> forall i | 0 <= i <= |s| :: StockGroupAt(s, i).None?
    ensures r.Some? ==>
      exists i :: LeftmostMatch(s, StockGroupAt, i) && r.value == DigitsValue(StockGroupAt(s, i).value)
  {
    match ExtractStockDigits(s)
    case Some(ds) => Some(DigitsValue(ds))
    case None => None
  }

  /** `int()` of the page's leftmost stock group raises `ValueError`: the group
      has more digits than the cap allows. */
  predicate StockIntRaises(s: string): (b: bool)
    ensures b <==> exists i :: LeftmostMatch(s, StockGroupAt, i) && |StockGroupAt(s, i).value| > IntMaxStrDigits
  {
    var g := ExtractStockDigits(s);
    LeftmostIsUnique(s, StockGroupAt);
    g.Some? && |g.value| > IntMaxStrDigits
  }

  /** Text of the form `<digits>.<digits>`. */
  predicate IsDecimalText(x: string) {
    var k := RunLength(x, 0, IsDigit);
    0 < k && k + 1 < |x| && x[k] == '.' && forall j | k < j < |x| :: IsDigit(x[j])
  }

  /** `(\d+\.\d+)` anchored at `a`, as the greedy runs match it; the result is
      the matched text, which no further digit follows. */
  function NumberAt(s: string, a: nat): (r: Option<string>)
    requires a <= |s|
    ensures r.Some? ==> IsDecimalText(r.value)
  {
    var k1 := RunLength(s, a, IsDigit);
    if k1 > 0 && a + k1 < |s| && s[a + k1] == '.' then
      var k2 := RunLength(s, a + k1 + 1, IsDigit);
      if k2 > 0 then
        var x := s[a..a + k1 + 1 + k2];
        DecimalTextOfRuns(s, a, k1, k2);
        Some(x)
      else None
    else None
  }

  lemma DecimalTextOfRuns(s: string, a: nat, k1: nat, k2: nat)
    requires a + k1 + 1 + k2 <= |s| && k1 > 0 && k2 > 0 && s[a + k1] == '.'
    requires forall j | a <= j < a + k1 :: IsDigit(s[j])
    requires forall j | a + k1 < j < a + k1 + 1 + k2 :: IsDigit(s[j])
    ensures IsDecimalText(s[a..a + k1 + 1 + k2])
  {
    var x := s[a..a + k1 + 1 + k2];
    assert forall j | 0 <= j < |x| :: x[j] == s[a + j];
    RunLengthUnique(x, 0, IsDigit, k1);
  }

  /** `¥\s*(\d+\.\d+)` anchored at `i`; the result is the text of the group,
      which starts after the `¥` and the white space that follows it. */
  function PriceLexemeAt(s: string, i: nat): (r: Option<string>)
    ensures r.Some? ==> i < |s| && s[i] == '¥' && IsDecimalText(r.value)
    ensures r.Some? ==> NumberTextAt(s, i + 1 + RunLength(s, i + 1, IsSpace), r.value)
  {
    if i < |s| && s[i] == '¥' then
      var a := i + 1 + RunLength(s, i + 1, IsSpace);
      NumberAtIsText(s, a);
      NumberAt(s, a)
    else None
  }

  /** Price lexeme of a page: the group of the leftmost price match, or None. */
  function ExtractPriceLexeme(s: string): (r: Option<string>)
    ensures r.None? <==> forall i | 0 <= i <= |s| :: PriceLexemeAt(s, i).None?
    ensures r.Some? ==> exists i :: LeftmostMatch(s, PriceLexemeAt, i) && r == PriceLexemeAt(s, i)
  {
    Search(s, PriceLexemeAt)
  }

  /** Price of a page: `float()` (the parameter `toFloat`) of the leftmost
      price lexeme, or None. */
  function ExtractPrice<P>(s: string, toFloat: string -> P): (r: Option<P>)
    ensures r.None? <==> forall i | 0 <= i <= |s| :: PriceLexemeAt(s, i).None?
    ensures r.Some? ==>
      exists i :: LeftmostMatch(s, PriceLexemeAt, i) && r.value == toFloat(PriceLexemeAt(s, i).value)
  {
    match ExtractPriceLexeme(s)
    case Some(lexeme) => Some(toFloat(lexeme))
    case None => None
  }


  /** If `s` has no match before `i` and matches at `i`, the search returns
      that match. */
  lemma SearchFindsFirst<T>(s: string, at: (string, nat) -> Option<T>, i: nat)
    requires i <= |s| && at(s, i).Some?
    requires forall j | 0 <= j < i :: at(s, j).None?
    ensures Search(s, at) == at(s, i)
  {
    var w: nat :| LeftmostMatch(s, at, w) && Search(s, at) == at(s, w);
  }

  /** No position inside a prefix free of `first` can start a match that begins with `first`. */
  lemma NoMatchInPrefix<T>(pre: string, rest: string, at: (string, nat) -> Option<T>, first: char)
    requires first !in pre
    requires forall j | 0 <= j < |pre| :: (pre + rest)[j] != first ==> at(pre + rest, j).None?
    ensures forall j | 0 <= j < |pre| :: at(pre + rest, j).None?
  {
    forall j | 0 <= j < |pre| ensures at(pre + rest, j).None? {
      assert (pre + rest)[j] == pre[j];
    }
  }

  /** A stock match can only start at a `库`. */
  lemma StockGroupStartsWithOpen(s: string, j: nat)
    requires j < |s| && s[j] != '库'
    ensures StockGroupAt(s, j).None?
  {
  }

  /** Where the parts of `pre` + `库存(` + `ds` + `)` + `post` lie. */
  lemma StockPageLayout(pre: string, ds: string, post: string)
    ensures var s, a := pre + StockOpen + ds + ")" + post, |pre| + |StockOpen|;
      && a + |ds| < |s|
      && s[|pre|..a] == StockOpen
      && s[a..a + |ds|] == ds
      && s[a + |ds|] == ')'
  {
    var s := pre + StockOpen + ds + ")" + post;
    var a := |pre| + |StockOpen|;
    assert forall k | 0 <= k < |StockOpen| :: s[|pre| + k] == StockOpen[k];
    assert s[|pre|..a] == StockOpen;
    assert forall k | 0 <= k < |ds| :: s[a + k] == ds[k];
    assert s[a..a + |ds|] == ds;
  }

  /** The stock pattern matches at the start of `库存(` + digits + `)`, with
      the digits as its group. */
  lemma StockMatchOnDigits(pre: string, ds: string, post: string)
    requires |ds| > 0 && AllDigits(ds)
    ensures StockGroupAt(pre + StockOpen + ds + ")" + post, |pre|) == Some(ds)
  {
    StockPageLayout(pre, ds, post);
    StockGroupAtDigits(pre + StockOpen + ds + ")" + post, |pre|, ds);
  }

  lemma StockGroupAtDigits(s: string, i: nat, ds: string)
    requires |ds| > 0 && AllDigits(ds)
    requires i + |StockOpen| + |ds| < |s|
    requires s[i..i + |StockOpen|] == StockOpen
    requires s[i + |StockOpen|..i + |StockOpen| + |ds|] == ds
    requires s[i + |StockOpen| + |ds|] == ')'
    ensures StockGroupAt(s, i) == Some(ds)
  {
    StockGroupAtIsOnlyMatch(s, i, |ds|);
  }

  /** A page holding `库存(` + digits + `)` after text that never contains `库`
      has exactly those digits as its stock group, whatever follows. */
  lemma StockDigitsRoundTrip(pre: string, ds: string, post: string)
    requires '库' !in pre
    requires |ds| > 0 && AllDigits(ds)
    ensures ExtractStockDigits(pre + StockOpen + ds + ")" + post) == Some(ds)
  {
    var rest := StockOpen + ds + ")" + post;
    var s := pre + rest;
    assert s == pre + StockOpen + ds + ")" + post;
    forall j | 0 <= j < |pre| && s[j] != '库' ensures StockGroupAt(s, j).None? {
      StockGroupStartsWithOpen(s, j);
    }
    NoMatchInPrefix(pre, rest, StockGroupAt, '库');
    StockMatchOnDigits(pre, ds, post);
    SearchFindsFirst(s, StockGroupAt, |pre|);
  }

  /** Round trip: a page holding `库存(` + str(n) + `)` after text that never
      contains `库` extracts n, whatever follows. */
  lemma StockRoundTrip(pre: string, n: nat, post: string)
    requires '库' !in pre
    ensures ExtractStockDigits(pre + StockOpen + Decimal(n) + ")" + post) == Some(Decimal(n))
    ensures ExtractStock(pre + StockOpen + Decimal(n) + ")" + post) == Some(n)
  {
    StockDigitsRoundTrip(pre, Decimal(n), post);
    DecimalRoundTrip(n);
  }

  /** The price pattern matches at a `¥` (position `i`) followed by white space up
      to `a`, digits up to the `.` at `d`, and a maximal run of digits up to `e`. */
  lemma PriceLexemeAtRuns(s: string, i: nat, a: nat, d: nat, e: nat)
    requires i < a <= d < e <= |s| && a < d && d + 1 < e
    requires s[i] == '¥' && s[d] == '.'
    requires forall j | i + 1 <= j < a :: IsSpace(s[j])
    requires forall j | a <= j < d :: IsDigit(s[j])
    requires forall j | d < j < e :: IsDigit(s[j])
    requires e == |s| || !IsDigit(s[e])
    requires a < |s| && !IsSpace(s[a])
    ensures PriceLexemeAt(s, i) == Some(s[a..e])
  {
    RunLengthUnique(s, i + 1, IsSpace, a - i - 1);
    PriceLexemeAtIsNumberAt(s, i, a);
    NumberAtRuns(s, a, d, e);
  }

  /** `x` is the text of `s` at `a`, and no digit follows it there. */
  predicate NumberTextAt(s: string, a: nat, x: string) {
    && a + |x| <= |s|
    && s[a..a + |x|] == x
    && (a + |x| == |s| || !IsDigit(s[a + |x|]))
  }

  /** The number matched at `a` is the text of `s` there, and no digit follows it. */
  lemma NumberAtIsText(s: string, a: nat)
    requires a <= |s|
    ensures var r := NumberAt(s, a); r.Some? ==> NumberTextAt(s, a, r.value)
  {
  }

  lemma PriceLexemeAtIsNumberAt(s: string, i: nat, a: nat)
    requires i < |s| && s[i] == '¥' && i + 1 + RunLength(s, i + 1, IsSpace) == a
    ensures PriceLexemeAt(s, i) == NumberAt(s, a)
  {
    PriceLexemeAtUnfold(s, i);
  }

  lemma PriceLexemeAtUnfold(s: string, i: nat)
    ensures PriceLexemeAt(s, i) == if i < |s| && s[i] == '¥' then NumberAt(s, i + 1 + RunLength(s, i + 1, IsSpace)) else None
  {
  }

  /** Digits up to the `.` at `d` and a maximal run of digits up to `e` match
      `\d+\.\d+` at `a`. */
  lemma NumberAtRuns(s: string, a: nat, d: nat, e: nat)
    requires a < d && d + 1 < e <= |s| && s[d] == '.'
    requires forall j | a <= j < d :: IsDigit(s[j])
    requires forall j | d < j < e :: IsDigit(s[j])
    requires e == |s| || !IsDigit(s[e])
    ensures NumberAt(s, a) == Some(s[a..e])
  {
    RunLengthUnique(s, a, IsDigit, d - a);
    RunLengthUnique(s, d + 1, IsDigit, e - d - 1);
    NumberAtGivenRuns(s, a, d, e);
  }

  lemma NumberAtGivenRuns(s: string, a: nat, d: nat, e: nat)
    requires a < d && d + 1 < e <= |s| && s[d] == '.'
    requires a + RunLength(s, a, IsDigit) == d
    requires d + 1 + RunLength(s, d + 1, IsDigit) == e
    ensures NumberAt(s, a) == Some(s[a..e])
  {
    assert a + (d - a) + 1 + (e - d - 1) == e;
  }

  /** Where the parts of `pre` + `¥` + `ws` + `whole` + `.` + `frac` + `post` lie. */
  lemma PricePageLayout(pre: string, ws: string, whole: string, frac: string, post: string)
    ensures var s := pre + "¥" + ws + whole + "." + frac + post;
      var a := |pre| + 1 + |ws|;
      var d := a + |whole|;
      var e := d + 1 + |frac|;
      && e <= |s| && s[|pre|] == '¥' && s[d] == '.'
      && (forall j | |pre| + 1 <= j < a :: s[j] == ws[j - |pre| - 1])
      && (forall j | a <= j < d :: s[j] == whole[j - a])
      && (forall j | d < j < e :: s[j] == frac[j - d - 1])
      && (e == |s| || s[e] == post[0])
  {
  }

  lemma PriceLexemeText(pre: string, ws: string, whole: string, frac: string, post: string)
    ensures var s := pre + "¥" + ws + whole + "." + frac + post;
      var a := |pre| + 1 + |ws|;
      s[a..a + |whole| + 1 + |frac|] == whole + "." + frac
  {
    var s := pre + "¥" + ws + whole + "." + frac + post;
    var a := |pre| + 1 + |ws|;
    assert forall k | 0 <= k < |whole| + 1 + |frac| :: s[a + k] == (whole + "." + frac)[k];
  }

  /** The character classes along `pre` + `¥` + `ws` + `whole` + `.` + `frac` + `post`. */
  lemma PricePageClasses(pre: string, ws: string, whole: string, frac: string, post: string)
    requires forall j | 0 <= j < |ws| :: IsSpace(ws[j])
    requires |whole| > 0 && AllDigits(whole) && |frac| > 0 && AllDigits(frac)
    requires post == [] || !IsDigit(post[0])
    ensures var s := pre + "¥" + ws + whole + "." + frac + post;
      var a := |pre| + 1 + |ws|;
      var d := a + |whole|;
      var e := d + 1 + |frac|;
      && e <= |s| && s[|pre|] == '¥' && s[d] == '.'
      && (forall j | |pre| + 1 <= j < a :: IsSpace(s[j]))
      && (forall j | a <= j < d :: IsDigit(s[j]))
      && (forall j | d < j < e :: IsDigit(s[j]))
      && (e == |s| || !IsDigit(s[e]))
  {
    PricePageLayout(pre, ws, whole, frac, post);
  }

  /** The price pattern matches at the `¥` of `¥` + spaces + digits + `.` + digits. */
  lemma PriceMatchOnNumber(pre: string, ws: string, whole: string, frac: string, post: string)
    requires forall j | 0 <= j < |ws| :: IsSpace(ws[j])
    requires |whole| > 0 && AllDigits(whole) && |frac| > 0 && AllDigits(frac)
    requires post == [] || !IsDigit(post[0])
    ensures PriceLexemeAt(pre + "¥" + ws + whole + "." + frac + post, |pre|) == Some(whole + "." + frac)
  {
    var s := pre + "¥" + ws + whole + "." + frac + post;
    var a := |pre| + 1 + |ws|;
    PricePageClasses(pre, ws, whole, frac, post);
    PriceLexemeAtRuns(s, |pre|, a, a + |whole|, a + |whole| + 1 + |frac|);
    PriceLexemeText(pre, ws, whole, frac, post);
  }

  /** Round trip for the price rule: `¥`, white space, int digits, `.`, fraction
      digits after text that never contains `¥` extract exactly the number's
      lexeme, provided no further digit follows. */
  lemma PriceRoundTrip(pre: string, ws: string, whole: string, frac: string, post: string)
    requires '¥' !in pre
    requires forall j | 0 <= j < |ws| :: IsSpace(ws[j])
    requires |whole| > 0 && AllDigits(whole) && |frac| > 0 && AllDigits(frac)
    requires post == [] || !IsDigit(post[0])
    ensures ExtractPriceLexeme(pre + "¥" + ws + whole + "." + frac + post) == Some(whole + "." + frac)
  {
    var rest := "¥" + ws + whole + "." + frac + post;
    var s := pre + rest;
    assert s == pre + "¥" + ws + whole + "." + frac + post;
    NoMatchInPrefix(pre, rest, PriceLexemeAt, '¥');
    PriceMatchOnNumber(pre, ws, whole, frac, post);
    SearchFindsFirst(s, PriceLexemeAt, |pre|);
  }
}
