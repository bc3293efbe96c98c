/** The content script's product scrape (src/scripts/content-script/renderer.tsx,
    lines 8-272): a fixed table of CSS selectors is tried against the page,
    the texts found are kept in a module-level record, and the product
    facts are parsed out of them.

    The page is a map from selector to the first element it selects; a
    selector that is not a key selects nothing. */
module Renderer {
  import opened Opt
  import opened JsStrings
  import opened JsNumbers
  import opened JsValues
  import opened Patterns
  import opened Pricing
  import Utils

  /** An element as the scrape reads it: its text, its markup and its
      `src` attribute. */
  datatype Element = Element(textContent: string, innerHTML: string, src: Option<string>)

  type Page = map<string, Element>

  /** The record of scraped texts, from field name to text or null. */
  type ScrapedData = map<string, Option<string>>

  const CurrentPriceSelector: string := "#apex_offerDisplay_desktop .a-price .a-offscreen"
  const ImageSelector: string := "div.imgTagWrapper img"

  /** The selector table, in its declaration order (which is the order in
      which the scrape visits it). */
  const Selectors: seq<(string, seq<string>)> := [
    ("product_name", ["span#productTitle"]),
    ("price_ca_whole", ["span.a-price-whole"]),
    ("price_ca_fraction", ["span.a-price-fraction"]),
    ("current_price", [CurrentPriceSelector]),
    ("list_price", ["span.a-price.a-text-price[data-a-size=\"s\"][data-a-strike=\"true\"][data-a-color=\"secondary\"] > span.a-offscreen"]),
    ("percent_off_list_price", ["span.savingPriceOverride.reinventPriceSavingsPercentageMargin.savingsPercentage"]),
    ("clip_coupon", [
      "label.ct-coupon-checkbox-label .ct-coupon-tile-price-content .a-offscreen",
      "span.couponLabelText",
      "label[for*='checkboxpct'][id*='couponTextpctch']"]),
    ("promo_code", ["span[id^='promoMessageCXCW']"]),
    ("promo_code_percent_off", ["label[id^='greenBadgepctch']"]),
    ("checkout_discount", [".a-box.a-alert-inline.a-alert-inline-success.a-text-bold .a-alert-content"]),
    ("rating", ["span[data-hook=\"rating-out-of-text\"]"]),
    ("image_url", [ImageSelector])
  ]

  /** The record as the script starts with it: ten fields, all null. */
  const InitialData: ScrapedData := map[
    "product_name" := None, "price_ca_whole" := None, "price_ca_fraction" := None,
    "list_price" := None, "percent_off_list_price" := None, "clip_coupon" := None,
    "promo_code" := None, "promo_code_percent_off" := None, "checkout_discount" := None,
    "rating" := None]

  predicate DistinctKeys(entries: seq<(string, seq<string>)>) {
    forall i, j :: 0 <= i < j < |entries| ==> entries[i].0 != entries[j].0
  }

  function KeySet(entries: seq<(string, seq<string>)>): (keys: set<string>)
    ensures forall i :: 0 <= i < |entries| ==> entries[i].0 in keys
    ensures forall k :: k in keys ==> exists i :: 0 <= i < |entries| && entries[i].0 == k
  {
    set i | 0 <= i < |entries| :: entries[i].0
  }

  lemma SelectorKeysDistinct()
    ensures DistinctKeys(Selectors)
  {
  }

  /** Every field of the initial record is in the selector table. */
  lemma InitialDataKeys()
    ensures InitialData.Keys <= KeySet(Selectors)
  {
    assert Selectors[0].0 == "product_name";
    assert Selectors[1].0 == "price_ca_whole";
    assert Selectors[2].0 == "price_ca_fraction";
    assert Selectors[4].0 == "list_price";
    assert Selectors[5].0 == "percent_off_list_price";
    assert Selectors[6].0 == "clip_coupon";
    assert Selectors[7].0 == "promo_code";
    assert Selectors[8].0 == "promo_code_percent_off";
    assert Selectors[9].0 == "checkout_discount";
    assert Selectors[10].0 == "rating";
  }

  // ---- The selector fallback (lines 189-199) ----

  /** The selector selects an element whose trimmed text is not empty. */
  predicate Yields(page: Page, sel: string) {
    sel in page && HasText(page[sel])
  }

  /** The element's trimmed text is not empty: its text is not all white
      space. */
  predicate HasText(e: Element) {
    !(forall i :: 0 <= i < |e.textContent| ==> IsWhitespace(e.textContent[i]))
  }

  /** The index of the first selector that yields, or `|sels|`. */
  function FirstYield(page: Page, sels: seq<string>): (i: nat)
    ensures i <= |sels|
    ensures forall k :: 0 <= k < i ==> !Yields(page, sels[k])
    ensures i < |sels| ==> Yields(page, sels[i])
  {
    if sels == [] then 0
    else if Yields(page, sels[0]) then 0
    else
      var i := FirstYield(page, sels[1..]);
      assert forall k :: 1 <= k < |sels| ==> sels[k] == sels[1..][k - 1];
      assert i < |sels| - 1 ==> sels[1 + i] == sels[1..][i];
      1 + i
  }

  /** The field's value: the trimmed text of the first selector that yields,
      or null when none does. */
  function FirstText(page: Page, sels: seq<string>): (r: Option<string>)
    ensures r.None? <==> forall k :: 0 <= k < |sels| ==> !Yields(page, sels[k])
    ensures r.Some? ==>
      (FirstYield(page, sels) < |sels| && r.value == Trim(page[sels[FirstYield(page, sels)]].textContent))
    ensures r.Some? ==> r.value != ""
  {
    if sels == [] then None
    else if Yields(page, sels[0]) then Some(Trim(page[sels[0]].textContent))
    else
      FallbackStep(page, sels);
      FirstText(page, sels[1..])
  }

  /** Past a first selector that does not yield, the fallback goes on with
      the rest of the list. */
  lemma FallbackStep(page: Page, sels: seq<string>)
    requires sels != [] && !Yields(page, sels[0])
    ensures FirstYield(page, sels) == 1 + FirstYield(page, sels[1..])
    ensures FirstYield(page, sels) < |sels| ==> sels[FirstYield(page, sels)] == sels[1..][FirstYield(page, sels[1..])]
    ensures (forall k :: 0 <= k < |sels| ==> !Yields(page, sels[k]))
        <==> (forall k :: 0 <= k < |sels[1..]| ==> !Yields(page, sels[1..][k]))
  {
    assert forall k :: 1 <= k < |sels| ==> sels[k] == sels[1..][k - 1];
  }

  /** What a selector selects. */
  function Lookup(page: Page, sel: string): Option<Element> {
    if sel in page then Some(page[sel]) else None
  }

  /** Selectors after the first one that yields are never consulted: two
      pages that agree up to it give the same value. */
  lemma {:induction false} FirstTextIgnoresLater(page: Page, other: Page, sels: seq<string>)
    requires FirstYield(page, sels) < |sels|
    requires forall k :: 0 <= k <= FirstYield(page, sels) ==> Lookup(page, sels[k]) == Lookup(other, sels[k])
    ensures FirstText(page, sels) == FirstText(other, sels)
  {
    assert Lookup(page, sels[0]) == Lookup(other, sels[0]);
    if !Yields(page, sels[0]) {
      assert FirstYield(page, sels) == 1 + FirstYield(page, sels[1..]);
      forall k | 0 <= k <= FirstYield(page, sels[1..])
        ensures Lookup(page, sels[1..][k]) == Lookup(other, sels[1..][k])
      {
        assert sels[1..][k] == sels[k + 1];
      }
      FirstTextIgnoresLater(page, other, sels[1..]);
    }
  }

  /** The record after visiting `entries` in order, each field overwritten
      with its selectors' value. */
  function ScrapeInto(d: ScrapedData, page: Page, entries: seq<(string, seq<string>)>): ScrapedData
    decreases |entries|
  {
    if entries == [] then d
    else
      var last := entries[|entries| - 1];
      ScrapeInto(d, page, entries[..|entries| - 1])[last.0 := FirstText(page, last.1)]
  }

  /** With distinct field names, each field of the table ends up holding its
      own selectors' value. */
  lemma {:induction false} ScrapeIntoLookup(d: ScrapedData, page: Page, entries: seq<(string, seq<string>)>, j: nat)
    requires DistinctKeys(entries) && j < |entries|
    ensures entries[j].0 in ScrapeInto(d, page, entries)
    ensures ScrapeInto(d, page, entries)[entries[j].0] == FirstText(page, entries[j].1)
    decreases |entries|
  {
    var n := |entries| - 1;
    if j < n {
      var prefix := entries[..n];
      assert prefix[j] == entries[j];
      assert DistinctKeys(prefix);
      ScrapeIntoLookup(d, page, prefix, j);
      assert entries[j].0 != entries[n].0;
    }
  }

  /** The record has the fields it started with and those of the table;
      a field outside the table keeps its value. */
  lemma {:induction false} ScrapeIntoKeys(d: ScrapedData, page: Page, entries: seq<(string, seq<string>)>)
    ensures ScrapeInto(d, page, entries).Keys == d.Keys + KeySet(entries)
    ensures forall k :: k in d && k !in KeySet(entries) ==> ScrapeInto(d, page, entries)[k] == d[k]
    decreases |entries|
  {
    if entries != [] {
      var n := |entries| - 1;
      ScrapeIntoKeys(d, page, entries[..n]);
      KeySetLast(entries);
    }
  }

  /** The field names of a table are those before its last entry and the last one's. */
  lemma KeySetLast(entries: seq<(string, seq<string>)>)
    requires entries != []
    ensures KeySet(entries) == KeySet(entries[..|entries| - 1]) + {entries[|entries| - 1].0}
  {
    var n := |entries| - 1;
    forall k | k in KeySet(entries) ensures k in KeySet(entries[..n]) + {entries[n].0} {
      var i :| 0 <= i < |entries| && entries[i].0 == k;
      if i < n {
        assert entries[..n][i] == entries[i];
      }
    }
    forall k | k in KeySet(entries[..n]) ensures k in KeySet(entries) {
      var i :| 0 <= i < n && entries[..n][i].0 == k;
      assert entries[i] == entries[..n][i];
    }
  }

  /** So the scrape carries nothing over from an earlier record whose fields
      are all in the table: the result depends on the page alone. */
  lemma ScrapeForgetsOldData(d1: ScrapedData, d2: ScrapedData, page: Page, entries: seq<(string, seq<string>)>)
    requires DistinctKeys(entries)
    requires d1.Keys <= KeySet(entries) && d2.Keys <= KeySet(entries)
    ensures ScrapeInto(d1, page, entries) == ScrapeInto(d2, page, entries)
  {
    var r1 := ScrapeInto(d1, page, entries);
    var r2 := ScrapeInto(d2, page, entries);
    ScrapeIntoKeys(d1, page, entries);
    ScrapeIntoKeys(d2, page, entries);
    forall k | k in r1 ensures r1[k] == r2[k] {
      var j :| 0 <= j < |entries| && entries[j].0 == k;
      ScrapeIntoLookup(d1, page, entries, j);
      ScrapeIntoLookup(d2, page, entries, j);
    }
  }

  /** Visiting one more entry of the table overwrites that entry's field. */
  lemma ScrapeIntoStep(d: ScrapedData, page: Page, entries: seq<(string, seq<string>)>, i: nat)
    requires i < |entries|
    ensures ScrapeInto(d, page, entries[..i + 1])
      == ScrapeInto(d, page, entries[..i])[entries[i].0 := FirstText(page, entries[i].1)]
  {
    assert entries[..i + 1][..i] == entries[..i];
  }

  /** A field of the record; a field that is not there reads as null. */
  function Field(data: ScrapedData, key: string): Option<string> {
    if key in data then data[key] else None
  }

  // ---- Parsing the fields (lines 202-268) ----

  /** `n / 100`. */
  function Hundredth(n: Number): (r: Number)
    ensures n.Finite? ==> r == Finite(n.value / 100.0)
    ensures n.NaN? ==> r.NaN?
  {
    if n.NaN? then NaN else Finite(n.value / 100.0)
  }

  /** The price from its whole and fraction nodes (line 210, before
      `toFixed`): the whole part keeps digits and dots, the fraction part
      digits only. */
  function SplitPrice(whole: string, fraction: string): Number {
    Add(ParseFloat(Keep(whole, DigitsAndDots)), Hundredth(ParseFloat(Keep(fraction, Digits))))
  }

  /** Both parts with digits in them: whole + fraction / 100. */
  lemma SplitPriceValue(whole: string, fraction: string)
    requires Keep(whole, DigitsAndDots) != [] && IsDigit(Keep(whole, DigitsAndDots)[0])
    requires Keep(fraction, Digits) != []
    ensures SplitPrice(whole, fraction).Finite?
    ensures SplitPrice(whole, fraction).value >= 0.0
    ensures ParseDigitsCaptureValue(Keep(fraction, Digits)) >= 0.0
    ensures SplitPrice(whole, fraction).value
      == ParseFloat(Keep(whole, DigitsAndDots)).value + ParseDigitsCaptureValue(Keep(fraction, Digits)) / 100.0
  {
    var w := Keep(whole, DigitsAndDots);
    var f := Keep(fraction, Digits);
    ParseFloatStartingWithDigit(w);
    ParseDigitsAndDots(w);
    ParseDigitsCapture(f);
  }

  /** The value of a non-empty run of digits. */
  function ParseDigitsCaptureValue(t: string): (v: real)
    requires t != [] && forall c :: c in t ==> InClass(c, Digits)
    ensures ParseFloat(t) == Finite(v) && v >= 0.0
  {
    ParseDigitsCapture(t);
    DigitsValue(t) as real
  }

  /** `current_price` (lines 202-212). With the combined price element, the
      number its markup's digits and dots denote, rounded to cents; without
      it, the text of whole + fraction / 100 to two decimals when both nodes
      had text; else null. */
  function CurrentPrice(page: Page, data: ScrapedData): (r: JsValue)
    ensures r.Num? <==> CurrentPriceSelector in page
    ensures r.Num? ==> var x := ParseFloat(Keep(page[CurrentPriceSelector].innerHTML, DigitsAndDots));
      r.n == if x.NaN? then NaN else Finite(RoundTo(x.value, 2))
    ensures r.Num? && r.n.Finite? ==> r.n.value >= 0.0
    ensures r.Str? <==>
      (CurrentPriceSelector !in page
       && PresentText(Field(data, "price_ca_whole")) && PresentText(Field(data, "price_ca_fraction")))
    ensures r.Str? ==> r.s == NumberToFixed(SplitPrice(Field(data, "price_ca_whole").value, Field(data, "price_ca_fraction").value), 2)
    ensures r.Undefined? ==> false
  {
    if CurrentPriceSelector in page then
      var priceString := Keep(page[CurrentPriceSelector].innerHTML, DigitsAndDots);
      var x := ParseFloat(priceString);
      ParseNumberToFixed(x, 2);
      ParseDigitsAndDots(priceString);
      Num(ParseFloat(NumberToFixed(x, 2)))
    else if PresentText(Field(data, "price_ca_whole")) && PresentText(Field(data, "price_ca_fraction")) then
      Str(NumberToFixed(SplitPrice(Field(data, "price_ca_whole").value, Field(data, "price_ca_fraction").value), 2))
    else Null
  }

  /** The split form reads back as its value, whole + fraction / 100,
      rounded to cents, which is never negative. */
  lemma SplitPriceReadsBack(whole: string, fraction: string)
    requires Keep(whole, DigitsAndDots) != [] && IsDigit(Keep(whole, DigitsAndDots)[0])
    requires Keep(fraction, Digits) != []
    ensures SplitPrice(whole, fraction).Finite?
    ensures ParseFloat(NumberToFixed(SplitPrice(whole, fraction), 2)) == Finite(RoundTo(SplitPrice(whole, fraction).value, 2))
    ensures RoundTo(SplitPrice(whole, fraction).value, 2) >= 0.0
  {
    SplitPriceValue(whole, fraction);
    var x := SplitPrice(whole, fraction);
    ParseNumberToFixed(x, 2);
  }

  /** `x ? parseFloat(x) : null`, for a value. A number is passed through. */
  function NumberIfTruthy(v: JsValue): (r: Option<Number>)
    ensures r.None? <==> !Truthy(v)
    ensures v.Num? && Truthy(v) ==> r == Some(v.n)
    ensures v.Str? && Truthy(v) ==> r == Some(ParseFloat(v.s))
  {
    if Truthy(v) then Some(ParseFloatValue(v)) else None
  }

  /** `n || null`. */
  function TruthyNumber(n: Number): (r: Option<Number>)
    ensures r.Some? <==> n.Finite? && n.value != 0.0
    ensures r.Some? ==> r.value == n
  {
    if n.Finite? && n.value != 0.0 then Some(n) else None
  }

  /** `list_price` (line 214): the list price text with only its digits and dots. */
  function ListPrice(data: ScrapedData): (r: Option<string>)
    ensures r.Some? <==> PresentText(Field(data, "list_price"))
    ensures r.Some? ==> forall c :: c in r.value ==> IsDigitOrDot(c)
    ensures r.Some? ==> |r.value| <= |Field(data, "list_price").value|
    ensures r.Some? ==> r.value == Keep(Field(data, "list_price").value, DigitsAndDots)
  {
    var t := Field(data, "list_price");
    if PresentText(t) then Some(Keep(t.value, DigitsAndDots)) else None
  }

  /** "$1,299.99" loses its currency sign and its thousands separator. */
  lemma ListPriceExample(data: ScrapedData)
    requires Field(data, "list_price") == Some("$1,299.99")
    ensures ListPrice(data) == Some("1299.99")
  {
    var one, rest := "1", "299.99";
    assert ['$'] + one + [','] + rest == "$1,299.99";
    assert one + rest == "1299.99";
    assert forall i :: 0 <= i < |one| ==> InClass(one[i], DigitsAndDots);
    assert forall i :: 0 <= i < |rest| ==> InClass(rest[i], DigitsAndDots);
    KeepAround('$', one, ',', rest, DigitsAndDots);
  }

  /** `coupon_percent` (line 217): the figure before the first "%" of the
      coupon text, 0 without one or without a coupon. */
  function CouponPercent(data: ScrapedData): (r: Number)
    ensures !PresentText(Field(data, "clip_coupon")) ==> r == Finite(0.0)
    ensures PresentText(Field(data, "clip_coupon")) && Capture(Field(data, "clip_coupon").value, DecimalPercent).None?
      ==> r == Finite(0.0)
    ensures PresentText(Field(data, "clip_coupon")) && Capture(Field(data, "clip_coupon").value, DecimalPercent).Some?
      ==> r == ParseFloat(Capture(Field(data, "clip_coupon").value, DecimalPercent).value)
    ensures r.Finite? ==> r.value >= 0.0
  {
    var t := Field(data, "clip_coupon");
    if !PresentText(t) then Finite(0.0)
    else match Capture(t.value, DecimalPercent)
      case Some(m) =>
        ParseDigitsAndDots(m);
        ParseFloat(m)
      case None =>
        ParseZero();
        ParseFloat("0")
  }

  /** The coupon text read off its parts: `a` holds no digit or dot, and
      `d` is the run of digits and dots right before the first "%". */
  lemma CouponPercentOfText(data: ScrapedData, a: string, d: string, b: string)
    requires Field(data, "clip_coupon") == Some(a + d + "%" + b)
    requires forall i :: 0 <= i < |a| ==> !IsDigitOrDot(a[i])
    requires |d| >= 1 && forall i :: 0 <= i < |d| ==> IsDigitOrDot(d[i])
    ensures CouponPercent(data) == ParseFloat(d)
  {
    var t := a + d + "%" + b;
    assert t == a + DecimalPercent.prefix + d + DecimalPercent.suffix + b;
    assert t[..|a|] == a;
    NoMatchWithoutClass(t, DecimalPercent, a);
    CaptureAt(t, DecimalPercent, a, d, b);
  }

  /** "15% off" is a 15 percent coupon. */
  lemma CouponPercentExample(data: ScrapedData)
    requires Field(data, "clip_coupon") == Some("15% off")
    ensures CouponPercent(data) == Finite(15.0)
  {
    var a, d, b := "", "15", " off";
    assert a + d + "%" + b == "15% off";
    assert forall i :: 0 <= i < |d| ==> IsDigitOrDot(d[i]);
    assert DigitsValue("15") == 15 by {
      assert "15"[..1] == "1" && "1"[..0] == [];
    }
    ParseFloatDigits("15");
    CouponPercentOfText(data, a, d, b);
  }

  lemma ParseZero()
    ensures ParseFloat("0") == Finite(0.0)
  {
    ParseNatToString(0);
    assert NatToString(0) == "0";
    ParseFloatStartingWithDigit("0");
  }

  /** `promo_code_percent_off` (lines 231-233): the digit run of the
      leftmost digits-then-"%" match of its text, as text. */
  function PromoPercentOff(data: ScrapedData): (r: Option<string>)
    ensures !PresentText(Field(data, "promo_code_percent_off")) ==> r.None?
    ensures PresentText(Field(data, "promo_code_percent_off"))
      ==> r == Capture(Field(data, "promo_code_percent_off").value, WholePercent)
    ensures PresentText(Field(data, "promo_code_percent_off"))
      ==> (r.None? <==> forall j: nat :: !MatchesAt(Field(data, "promo_code_percent_off").value, WholePercent, j))
    ensures r.Some? ==> r.value != "" && forall c :: c in r.value ==> IsDigit(c)
  {
    var t := Field(data, "promo_code_percent_off");
    if PresentText(t) then Capture(t.value, WholePercent) else None
  }

  /** The promotion text read off its parts: no digits-then-"%" match
      starts inside `a`, and `d` is the digit run of the match after it. */
  lemma PromoPercentOffOfMatch(data: ScrapedData, a: string, d: string, b: string)
    requires Field(data, "promo_code_percent_off") == Some(a + d + "%" + b)
    requires forall j :: 0 <= j < |a| ==> !MatchesAt(a + d + "%" + b, WholePercent, j)
    requires |d| >= 1 && forall i :: 0 <= i < |d| ==> IsDigit(d[i])
    ensures PromoPercentOff(data) == Some(d)
  {
    var t := a + d + "%" + b;
    assert t == a + WholePercent.prefix + d + WholePercent.suffix + b;
    CaptureAt(t, WholePercent, a, d, b);
  }

  /** The same, for a prefix `a` that holds no digit at all. */
  lemma PromoPercentOffOfText(data: ScrapedData, a: string, d: string, b: string)
    requires Field(data, "promo_code_percent_off") == Some(a + d + "%" + b)
    requires forall i :: 0 <= i < |a| ==> !IsDigit(a[i])
    requires |d| >= 1 && forall i :: 0 <= i < |d| ==> IsDigit(d[i])
    ensures PromoPercentOff(data) == Some(d)
  {
    var t := a + d + "%" + b;
    assert t[..|a|] == a;
    NoMatchWithoutClass(t, WholePercent, a);
    PromoPercentOffOfMatch(data, a, d, b);
  }

  /** "Buy 2, save 10%" gives "10": the "2" is not followed by a "%". */
  lemma PromoPercentOffDigitInPrefix(data: ScrapedData)
    requires Field(data, "promo_code_percent_off") == Some("Buy 2, save 10%")
    ensures PromoPercentOff(data) == Some("10")
  {
    var a, d, b := "Buy 2, save ", "10", "";
    var t := a + d + "%" + b;
    assert t == "Buy 2, save 10%";
    assert forall i :: 0 <= i < |d| ==> IsDigit(d[i]);
    forall j | 0 <= j < |a| ensures !MatchesAt(t, WholePercent, j) {
      assert t[j] == a[j];
      if j == 4 {
        assert t[5] == ',';
        NoMatchShortRun(t, WholePercent, j);
      } else {
        NoMatchOutsideClass(t, WholePercent, j);
      }
    }
    PromoPercentOffOfMatch(data, a, d, b);
  }

  /** "Save 20%" gives "20"; in "Save %: 15%" the first "%" has no digits
      before it, so the figure is the "15" of the second. */
  lemma PromoPercentOffExamples(d1: ScrapedData, d2: ScrapedData)
    requires Field(d1, "promo_code_percent_off") == Some("Save 20%")
    requires Field(d2, "promo_code_percent_off") == Some("Save %: 15%")
    ensures PromoPercentOff(d1) == Some("20")
    ensures PromoPercentOff(d2) == Some("15")
  {
    var a1, a2 := "Save ", "Save %: ";
    assert a1 + "20" + "%" + "" == "Save 20%";
    assert a2 + "15" + "%" + "" == "Save %: 15%";
    assert forall i :: 0 <= i < |a1| ==> !IsDigit(a1[i]);
    assert forall i :: 0 <= i < |a2| ==> !IsDigit(a2[i]);
    assert forall i :: 0 <= i < |"20"| ==> IsDigit("20"[i]);
    assert forall i :: 0 <= i < |"15"| ==> IsDigit("15"[i]);
    PromoPercentOffOfText(d1, a1, "20", "");
    PromoPercentOffOfText(d2, a2, "15", "");
  }

  /** `match(p)?.[1]` of the checkout text, which is null without a text and
      undefined without a match (lines 234-235). */
  function CheckoutCapture(data: ScrapedData, p: Pattern): (r: JsValue)
    ensures !PresentText(Field(data, "checkout_discount")) <==> r.Null?
    ensures r.Str? ==> Some(r.s) == Capture(Field(data, "checkout_discount").value, p)
    ensures r.Undefined? ==> Capture(Field(data, "checkout_discount").value, p).None?
    ensures !r.Num?
  {
    var t := Field(data, "checkout_discount");
    if !PresentText(t) then Null
    else match Capture(t.value, p)
      case Some(m) => Str(m)
      case None => Undefined
  }

  /** `rating` (line 236): the number the rating text's first word denotes. */
  function Rating(data: ScrapedData): (r: Option<Number>)
    ensures r.Some? <==> PresentText(Field(data, "rating"))
  {
    var t := Field(data, "rating");
    if PresentText(t) then Some(ParseFloat(Split(t.value, " ")[0])) else None
  }

  /** The first word of a text is the part before its first space. */
  lemma SplitFirstWord(w: string, rest: string)
    requires ' ' !in w
    ensures Split(w + " " + rest, " ")[0] == w
  {
    var s := w + " " + rest;
    assert OccursAt(s, " ", |w|) by {
      assert s[|w|..|w| + 1] == " ";
    }
    forall k | 0 <= k < |w| ensures !OccursAt(s, " ", k) {
      assert s[k] == w[k];
      assert w[k] in w;
    }
    assert IndexOf(s, " ") == |w|;
    assert s[..|w|] == w;
  }

  /** A rating such as "4.5 out of 5" reads its first word. */
  lemma RatingFirstWord(data: ScrapedData, w: string, rest: string)
    requires Field(data, "rating") == Some(w + " " + rest) && ' ' !in w
    ensures Rating(data) == Some(ParseFloat(w))
  {
    SplitFirstWord(w, rest);
  }

  /** A rating of one word reads that word. */
  lemma RatingOneWord(data: ScrapedData, w: string)
    requires Field(data, "rating") == Some(w) && w != "" && ' ' !in w
    ensures Rating(data) == Some(ParseFloat(w))
  {
    SplitNoSeparator(w, " ");
  }

  /** A rating whose first word is a decimal numeral is that number. */
  lemma RatingOfDecimal(data: ScrapedData, whole: string, fraction: string, rest: string)
    requires |whole| >= 1 && AllDigits(whole) && AllDigits(fraction)
    requires Field(data, "rating") == Some(whole + "." + fraction + " " + rest)
    ensures Rating(data) == Some(Finite(DigitsValue(whole) as real + FractionValue(fraction)))
  {
    var w := whole + "." + fraction;
    assert ' ' !in w by {
      assert forall i :: 0 <= i < |w| ==> w[i] == '.' || IsDigit(w[i]);
    }
    ParseFloatDecimal(whole, fraction);
    RatingFirstWord(data, w, rest);
  }

  /** "4.5 out of 5" is a rating of 4.5. */
  lemma RatingExample(data: ScrapedData)
    requires Field(data, "rating") == Some("4.5 out of 5")
    ensures Rating(data) == Some(Finite(4.5))
  {
    var whole, fraction, rest := "4", "5", "out of 5";
    assert whole + "." + fraction + " " + rest == "4.5 out of 5";
    assert DigitsValue(whole) == 4 by { assert whole[..0] == []; }
    assert FractionValue(fraction) == 0.5 by { assert fraction[1..] == []; }
    RatingOfDecimal(data, whole, fraction, rest);
  }

  /** `updated_image_url` (lines 237-239): the image element's `src`, with
      its size suffix rewritten, or null without an element or a source. */
  function ImageUrl(page: Page): (r: Option<string>)
    ensures r.Some? <==> ImageSelector in page && PresentText(page[ImageSelector].src)
    ensures r.Some? ==> r.value == Utils.ModifyImageLink(page[ImageSelector].src.value)
  {
    var src := if ImageSelector in page then page[ImageSelector].src else None;
    if PresentText(src) then Some(Utils.ModifyImageLink(src.value)) else None
  }

  /** The product record the script sends (lines 253-269). */
  datatype ProductData = ProductData(
    productName: Option<string>,
    currentPrice: JsValue,
    listPrice: Option<string>,
    percentOffListPrice: Option<string>,
    couponAmount: Number,
    couponPercent: Number,
    dynamicCoupon: Option<string>,
    promoCode: Option<string>,
    promoCodePercentOff: Option<string>,
    checkoutDiscountPercent: JsValue,
    checkoutDiscountAmount: JsValue,
    dynamicCheckoutDiscount: Option<string>,
    finalPrice: Option<string>,
    rating: Option<Number>,
    imageUrl: Option<string>)

  /** The discounts `calculateFinalPrice` is called with (lines 241-249). */
  function DiscountsOf(data: ScrapedData, couponAmount: Number, couponPercent: Number): Discounts {
    Discounts(
      couponAmount, couponPercent,
      ExtractPromoCode(Field(data, "promo_code")),
      NumberIfTruthy(OfText(PromoPercentOff(data))),
      NumberIfTruthy(CheckoutCapture(data, WholePercent)),
      NumberIfTruthy(CheckoutCapture(data, DollarAmount)))
  }

  /** The record `getProductData` builds from the scraped texts and the
      page. `couponPriceLabel` is the coupon tile's "coupon price" label
      check. */
  function ProductFrom(data: ScrapedData, page: Page, couponPriceLabel: bool): (p: ProductData)
    ensures p.productName == Field(data, "product_name")
    ensures p.finalPrice.None? <==> !Present(NumberIfTruthy(p.currentPrice))
    ensures p.promoCode.Some? ==> ' ' !in p.promoCode.value
    ensures p.couponPercent.Finite? ==> p.couponPercent.value >= 0.0
    ensures p.dynamicCoupon == GetDynamicCoupon(p.couponAmount, p.couponPercent)
  {
    var currentPrice := CurrentPrice(page, data);
    var listPrice := ListPrice(data);
    var couponAmount := CalculateCouponAmount(Field(data, "clip_coupon"), NumberIfTruthy(currentPrice), couponPriceLabel);
    var couponPercent := CouponPercent(data);
    var checkoutPercent := CheckoutCapture(data, WholePercent);
    var checkoutAmount := CheckoutCapture(data, DollarAmount);
    var d := DiscountsOf(data, couponAmount, couponPercent);
    ProductData(
      Field(data, "product_name"),
      currentPrice,
      listPrice,
      CalculatePercentOffListPrice(if listPrice.Some? then listPrice.value else "",
        if Truthy(currentPrice) then currentPrice else Str("")),
      couponAmount,
      couponPercent,
      GetDynamicCoupon(couponAmount, couponPercent),
      d.promoCode,
      PromoPercentOff(data),
      checkoutPercent,
      checkoutAmount,
      GetDynamicCheckoutDiscount(
        TruthyNumber(ParseFloat(OrEmpty(checkoutPercent))),
        TruthyNumber(ParseFloat(OrEmpty(checkoutAmount)))),
      FinalPrice(NumberIfTruthy(currentPrice), d),
      Rating(data),
      ImageUrl(page))
  }

  /** A present final price reads back as a price that is never negative. */
  lemma ProductFinalPriceNonNegative(data: ScrapedData, page: Page, couponPriceLabel: bool)
    requires ProductFrom(data, page, couponPriceLabel).finalPrice.Some?
    ensures ParseFloat(ProductFrom(data, page, couponPriceLabel).finalPrice.value).Finite?
    ensures ParseFloat(ProductFrom(data, page, couponPriceLabel).finalPrice.value).value >= 0.0
  {
    var p := ProductFrom(data, page, couponPriceLabel);
    var d := DiscountsOf(data, p.couponAmount, p.couponPercent);
    FinalPriceReadsBack(NumberIfTruthy(p.currentPrice), d);
  }

  /** The product record as the side panel receives it: a map from the
      source's field names to values. */
  function ToRecord(p: ProductData): map<string, JsValue> {
    map[
      "product_name" := OfText(p.productName),
      "current_price" := p.currentPrice,
      "list_price" := OfText(p.listPrice),
      "percent_off_list_price" := OfText(p.percentOffListPrice),
      "coupon_amount" := Num(p.couponAmount),
      "coupon_percent" := Num(p.couponPercent),
      "dynamic_coupon" := OfText(p.dynamicCoupon),
      "promo_code" := OfText(p.promoCode),
      "promo_code_percent_off" := OfText(p.promoCodePercentOff),
      "checkout_discount_percent" := p.checkoutDiscountPercent,
      "checkout_discount_amount" := p.checkoutDiscountAmount,
      "dynamic_checkout_discount" := OfText(p.dynamicCheckoutDiscount),
      "final_price" := OfText(p.finalPrice),
      "rating" := OfNumber(p.rating),
      "image_url" := OfText(p.imageUrl)]
  }

  /** The record carries the coupon percent under `coupon_percent` and has no
      `coupon_percentage` field. */
  lemma ToRecordCouponPercent(p: ProductData)
    ensures "coupon_percent" in ToRecord(p) && ToRecord(p)["coupon_percent"] == Num(p.couponPercent)
    ensures "coupon_percentage" !in ToRecord(p)
  {
  }

  /** The script's module-level record of scraped texts. */
  class Scraper {
    var data: ScrapedData

    constructor()
      ensures data == InitialData
      ensures Valid()
    {
      data := InitialData;
      InitialDataKeys();
    }

    /** Every field of the record is one the table fills. */
    predicate Valid()
      reads this
    {
      data.Keys <= KeySet(Selectors)
    }

    /** The selector fallback of one field: the inner loop, stopping at the
        first selector that yields. */
    static method SelectText(page: Page, sels: seq<string>) returns (value: Option<string>)
      ensures value == FirstText(page, sels)
    {
      value := None;
      var j := 0;
      while j < |sels|
        invariant 0 <= j <= |sels|
        invariant FirstText(page, sels) == FirstText(page, sels[j..])
      {
        var sel := sels[j];
        if sel in page && Trim(page[sel].textContent) != "" {
          value := Some(Trim(page[sel].textContent));
          break;
        }
        assert sels[j..][1..] == sels[j + 1..];
        j := j + 1;
      }
    }

    /** The outer loop of lines 189-199: every field of the table, in order,
        gets its selectors' value. */
    method PopulateData(page: Page)
      modifies this
      ensures data == ScrapeInto(old(data), page, Selectors)
    {
      var i := 0;
      while i < |Selectors|
        invariant 0 <= i <= |Selectors|
        invariant data == ScrapeInto(old(data), page, Selectors[..i])
      {
        var (key, selectorList) := Selectors[i];
        var value := SelectText(page, selectorList);
        ScrapeIntoStep(old(data), page, Selectors, i);
        data := data[key := value];
        i := i + 1;
      }
      assert Selectors[..|Selectors|] == Selectors;
    }

    /** `getProductData`: scrape, then parse the record. */
    method GetProductData(page: Page, couponPriceLabel: bool) returns (p: ProductData)
      requires Valid()
      modifies this
      ensures Valid()
      ensures data == ScrapeInto(old(data), page, Selectors)
      ensures data == ScrapeInto(map[], page, Selectors)
      ensures p == ProductFrom(data, page, couponPriceLabel)
    {
      ghost var before := data;
      PopulateData(page);
      SelectorKeysDistinct();
      ScrapeForgetsOldData(before, map[], page, Selectors);
      ScrapeIntoKeys(before, page, Selectors);
      var currentPrice := CurrentPrice(page, data);
      var couponAmount := CalculateCouponAmount(Field(data, "clip_coupon"), NumberIfTruthy(currentPrice), couponPriceLabel);
      var d := DiscountsOf(data, couponAmount, CouponPercent(data));
      var finalPrice := CalculateFinalPrice(NumberIfTruthy(currentPrice), d.couponAmount, d.couponPercent,
        d.promoCode, d.promoPercentOff, d.checkoutPercent, d.checkoutAmount);
      p := ProductFrom(data, page, couponPriceLabel).(finalPrice := finalPrice);
    }
  }

  /** After a scrape every field of the table holds its selectors' value. */
  lemma ScrapedField(d: ScrapedData, page: Page, j: nat)
    requires j < |Selectors|
    ensures Field(ScrapeInto(d, page, Selectors), Selectors[j].0) == FirstText(page, Selectors[j].1)
  {
    SelectorKeysDistinct();
    ScrapeIntoLookup(d, page, Selectors, j);
  }
}
