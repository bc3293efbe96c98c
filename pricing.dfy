/** The price and coupon helpers of the content script
    (src/scripts/content-script/renderer.tsx, lines 55-184). Prices are
    JavaScript numbers; the page's "coupon price" label, which the source
    reads from the document, is a parameter. */
module Pricing {
  import opened Opt
  import opened JsStrings
  import opened JsNumbers
  import opened JsValues
  import opened Patterns

  /** `n > 0` (false for NaN). */
  predicate Positive(n: Number) {
    n.Finite? && n.value > 0.0
  }

  /** A nullable number that is truthy: present, not 0 and not NaN. */
  predicate Present(n: Option<Number>) {
    n.Some? && n.value.Finite? && n.value.value != 0.0
  }

  /** A nullable string that is truthy: present and not empty. */
  predicate PresentText(t: Option<string>) {
    t.Some? && t.value != ""
  }

  /** `getDynamicCoupon`: the coupon as the template shows it, the amount
      taking precedence over the percent. */
  function GetDynamicCoupon(couponAmount: Number, couponPercent: Number): (r: Option<string>)
    ensures r.None? <==> !Positive(couponAmount) && !Positive(couponPercent)
    ensures Positive(couponAmount) ==> r == Some("$" + NumberToString(couponAmount))
    ensures !Positive(couponAmount) && Positive(couponPercent) ==> r == Some(NumberToString(couponPercent) + "%")
  {
    if Positive(couponAmount) then Some("$" + NumberToString(couponAmount))
    else if Positive(couponPercent) then Some(NumberToString(couponPercent) + "%")
    else None
  }

  /** `getDynamicCheckoutDiscount`: the percent takes precedence over the amount. */
  function GetDynamicCheckoutDiscount(percent: Option<Number>, amount: Option<Number>): (r: Option<string>)
    ensures r.None? <==> !Present(percent) && !Present(amount)
    ensures Present(percent) ==> r == Some(NumberToString(percent.value) + "% off")
    ensures !Present(percent) && Present(amount) ==> r == Some("$" + NumberToString(amount.value) + " off")
  {
    if Present(percent) then Some(NumberToString(percent.value) + "% off")
    else if Present(amount) then Some("$" + NumberToString(amount.value) + " off")
    else None
  }

  /** The six discount inputs of `calculateFinalPrice`, in its parameter order. */
  datatype Discounts = Discounts(
    couponAmount: Number,
    couponPercent: Number,
    promoCode: Option<string>,
    promoPercentOff: Option<Number>,
    checkoutPercent: Option<Number>,
    checkoutAmount: Option<Number>)

  const NoDiscounts: Discounts := Discounts(Finite(0.0), Finite(0.0), None, None, None, None)

  /** A fixed coupon amount, or else a coupon percent of the price. */
  function CouponStep(price: real, d: Discounts): real {
    if Positive(d.couponAmount) then price - d.couponAmount.value
    else if Positive(d.couponPercent) then price - (d.couponPercent.value / 100.0) * price
    else price
  }

  /** The promo discount: a percent of the original current price. */
  function PromoDiscount(current: real, d: Discounts): real {
    if Present(d.promoPercentOff) then (d.promoPercentOff.value.value / 100.0) * current else 0.0
  }

  /** The promo discount is taken only when there is a promo code. */
  function PromoStep(price: real, current: real, d: Discounts): real {
    if PresentText(d.promoCode) then price - PromoDiscount(current, d) else price
  }

  /** The checkout percent, of the running price. */
  function CheckoutPercentStep(price: real, d: Discounts): real {
    if Present(d.checkoutPercent) then price - (d.checkoutPercent.value.value / 100.0) * price else price
  }

  /** The checkout amount, taken last. */
  function CheckoutAmountStep(price: real, d: Discounts): real {
    if Present(d.checkoutAmount) then price - d.checkoutAmount.value.value else price
  }

  /** The price after every discount, before the clamp at zero. */
  function DiscountedPrice(current: real, d: Discounts): real {
    CheckoutAmountStep(CheckoutPercentStep(PromoStep(CouponStep(current, d), current, d), d), d)
  }

  function Max0(x: real): (m: real)
    ensures m >= 0.0 && m >= x && (m == x || m == 0.0)
  {
    if x > 0.0 then x else 0.0
  }

  /** What `calculateFinalPrice` returns: null without a (truthy) current
      price, else the discounted price clamped at zero and written with two
      decimals. */
  function FinalPrice(currentPrice: Option<Number>, d: Discounts): (r: Option<string>)
    ensures r.None? <==> !Present(currentPrice)
  {
    if !Present(currentPrice) then None
    else Some(ToFixed(Max0(DiscountedPrice(currentPrice.value.value, d)), 2))
  }

  /** The value the final price text denotes: the clamped price rounded
      to cents. */
  function FinalPriceValue(currentPrice: Option<Number>, d: Discounts): (v: Option<real>)
    ensures v.None? <==> !Present(currentPrice)
    ensures v.Some? ==> v.value >= 0.0
  {
    if !Present(currentPrice) then None
    else Some(RoundMagnitude(Max0(DiscountedPrice(currentPrice.value.value, d)), 2))
  }

  /** The final price text reads back as that value, which is never negative. */
  lemma FinalPriceReadsBack(currentPrice: Option<Number>, d: Discounts)
    requires Present(currentPrice)
    ensures ParseFloat(FinalPrice(currentPrice, d).value) == Finite(FinalPriceValue(currentPrice, d).value)
  {
    ParseToFixed(Max0(DiscountedPrice(currentPrice.value.value, d)), 2);
  }

  /** `calculateFinalPrice`, as the source writes it: one running price
      updated discount by discount. */
  method CalculateFinalPrice(
    currentPrice: Option<Number>,
    couponAmount: Number,
    couponPercent: Number,
    promoCode: Option<string>,
    promoCodePercentOff: Option<Number>,
    checkoutDiscount: Option<Number>,
    checkoutDiscountAmount: Option<Number>)
    returns (r: Option<string>)
    ensures r == FinalPrice(currentPrice,
      Discounts(couponAmount, couponPercent, promoCode, promoCodePercentOff, checkoutDiscount, checkoutDiscountAmount))
  {
    if !Present(currentPrice) {
      return None;
    }
    ghost var d := Discounts(couponAmount, couponPercent, promoCode,
      promoCodePercentOff, checkoutDiscount, checkoutDiscountAmount);
    var current := currentPrice.value.value;
    var discountedPrice := current;
    if Positive(couponAmount) {
      discountedPrice := discountedPrice - couponAmount.value;
    } else if Positive(couponPercent) {
      discountedPrice := discountedPrice - (couponPercent.value / 100.0) * discountedPrice;
    }
    assert discountedPrice == CouponStep(current, d);
    ghost var afterCoupon := discountedPrice;
    var promoCodeDiscount := if Present(promoCodePercentOff)
      then (promoCodePercentOff.value.value / 100.0) * current else 0.0;
    assert promoCodeDiscount == PromoDiscount(current, d);
    if PresentText(promoCode) {
      discountedPrice := discountedPrice - promoCodeDiscount;
    }
    assert discountedPrice == PromoStep(afterCoupon, current, d);
    ghost var afterPromo := discountedPrice;
    if Present(checkoutDiscount) {
      discountedPrice := discountedPrice - (checkoutDiscount.value.value / 100.0) * discountedPrice;
    }
    assert discountedPrice == CheckoutPercentStep(afterPromo, d);
    ghost var afterCheckoutPercent := discountedPrice;
    if Present(checkoutDiscountAmount) {
      discountedPrice := discountedPrice - checkoutDiscountAmount.value.value;
    }
    assert discountedPrice == CheckoutAmountStep(afterCheckoutPercent, d);
    assert discountedPrice == DiscountedPrice(current, d);
    return Some(ToFixed(Max0(discountedPrice), 2));
  }

  /** With no discounts the final price is the current price, clamped and
      written with two decimals. */
  lemma FinalPriceWithoutDiscounts(current: Number)
    requires current.Finite? && current.value > 0.0
    ensures FinalPrice(Some(current), NoDiscounts) == Some(ToFixed(current.value, 2))
  {
  }

  /** Discounts that make sense: no negative amount, every percent in [0, 100]. */
  predicate Sane(d: Discounts) {
    (d.couponAmount.Finite? ==> d.couponAmount.value >= 0.0)
    && (d.couponPercent.Finite? ==> d.couponPercent.value <= 100.0)
    && (d.promoPercentOff.Some? && d.promoPercentOff.value.Finite? ==> 0.0 <= d.promoPercentOff.value.value <= 100.0)
    && (d.checkoutPercent.Some? && d.checkoutPercent.value.Finite? ==> 0.0 <= d.checkoutPercent.value.value <= 100.0)
    && (d.checkoutAmount.Some? && d.checkoutAmount.value.Finite? ==> d.checkoutAmount.value.value >= 0.0)
  }

  lemma PercentOffNotAbove(price: real, p: real)
    requires price >= 0.0 && 0.0 <= p <= 100.0
    ensures 0.0 <= price - (p / 100.0) * price <= price
  {
    assert (p / 100.0) * price <= price by {
      assert p / 100.0 <= 1.0;
    }
  }

  lemma PercentOffAtMost(price: real, p: real)
    requires 0.0 <= p <= 100.0
    ensures price - (p / 100.0) * price <= Max0(price)
  {
    if price >= 0.0 {
      PercentOffNotAbove(price, p);
    } else {
      assert (p / 100.0) * price <= 0.0;
    }
  }

  /** Sane discounts never raise the price: the discounted value is at most
      the current price. */
  lemma DiscountedNotAbove(current: real, d: Discounts)
    requires current > 0.0 && Sane(d)
    ensures DiscountedPrice(current, d) <= current
  {
    var p1 := CouponStep(current, d);
    if !Positive(d.couponAmount) && Positive(d.couponPercent) {
      PercentOffAtMost(current, d.couponPercent.value);
    }
    assert p1 <= current;
    var p2 := PromoStep(p1, current, d);
    if Present(d.promoPercentOff) {
      PercentOffNotAbove(current, d.promoPercentOff.value.value);
    }
    assert p2 <= current;
    var p3 := CheckoutPercentStep(p2, d);
    if Present(d.checkoutPercent) {
      PercentOffAtMost(p2, d.checkoutPercent.value.value);
    }
    assert p3 <= Max0(p2) <= current;
  }

  /** So the final price is at most the current price rounded to cents. */
  lemma FinalPriceNotAbove(current: Number, d: Discounts)
    requires current.Finite? && current.value > 0.0 && Sane(d)
    ensures FinalPriceValue(Some(current), d).value <= RoundTo(current.value, 2)
  {
    DiscountedNotAbove(current.value, d);
    RoundMagnitudeMonotone(Max0(DiscountedPrice(current.value, d)), current.value, 2);
  }

  /** A positive coupon amount makes the coupon percent irrelevant. */
  lemma CouponAmountWins(currentPrice: Option<Number>, d: Discounts, otherPercent: Number)
    requires Positive(d.couponAmount)
    ensures FinalPrice(currentPrice, d) == FinalPrice(currentPrice, d.(couponPercent := otherPercent))
  {
    if Present(currentPrice) {
      var c := currentPrice.value.value;
      var d2 := d.(couponPercent := otherPercent);
      assert CouponStep(c, d) == CouponStep(c, d2);
      assert DiscountedPrice(c, d) == DiscountedPrice(c, d2);
    }
  }

  /** Without a promo code, the promo percent makes no difference. */
  lemma PromoNeedsCode(currentPrice: Option<Number>, d: Discounts, otherPercent: Option<Number>)
    requires !PresentText(d.promoCode)
    ensures FinalPrice(currentPrice, d) == FinalPrice(currentPrice, d.(promoPercentOff := otherPercent))
  {
    if Present(currentPrice) {
      var c := currentPrice.value.value;
      var d2 := d.(promoPercentOff := otherPercent);
      var p1 := CouponStep(c, d);
      assert p1 == CouponStep(c, d2);
      assert PromoStep(p1, c, d) == PromoStep(p1, c, d2);
      assert DiscountedPrice(c, d) == DiscountedPrice(c, d2);
    }
  }

  /** A final price that comes out a whole number `n` reads "n.00". */
  lemma FinalPriceWhole(currentPrice: Option<Number>, d: Discounts, n: nat)
    requires Present(currentPrice) && Max0(DiscountedPrice(currentPrice.value.value, d)) == n as real
    ensures FinalPrice(currentPrice, d) == Some(NatToString(n) + "." + "00")
  {
    ToFixedWhole(n);
  }

  /** Price 100 with a $10 coupon and a 10% checkout discount: the checkout
      percent applies to the running price, 90, giving "81.00". */
  lemma FinalPriceExampleCheckout()
    ensures FinalPrice(Some(Finite(100.0)),
      Discounts(Finite(10.0), Finite(0.0), None, None, Some(Finite(10.0)), None)) == Some("81.00")
  {
    var d := Discounts(Finite(10.0), Finite(0.0), None, None, Some(Finite(10.0)), None);
    assert DiscountedPrice(100.0, d) == 81.0;
    FinalPriceWhole(Some(Finite(100.0)), d, 81);
    TwoDigitFixedText(8, 1);
    assert DigitChar(8) == '8' && DigitChar(1) == '1';
  }

  /** Price 100 with a $10 coupon and code for 10% off: the promo percent is
      taken of the original 100, not of the running 90, giving "80.00". */
  lemma FinalPriceExamplePromo()
    ensures FinalPrice(Some(Finite(100.0)),
      Discounts(Finite(10.0), Finite(0.0), Some("SAVE10"), Some(Finite(10.0)), None, None)) == Some("80.00")
  {
    var d := Discounts(Finite(10.0), Finite(0.0), Some("SAVE10"), Some(Finite(10.0)), None, None);
    assert DiscountedPrice(100.0, d) == 80.0;
    FinalPriceWhole(Some(Finite(100.0)), d, 80);
    TwoDigitFixedText(8, 0);
    assert DigitChar(8) == '8' && DigitChar(0) == '0';
  }

  // ---- extractPromoCode (lines 129-139) ----

  /** `n` ends the word at the start of `t`: nothing before it is a space or
      a line terminator, and it is the end of `t` or such a character. */
  predicate WordEndsAt(t: string, n: nat) {
    n <= |t|
    && (forall k :: 0 <= k < n ==> t[k] != ' ' && !IsLineTerminator(t[k]))
    && (n == |t| || t[n] == ' ' || IsLineTerminator(t[n]))
  }

  /** The length of the word at the start of `t`. */
  function WordEnd(t: string): (n: nat)
    ensures WordEndsAt(t, n)
  {
    if t == [] || t[0] == ' ' || IsLineTerminator(t[0]) then 0 else 1 + WordEnd(t[1..])
  }

  lemma WordEndUnique(t: string, n: nat, m: nat)
    requires WordEndsAt(t, n) && WordEndsAt(t, m)
    ensures n == m
  {
  }

  /** The word that follows the first "promo code: " in `s`. */
  function PromoWord(s: string): (w: string)
    requires IndexOf(s, PromoCodeLine.prefix) >= 0
    ensures ' ' !in w
  {
    var rest := s[IndexOf(s, PromoCodeLine.prefix) + |PromoCodeLine.prefix|..];
    rest[..WordEnd(rest)]
  }

  /** With an empty run and an empty suffix, the promo pattern matches
      exactly where its prefix occurs. */
  lemma PromoMatchesAtIff(s: string, i: nat)
    ensures MatchesAt(s, PromoCodeLine, i) <==> OccursAt(s, PromoCodeLine.prefix, i)
  {
    var r := RunStart(PromoCodeLine, i);
    if OccursAt(s, PromoCodeLine.prefix, i) {
      var n := ClassRun(s[r..], PromoCodeLine.cls);
      assert s[r + n..r + n + |PromoCodeLine.suffix|] == PromoCodeLine.suffix;
    }
  }

  /** So the leftmost match is the first occurrence of the prefix. */
  lemma PromoFindIsIndexOf(s: string)
    ensures Find(s, PromoCodeLine).None? <==> IndexOf(s, PromoCodeLine.prefix) < 0
    ensures Find(s, PromoCodeLine).Some? ==> Find(s, PromoCodeLine).value == IndexOf(s, PromoCodeLine.prefix)
  {
    var f := Find(s, PromoCodeLine);
    var i := IndexOf(s, PromoCodeLine.prefix);
    if i >= 0 {
      PromoMatchesAtIff(s, i);
      assert f.Some?;
      PromoMatchesAtIff(s, f.value);
      assert !(f.value < i);
      assert !(i < f.value);
    } else if f.Some? {
      PromoMatchesAtIff(s, f.value);
    }
  }

  /** The first piece of a split ends at the first separator. */
  lemma SplitFirstPiece(t: string)
    ensures var i := IndexOf(t, " ");
      Split(t, " ")[0] == if i < 0 then t else t[..i]
  {
  }

  /** Before the first space there is no space. */
  lemma NoSpaceBefore(t: string, k: nat)
    requires k < |t| && (IndexOf(t, " ") < 0 || k < IndexOf(t, " "))
    ensures t[k] != ' '
  {
    assert t[k..k + 1] == [t[k]];
    assert !OccursAt(t, " ", k);
  }

  /** Within a line, the word ends at the first space, or at the end of
      the line when there is none. */
  lemma LineWordEnd(rest: string, c: nat)
    requires c <= |rest|
    requires forall k :: 0 <= k < c ==> !IsLineTerminator(rest[k])
    requires c == |rest| || IsLineTerminator(rest[c])
    ensures var i := IndexOf(rest[..c], " ");
      WordEnd(rest) == if i < 0 then c else i
  {
    var line := rest[..c];
    var i := IndexOf(line, " ");
    var e := if i < 0 then c else i;
    forall k | 0 <= k < e
      ensures rest[k] != ' '
    {
      assert rest[k] == line[k];
      NoSpaceBefore(line, k);
    }
    if i >= 0 {
      assert line[i..i + 1] == " ";
      assert rest[i] == line[i];
    }
    assert WordEndsAt(rest, e);
    WordEndUnique(rest, e, WordEnd(rest));
  }

  /** The first space-separated piece of a line is the word at its start. */
  lemma FirstPieceIsWord(rest: string, c: nat)
    requires c <= |rest|
    requires forall k :: 0 <= k < c ==> !IsLineTerminator(rest[k])
    requires c == |rest| || IsLineTerminator(rest[c])
    ensures Split(rest[..c], " ")[0] == rest[..WordEnd(rest)]
  {
    SplitFirstPiece(rest[..c]);
    LineWordEnd(rest, c);
  }

  /** The captured rest of the line, cut at its first space, is the promo word. */
  lemma PromoCaptureWord(s: string)
    requires IndexOf(s, PromoCodeLine.prefix) >= 0
    ensures Capture(s, PromoCodeLine).Some?
    ensures Split(Capture(s, PromoCodeLine).value, " ")[0] == PromoWord(s)
  {
    PromoFindIsIndexOf(s);
    var start := RunStart(PromoCodeLine, Find(s, PromoCodeLine).value);
    var rest := s[start..];
    var c := ClassRun(rest, PromoCodeLine.cls);
    assert Capture(s, PromoCodeLine).value == rest[..c];
    assert forall k :: 0 <= k < c ==> !IsLineTerminator(rest[k]) by {
      assert forall k :: 0 <= k < c ==> InClass(rest[k], AnyButLineTerminator);
    }
    assert c == |rest| || IsLineTerminator(rest[c]) by {
      assert c == |rest| || !InClass(rest[c], AnyButLineTerminator);
    }
    FirstPieceIsWord(rest, c);
  }

  /** `extractPromoCode`: null for a missing or empty text and for a text
      without "promo code: "; otherwise the trimmed word that follows the
      first occurrence, up to the first space or the end of the line. */
  function ExtractPromoCode(text: Option<string>): (r: Option<string>)
    ensures r.None? <==> !PresentText(text) || IndexOf(text.value, PromoCodeLine.prefix) < 0
    ensures r.Some? ==>
      (text.Some? && IndexOf(text.value, PromoCodeLine.prefix) >= 0 && r.value == Trim(PromoWord(text.value)))
    ensures r.Some? ==> ' ' !in r.value
  {
    if !PresentText(text) then None
    else
      var s := text.value;
      PromoFindIsIndexOf(s);
      match Capture(s, PromoCodeLine)
      case None => None
      case Some(m) =>
        PromoCaptureWord(s);
        Some(Trim(Split(m, " ")[0]))
  }


  // ---- calculatePercentOffListPrice (lines 141-159) ----

  /** The percent off the list price, for a non-zero list price. */
  function PercentOff(list: real, current: real): real
    requires list != 0.0
  {
    ((list - current) / list) * 100.0
  }

  /** The percent is 0 exactly when the two prices are equal. */
  lemma PercentOffZero(list: real, current: real)
    requires list != 0.0
    ensures PercentOff(list, current) == 0.0 <==> list == current
  {
    if PercentOff(list, current) == 0.0 {
      assert (list - current) / list == 0.0;
      assert list - current == ((list - current) / list) * list;
    }
  }

  /** A current price in (0, list] is between 0 and 100 percent off. */
  lemma PercentOffBounds(list: real, current: real)
    requires 0.0 < current <= list
    ensures 0.0 <= PercentOff(list, current) < 100.0
  {
    var q := (list - current) / list;
    assert q * list == list - current;
    assert 0.0 <= q;
    assert q < 1.0;
  }

  /** `percentOff`, then `percentOff === 0 ? null : percentOff.toFixed(0)`,
      with the non-finite cases of the division: NaN when either price is
      NaN or both are 0, and an infinity when only the list price is 0. */
  function PercentOffText(list: Number, current: Number): (r: Option<string>)
    ensures r.None? <==> list.Finite? && current.Finite? && list.value != 0.0 && list.value == current.value
    ensures list.Finite? && current.Finite? && list.value != 0.0 && r.Some? ==>
      r == Some(ToFixed(PercentOff(list.value, current.value), 0))
    ensures list.NaN? || current.NaN? ==> r == Some("NaN")
  {
    if list.NaN? || current.NaN? then Some("NaN")
    else if list.value == 0.0 then
      (if current.value == 0.0 then Some("NaN")
       else if current.value > 0.0 then Some("-Infinity")
       else Some("Infinity"))
    else
      var p := PercentOff(list.value, current.value);
      PercentOffZero(list.value, current.value);
      if p == 0.0 then None else Some(ToFixed(p, 0))
  }

  /** `calculatePercentOffListPrice`. The current price is `current_price ||
      ''`: a number (line 207), a string (line 210) or the empty string, so
      it is a value; the equality check on line 149 holds only for the
      very same string. */
  function CalculatePercentOffListPrice(listPrice: string, currentPrice: JsValue): (r: Option<string>)
    ensures listPrice == "" || !Truthy(currentPrice) || currentPrice == Str(listPrice) ==> r.None?
    ensures listPrice != "" && Truthy(currentPrice) && currentPrice != Str(listPrice) ==>
      r == PercentOffText(ParseFloat(listPrice), ParseFloatValue(currentPrice))
  {
    if listPrice == "" || !Truthy(currentPrice) then None
    else
      var listValue := ParseFloat(listPrice);
      var currentValue := ParseFloatValue(currentPrice);
      if currentPrice == Str(listPrice) then None
      else PercentOffText(listValue, currentValue)
  }

  /** Null exactly for an empty input, the same string twice, or two texts
      that denote the same non-zero price. */
  lemma PercentOffListPriceNull(listPrice: string, currentPrice: JsValue)
    ensures CalculatePercentOffListPrice(listPrice, currentPrice).None? <==>
      listPrice == "" || !Truthy(currentPrice) || currentPrice == Str(listPrice)
      || (ParseFloat(listPrice).Finite? && ParseFloatValue(currentPrice).Finite?
          && ParseFloat(listPrice).value != 0.0 && ParseFloat(listPrice).value == ParseFloatValue(currentPrice).value)
  {
  }

  /** The text reads back as the percent rounded to a whole number. */
  lemma PercentOffReadsBack(list: real, current: real)
    requires list != 0.0 && list != current
    ensures PercentOffText(Finite(list), Finite(current)).Some?
    ensures ParseFloat(PercentOffText(Finite(list), Finite(current)).value) == Finite(RoundTo(PercentOff(list, current), 0))
  {
    ParseToFixed(PercentOff(list, current), 0);
  }

  // ---- calculateCouponAmount (lines 161-184) ----

  /** `calculateCouponAmount`. `couponPriceLabel` says whether the coupon
      tile's text contains "coupon price" (line 168), which makes the
      captured dollar figure the price after the coupon rather than the
      amount off. */
  function CalculateCouponAmount(clipCouponText: Option<string>, currentPrice: Option<Number>, couponPriceLabel: bool): (r: Number)
    ensures !PresentText(clipCouponText) ==> r == Finite(0.0)
    ensures (PresentText(clipCouponText)
             && (Capture(clipCouponText.value, DollarAmount).None? || (couponPriceLabel && !Present(currentPrice))))
      ==> r == Finite(0.0)
    ensures PresentText(clipCouponText) && !couponPriceLabel && r.Finite? ==> r.value >= 0.0
    ensures PresentText(clipCouponText) && !couponPriceLabel && Capture(clipCouponText.value, DollarAmount).Some?
      ==> r == ParseFloat(Capture(clipCouponText.value, DollarAmount).value)
    ensures PresentText(clipCouponText) && couponPriceLabel && Present(currentPrice)
      && Capture(clipCouponText.value, DollarAmount).Some?
      ==> var couponPrice := ParseFloat(Capture(clipCouponText.value, DollarAmount).value);
          r == if couponPrice.NaN? then NaN else Finite(RoundTo(currentPrice.value.value - couponPrice.value, 2))
  {
    if !PresentText(clipCouponText) then Finite(0.0)
    else
      var m := Capture(clipCouponText.value, DollarAmount);
      if couponPriceLabel then
        if m.Some? && Present(currentPrice) then PriceAfterCoupon(currentPrice.value, m.value)
        else Finite(0.0)
      else if m.Some? then DirectCouponAmount(m.value)
      else Finite(0.0)
  }

  /** `parseFloat((current - parseFloat(figure)).toFixed(2))` (line 173). */
  function PriceAfterCoupon(current: Number, figure: string): (r: Number)
    requires current.Finite?
    ensures r == if ParseFloat(figure).NaN? then NaN else Finite(RoundTo(current.value - ParseFloat(figure).value, 2))
  {
    var couponPrice := ParseFloat(figure);
    ParseNumberToFixed(Sub(current, couponPrice), 2);
    ParseFloat(NumberToFixed(Sub(current, couponPrice), 2))
  }

  /** `parseFloat(figure)` of a captured run of digits and dots (line 179),
      never negative. */
  function DirectCouponAmount(figure: string): (r: Number)
    requires forall c :: c in figure ==> InClass(c, DigitsAndDots)
    ensures r.Finite? ==> r.value >= 0.0
    ensures |figure| >= 1 && AllDigits(figure) ==> r == Finite(DigitsValue(figure) as real)
  {
    ParseDigitsAndDots(figure);
    if |figure| >= 1 && AllDigits(figure) then
      ParseFloatDigits(figure);
      ParseFloat(figure)
    else
      ParseFloat(figure)
  }

  /** A figure with a decimal point is its whole part plus its fraction. */
  lemma DirectCouponDecimal(whole: string, fraction: string)
    requires |whole| >= 1 && AllDigits(whole) && AllDigits(fraction)
    requires forall c :: c in whole + "." + fraction ==> InClass(c, DigitsAndDots)
    ensures DirectCouponAmount(whole + "." + fraction) == Finite(DigitsValue(whole) as real + FractionValue(fraction))
  {
    ParseFloatDecimal(whole, fraction);
  }

  /** The coupon text read off its parts: `a` holds no "$", and the figure
      `d` after the first "$" is a run of digits and dots that `b` does not
      continue. Without the label the amount is `parseFloat(d)`; with it,
      the current price less `parseFloat(d)`, rounded to cents. */
  lemma CouponAmountOfText(t: string, a: string, d: string, b: string, currentPrice: Option<Number>)
    requires t == a + "$" + d + b
    requires forall i :: 0 <= i < |a| ==> a[i] != '$'
    requires |d| >= 1 && forall i :: 0 <= i < |d| ==> IsDigitOrDot(d[i])
    requires b == [] || !IsDigitOrDot(b[0])
    ensures Capture(t, DollarAmount) == Some(d)
    ensures CalculateCouponAmount(Some(t), currentPrice, false) == ParseFloat(d)
    ensures Present(currentPrice) ==> CalculateCouponAmount(Some(t), currentPrice, true) == PriceAfterCoupon(currentPrice.value, d)
  {
    assert t == a + DollarAmount.prefix + d + DollarAmount.suffix + b;
    assert t[..|a|] == a;
    NoMatchWithoutPrefix(t, DollarAmount, a);
    CaptureAt(t, DollarAmount, a, d, b);
  }

  /** A "$i.f" figure without the label is the amount i + 0.f. */
  lemma CouponAmountOfDecimal(t: string, a: string, whole: string, fraction: string, b: string, currentPrice: Option<Number>)
    requires t == a + "$" + (whole + "." + fraction) + b
    requires forall i :: 0 <= i < |a| ==> a[i] != '$'
    requires |whole| >= 1 && AllDigits(whole) && AllDigits(fraction)
    requires b == [] || !IsDigitOrDot(b[0])
    ensures CalculateCouponAmount(Some(t), currentPrice, false) == Finite(DigitsValue(whole) as real + FractionValue(fraction))
  {
    var d := whole + "." + fraction;
    assert forall i :: 0 <= i < |d| ==> IsDigitOrDot(d[i]) by {
      assert forall i :: 0 <= i < |d| ==> d[i] == '.' || IsDigit(d[i]);
    }
    CouponAmountOfText(t, a, d, b, currentPrice);
    ParseFloatDecimal(whole, fraction);
  }

  /** "Save $5.00" without the label is a $5 coupon. */
  lemma CouponAmountExample(currentPrice: Option<Number>)
    ensures CalculateCouponAmount(Some("Save $5.00"), currentPrice, false) == Finite(5.0)
  {
    var a, whole, fraction := "Save ", "5", "00";
    assert a + "$" + (whole + "." + fraction) + "" == "Save $5.00";
    assert forall i :: 0 <= i < |a| ==> a[i] != '$';
    assert DigitsValue(whole) == 5 by { assert whole[..0] == []; }
    assert forall i :: 0 <= i < |fraction| ==> fraction[i] == '0';
    FractionOfZeros(fraction);
    CouponAmountOfDecimal("Save $5.00", a, whole, fraction, "", currentPrice);
  }


}
