# AffiliTap product-deal pipeline, in Dafny

This project models the core of AffiliTap, a browser extension for deal posters. The
model covers four parts:

- **Content script:** scrapes an Amazon product page by trying ordered CSS selector
  lists. It turns the scraped texts into a product record: prices, coupons, promo
  code, checkout discount, rating, image link, and the final price after every
  discount.
- **Side panel:** fills a user template's tokens with that record.
- **Prompt editor:** the small state machine for the AI-training prompts.
- **Helpers:** two string helpers and three path helpers.

Modules, one per source file, plus shared modules for the JavaScript built-ins they rely on:

| module | file | models |
|---|---|---|
| `Opt` | opt.dfy | `null` as an `Option` |
| `JsStrings` | js_strings.dfy | `trim`, `indexOf`, `lastIndexOf`, `split`, `join`, global literal `replace` |
| `JsNumbers` | js_numbers.dfy | numbers as NaN or a `real`; `parseFloat`, `toFixed`, `String(n)` |
| `JsValues` | js_values.dfy | the values in a product record, truthiness, `v \|\| ""` |
| `Patterns` | patterns.dfy | the four regular expressions the content script uses, as scans |
| `Pricing` | pricing.dfy | renderer.tsx lines 55-184: the dynamic coupon and checkout texts, `calculateFinalPrice`, `extractPromoCode`, `calculatePercentOffListPrice`, `calculateCouponAmount` |
| `Renderer` | renderer.dfy | renderer.tsx lines 17-272: the selector table, the scraped-text record (a class), the fallback loop, the parsing of each field |
| `Utils` | utils.dfy | `modifyImageLink`, `shortenProductName` |
| `SidePanel` | sidepanel.dfy | template lookup, `generatePreviewText`, the panel's state (a class) |
| `PromptEditor` | prompt_editor.dfy | the prompt editor's state (a class), its handlers, the character counter |
| `Urls` | urls.dfy | `getPage`, `getPopup`, `getOptions` |

The page is a map from selector to the first element that selector matches. A selector
that is not a key matches nothing. Three things arrive as parameters:

- the "coupon price" label check, which `calculateCouponAmount` reads from the document;
- the affiliate link, which comes from a web service;
- the default prompts, which the editor imports from a module that is not part of this model.

Local storage is a `map<string, string>`.

## Model

| member | source | states |
|---|---|---|
| `Renderer.FirstText` | src/scripts/content-script/renderer.tsx:189-199 | A field's value is null exactly when no selector in its list yields an element with non-empty trimmed text. Otherwise it is the trimmed text of the first selector that does, and it is never empty. |
| `Renderer.FirstYield` | src/scripts/content-script/renderer.tsx:191-197 | The index of the first selector that yields; every selector before it does not. |
| `Renderer.FirstTextIgnoresLater` | src/scripts/content-script/renderer.tsx:191-197 | Selectors after the first one that yields are never consulted: two pages that agree up to it give the same value. |
| `Renderer.Scraper.SelectText` | src/scripts/content-script/renderer.tsx:190-197 | The inner loop with its `break` computes exactly the fallback value. |
| `Renderer.Scraper.PopulateData` | src/scripts/content-script/renderer.tsx:189-199 | The outer loop overwrites each field of the module-level record with its selectors' value, in table order. |
| `Renderer.Scraper.GetProductData` | src/scripts/content-script/renderer.tsx:186-272 | After a scrape the record depends on the page alone, not on the previous scrape, and the returned product is the one built from the fresh record. |
| `Renderer.Scraper.constructor` | src/scripts/content-script/renderer.tsx:40-51 | The record starts with its ten fields null, and every field it holds is one the selector table fills. |
| `Renderer.ScrapeIntoLookup` | src/scripts/content-script/renderer.tsx:189-199 | With distinct field names, every field of the table ends up holding its own selectors' value. |
| `Renderer.ScrapeIntoKeys` | src/scripts/content-script/renderer.tsx:189-199 | The scrape adds exactly the table's fields and leaves every other field as it was. |
| `Renderer.ScrapeForgetsOldData` | src/scripts/content-script/renderer.tsx:40-51 | For any table with distinct field names, starting from any record whose fields are all in the table, the scrape gives the same result: nothing of the old record survives. |
| `Renderer.ScrapedField` | src/scripts/content-script/renderer.tsx:198 | After a scrape, each table field holds the fallback value of its selector list. |
| `Renderer.InitialDataKeys` | src/scripts/content-script/renderer.tsx:17-51 | Every field of the initial record appears in the selector table. |
| `Renderer.SelectorKeysDistinct` | src/scripts/content-script/renderer.tsx:17-38 | The selector table names each field once. |
| `Renderer.CurrentPrice` | src/scripts/content-script/renderer.tsx:202-212 | A number exactly when the combined price element exists: its markup's digits and dots, parsed and rounded to cents, never negative. Otherwise the text of whole + fraction/100 to two decimals when both split nodes have text. Otherwise null. |
| `Renderer.SplitPriceValue` | src/scripts/content-script/renderer.tsx:210 | When both split nodes contain digits, the price is the whole part plus the fraction's digits divided by 100, and it is not negative. |
| `Renderer.SplitPriceReadsBack` | src/scripts/content-script/renderer.tsx:210 | The two-decimal text of the split price reads back as that price rounded to cents, which is not negative. |
| `Renderer.ListPrice` | src/scripts/content-script/renderer.tsx:214 | Present exactly when the list-price text is. Its value is that text with every character other than a digit or a dot removed, so it is never longer than the text. |
| `Renderer.ListPriceExample` | src/scripts/content-script/renderer.tsx:214 | "$1,299.99" becomes "1299.99". |
| `Renderer.CouponPercent` | src/scripts/content-script/renderer.tsx:217 | 0 without a coupon text or without a "N%" figure in it. Otherwise `parseFloat` of the digits and dots captured before the first "%" that has any. Never negative. |
| `Renderer.CouponPercentOfText` | src/scripts/content-script/renderer.tsx:217 | For a text `a + d + "%" + b`, where `a` holds no digit or dot and `d` is a non-empty run of digits and dots, the percent is `parseFloat(d)`. |
| `Renderer.CouponPercentExample` | src/scripts/content-script/renderer.tsx:217 | "15% off" gives 15. |
| `Renderer.PromoPercentOff` | src/scripts/content-script/renderer.tsx:231-233 | Null without a text. Otherwise the capture of `(\d+)%`: the digit run of the leftmost digits-then-"%" match, and null exactly when the text has no such match. A present value is a non-empty string of digits. |
| `Renderer.PromoPercentOffOfMatch` | src/scripts/content-script/renderer.tsx:231-233 | For a text `a + d + "%" + b`, where no digits-then-"%" match starts inside `a` and `d` is a non-empty digit run, the value is `d`. |
| `Renderer.PromoPercentOffOfText` | src/scripts/content-script/renderer.tsx:231-233 | For a text `a + d + "%" + b`, where `a` holds no digit and `d` is a non-empty digit run, the value is `d`. |
| `Renderer.PromoPercentOffDigitInPrefix` | src/scripts/content-script/renderer.tsx:231-233 | "Buy 2, save 10%" gives "10": the "2" is not followed by a "%", so no match starts there. |
| `Renderer.PromoPercentOffExamples` | src/scripts/content-script/renderer.tsx:231-233 | "Save 20%" gives "20". In "Save %: 15%" the first "%" has no digits before it, so the value is "15". |
| `Renderer.CheckoutCapture` | src/scripts/content-script/renderer.tsx:234-235 | Null exactly without a checkout text; the captured figure when the pattern matches; undefined when it does not. |
| `Renderer.Rating` | src/scripts/content-script/renderer.tsx:236 | Present exactly when the rating text is. |
| `Renderer.RatingFirstWord` | src/scripts/content-script/renderer.tsx:236 | A rating text "w rest", with no space in w, is parsed from w alone. |
| `Renderer.RatingOneWord` | src/scripts/content-script/renderer.tsx:236 | A rating text of one word, without a space, is `parseFloat` of the whole text. |
| `Renderer.RatingOfDecimal` | src/scripts/content-script/renderer.tsx:236 | A rating text whose first word is a decimal numeral "i.f" is the number i + 0.f. |
| `Renderer.RatingExample` | src/scripts/content-script/renderer.tsx:236 | "4.5 out of 5" gives 4.5. |
| `Renderer.ImageUrl` | src/scripts/content-script/renderer.tsx:237-239 | Present exactly when the image element has a non-empty `src`; then that link with its size tag rewritten. |
| `Renderer.NumberIfTruthy` | src/scripts/content-script/renderer.tsx:242-248 | `x ? parseFloat(x) : null`: null exactly for a falsy value; a number passes through unchanged. |
| `Renderer.TruthyNumber` | src/scripts/content-script/renderer.tsx:265 | `n \|\| null`: present exactly for a finite non-zero number. |
| `Renderer.ProductFrom` | src/scripts/content-script/renderer.tsx:202-269 | The product record has the following properties: the name is the scraped name; the final price is null exactly when the current price is falsy or parses to 0 or NaN (a split price "0.00" is a truthy text that parses to 0); the promo code has no space; the coupon percent is not negative; the dynamic coupon agrees with the coupon amount and percent. |
| `Renderer.ProductFinalPriceNonNegative` | src/scripts/content-script/renderer.tsx:241-249 | A present final price reads back as a number that is never negative. |
| `Pricing.GetDynamicCoupon` | src/scripts/content-script/renderer.tsx:55-63 | "$a" when the amount is > 0; else "p%" when the percent is > 0; else null, and null only then. |
| `Pricing.GetDynamicCheckoutDiscount` | src/scripts/content-script/renderer.tsx:65-73 | The percent is checked first ("p% off"), then the amount ("$a off"). The result is null exactly when neither is truthy. |
| `Pricing.FinalPrice` | src/scripts/content-script/renderer.tsx:84 | Null exactly when the current price is null, 0 or NaN. |
| `Pricing.CalculateFinalPrice` | src/scripts/content-script/renderer.tsx:75-127 | The step-by-step running-price method computes the same value as the discount pipeline: coupon, promo, checkout percent, checkout amount, clamp at 0, two decimals. |
| `Pricing.FinalPriceValue` | src/scripts/content-script/renderer.tsx:126 | The value of the final price is never negative. |
| `Pricing.FinalPriceReadsBack` | src/scripts/content-script/renderer.tsx:126 | The final-price text reads back as the clamped price rounded to cents. |
| `Pricing.FinalPriceWithoutDiscounts` | src/scripts/content-script/renderer.tsx:92-126 | With no discounts, the result is the current price with two decimals. |
| `Pricing.DiscountedNotAbove` | src/scripts/content-script/renderer.tsx:92-123 | Discounts with non-negative amounts and percents of at most 100 never raise the price. |
| `Pricing.FinalPriceNotAbove` | src/scripts/content-script/renderer.tsx:92-126 | With such discounts, the final price is at most the current price rounded to cents. |
| `Pricing.CouponAmountWins` | src/scripts/content-script/renderer.tsx:95-99 | When the coupon amount is positive, the coupon percent has no effect. |
| `Pricing.PromoNeedsCode` | src/scripts/content-script/renderer.tsx:104-113 | Without a promo code, the promo percent has no effect. |
| `Pricing.FinalPriceExamplePromo` | src/scripts/content-script/renderer.tsx:103-113 | The promo percent is taken of the original price: 100 with a $10 coupon and a 10% code gives "80.00". |
| `Pricing.FinalPriceExampleCheckout` | src/scripts/content-script/renderer.tsx:115-126 | The checkout percent is taken of the running price: 100 with a $10 coupon and 10% at checkout gives "81.00". |
| `Pricing.ExtractPromoCode` | src/scripts/content-script/renderer.tsx:129-139 | Null exactly for a missing or empty text, or one without "promo code: ". Otherwise the trimmed word after the first occurrence, cut at the first space or line end, so it contains no space. |
| `Pricing.PromoFindIsIndexOf` | src/scripts/content-script/renderer.tsx:133 | The regex matches exactly at the first occurrence of "promo code: ". |
| `Pricing.PromoCaptureWord` | src/scripts/content-script/renderer.tsx:133-135 | The captured rest of the line, cut at its first space, is the word after "promo code: ". |
| `Pricing.PercentOffText` | src/scripts/content-script/renderer.tsx:146-158 | Null exactly when both prices are finite, equal and non-zero. NaN when either is NaN. Otherwise the percent off the list price, to 0 decimals. |
| `Pricing.CalculatePercentOffListPrice` | src/scripts/content-script/renderer.tsx:141-159 | Null when either input is empty or falsy, or when both are the very same string. Otherwise the percent-off text of the parsed prices. |
| `Pricing.PercentOffListPriceNull` | src/scripts/content-script/renderer.tsx:141-158 | Null exactly for an empty input, the same string twice, or two texts that denote the same non-zero price (percent exactly 0). |
| `Pricing.PercentOffZero` | src/scripts/content-script/renderer.tsx:153-157 | The computed percent is 0 exactly when the two prices are equal. |
| `Pricing.PercentOffBounds` | src/scripts/content-script/renderer.tsx:153 | A current price in (0, list] lies between 0 and 100 percent off. |
| `Pricing.PercentOffReadsBack` | src/scripts/content-script/renderer.tsx:158 | The percent text reads back as the percent rounded to a whole number. |
| `Pricing.CalculateCouponAmount` | src/scripts/content-script/renderer.tsx:161-184 | 0 without a text or without a "$N" figure, and 0 when the "coupon price" label is shown but there is no current price. With the label and a current price, the result is the current price minus the figure, rounded to cents (NaN for an unparsable figure). Without the label, a "$N" figure gives exactly `parseFloat` of the figure, which is never negative. |
| `Pricing.DirectCouponAmount` | src/scripts/content-script/renderer.tsx:176-181 | A "$N" figure of digits and dots read without the label is never a negative amount. A figure of digits alone is its decimal value. |
| `Pricing.DirectCouponDecimal` | src/scripts/content-script/renderer.tsx:176-181 | A figure "i.f" is the number i + 0.f. |
| `Pricing.CouponAmountOfText` | src/scripts/content-script/renderer.tsx:161-184 | For a text `a + "$" + d + b`, where `a` holds no "$", `d` is a non-empty run of digits and dots and `b` does not continue it: the capture is `d`. Without the label the amount is `parseFloat(d)`. With the label and a current price, it is that price minus `parseFloat(d)`, rounded to cents. |
| `Pricing.CouponAmountOfDecimal` | src/scripts/content-script/renderer.tsx:176-179 | Without the label, a text `a + "$" + "i.f" + b` (no "$" in `a`, `b` not continuing the figure) is the amount i + 0.f. |
| `Pricing.CouponAmountExample` | src/scripts/content-script/renderer.tsx:176-181 | "Save $5.00" without the label is an amount of 5. |
| `Patterns.Capture` | src/scripts/content-script/renderer.tsx:170-177 | A regex capture is absent exactly when the pattern matches nowhere. Otherwise it is a run of the class of at least the minimum length. |
| `Patterns.CaptureAt` | src/scripts/content-script/renderer.tsx:170 | For a text `a + prefix + d + suffix + b` with no match inside `a`, a run `d` of the class of at least the minimum length, and nothing after it that continues the run, the capture is `d`. |
| `Patterns.NoMatchOutsideClass` | src/scripts/content-script/renderer.tsx:232 | A pattern without a prefix, such as `(\d+)%`, does not match at a character outside its class. |
| `Patterns.NoMatchShortRun` | src/scripts/content-script/renderer.tsx:232 | Nor does it match where a one-character run is followed by neither a class character nor its suffix. |
| `Patterns.KeepAppend` | src/scripts/content-script/renderer.tsx:214 | Stripping works piece by piece: `Keep(a + b)` is `Keep(a) + Keep(b)`. |
| `Patterns.KeepOne` | src/scripts/content-script/renderer.tsx:214 | One character is kept exactly when it is in the class. |
| `Patterns.KeepAround` | src/scripts/content-script/renderer.tsx:214 | Two characters outside the class, one before and one between two runs of it, drop out and the runs are joined. |
| `Patterns.Keep` | src/scripts/content-script/renderer.tsx:206 | `replace(/[^0-9.]/g, '')` keeps only class characters, is never longer than its input, and leaves a string already of that class unchanged. |
| `Utils.ModifyImageLinkFewDots` | src/utils/utils.ts:40-50 | A link with fewer than two dots is returned unchanged. |
| `Utils.ModifyImageLinkShape` | src/utils/utils.ts:41-47 | For a link a.b.c with b and c free of dots, the result is `a + "._AC_SL1500_." + c`. |
| `Utils.TwoDotsShape` | src/utils/utils.ts:36-40 | Every link with at least two dots splits at its last two dots. |
| `Utils.ModifyImageLinkIdempotent` | src/utils/utils.ts:35-51 | Rewriting a rewritten link changes nothing. |
| `Utils.ModifyImageLinkExample` | src/utils/utils.ts:28-31 | The documented example maps `…/41oV5VxVpFL._AC_SY1000_.jpg` to `…/41oV5VxVpFL._AC_SL1500_.jpg`. |
| `Utils.SecondLastDot` | src/utils/utils.ts:37 | The last dot before the last dot, or -1 when there is none (including when the link has no dot at all). |
| `Utils.ShortenProductName` | src/utils/utils.ts:163-169 | "" when the name or the limit is null; otherwise a prefix of the name. |
| `Utils.ShortenToZero` | src/utils/utils.ts:160-169 | A limit of 0 gives "". |
| `Utils.ShortenKeepsShortName` | src/utils/utils.ts:169 | A limit of at least the number of words keeps the whole name. |
| `Utils.ShortenWordCount` | src/utils/utils.ts:169 | A positive limit k keeps exactly min(k, word count) space-separated words. |
| `Utils.SliceEnd` | src/utils/utils.ts:169 | `slice(0, end)` clamps to the list and counts a negative end from the back. |
| `SidePanel.FindTemplate` | src/scripts/sidepanel/index.tsx:140 | `find` by id: none exactly when no template has the id; otherwise the first template with it. |
| `SidePanel.SelectedContent` | src/scripts/sidepanel/index.tsx:140 | The content of the first template whose id is the selection, or "" when there is none. |
| `SidePanel.TitleLimit` | src/scripts/sidepanel/index.tsx:153 | The selected template's word limit, or undefined when no template has the selected id. |
| `SidePanel.PreviewWith` | src/scripts/sidepanel/index.tsx:147-167 | The chain with `{coupon_%}` read from a given field. Without product data, the preview is exactly the loading message. |
| `SidePanel.GeneratePreviewText` | src/scripts/sidepanel/index.tsx:147-150 | Without product data, the preview is exactly "No product data available. Loading...". |
| `SidePanel.ReplaceEachTemplate` | src/scripts/sidepanel/index.tsx:156-165 | Take a template made of text without `{` and of braced words, and bindings whose keys are braced words and whose values contain no `{`. The chain of global replacements then equals the template with each braced word resolved to its first binding, or kept when it has none. |
| `SidePanel.PreviewIsRendered` | src/scripts/sidepanel/index.tsx:156-165 | For such a template, and a record whose texts and the link contain no `{`, the nine-step chain equals the template with each braced word resolved. This holds whichever field is read for `{coupon_%}`, so for the chain as written too. |
| `SidePanel.PreviewFillsTemplate` | src/scripts/sidepanel/index.tsx:156-165 | Under the same conditions, each of the nine tokens is replaced at every occurrence by its value ("" when the field is falsy). Any other braced word, such as `{final_price}` or `{rating}`, is left verbatim. |
| `SidePanel.ProductNameToken` | src/scripts/sidepanel/index.tsx:153-157 | `{product_name}` becomes the name shortened to the selected template's word limit, and `{amz_link}` becomes the link or "". |
| `SidePanel.PreviewOfOneWord` | src/scripts/sidepanel/index.tsx:156-165 | A template `before{name}after`, with no `{` around the word, previews as `before`, the word resolved, then `after`. This holds for either field read for `{coupon_%}`. |
| `SidePanel.CouponPercentPreview` | src/scripts/sidepanel/index.tsx:162 | In a template `before{coupon_%}after`, the chain as written shows the `coupon_percentage` field and the corrected one shows `coupon_percent`, each as text or "". |
| `SidePanel.CouponDollarExample` | src/scripts/sidepanel/index.tsx:161 | `{coupon_\x24}` is `{coupon_$}`, matched literally: with a $5 coupon amount and no `{` in the text around it, a template `before{coupon_$}after` previews as `before5after`. |
| `SidePanel.GeneratePreviewTextAsWritten` | src/scripts/sidepanel/index.tsx:147-167 | The chain as written, reading `coupon_percentage`; without data, the loading message. |
| `SidePanel.CouponPercentLostAsWritten` | src/scripts/sidepanel/index.tsx:162 | As written, `{coupon_%}` always becomes "" for a record from the content script. |
| `SidePanel.CouponPercentFilled` | src/scripts/content-script/renderer.tsx:259 | Reading `coupon_percent`, `{coupon_%}` becomes the coupon percent when it is non-zero. |
| `SidePanel.CouponPercentExample` | src/scripts/sidepanel/index.tsx:162 | A 15% coupon shows as "" as written, and as "15" when the field the content script writes is read. |
| `SidePanel.SidePanelState.FetchTemplates` | src/scripts/sidepanel/index.tsx:44-54 | Loading stored templates replaces the list and selects the first template's id when the list is non-empty. Nothing stored changes nothing. |
| `SidePanel.SidePanelState.HandleTemplateChange` | src/scripts/sidepanel/index.tsx:56-62 | The selection becomes the chosen id, whether or not a template has it. Nothing else changes. |
| `SidePanel.SidePanelState.HandleProductDataUpdate` | src/scripts/sidepanel/index.tsx:95-96 | Only an "UPDATE_PRODUCT_DATA" message replaces the product data. |
| `SidePanel.SidePanelState.RefreshPreview` | src/scripts/sidepanel/index.tsx:138-145 | With at least one template, the preview is regenerated from the selected template's content. With none, it is left alone. |
| `PromptEditor.Editor.constructor` | src/scripts/page/prompt-editor.tsx:33-53 | The editor opens on "Promo Code" with that tab's stored prompt, or "", in both texts and no changes. |
| `PromptEditor.Editor.SelectTab` | src/scripts/page/prompt-editor.tsx:48-53 | Switching tab loads the stored prompt, or "", into both texts and clears `hasChanges`. Re-selecting the open tab changes nothing. |
| `PromptEditor.Editor.HandleTextChange` | src/scripts/page/prompt-editor.tsx:82-87 | An edit of at most 750 characters is taken and a longer one is ignored, so editing never pushes the text past the limit. `hasChanges` is kept in step. |
| `PromptEditor.Editor.HandleInsertVariable` | src/scripts/page/prompt-editor.tsx:59-80 | The variable replaces the selection. The cursor moves to start + length of the variable. Nothing happens without a text area. |
| `PromptEditor.Editor.HandleSave` | src/scripts/page/prompt-editor.tsx:89-93 | The trimmed text is stored under "prompt-" + tab and no other key changes. The untrimmed text becomes the saved one, and `hasChanges` is false. |
| `PromptEditor.Editor.HandleConfirmLoadDefaults` | src/scripts/page/prompt-editor.tsx:112-122 | Every default is written under its key, in order. Both texts become the open tab's default. |
| `PromptEditor.Splice` | src/scripts/page/prompt-editor.tsx:67 | For a selection inside the text, the text before it is kept, the value follows, then the text after the selection. The length changes by `\|value\| - (end - start)`. |
| `PromptEditor.InsertCanExceedLimit` | src/scripts/page/prompt-editor.tsx:59-71 | Insertion does not enforce the 750 limit. |
| `PromptEditor.StorageKeyInjective` | src/scripts/page/prompt-editor.tsx:49 | Different names are stored under different keys. |
| `PromptEditor.TypeNamesDistinct` | src/scripts/page/prompt-editor.tsx:7-13 | The five prompt types have five different names. |
| `PromptEditor.StoredText` | src/scripts/page/prompt-editor.tsx:49 | `getItem(key) \|\| ''`: the stored text, or "" when nothing is stored. |
| `PromptEditor.SavedTextReloads` | src/scripts/page/prompt-editor.tsx:49-91 | Reopening a saved tab shows the trimmed text that was saved. |
| `PromptEditor.SaveKeepsOtherTabs` | src/scripts/page/prompt-editor.tsx:91 | Saving one tab leaves every other tab's stored prompt as it was. |
| `PromptEditor.DefaultStored` | src/scripts/page/prompt-editor.tsx:115-117 | After loading the defaults, each entry's prompt is stored under its key. |
| `PromptEditor.OtherKeysKept` | src/scripts/page/prompt-editor.tsx:115-117 | Keys that belong to no entry keep their value. |
| `PromptEditor.DefaultsLoadIntoTabs` | src/scripts/page/prompt-editor.tsx:115-121 | After loading the defaults, each tab's stored prompt is its default. |
| `PromptEditor.CounterColorOf` | src/scripts/page/prompt-editor.tsx:183-189 | Red exactly above 90% of 750 (675), amber exactly in (600, 675], gray exactly at 600 or less. |
| `PromptEditor.CounterColorMonotone` | src/scripts/page/prompt-editor.tsx:183-189 | The colour only darkens as the text grows. |
| `PromptEditor.LimitMessage` | src/scripts/page/prompt-editor.tsx:206-212 | Shown exactly while the counter is red. It reads "Character limit reached" at 750 or more, else "N characters remaining" with N = 750 - length. |
| `PromptEditor.RemainingCountBounds` | src/scripts/page/prompt-editor.tsx:206-212 | A remaining count, when shown, is between 1 and 74 and differs from the limit message. |
| `Urls.GetPage` | src/utils/urls.ts:1-3 | "page/" followed by the argument. |
| `Urls.GetPopup` | src/utils/urls.ts:5-7 | "popup/" followed by the argument. |
| `Urls.GetOptions` | src/utils/urls.ts:9-11 | "options/" followed by the argument. |
| `Urls.StripAfterPrefix` | src/utils/urls.ts:1-11 | Removing the fixed prefix gives the argument back. |
| `Urls.GetPageInjective` | src/utils/urls.ts:1-3 | `getPage` is injective. |
| `Urls.GetPopupInjective` | src/utils/urls.ts:5-7 | `getPopup` is injective. |
| `Urls.GetOptionsInjective` | src/utils/urls.ts:9-11 | `getOptions` is injective. |
| `Urls.PathsDisjoint` | src/utils/urls.ts:1-11 | No output of one of the three functions equals an output of another. |

## Left out

- Conditional blocks (`{if:KEY}…{/if}`), dropping emptied lines and collapsing blank lines are not in `generatePreviewText`, so they are not modelled. The code is followed here.
- Floating point: numbers are NaN or an exact `real`. Several things are idealised:
  - `toFixed` rounds the exact value, ties away from zero.
  - `String(n)` writes the exact decimal, with at most 20 decimals and no exponent form.
  - `parseFloat` reads no exponent and no "Infinity".
  - IEEE rounding of `-`, `*` and `/` is not modelled.
  - Infinities appear only where a list price of 0 divides (`Pricing.PercentOffText`).
- `SidePanel.GeneratePreviewText` reads `coupon_percent` for `{coupon_%}`. This is the corrected chain of the finding below. The code as written reads `coupon_percentage` and is `SidePanel.GeneratePreviewTextAsWritten`.
- `SidePanel.SidePanelState.RefreshPreview` regenerates the preview with the corrected chain. The code as written would show "" for `{coupon_%}` (`SidePanel.CouponPercentPreview`).
- `Pricing.FinalPriceNotAbove`: it bounds the result by the current price rounded to cents, not by the current price itself, because `toFixed(2)` can round up.
- String lengths count characters, not UTF-16 code units. So the 750-character limit differs from the source's for text outside the Basic Multilingual Plane.
- `$` patterns in replacement text (`$&`, `$1`, …) are taken literally.
- The DOM is a map from selector to the first element it matches. CSS selector matching, document order and `textContent` computation are not modelled.
- `JSON.parse` of the stored templates is not modelled: templates arrive parsed, and `None` stands for nothing stored. Title word limits are integers, so the truncation of a fractional limit by `slice` is not modelled.
- Network, crypto and randomness are not modelled, because they are calls into services and browser APIs:
  - the affiliate link (`getShortUrl`) is a parameter;
  - the tracking ids, `getAiGeneratedTitle`, `md5Hash`, `convertJpgToPng`, `getUserId`, `generateUniqueId` and `handlePurchaseRedirect` are not modelled.
- Extension messaging is not modelled: renderer.tsx lines 276-302, the side panel's product request and listener setup (index.tsx lines 74-109), and src/scripts/background/index.ts.
- The license check (src/utils/license.ts) and the side panel's license state and handlers are not modelled, because they are HTTP and storage calls.
- Storage failures are not modelled. The `catch` branches of the prompt editor's save and load-defaults handlers, popups, the confirm modal's open state, focus and `setTimeout` are left out. `HandleInsertVariable` returns the new cursor position instead of setting it.
- `PromptEditor.Editor.HandleConfirmLoadDefaults`: the default prompts are not defined in src/utils/template_utils.ts, so they are a parameter. They are assumed to be typed by prompt type: distinct names, with one for every type.
- UI-only code is not modelled: JSX rendering, colours other than the character counter's, settings, popup and component files.

## Findings

| source | as written | input that shows it | evidently intended | confidence | as-written member | corrected member |
|---|---|---|---|---|---|---|
| src/scripts/sidepanel/index.tsx:162 | `{coupon_%}` is replaced by `productData.coupon_percentage`, but the content script writes the field as `coupon_percent` (renderer.tsx line 259) | any product whose clip coupon reads "15%": the record has `coupon_percent = 15`, and `{coupon_%}` becomes "" | read `coupon_percent`, so `{coupon_%}` becomes "15" | high; not executed | `SidePanel.CouponPercentLostAsWritten` | `SidePanel.CouponPercentFilled` |
