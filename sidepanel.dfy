/** The side panel's template preview (src/scripts/sidepanel/index.tsx): the
    user's templates, the one selected, and the text obtained by putting the
    current product's facts into the selected template's tokens.

    The affiliate link comes from a web service; here it is a parameter. The
    stored templates arrive already parsed. */
module SidePanel {
  import opened Opt
  import opened JsStrings
  import opened JsNumbers
  import opened JsValues
  import opened Utils
  import Renderer

  /** A saved template (lines 16-21). */
  datatype Template = Template(id: string, name: string, content: string, titleWordLimit: int)

  /** A product record as received from the content script. */
  type Record = map<string, JsValue>

  // ---- Template lookup (lines 57, 140, 153) ----

  /** The index of the first template with the id, or `|templates|`. */
  function TemplateIndex(templates: seq<Template>, id: string): (i: nat)
    ensures i <= |templates|
    ensures forall k :: 0 <= k < i ==> templates[k].id != id
    ensures i < |templates| ==> templates[i].id == id
  {
    if templates == [] then 0
    else if templates[0].id == id then 0
    else
      var i := TemplateIndex(templates[1..], id);
      assert forall k :: 1 <= k < |templates| ==> templates[k] == templates[1..][k - 1];
      1 + i
  }

  /** `templates.find(t => t.id === id)`. */
  function FindTemplate(templates: seq<Template>, id: string): (r: Option<Template>)
    ensures r.None? <==> forall k :: 0 <= k < |templates| ==> templates[k].id != id
    ensures r.Some? ==> TemplateIndex(templates, id) < |templates| && r.value == templates[TemplateIndex(templates, id)]
  {
    if templates == [] then None
    else if templates[0].id == id then Some(templates[0])
    else
      var r := FindTemplate(templates[1..], id);
      assert forall k :: 1 <= k < |templates| ==> templates[k] == templates[1..][k - 1];
      r
  }

  /** The content of the selected template, or "" when no template has
      that id (line 140). */
  function SelectedContent(templates: seq<Template>, selected: string): (c: string)
    ensures (forall k :: 0 <= k < |templates| ==> templates[k].id != selected) ==> c == ""
    ensures TemplateIndex(templates, selected) < |templates| ==> c == templates[TemplateIndex(templates, selected)].content
  {
    var t := FindTemplate(templates, selected);
    if t.Some? then t.value.content else ""
  }

  /** The selected template's title word limit, or undefined (line 153). */
  function TitleLimit(templates: seq<Template>, selected: string): (r: Option<int>)
    ensures r.None? <==> forall k :: 0 <= k < |templates| ==> templates[k].id != selected
    ensures r.Some? ==> r.value == templates[TemplateIndex(templates, selected)].titleWordLimit
  {
    var t := FindTemplate(templates, selected);
    if t.Some? then Some(t.value.titleWordLimit) else None
  }

  // ---- generatePreviewText (lines 147-167) ----

  const NoDataMessage: string := "No product data available. Loading..."

  /** The nine tokens, in the order they are replaced. The fifth is written
      `{coupon_\x24}` in the source, which is `{coupon_$}`. */
  const Tokens: seq<string> := [
    "{product_name}", "{current_price}", "{list_price}", "{discount_percentage}",
    "{coupon_$}", "{coupon_%}", "{promo_code}", "{promo_code_%}", "{amz_link}"]

  /** The product name as `shortenProductName` takes it: a string, or
      null/undefined. */
  function ProductName(v: JsValue): Option<string> {
    if v.Str? then Some(v.s) else None
  }

  /** The token/value pairs of the replacement chain. `couponPercentKey` is
      the record field read for `{coupon_%}`. */
  function Bindings(record: Record, couponPercentKey: string, titleLimit: Option<int>, amzLink: Option<string>): (bs: seq<(string, string)>)
    ensures |bs| == |Tokens| && forall i :: 0 <= i < |bs| ==> bs[i].0 == Tokens[i]
  {
    [ (Tokens[0], ShortenProductName(ProductName(Get(record, "product_name")), titleLimit)),
      (Tokens[1], OrEmpty(Get(record, "current_price"))),
      (Tokens[2], OrEmpty(Get(record, "list_price"))),
      (Tokens[3], OrEmpty(Get(record, "percent_off_list_price"))),
      (Tokens[4], OrEmpty(Get(record, "coupon_amount"))),
      (Tokens[5], OrEmpty(Get(record, couponPercentKey))),
      (Tokens[6], OrEmpty(Get(record, "promo_code"))),
      (Tokens[7], OrEmpty(Get(record, "promo_code_percent_off"))),
      (Tokens[8], if amzLink.Some? then amzLink.value else "") ]
  }

  /** The chain of global replacements, applied in order. */
  function ReplaceEach(text: string, bs: seq<(string, string)>): string
    requires forall i :: 0 <= i < |bs| ==> |bs[i].0| > 0
    decreases |bs|
  {
    if bs == [] then text else ReplaceEach(ReplaceAll(text, bs[0].0, bs[0].1), bs[1..])
  }

  /** The field the source reads for `{coupon_%}`. */
  const CouponPercentKeyAsWritten: string := "coupon_percentage"

  /** The field the content script writes the coupon percent under. */
  const CouponPercentKey: string := "coupon_percent"

  lemma TokensNonEmpty()
    ensures forall i :: 0 <= i < |Tokens| ==> |Tokens[i]| > 0
  {
  }

  /** `generatePreviewText` (lines 147-167) with `{coupon_%}` read from
      the field `key`: the loading message without data, else the nine
      replacements of the template in order. */
  function PreviewWith(key: string, productData: Option<Record>, templateContent: string,
                       templates: seq<Template>, selected: string, amzLink: Option<string>): (r: string)
    ensures productData.None? ==> r == NoDataMessage
  {
    if productData.None? then NoDataMessage
    else
      TokensNonEmpty();
      ReplaceEach(templateContent, Bindings(productData.value, key, TitleLimit(templates, selected), amzLink))
  }

  /** `generatePreviewText` as written, reading `coupon_percentage`. */
  function GeneratePreviewTextAsWritten(productData: Option<Record>, templateContent: string,
                                        templates: seq<Template>, selected: string, amzLink: Option<string>): (r: string)
    ensures productData.None? ==> r == NoDataMessage
  {
    PreviewWith(CouponPercentKeyAsWritten, productData, templateContent, templates, selected, amzLink)
  }

  /** `generatePreviewText` reading the field the content script writes. */
  function GeneratePreviewText(productData: Option<Record>, templateContent: string,
                               templates: seq<Template>, selected: string, amzLink: Option<string>): (r: string)
    ensures productData.None? ==> r == NoDataMessage
  {
    PreviewWith(CouponPercentKey, productData, templateContent, templates, selected, amzLink)
  }

  // ---- What the replacement chain does to a template ----

  /** `{`, a name without braces, `}`: the shape of every token. */
  predicate BracedWord(w: string) {
    |w| >= 2 && w[0] == '{' && w[|w| - 1] == '}'
    && forall k :: 0 < k < |w| - 1 ==> w[k] != '{' && w[k] != '}'
  }

  /** Bindings whose keys are braced words and whose values have no `{`. */
  predicate GoodBindings(bs: seq<(string, string)>) {
    forall i :: 0 <= i < |bs| ==> BracedWord(bs[i].0) && '{' !in bs[i].1
  }

  /** A piece of a template: text without `{`, or a braced word. */
  datatype Piece = Lit(text: string) | Braced(name: string)

  function PieceText(p: Piece): string {
    match p
    case Lit(t) => t
    case Braced(n) => "{" + n + "}"
  }

  function TemplateText(pieces: seq<Piece>): string {
    if pieces == [] then "" else PieceText(pieces[0]) + TemplateText(pieces[1..])
  }

  predicate WellFormed(pieces: seq<Piece>) {
    forall i :: 0 <= i < |pieces| ==>
      match pieces[i]
      case Lit(t) => '{' !in t
      case Braced(n) => '{' !in n && '}' !in n
  }

  /** The value of the first binding for the word, or the word itself. */
  function Resolve(w: string, bs: seq<(string, string)>): string {
    if bs == [] then w else if bs[0].0 == w then bs[0].1 else Resolve(w, bs[1..])
  }

  /** The template with each braced word resolved and the rest kept. */
  function Rendered(pieces: seq<Piece>, bs: seq<(string, string)>): string {
    if pieces == [] then ""
    else
      (match pieces[0]
       case Lit(t) => t
       case Braced(n) => Resolve("{" + n + "}", bs))
      + Rendered(pieces[1..], bs)
  }

  lemma GoodBindingsTail(bs: seq<(string, string)>)
    requires bs != [] && GoodBindings(bs)
    ensures GoodBindings(bs[1..])
  {
    assert forall i :: 1 <= i < |bs| ==> bs[1..][i - 1] == bs[i];
  }

  /** Text without `{` passes through the whole chain unchanged. */
  lemma {:induction false} ReplaceEachLit(s: string, b: string, bs: seq<(string, string)>)
    requires '{' !in s && GoodBindings(bs)
    ensures ReplaceEach(s + b, bs) == s + ReplaceEach(b, bs)
    decreases |bs|
  {
    if bs != [] {
      ReplaceAllSkips(s, b, bs[0].0, bs[0].1);
      GoodBindingsTail(bs);
      ReplaceEachLit(s, ReplaceAll(b, bs[0].0, bs[0].1), bs[1..]);
    }
  }

  /** A braced word contains no other braced word. */
  lemma NoOtherWordInside(w: string, b: string, pat: string, j: nat)
    requires BracedWord(w) && BracedWord(pat) && w != pat && j < |w|
    ensures !OccursAt(w + b, pat, j)
  {
    var s := w + b;
    if j + |pat| <= |s| {
      if j > 0 {
        assert s[j] == w[j] && w[j] != '{';
        assert s[j..j + |pat|][0] != pat[0];
      } else {
        var e := |pat| - 1;
        if e < |w| - 1 {
          assert s[e] == w[e] && w[e] != '}';
          assert s[..|pat|][e] != pat[e];
        } else if e > |w| - 1 {
          assert s[|w| - 1] == '}' && pat[|w| - 1] != '}';
          assert s[..|pat|][|w| - 1] != pat[|w| - 1];
        } else {
          assert s[..|pat|] == w;
        }
      }
    }
  }

  /** The empty text stays empty. */
  lemma {:induction false} ReplaceEachEmpty(bs: seq<(string, string)>)
    requires GoodBindings(bs)
    ensures ReplaceEach("", bs) == ""
    decreases |bs|
  {
    if bs != [] {
      GoodBindingsTail(bs);
      assert ReplaceAll("", bs[0].0, bs[0].1) == "";
      ReplaceEachEmpty(bs[1..]);
    }
  }

  /** A braced word at the front becomes its resolved value. */
  lemma {:induction false} ReplaceEachWord(w: string, b: string, bs: seq<(string, string)>)
    requires BracedWord(w) && GoodBindings(bs)
    ensures ReplaceEach(w + b, bs) == Resolve(w, bs) + ReplaceEach(b, bs)
    decreases |bs|
  {
    if bs != [] {
      var (pat, rep) := bs[0];
      GoodBindingsTail(bs);
      if pat == w {
        ReplaceAllAtStart(b, pat, rep);
        ReplaceEachLit(rep, ReplaceAll(b, pat, rep), bs[1..]);
      } else {
        forall j | 0 <= j < |w| ensures !OccursAt(w + b, pat, j) {
          NoOtherWordInside(w, b, pat, j);
        }
        ReplaceAllSkipsPrefix(w, b, pat, rep);
        ReplaceEachWord(w, ReplaceAll(b, pat, rep), bs[1..]);
      }
    }
  }

  lemma BracedPiece(n: string)
    requires '{' !in n && '}' !in n
    ensures BracedWord("{" + n + "}")
  {
    var w := "{" + n + "}";
    forall k | 0 < k < |w| - 1 ensures w[k] != '{' && w[k] != '}' {
      assert w[k] == n[k - 1];
      assert n[k - 1] in n;
    }
  }

  /** The chain fills a well-formed template: every braced word that is a
      key becomes its value, every other braced word is left as it is, and
      the text between them is kept. */
  lemma {:induction false} ReplaceEachTemplate(pieces: seq<Piece>, bs: seq<(string, string)>)
    requires WellFormed(pieces) && GoodBindings(bs)
    ensures ReplaceEach(TemplateText(pieces), bs) == Rendered(pieces, bs)
  {
    if pieces == [] {
      ReplaceEachEmpty(bs);
    } else {
      var rest := pieces[1..];
      assert WellFormed(rest) by {
        forall i | 0 <= i < |rest| ensures match rest[i]
          case Lit(t) => '{' !in t
          case Braced(n) => '{' !in n && '}' !in n
        {
          assert rest[i] == pieces[i + 1];
        }
      }
      ReplaceEachTemplate(rest, bs);
      match pieces[0]
      case Lit(t) =>
        assert '{' !in t by { assert pieces[0] == Lit(t); }
        ReplaceEachLit(t, TemplateText(rest), bs);
      case Braced(n) =>
        assert '{' !in n && '}' !in n by { assert pieces[0] == Braced(n); }
        BracedPiece(n);
        ReplaceEachWord("{" + n + "}", TemplateText(rest), bs);
    }
  }

  /** A record none of whose texts contains `{`. */
  predicate BraceFree(record: Record) {
    forall k :: k in record && record[k].Str? ==> '{' !in record[k].s
  }

  lemma TokensBraced()
    ensures forall i :: 0 <= i < |Tokens| ==> BracedWord(Tokens[i])
  {
    forall i | 0 <= i < |Tokens| ensures BracedWord(Tokens[i]) {
      var t := Tokens[i];
      assert t[0] == '{' && t[|t| - 1] == '}';
    }
  }

  lemma OrEmptyBraceFree(record: Record, key: string)
    requires BraceFree(record)
    ensures '{' !in OrEmpty(Get(record, key))
  {
    var v := Get(record, key);
    if v.Num? {
      assert forall c :: c in NumberToString(v.n) ==> c != '{';
    }
  }

  /** The preview's bindings are good when the record and the link are free of `{`. */
  lemma BindingsGood(record: Record, key: string, titleLimit: Option<int>, amzLink: Option<string>)
    requires BraceFree(record)
    requires amzLink.Some? ==> '{' !in amzLink.value
    ensures GoodBindings(Bindings(record, key, titleLimit, amzLink))
  {
    var bs := Bindings(record, key, titleLimit, amzLink);
    TokensBraced();
    var name := ProductName(Get(record, "product_name"));
    assert '{' !in bs[0].1 by {
      var r := ShortenProductName(name, titleLimit);
      if name.Some? {
        assert forall j :: 0 <= j < |r| ==> r[j] == name.value[j];
      }
    }
    OrEmptyBraceFree(record, "current_price");
    OrEmptyBraceFree(record, "list_price");
    OrEmptyBraceFree(record, "percent_off_list_price");
    OrEmptyBraceFree(record, "coupon_amount");
    OrEmptyBraceFree(record, key);
    OrEmptyBraceFree(record, "promo_code");
    OrEmptyBraceFree(record, "promo_code_percent_off");
  }

  lemma TokensDistinct()
    ensures forall i, j :: 0 <= i < j < |Tokens| ==> Tokens[i] != Tokens[j]
  {
  }

  /** Each of the nine tokens resolves to its own value. */
  lemma {:induction false} ResolveToken(bs: seq<(string, string)>, i: nat)
    requires i < |bs| && forall j, k :: 0 <= j < k < |bs| ==> bs[j].0 != bs[k].0
    ensures Resolve(bs[i].0, bs) == bs[i].1
  {
    if i > 0 {
      assert bs[0].0 != bs[i].0;
      assert forall j, k :: 0 <= j < k < |bs[1..]| ==> bs[1..][j].0 != bs[1..][k].0 by {
        assert forall j :: 0 <= j < |bs[1..]| ==> bs[1..][j] == bs[j + 1];
      }
      assert bs[1..][i - 1] == bs[i];
      ResolveToken(bs[1..], i - 1);
    }
  }

  /** A word that is no key is left as it is. */
  lemma {:induction false} ResolveUnknown(w: string, bs: seq<(string, string)>)
    requires forall i :: 0 <= i < |bs| ==> bs[i].0 != w
    ensures Resolve(w, bs) == w
  {
    if bs != [] {
      assert forall i :: 0 <= i < |bs[1..]| ==> bs[1..][i] == bs[i + 1];
      ResolveUnknown(w, bs[1..]);
    }
  }

  /** The preview of a well-formed template is the template with its braced
      words resolved. */
  lemma PreviewIsRendered(record: Record, key: string, pieces: seq<Piece>, templates: seq<Template>, selected: string, amzLink: Option<string>)
    requires WellFormed(pieces) && BraceFree(record)
    requires amzLink.Some? ==> '{' !in amzLink.value
    ensures PreviewWith(key, Some(record), TemplateText(pieces), templates, selected, amzLink)
         == Rendered(pieces, Bindings(record, key, TitleLimit(templates, selected), amzLink))
  {
    var bs := Bindings(record, key, TitleLimit(templates, selected), amzLink);
    BindingsGood(record, key, TitleLimit(templates, selected), amzLink);
    ReplaceEachTemplate(pieces, bs);
  }

  /** The preview of a well-formed template: token `Tokens[i]` is replaced,
      wherever it occurs, by the `i`-th value; any other braced word, such as
      `{final_price}` or `{rating}`, is kept. This holds for the chain as
      written and for the corrected one alike. */
  lemma PreviewFillsTemplate(record: Record, key: string, pieces: seq<Piece>, templates: seq<Template>, selected: string, amzLink: Option<string>)
    requires WellFormed(pieces) && BraceFree(record)
    requires amzLink.Some? ==> '{' !in amzLink.value
    ensures var bs := Bindings(record, key, TitleLimit(templates, selected), amzLink);
      PreviewWith(key, Some(record), TemplateText(pieces), templates, selected, amzLink) == Rendered(pieces, bs)
      && (forall i :: 0 <= i < |Tokens| ==> Resolve(Tokens[i], bs) == bs[i].1)
      && (forall w :: w !in Tokens ==> Resolve(w, bs) == w)
  {
    var bs := Bindings(record, key, TitleLimit(templates, selected), amzLink);
    PreviewIsRendered(record, key, pieces, templates, selected, amzLink);
    TokensDistinct();
    forall i | 0 <= i < |Tokens| ensures Resolve(Tokens[i], bs) == bs[i].1 {
      ResolveToken(bs, i);
    }
    forall w | w !in Tokens ensures Resolve(w, bs) == w {
      ResolveUnknown(w, bs);
    }
  }

  /** `{product_name}` becomes the name shortened to the selected template's
      word limit, and `{amz_link}` the affiliate link, or "" without one. */
  lemma ProductNameToken(record: Record, key: string, templates: seq<Template>, selected: string, amzLink: Option<string>)
    ensures var bs := Bindings(record, key, TitleLimit(templates, selected), amzLink);
      Resolve("{product_name}", bs) == ShortenProductName(ProductName(Get(record, "product_name")), TitleLimit(templates, selected))
      && Resolve("{amz_link}", bs) == (if amzLink.Some? then amzLink.value else "")
  {
    var bs := Bindings(record, key, TitleLimit(templates, selected), amzLink);
    TokensDistinct();
    ResolveToken(bs, 0);
    ResolveToken(bs, 8);
  }

  /** The two coupon tokens resolve to the coupon amount and to the field
      `key`, each as text, or "" when falsy. */
  lemma ResolveCoupons(record: Record, key: string, titleLimit: Option<int>, amzLink: Option<string>)
    ensures var bs := Bindings(record, key, titleLimit, amzLink);
      Resolve("{coupon_$}", bs) == OrEmpty(Get(record, "coupon_amount"))
      && Resolve("{coupon_%}", bs) == OrEmpty(Get(record, key))
  {
    var bs := Bindings(record, key, titleLimit, amzLink);
    TokensDistinct();
    ResolveToken(bs, 4);
    ResolveToken(bs, 5);
  }

  /** A template of one braced word between two texts. */
  lemma OneWordTemplate(before: string, name: string, after: string, bs: seq<(string, string)>)
    requires '{' !in before && '{' !in name && '}' !in name && '{' !in after
    ensures var pieces := [Lit(before), Braced(name), Lit(after)];
      WellFormed(pieces)
      && TemplateText(pieces) == before + ("{" + name + "}") + after
      && Rendered(pieces, bs) == before + Resolve("{" + name + "}", bs) + after
  {
    var pieces := [Lit(before), Braced(name), Lit(after)];
    assert pieces[1..][1..] == [Lit(after)] && pieces[1..][1..][1..] == [];
    assert TemplateText(pieces[1..][1..]) == after;
    assert Rendered(pieces[1..][1..], bs) == after;
  }

  lemma FiveText()
    ensures NumberToString(Finite(5.0)) == "5"
  {
    NumberToStringOfNat(5);
    assert NatToString(5) == "5";
  }

  /** The preview of a template with one braced word between two texts. */
  lemma PreviewOfOneWord(record: Record, key: string, before: string, name: string, after: string,
                         templates: seq<Template>, selected: string, amzLink: Option<string>)
    requires BraceFree(record) && (amzLink.Some? ==> '{' !in amzLink.value)
    requires '{' !in before && '{' !in name && '}' !in name && '{' !in after
    ensures PreviewWith(key, Some(record), before + ("{" + name + "}") + after, templates, selected, amzLink)
         == before + Resolve("{" + name + "}", Bindings(record, key, TitleLimit(templates, selected), amzLink)) + after
  {
    var pieces := [Lit(before), Braced(name), Lit(after)];
    OneWordTemplate(before, name, after, Bindings(record, key, TitleLimit(templates, selected), amzLink));
    PreviewIsRendered(record, key, pieces, templates, selected, amzLink);
  }

  /** `{coupon_%}` in a template: the chain as written shows the
      `coupon_percentage` field, which the content script never sets; the
      corrected chain shows `coupon_percent`. */
  lemma CouponPercentPreview(record: Record, before: string, after: string, templates: seq<Template>, selected: string)
    requires BraceFree(record)
    requires '{' !in before && '{' !in after
    ensures GeneratePreviewTextAsWritten(Some(record), before + "{coupon_%}" + after, templates, selected, None)
         == before + OrEmpty(Get(record, CouponPercentKeyAsWritten)) + after
    ensures GeneratePreviewText(Some(record), before + "{coupon_%}" + after, templates, selected, None)
         == before + OrEmpty(Get(record, CouponPercentKey)) + after
  {
    assert "{" + "coupon_%" + "}" == "{coupon_%}";
    PreviewOfOneWord(record, CouponPercentKeyAsWritten, before, "coupon_%", after, templates, selected, None);
    PreviewOfOneWord(record, CouponPercentKey, before, "coupon_%", after, templates, selected, None);
    ResolveCoupons(record, CouponPercentKeyAsWritten, TitleLimit(templates, selected), None);
    ResolveCoupons(record, CouponPercentKey, TitleLimit(templates, selected), None);
  }

  /** `{coupon_\x24}` is `{coupon_$}`: with a $5 coupon, a template such as
      "Save {coupon_$} now" reads "Save 5 now". */
  lemma CouponDollarExample(record: Record, before: string, after: string, templates: seq<Template>, selected: string)
    requires BraceFree(record) && Get(record, "coupon_amount") == Num(Finite(5.0))
    requires '{' !in before && '{' !in after
    ensures GeneratePreviewText(Some(record), before + "{coupon_$}" + after, templates, selected, None)
         == before + "5" + after
  {
    PreviewOfOneWord(record, CouponPercentKey, before, "coupon_$", after, templates, selected, None);
    assert "{" + "coupon_$" + "}" == "{coupon_$}";
    CouponAmountFive(record, TitleLimit(templates, selected));
  }

  lemma CouponAmountFive(record: Record, titleLimit: Option<int>)
    requires Get(record, "coupon_amount") == Num(Finite(5.0))
    ensures Resolve("{coupon_$}", Bindings(record, CouponPercentKey, titleLimit, None)) == "5"
  {
    ResolveCoupons(record, CouponPercentKey, titleLimit, None);
    FiveText();
  }

  // ---- The coupon-percent field ----

  /** Records from the content script have no `coupon_percentage` field, so
      as written `{coupon_%}` always becomes "". */
  lemma CouponPercentLostAsWritten(p: Renderer.ProductData, templates: seq<Template>, selected: string, amzLink: Option<string>)
    ensures var bs := Bindings(Renderer.ToRecord(p), CouponPercentKeyAsWritten, TitleLimit(templates, selected), amzLink);
      Resolve("{coupon_%}", bs) == ""
  {
    ResolveCoupons(Renderer.ToRecord(p), CouponPercentKeyAsWritten, TitleLimit(templates, selected), amzLink);
    Renderer.ToRecordCouponPercent(p);
  }

  /** Reading `coupon_percent`, `{coupon_%}` becomes the coupon percent,
      when it is not zero. */
  lemma CouponPercentFilled(p: Renderer.ProductData, templates: seq<Template>, selected: string, amzLink: Option<string>)
    requires p.couponPercent.Finite? && p.couponPercent.value != 0.0
    ensures var bs := Bindings(Renderer.ToRecord(p), CouponPercentKey, TitleLimit(templates, selected), amzLink);
      Resolve("{coupon_%}", bs) == NumberToString(p.couponPercent)
  {
    ResolveCoupons(Renderer.ToRecord(p), CouponPercentKey, TitleLimit(templates, selected), amzLink);
    Renderer.ToRecordCouponPercent(p);
  }

  lemma FifteenText()
    ensures NumberToString(Finite(15.0)) == "15"
  {
    NumberToStringOfNat(15);
    assert NatToString(15) == "15" by {
      assert NatToString(1) == "1";
    }
  }

  /** So a 15% coupon shows as "" as written, and as "15" when the field the
      content script writes is read. */
  lemma CouponPercentExample(p: Renderer.ProductData, templates: seq<Template>, selected: string)
    requires p.couponPercent == Finite(15.0)
    ensures var record := Renderer.ToRecord(p);
      Resolve("{coupon_%}", Bindings(record, CouponPercentKeyAsWritten, TitleLimit(templates, selected), None)) == ""
      && Resolve("{coupon_%}", Bindings(record, CouponPercentKey, TitleLimit(templates, selected), None)) == "15"
  {
    CouponPercentLostAsWritten(p, templates, selected, None);
    CouponPercentFilled(p, templates, selected, None);
    FifteenText();
  }

  // ---- The panel's state ----

  class SidePanelState {
    var templates: seq<Template>
    var selectedTemplate: string
    var productData: Option<Record>
    var previewText: string

    constructor()
      ensures templates == [] && selectedTemplate == "" && productData.None? && previewText == ""
    {
      templates := [];
      selectedTemplate := "";
      productData := None;
      previewText := "";
    }

    /** `fetchTemplates` (lines 44-54) with the stored list already parsed;
        `None` when nothing is stored. The first template becomes the
        selection. */
    method FetchTemplates(stored: Option<seq<Template>>)
      modifies this
      ensures stored.None? ==> templates == old(templates) && selectedTemplate == old(selectedTemplate)
      ensures stored.Some? ==> templates == stored.value
      ensures stored.Some? && |stored.value| > 0 ==> selectedTemplate == stored.value[0].id
      ensures stored.Some? && |stored.value| == 0 ==> selectedTemplate == old(selectedTemplate)
      ensures productData == old(productData) && previewText == old(previewText)
    {
      if stored.Some? {
        templates := stored.value;
        if |stored.value| > 0 {
          selectedTemplate := stored.value[0].id;
        }
      }
    }

    /** `handleTemplateChange` (lines 56-62): the new selection is taken as
        it is, whether or not a template has that id. */
    method HandleTemplateChange(value: string)
      modifies this
      ensures selectedTemplate == value
      ensures templates == old(templates) && productData == old(productData) && previewText == old(previewText)
    {
      selectedTemplate := value;
    }

    /** `handleProductDataUpdate` (lines 95-96). */
    method HandleProductDataUpdate(action: string, data: Option<Record>)
      modifies this
      ensures productData == if action == "UPDATE_PRODUCT_DATA" then data else old(productData)
      ensures templates == old(templates) && selectedTemplate == old(selectedTemplate) && previewText == old(previewText)
    {
      if action == "UPDATE_PRODUCT_DATA" {
        productData := data;
      }
    }

    /** The preview effect (lines 138-145): with at least one template, the
        preview is recomputed from the selected template's content. */
    method RefreshPreview(amzLink: Option<string>)
      modifies this
      ensures |templates| > 0 ==>
        (previewText == GeneratePreviewText(productData, SelectedContent(templates, selectedTemplate), templates, selectedTemplate, amzLink))
      ensures |templates| == 0 ==> previewText == old(previewText)
      ensures templates == old(templates) && selectedTemplate == old(selectedTemplate) && productData == old(productData)
    {
      if |templates| > 0 {
        var content := SelectedContent(templates, selectedTemplate);
        previewText := GeneratePreviewText(productData, content, templates, selectedTemplate, amzLink);
      }
    }
  }
}
