/** The helpers and the record of `Code/Scraper.py`, the earlier version that
    scrapes a single product page. Its two price helpers are the same code as
    in `Code/Scraper3.py`, and its description helper behaves the same (it
    tests `p is None` where the later one tests `p`, and a found element is
    always true); they are the functions of that model. The helpers below
    are the ones whose behaviour differs. */
module Scraper {
  import opened Wrappers
  import opened Text
  import opened Numbers
  import opened PageView
  import Scraper3

  /** `title(soup)`: the heading text as it is, surrounding whitespace
      included. */
  function Title(page: ProductPage): (r: Result<string, Error>)
    ensures r.Ok? <==> page.heading.Some?
    ensures r.Ok? ==> r.value == page.heading.value
    ensures r.Err? ==> r.error == MissingElement("h1")
  {
    match page.heading
    case None => Err(MissingElement("h1"))
    case Some(text) => Ok(text)
  }

  /** `universal_product_code(soup)`: the cell text as it is. */
  function UniversalProductCode(page: ProductPage): (r: Result<string, Error>)
    ensures r.Ok? <==> page.upcCell.Some?
    ensures r.Ok? ==> r.value == page.upcCell.value
    ensures r.Err? ==> r.error == MissingElement("UPC")
  {
    match page.upcCell
    case None => Err(MissingElement("UPC"))
    case Some(text) => Ok(text)
  }

  /** The later version returns the same title and code with the
      surrounding whitespace removed, and fails on the same pages. */
  lemma TrimmedInLaterVersion(page: ProductPage)
    ensures Scraper3.Title(page).Ok? <==> Title(page).Ok?
    ensures Title(page).Ok? ==> Scraper3.Title(page).value == Strip(Title(page).value)
    ensures Scraper3.UniversalProductCode(page).Ok? <==> UniversalProductCode(page).Ok?
    ensures UniversalProductCode(page).Ok? ==>
      Scraper3.UniversalProductCode(page).value == Strip(UniversalProductCode(page).value)
  {
  }

  /** A heading that starts with whitespace is returned differently by the
      two versions. */
  lemma TitleKeepsWhitespace(page: ProductPage)
    requires page.heading.Some? && page.heading.value != [] && IsSpace(page.heading.value[0])
    ensures Title(page).value != Scraper3.Title(page).value
  {
    var t := Scraper3.Title(page).value;
    assert Trimmed(t);
    assert t == [] || !IsSpace(t[0]);
  }

  /** `number_available(soup)`: the value of the first run of digits of the
      trimmed cell; text without a digit makes `match.group()` fail. */
  function NumberAvailable(page: ProductPage): (r: Result<nat, Error>)
    ensures page.availabilityCell.None? ==> r == Err(MissingElement("Availability"))
    ensures page.availabilityCell.Some? ==>
      var t := Strip(page.availabilityCell.value);
      && (r.Ok? <==> HasDigit(t))
      && (!HasDigit(t) ==> r == Err(NoMatch(t)))
      && (forall i: nat, j: nat | IsFirstDigitRun(t, i, j) :: r == Ok(DigitsValue(t[i..j])))
  {
    match page.availabilityCell
    case None => Err(MissingElement("Availability"))
    case Some(text) =>
      var t := Strip(text);
      match FirstDigitRun(t)
      case None => Err(NoMatch(t))
      case Some((i, j)) =>
        assert forall i': nat, j': nat | IsFirstDigitRun(t, i', j') :: i' == i && j' == j by {
          forall i': nat, j': nat | IsFirstDigitRun(t, i', j') ensures i' == i && j' == j {
            FirstDigitRunUnique(t, i', j');
          }
        }
        Ok(DigitsValue(t[i..j]))
  }

  /** The two versions count the same stock whenever the cell holds a digit;
      on a cell without one the later version writes 0 where this one fails. */
  lemma NumberAvailableAgrees(page: ProductPage)
    requires page.availabilityCell.Some?
    ensures HasDigit(Strip(page.availabilityCell.value)) ==>
      NumberAvailable(page) == Scraper3.NumberAvailable(page)
    ensures !HasDigit(Strip(page.availabilityCell.value)) ==>
      NumberAvailable(page).Err? && Scraper3.NumberAvailable(page) == Ok(0)
  {
    var t := Strip(page.availabilityCell.value);
    var run := FirstDigitRun(t);
    if run.Some? {
      assert IsFirstDigitRun(t, run.value.0, run.value.1);
    }
  }

  /** `category(soup)`: the trimmed text of the last breadcrumb link. */
  function Category(page: ProductPage): (r: Result<string, Error>)
    ensures r.Ok? <==> page.breadcrumb.Some? && page.breadcrumb.value != []
    ensures r.Ok? ==> r.value == Strip(page.breadcrumb.value[|page.breadcrumb.value| - 1])
    ensures page.breadcrumb.None? ==> r == Err(MissingElement("ul.breadcrumb"))
    ensures page.breadcrumb == Some([]) ==> r == Err(IndexOutOfRange(-1, 0))
  {
    match page.breadcrumb
    case None => Err(MissingElement("ul.breadcrumb"))
    case Some(links) =>
      if links == [] then Err(IndexOutOfRange(-1, 0)) else Ok(Strip(links[|links| - 1]))
  }

  /** With the three links the site's breadcrumb has (Home, Books, the
      category) the last link is the third, and the versions agree. */
  lemma CategoryAgreesOnThreeLinks(page: ProductPage)
    requires page.breadcrumb.Some? && |page.breadcrumb.value| == 3
    ensures Category(page) == Scraper3.CategoryName(page)
  {
  }

  /** With a fourth link the versions name different links: the earlier one
      the last, the later one the third. */
  lemma CategoryDiffersOnFourLinks(page: ProductPage)
    requires page.breadcrumb.Some? && |page.breadcrumb.value| == 4
    ensures Category(page) == Ok(Strip(page.breadcrumb.value[3]))
    ensures Scraper3.CategoryName(page) == Ok(Strip(page.breadcrumb.value[2]))
  {
  }

  /** The two category lookups compared on any breadcrumb: with no link
      both fail; with one or two only the later version fails; with three
      or more they agree exactly when the last and the third link have the
      same trimmed text. */
  lemma CategoryVersionsCompared(page: ProductPage)
    requires page.breadcrumb.Some?
    ensures var links := page.breadcrumb.value;
      && (links == [] ==> Category(page).Err? && Scraper3.CategoryName(page).Err?)
      && (0 < |links| < 3 ==> Category(page).Ok? && Scraper3.CategoryName(page).Err?)
      && (|links| >= 3 ==>
            (Category(page) == Scraper3.CategoryName(page) <==> Strip(links[|links| - 1]) == Strip(links[2])))
  {
  }

  /** The text `f"{k}/5"` for a star count of one to five. */
  function StarText(count: nat): (r: string)
    requires 1 <= count <= 5
    ensures |r| == 3 && IsDigit(r[0]) && r[1..] == "/5"
    ensures DigitsValue(r[..1]) == count
  {
    [('0' as int + count) as char] + "/5"
  }

  /** `review_rating(soup)`: the text `k/5` for the first recognised class
      token, nothing (`None`) when no token is recognised; a page without
      the rating element makes `.get` fail. */
  function ReviewRating(page: ProductPage): (r: Result<Option<string>, Error>)
    ensures page.starRating.None? ==> r == Err(MissingElement("p.star-rating"))
    ensures page.starRating.Some? ==>
      var tokens := page.starRating.value;
      && r.Ok?
      && (r.value.Some? <==> exists k | 0 <= k < |tokens| :: tokens[k] in Scraper3.StarWords)
  {
    match page.starRating
    case None => Err(MissingElement("p.star-rating"))
    case Some(tokens) =>
      match Scraper3.FirstStarToken(tokens)
      case None => Ok(None)
      case Some(i) =>
        Scraper3.StarWordsRange(tokens[i]);
        Ok(Some(StarText(Scraper3.StarWords[tokens[i]])))
  }

  /** Where both versions read a rating they read the same one: `k` stars
      in the later version is the text `k/5` here, and an unrecognised
      rating is the empty text there and `None` here. */
  lemma RatingsAgree(page: ProductPage)
    requires page.starRating.Some?
    ensures forall k | 1 <= k <= 5 ::
      Scraper3.ReviewRating(page) == Scraper3.Stars(k) <==> ReviewRating(page) == Ok(Some(StarText(k)))
    ensures Scraper3.ReviewRating(page) == Scraper3.Blank <==> ReviewRating(page) == Ok(None)
  {
    forall k | 1 <= k <= 5
      ensures Scraper3.ReviewRating(page) == Scraper3.Stars(k) <==> ReviewRating(page) == Ok(Some(StarText(k)))
    {
      var r := ReviewRating(page);
      if r.value.Some? {
        StarTextInjective(k, DigitsValue(r.value.value[..1]));
      }
    }
  }

  /** Different counts give different texts. */
  lemma StarTextInjective(a: nat, b: nat)
    requires 1 <= a <= 5 && 1 <= b <= 5
    ensures StarText(a) == StarText(b) <==> a == b
  {
    if StarText(a) == StarText(b) {
      assert StarText(a)[0] == StarText(b)[0];
    }
  }

  /** `image_url(soup, base_url)`: the `src` of the image in the first `div`
      whose class attribute is exactly `item active`, resolved against the
      page address; a missing item or image is an error. */
  function ImageUrl(page: ProductPage, baseUrl: string, resolve: Resolver): (r: Result<string, Error>)
    ensures r.Ok? <==> page.exactActiveItem.Some? && page.exactActiveItem.value.Some?
    ensures r.Ok? ==> r.value == resolve(baseUrl, page.exactActiveItem.value.value)
    ensures page.exactActiveItem.None? ==> r == Err(MissingElement("div.item active"))
    ensures page.exactActiveItem == Some(None) ==> r == Err(MissingElement("img"))
  {
    match page.exactActiveItem
    case None => Err(MissingElement("div.item active"))
    case Some(None) => Err(MissingElement("img"))
    case Some(Some(src)) => Ok(resolve(baseUrl, src))
  }

  /** The two versions look for the gallery image differently. A `div` with
      classes beyond `item active` is found only by the later version's CSS
      selector, so on a page where the exact-class query finds nothing this
      version fails while the later one reads an image; and when the two
      queries reach different images, the versions report different
      addresses. */
  lemma ImageQueriesDiffer(url: string, page: ProductPage, resolve: Resolver)
    ensures page.exactActiveItem.None? && page.gallery.Some? && page.gallery.value.Some? ==>
      && ImageUrl(page, url, resolve).Err?
      && Scraper3.ImageUrl(page, url, resolve) == resolve(url, page.gallery.value.value)
    ensures (page.exactActiveItem.Some? && page.exactActiveItem.value.Some?
        && page.gallery.Some? && page.gallery.value.Some?
        && resolve(url, page.gallery.value.value) != resolve(url, page.exactActiveItem.value.value))
      ==> ImageUrl(page, url, resolve).Ok? && ImageUrl(page, url, resolve).value != Scraper3.ImageUrl(page, url, resolve)
  {
  }

  /** The `product_data` dictionary, field by field in key order. */
  datatype ProductData = ProductData(
    productPageUrl: string,
    universalProductCode: string,
    title: string,
    priceIncludingTax: Decimal,
    priceExcludingTax: Decimal,
    numberAvailable: nat,
    productDescription: string,
    category: string,
    reviewRating: Option<string>,
    imageUrl: string
  )

  /** The `product_data` dictionary for the page fetched from `url`. Its
      values are computed in key order, so the first helper in that order
      that fails decides the error; unlike the later version the category
      comes after the numbers. */
  function ProductDataOf(url: string, page: ProductPage, resolve: Resolver): (r: Result<ProductData, Error>)
    ensures r.Ok? <==>
      && UniversalProductCode(page).Ok? && Title(page).Ok?
      && Scraper3.PriceIncludingTax(page).Ok? && Scraper3.PriceExcludingTax(page).Ok?
      && NumberAvailable(page).Ok? && Category(page).Ok? && ReviewRating(page).Ok?
      && ImageUrl(page, url, resolve).Ok?
    ensures UniversalProductCode(page).Err? ==> r == Err(UniversalProductCode(page).error)
    ensures (UniversalProductCode(page).Ok? && Title(page).Err?)
      ==> r == Err(Title(page).error)
    ensures (UniversalProductCode(page).Ok? && Title(page).Ok? && Scraper3.PriceIncludingTax(page).Err?)
      ==> r == Err(Scraper3.PriceIncludingTax(page).error)
    ensures (UniversalProductCode(page).Ok? && Title(page).Ok? && Scraper3.PriceIncludingTax(page).Ok?
        && Scraper3.PriceExcludingTax(page).Err?)
      ==> r == Err(Scraper3.PriceExcludingTax(page).error)
    ensures (UniversalProductCode(page).Ok? && Title(page).Ok? && Scraper3.PriceIncludingTax(page).Ok?
        && Scraper3.PriceExcludingTax(page).Ok? && NumberAvailable(page).Err?)
      ==> r == Err(NumberAvailable(page).error)
    ensures (UniversalProductCode(page).Ok? && Title(page).Ok? && Scraper3.PriceIncludingTax(page).Ok?
        && Scraper3.PriceExcludingTax(page).Ok? && NumberAvailable(page).Ok? && Category(page).Err?)
      ==> r == Err(Category(page).error)
    ensures (UniversalProductCode(page).Ok? && Title(page).Ok? && Scraper3.PriceIncludingTax(page).Ok?
        && Scraper3.PriceExcludingTax(page).Ok? && NumberAvailable(page).Ok? && Category(page).Ok?
        && ReviewRating(page).Err?)
      ==> r == Err(ReviewRating(page).error)
    ensures (UniversalProductCode(page).Ok? && Title(page).Ok? && Scraper3.PriceIncludingTax(page).Ok?
        && Scraper3.PriceExcludingTax(page).Ok? && NumberAvailable(page).Ok? && Category(page).Ok?
        && ReviewRating(page).Ok? && ImageUrl(page, url, resolve).Err?)
      ==> r == Err(ImageUrl(page, url, resolve).error)
    ensures r.Ok? ==> r.value == ProductData(
      url,
      UniversalProductCode(page).value,
      Title(page).value,
      Scraper3.PriceIncludingTax(page).value,
      Scraper3.PriceExcludingTax(page).value,
      NumberAvailable(page).value,
      Scraper3.ProductDescription(page),
      Category(page).value,
      ReviewRating(page).value,
      ImageUrl(page, url, resolve).value)
  {
    var upc :- UniversalProductCode(page);
    var title :- Title(page);
    var incl :- Scraper3.PriceIncludingTax(page);
    var excl :- Scraper3.PriceExcludingTax(page);
    var count :- NumberAvailable(page);
    var description := Scraper3.ProductDescription(page);
    var category :- Category(page);
    var rating :- ReviewRating(page);
    var image :- ImageUrl(page, url, resolve);
    Ok(ProductData(url, upc, title, incl, excl, count, description, category, rating, image))
  }

  /** The two versions report different errors for a page that lacks both
      the breadcrumb and the UPC cell: the later one reads the category
      first. */
  lemma ErrorOrderDiffers(url: string, page: ProductPage, resolve: Resolver)
    requires page.breadcrumb.None? && page.upcCell.None?
    ensures ProductDataOf(url, page, resolve) == Err(MissingElement("UPC"))
    ensures Scraper3.ScrapeProduct(url, Some(page), resolve) == Err(MissingElement("ul.breadcrumb"))
  {
  }

  /** On a page both versions can read, with the site's three-link
      breadcrumb and a gallery both image queries find alike, their records
      agree field by field except for the whitespace the later version trims
      and the rating, which the two write differently. */
  lemma RecordsAgree(url: string, page: ProductPage, resolve: Resolver)
    requires ProductDataOf(url, page, resolve).Ok?
    requires Scraper3.ScrapeProduct(url, Some(page), resolve).Ok?
    requires |page.breadcrumb.value| == 3
    requires page.exactActiveItem == page.gallery
    ensures var earlier, later := ProductDataOf(url, page, resolve).value, Scraper3.ScrapeProduct(url, Some(page), resolve).value;
      && later.productPageUrl == earlier.productPageUrl
      && later.title == Strip(earlier.title)
      && later.universalProductCode == Strip(earlier.universalProductCode)
      && later.priceIncludingTax == earlier.priceIncludingTax
      && later.priceExcludingTax == earlier.priceExcludingTax
      && later.numberAvailable == earlier.numberAvailable
      && later.productDescription == earlier.productDescription
      && later.category == earlier.category
      && later.imageUrl == earlier.imageUrl
  {
    TrimmedInLaterVersion(page);
    CategoryAgreesOnThreeLinks(page);
    NumberAvailableAgrees(page);
  }
}
