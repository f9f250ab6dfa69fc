/** The product-page helpers, the record and the file naming of
    `Code/Scraper3.py`, the version that crawls every category. */
module Scraper3 {
  import opened Wrappers
  import opened Text
  import opened Numbers
  import opened PageView

  /** The address of the home page; category links are resolved against it. */
  const BaseUrl: string := "https://books.toscrape.com/"

  // ---------------------------------------------------------------------
  // safe_filename
  // ---------------------------------------------------------------------

  /** The characters `[a-z0-9_\-]` that survive the second substitution. */
  predicate IsFilenameChar(c: char) {
    IsLower(c) || IsDigit(c) || c == '_' || c == '-'
  }

  /** `re.sub(r"\s+", "_", s)`: every maximal run of whitespace becomes a
      single underscore. */
  function CollapseSpaces(s: string): (r: string)
    ensures NoSpace(r)
    decreases |s|
  {
    if s == [] then []
    else if IsSpace(s[0]) then "_" + CollapseSpaces(s[LeadingSpaces(s)..])
    else [s[0]] + CollapseSpaces(s[1..])
  }

  /** The text that survives both substitutions of `safe_filename`. */
  function Slug(name: string): (r: string)
    ensures forall k | 0 <= k < |r| :: IsFilenameChar(r[k])
  {
    Filter(IsFilenameChar, CollapseSpaces(Lower(Strip(name))))
  }

  /** `safe_filename(name)`: the cleaned name, or `"categorie"` when nothing
      survives the cleaning. */
  function SafeFilename(name: string): (r: string)
    ensures r != []
    ensures forall k | 0 <= k < |r| :: IsFilenameChar(r[k])
  {
    var slug := Slug(name);
    if slug == [] then "categorie" else slug
  }

  /** Text without whitespace is left alone by the first substitution. */
  lemma {:induction false} CollapseNoSpace(s: string)
    requires NoSpace(s)
    ensures CollapseSpaces(s) == s
    decreases |s|
  {
    if s != [] {
      CollapseNoSpace(s[1..]);
    }
  }

  /** The substitution works piecewise when the cut does not fall inside a
      run of whitespace. */
  lemma {:induction false} CollapseAppend(a: string, b: string)
    requires a == [] || !IsSpace(a[|a| - 1])
    ensures CollapseSpaces(a + b) == CollapseSpaces(a) + CollapseSpaces(b)
    decreases |a|
  {
    if a == [] {
      assert a + b == b;
    } else if !IsSpace(a[0]) {
      assert (a + b)[0] == a[0];
      assert (a + b)[1..] == a[1..] + b;
      CollapseAppend(a[1..], b);
    } else {
      var n := LeadingSpaces(a);
      CollapseSpaceStep(a, b);
      CollapseAppend(a[n..], b);
    }
  }

  /** A text starting with whitespace and ending without it: its leading run
      becomes one underscore whatever follows it. */
  lemma CollapseSpaceStep(a: string, b: string)
    requires a != [] && IsSpace(a[0]) && !IsSpace(a[|a| - 1])
    ensures var n := LeadingSpaces(a);
      && n < |a| && !IsSpace(a[n..][|a[n..]| - 1])
      && CollapseSpaces(a + b) == "_" + CollapseSpaces(a[n..] + b)
  {
    var n := LeadingSpaces(a);
    assert n < |a|;
    assert a[n..][|a[n..]| - 1] == a[|a| - 1];
    assert forall k | 0 <= k < |a| :: (a + b)[k] == a[k];
    LeadingSpacesIs(a + b, n);
    assert (a + b)[n..] == a[n..] + b;
  }

  /** A whole run of whitespace in front of a non-space character becomes
      one underscore. */
  lemma CollapseRun(w: string, b: string)
    requires w != [] && AllSpaces(w)
    requires b == [] || !IsSpace(b[0])
    ensures CollapseSpaces(w + b) == "_" + CollapseSpaces(b)
  {
    LeadingSpacesIs(w + b, |w|);
    assert (w + b)[|w|..] == b;
  }

  /** Each maximal run of whitespace, wherever it sits, becomes one
      underscore, and the text around it is substituted on its own. */
  lemma CollapseSpacesRun(a: string, w: string, b: string)
    requires a == [] || !IsSpace(a[|a| - 1])
    requires w != [] && AllSpaces(w)
    requires b == [] || !IsSpace(b[0])
    ensures CollapseSpaces(a + w + b) == CollapseSpaces(a) + "_" + CollapseSpaces(b)
  {
    Assoc(a, w, b);
    CollapseAppend(a, w + b);
    CollapseRun(w, b);
    Assoc(CollapseSpaces(a), "_", CollapseSpaces(b));
  }

  /** Nothing survives the first substitution and the filter exactly when
      the text has no whitespace and no allowed character. */
  lemma {:induction false} CollapseFilterEmpty(x: string)
    ensures Filter(IsFilenameChar, CollapseSpaces(x)) == []
      <==> forall k | 0 <= k < |x| :: !IsSpace(x[k]) && !IsFilenameChar(x[k])
    decreases |x|
  {
    if x == [] {
    } else if IsSpace(x[0]) {
      var rest := CollapseSpaces(x[LeadingSpaces(x)..]);
      FilterAppend(IsFilenameChar, "_", rest);
      FilterSingle(IsFilenameChar, '_');
    } else {
      CollapseFilterEmpty(x[1..]);
      FilterAppend(IsFilenameChar, [x[0]], CollapseSpaces(x[1..]));
      FilterSingle(IsFilenameChar, x[0]);
      assert forall k | 1 <= k < |x| :: x[k] == x[1..][k - 1];
    }
  }

  /** Lower-casing neither creates nor removes whitespace. */
  lemma LowerSpaces(c: char)
    ensures IsSpace(LowerChar(c)) == IsSpace(c)
  {
  }

  /** `safe_filename` falls back to `"categorie"` exactly when no character
      of the trimmed name is whitespace or lower-cases to an allowed
      character; otherwise it returns the surviving text. */
  lemma SafeFilenameFallback(name: string)
    ensures var t := Strip(name);
      Slug(name) == [] <==> forall k | 0 <= k < |t| :: !IsSpace(t[k]) && !IsFilenameChar(LowerChar(t[k]))
    ensures Slug(name) == [] ==> SafeFilename(name) == "categorie"
    ensures Slug(name) != [] ==> SafeFilename(name) == Slug(name)
  {
    var t := Strip(name);
    var x := Lower(t);
    CollapseFilterEmpty(x);
    forall k | 0 <= k < |t|
      ensures IsSpace(x[k]) == IsSpace(t[k]) && x[k] == LowerChar(t[k])
    {
      LowerSpaces(t[k]);
    }
  }

  /** Lower-casing text without capitals changes nothing. */
  lemma LowerNoUpper(s: string)
    requires forall k | 0 <= k < |s| :: !IsUpper(s[k])
    ensures Lower(s) == s
  {
  }

  /** Cleaning a cleaned name changes nothing: `safe_filename` is idempotent. */
  lemma SafeFilenameIdempotent(name: string)
    ensures SafeFilename(SafeFilename(name)) == SafeFilename(name)
  {
    var r := SafeFilename(name);
    assert NoSpace(r);
    assert Trimmed(r);
    StripTrimmed(r);
    LowerNoUpper(r);
    CollapseNoSpace(r);
    FilterKeepsAll(IsFilenameChar, r);
  }

  /** Two words around one space. */
  lemma CollapseOneSpace(a: string, b: string)
    requires a != [] && NoSpace(a) && NoSpace(b)
    ensures CollapseSpaces(a + " " + b) == a + "_" + b
  {
    assert AllSpaces(" ");
    assert b == [] || !IsSpace(b[0]);
    CollapseSpacesRun(a, " ", b);
    CollapseNoSpace(a);
    CollapseNoSpace(b);
  }

  /** A category name with one space: the space becomes an underscore and
      the capitals become small letters. */
  lemma SafeFilenameExample(name: string)
    requires name == "Science Fiction"
    ensures SafeFilename(name) == "science_fiction"
  {
    assert Trimmed(name);
    StripTrimmed(name);
    var a, b := "science", "fiction";
    LowerExample(name, a, b);
    WordsSlugExample(a, b);
    JoinExample(a, b);
  }

  /** The lower-case words become one slug joined by an underscore. */
  lemma WordsSlugExample(a: string, b: string)
    requires a == "science" && b == "fiction"
    ensures CollapseSpaces(a + " " + b) == a + "_" + b
    ensures Filter(IsFilenameChar, a + "_" + b) == a + "_" + b
  {
    CollapseOneSpace(a, b);
    FilterKeepsAll(IsFilenameChar, a + "_" + b);
  }

  lemma LowerExample(name: string, a: string, b: string)
    requires name == "Science Fiction" && a == "science" && b == "fiction"
    ensures Lower(name) == a + " " + b
  {
  }

  lemma JoinExample(a: string, b: string)
    requires a == "science" && b == "fiction"
    ensures a + "_" + b == "science_fiction"
  {
  }

  /** A name with no allowed character falls back to `"categorie"`. */
  lemma SafeFilenameFallbackExample(name: string)
    requires name == "???"
    ensures SafeFilename(name) == "categorie"
  {
    assert Trimmed(name);
    StripTrimmed(name);
    LowerNoUpper(name);
    CollapseNoSpace(name);
    FilterEmpty(IsFilenameChar, name);
  }

  /** The CSV file name of a category: the cleaned name and `.csv`. It never
      holds a path separator and its only dot starts the extension, so the
      file is always written directly inside the output directory. */
  function CsvFileName(categoryName: string): (r: string)
    ensures |r| > 4 && r[|r| - 4..] == ".csv"
    ensures forall k | 0 <= k < |r| - 4 :: r[k] != '.' && r[k] != '/' && r[k] != '\\'
  {
    SafeFilename(categoryName) + ".csv"
  }

  // ---------------------------------------------------------------------
  // The product-page helpers
  // ---------------------------------------------------------------------

  /** `title(soup)`: the trimmed text of the heading. */
  function Title(page: ProductPage): (r: Result<string, Error>)
    ensures r.Ok? <==> page.heading.Some?
    ensures r.Err? ==> r.error == MissingElement("h1")
    ensures r.Ok? ==> Trimmed(r.value) && r.value == Strip(page.heading.value)
  {
    match page.heading
    case None => Err(MissingElement("h1"))
    case Some(text) => Ok(Strip(text))
  }

  /** `universal_product_code(soup)`: the trimmed text of the UPC cell. */
  function UniversalProductCode(page: ProductPage): (r: Result<string, Error>)
    ensures r.Ok? <==> page.upcCell.Some?
    ensures r.Err? ==> r.error == MissingElement("UPC")
    ensures r.Ok? ==> Trimmed(r.value) && r.value == Strip(page.upcCell.value)
  {
    match page.upcCell
    case None => Err(MissingElement("UPC"))
    case Some(text) => Ok(Strip(text))
  }

  /** The text `price_excluding_tax` hands to `float()`: the digits and dots
      of the trimmed cell, in order. */
  function CleanExcl(text: string): (r: string)
    ensures forall k | 0 <= k < |r| :: IsDigitOrDot(r[k])
  {
    Filter(IsDigitOrDot, Strip(text))
  }

  /** The cleaned text converts exactly when the raw cell holds at least one
      digit and at most one dot: the trimmed-away whitespace and the dropped
      characters play no part. */
  lemma CleanExclAccepted(text: string)
    ensures ParseFloat(CleanExcl(text)).Some?
      <==> |Filter(IsDigit, text)| >= 1 && |Filter(IsDot, text)| <= 1
  {
    CleanExclKeeps(text);
    DigitsAndDotsParse(CleanExcl(text));
  }

  /** Cleaning keeps every digit and every dot of the cell. */
  lemma CleanExclKeeps(text: string)
    ensures Filter(IsDigit, CleanExcl(text)) == Filter(IsDigit, text)
    ensures Filter(IsDot, CleanExcl(text)) == Filter(IsDot, text)
  {
    FilterOfFilter(IsDigit, IsDigitOrDot, Strip(text));
    FilterOfFilter(IsDot, IsDigitOrDot, Strip(text));
    StripThenFilter(IsDigit, text);
    StripThenFilter(IsDot, text);
  }

  /** `price_excluding_tax(soup)`. */
  function PriceExcludingTax(page: ProductPage): (r: Result<Decimal, Error>)
    ensures page.priceExclCell.None? ==> r == Err(MissingElement("Price (excl. tax)"))
    ensures page.priceExclCell.Some? ==>
      var text := page.priceExclCell.value;
      && (r.Ok? <==> |Filter(IsDigit, text)| >= 1 && |Filter(IsDot, text)| <= 1)
      && (r.Ok? ==> ParseFloat(CleanExcl(text)) == Some(r.value))
      && (r.Err? ==> r.error == InvalidNumber(CleanExcl(text)))
  {
    match page.priceExclCell
    case None => Err(MissingElement("Price (excl. tax)"))
    case Some(text) =>
      var clean := CleanExcl(text);
      CleanExclAccepted(text);
      match ParseFloat(clean)
      case None => Err(InvalidNumber(clean))
      case Some(d) => Ok(d)
  }

  predicate NotPound(c: char) {
    c != '£'
  }

  predicate NotCircumflexA(c: char) {
    c != 'Â'
  }

  predicate NotPoundOrCircumflexA(c: char) {
    c != '£' && c != 'Â'
  }

  /** The text `price_including_tax` hands to `float()`: the trimmed cell
      after `.replace("£", "")` and then `.replace("Â", "")`. The two
      deletions remove exactly the characters `£` and `Â` and keep every
      other character, in order. */
  function CleanIncl(text: string): (r: string)
    ensures r == Filter(NotPoundOrCircumflexA, Strip(text))
  {
    var t := Strip(text);
    var noPound := Filter(NotPound, t);
    FilterCongruent(NotCircumflexA, NotPoundOrCircumflexA, noPound);
    FilterOfFilter(NotPoundOrCircumflexA, NotPound, t);
    Filter(NotCircumflexA, noPound)
  }

  /** `price_including_tax(soup)`. */
  function PriceIncludingTax(page: ProductPage): (r: Result<Decimal, Error>)
    ensures page.priceInclCell.None? ==> r == Err(MissingElement("Price (incl. tax)"))
    ensures page.priceInclCell.Some? ==>
      var clean := CleanIncl(page.priceInclCell.value);
      && (r.Ok? <==> ParseFloat(clean).Some?)
      && (r.Ok? ==> ParseFloat(clean) == Some(r.value))
      && (r.Err? ==> r.error == InvalidNumber(clean))
  {
    match page.priceInclCell
    case None => Err(MissingElement("Price (incl. tax)"))
    case Some(text) =>
      var clean := CleanIncl(text);
      match ParseFloat(clean)
      case None => Err(InvalidNumber(clean))
      case Some(d) => Ok(d)
  }

  /** Only `£` and `Â` are removed: any other character that is not a
      digit, dot, sign, exponent letter or whitespace, such as a comma, makes
      the modelled conversion fail. */
  lemma PriceInclRejects(page: ProductPage, c: char)
    requires page.priceInclCell.Some? && c in page.priceInclCell.value
    requires NotPoundOrCircumflexA(c) && !IsFloatChar(c) && !IsSpace(c)
    ensures PriceIncludingTax(page).Err?
  {
    var text := page.priceInclCell.value;
    var t := Strip(text);
    var k :| 0 <= k < |text| && text[k] == c;
    assert t[k - LeadingSpaces(text)] == c;
    FilterKeeps(NotPoundOrCircumflexA, t, c);
    var clean := CleanIncl(text);
    var i :| 0 <= i < |clean| && clean[i] == c;
    assert !AllFloatChars(clean);
    if ParseFloat(clean).Some? {
      ParseFloatAlphabet(clean);
    }
  }

  /** A separator 0x1C between the pound sign and the digits survives the
      strip and the deletions, and `float()` then rejects the text. */
  lemma PriceInclSeparatorExample(page: ProductPage, text: string, clean: string)
    requires text == "£\U{1C}1" && clean == "\U{1C}1" && page.priceInclCell == Some(text)
    ensures PriceIncludingTax(page) == Err(InvalidNumber(clean))
  {
    assert text == ['£'] + clean;
    assert Trimmed(text);
    CleanInclPoundPrefix(text, clean);
    SeparatorExample(clean);
  }

  /** A cell that is a pound sign followed by text without `£` or `Â`,
      and without whitespace at either end, is cleaned to that text. */
  lemma CleanInclPoundPrefix(text: string, clean: string)
    requires Trimmed(text) && text == ['£'] + clean
    requires forall k | 0 <= k < |clean| :: NotPoundOrCircumflexA(clean[k])
    ensures CleanIncl(text) == clean
  {
    StripTrimmed(text);
    FilterAppend(NotPoundOrCircumflexA, ['£'], clean);
    FilterSingle(NotPoundOrCircumflexA, '£');
    FilterKeepsAll(NotPoundOrCircumflexA, clean);
  }

  /** On a cell made only of digits, dots, `£` and `Â` - the form the site
      uses - the two cleanings give the same text, so the two helpers agree. */
  lemma PricesAgree(text: string)
    requires forall k | 0 <= k < |text| :: IsDigitOrDot(text[k]) || text[k] == '£' || text[k] == 'Â'
    ensures CleanExcl(text) == CleanIncl(text)
  {
    var t := Strip(text);
    var i := LeadingSpaces(text);
    assert forall k | 0 <= k < |t| :: t[k] == text[i + k];
    FilterCongruent(IsDigitOrDot, NotPoundOrCircumflexA, t);
  }

  /** The price cell as the site prints it, with its mis-decoded pound sign. */
  lemma SitePriceExample(text: string)
    requires text == "Â£51.77"
    ensures CleanExcl(text) == "51.77" && CleanIncl(text) == "51.77"
    ensures ParseFloat(CleanExcl(text)) == Some(Decimal(false, 5177, -2))
    ensures Value(Decimal(false, 5177, -2)) == 51.77
  {
    SiteCleanExample(text, "Â£", "51.77");
    PricesAgree(text);
    PriceParseExample("51.77", "51", "77");
    PriceValueExample(Decimal(false, 5177, -2));
  }

  lemma SiteCleanExample(text: string, sign: string, amount: string)
    requires text == "Â£51.77" && sign == "Â£" && amount == "51.77"
    ensures CleanExcl(text) == amount
  {
    assert Trimmed(text);
    StripTrimmed(text);
    assert text == sign + amount;
    FilterAppend(IsDigitOrDot, sign, amount);
    FilterEmpty(IsDigitOrDot, sign);
    FilterKeepsAll(IsDigitOrDot, amount);
  }

  /** `number_available(soup)`: the value of the first run of digits of the
      trimmed cell, or 0 when it has no digit. */
  function NumberAvailable(page: ProductPage): (r: Result<nat, Error>)
    ensures r.Err? <==> page.availabilityCell.None?
    ensures r.Err? ==> r.error == MissingElement("Availability")
    ensures page.availabilityCell.Some? ==>
      var t := Strip(page.availabilityCell.value);
      && (!HasDigit(t) ==> r == Ok(0))
      && (forall i: nat, j: nat | IsFirstDigitRun(t, i, j) :: r == Ok(DigitsValue(t[i..j])))
  {
    match page.availabilityCell
    case None => Err(MissingElement("Availability"))
    case Some(text) =>
      var t := Strip(text);
      match FirstDigitRun(t)
      case None => Ok(0)
      case Some((i, j)) =>
        assert forall i': nat, j': nat | IsFirstDigitRun(t, i', j') :: i' == i && j' == j by {
          forall i': nat, j': nat | IsFirstDigitRun(t, i', j') ensures i' == i && j' == j {
            FirstDigitRunUnique(t, i', j');
          }
        }
        Ok(DigitsValue(t[i..j]))
  }

  /** `product_description(soup)`: the trimmed paragraph after the
      description block, or empty text when the block or the paragraph is
      missing. It never fails. */
  function ProductDescription(page: ProductPage): (r: string)
    ensures Trimmed(r)
    ensures page.description.None? || page.description.value.None? ==> r == []
    ensures page.description.Some? && page.description.value.Some? ==> r == Strip(page.description.value.value)
  {
    match page.description
    case None => ""
    case Some(None) => ""
    case Some(Some(text)) => Strip(text)
  }

  /** `category_name_from_product_page(soup)`: the trimmed text of the third
      breadcrumb link (Home > Books > Category > Book). */
  function CategoryName(page: ProductPage): (r: Result<string, Error>)
    ensures r.Ok? <==> page.breadcrumb.Some? && |page.breadcrumb.value| >= 3
    ensures r.Ok? ==> r.value == Strip(page.breadcrumb.value[2])
    ensures page.breadcrumb.None? ==> r == Err(MissingElement("ul.breadcrumb"))
    ensures page.breadcrumb.Some? && |page.breadcrumb.value| < 3 ==>
      r == Err(IndexOutOfRange(2, |page.breadcrumb.value|))
  {
    match page.breadcrumb
    case None => Err(MissingElement("ul.breadcrumb"))
    case Some(links) =>
      if |links| < 3 then Err(IndexOutOfRange(2, |links|)) else Ok(Strip(links[2]))
  }

  /** The class tokens `review_rating` recognises and the star counts they
      stand for. */
  const StarWords: map<string, nat> := map["One" := 1, "Two" := 2, "Three" := 3, "Four" := 4, "Five" := 5]

  /** Every recognised token stands for one to five stars. */
  lemma StarWordsRange(token: string)
    requires token in StarWords
    ensures 1 <= StarWords[token] <= 5
  {
  }

  /** Position of the first recognised token, scanning in list order. */
  function FirstStarToken(tokens: seq<string>): (r: Option<nat>)
    ensures r.Some? ==> r.value < |tokens| && tokens[r.value] in StarWords
    ensures r.Some? ==> forall k | 0 <= k < r.value :: tokens[k] !in StarWords
    ensures r.None? ==> forall k | 0 <= k < |tokens| :: tokens[k] !in StarWords
    decreases |tokens|
  {
    if tokens == [] then None
    else if tokens[0] in StarWords then Some(0)
    else
      match FirstStarToken(tokens[1..])
      case None => None
      case Some(i) => Some(i + 1)
  }

  /** The value written in the `review_rating` column: a star count or the
      empty text. */
  datatype Rating = Stars(count: nat) | Blank

  /** `review_rating(soup)`. */
  function ReviewRating(page: ProductPage): (r: Rating)
    ensures r.Stars? ==> 1 <= r.count <= 5
    ensures page.starRating.None? ==> r == Blank
    ensures page.starRating.Some? ==>
      var tokens := page.starRating.value;
      && (r.Stars? <==> exists k | 0 <= k < |tokens| :: tokens[k] in StarWords)
      && (r.Stars? ==> exists k | 0 <= k < |tokens| ::
            && tokens[k] in StarWords
            && r.count == StarWords[tokens[k]]
            && forall m | 0 <= m < k :: tokens[m] !in StarWords)
  {
    match page.starRating
    case None => Blank
    case Some(tokens) =>
      match FirstStarToken(tokens)
      case None => Blank
      case Some(i) =>
        StarWordsRange(tokens[i]);
        Stars(StarWords[tokens[i]])
  }

  /** `image_url(soup, page_url)`: the cover image address resolved against
      the page address, or empty text when there is no image. */
  function ImageUrl(page: ProductPage, pageUrl: string, resolve: Resolver): (r: string)
    ensures page.gallery.Some? && page.gallery.value.Some? ==> r == resolve(pageUrl, page.gallery.value.value)
    ensures page.gallery.None? || page.gallery.value.None? ==> r == []
  {
    match page.gallery
    case Some(Some(src)) => resolve(pageUrl, src)
    case _ => ""
  }

  // ---------------------------------------------------------------------
  // The record
  // ---------------------------------------------------------------------

  /** One row of a category's CSV file, field by field in column order. */
  datatype ProductRecord = ProductRecord(
    productPageUrl: string,
    universalProductCode: string,
    title: string,
    priceIncludingTax: Decimal,
    priceExcludingTax: Decimal,
    numberAvailable: nat,
    productDescription: string,
    category: string,
    reviewRating: Rating,
    imageUrl: string
  )

  /** `scrape_product(url)`, given what fetching `url` gave: the category is
      read first, then the other fields in column order; the first helper
      that fails decides the error. */
  function ScrapeProduct(productUrl: string, fetched: Option<ProductPage>, resolve: Resolver): (r: Result<ProductRecord, Error>)
    ensures fetched.None? ==> r == Err(FetchFailed(productUrl))
    ensures fetched.Some? ==>
      var page := fetched.value;
      && (r.Ok? <==>
            && CategoryName(page).Ok? && UniversalProductCode(page).Ok? && Title(page).Ok?
            && PriceIncludingTax(page).Ok? && PriceExcludingTax(page).Ok? && NumberAvailable(page).Ok?)
      && (CategoryName(page).Err? ==> r == Err(CategoryName(page).error))
      && (CategoryName(page).Ok? && UniversalProductCode(page).Err? ==> r == Err(UniversalProductCode(page).error))
      && (CategoryName(page).Ok? && UniversalProductCode(page).Ok? && Title(page).Err? ==> r == Err(Title(page).error))
      && ((CategoryName(page).Ok? && UniversalProductCode(page).Ok? && Title(page).Ok?
           && PriceIncludingTax(page).Err?)
          ==> r == Err(PriceIncludingTax(page).error))
      && ((CategoryName(page).Ok? && UniversalProductCode(page).Ok? && Title(page).Ok?
           && PriceIncludingTax(page).Ok? && PriceExcludingTax(page).Err?)
          ==> r == Err(PriceExcludingTax(page).error))
      && ((CategoryName(page).Ok? && UniversalProductCode(page).Ok? && Title(page).Ok?
           && PriceIncludingTax(page).Ok? && PriceExcludingTax(page).Ok? && NumberAvailable(page).Err?)
          ==> r == Err(NumberAvailable(page).error))
    ensures r.Ok? ==> fetched.Some? && r.value == ProductRecord(
      productUrl,
      UniversalProductCode(fetched.value).value,
      Title(fetched.value).value,
      PriceIncludingTax(fetched.value).value,
      PriceExcludingTax(fetched.value).value,
      NumberAvailable(fetched.value).value,
      ProductDescription(fetched.value),
      CategoryName(fetched.value).value,
      ReviewRating(fetched.value),
      ImageUrl(fetched.value, productUrl, resolve))
  {
    if fetched.None? then Err(FetchFailed(productUrl))
    else
      var page := fetched.value;
      var cat :- CategoryName(page);
      var upc :- UniversalProductCode(page);
      var title :- Title(page);
      var incl :- PriceIncludingTax(page);
      var excl :- PriceExcludingTax(page);
      var count :- NumberAvailable(page);
      Ok(ProductRecord(productUrl, upc, title, incl, excl, count,
        ProductDescription(page), cat, ReviewRating(page), ImageUrl(page, productUrl, resolve)))
  }

  /** The CSV header, in column order. */
  const Headers: seq<string> := [
    "product_page_url", "universal_product_code", "title", "price_including_tax",
    "price_excluding_tax", "number_available", "product_description", "category",
    "review_rating", "image_url"]

  /** A value as the CSV writer receives it. */
  datatype Cell = TextCell(text: string) | DecimalCell(number: Decimal) | IntCell(count: nat)

  function RatingCell(rating: Rating): Cell {
    match rating
    case Stars(k) => IntCell(k)
    case Blank => TextCell("")
  }

  /** The dictionary `scrape_product` returns, as its key-value pairs in
      insertion order. */
  function Row(rec: ProductRecord): (r: seq<(string, Cell)>)
    ensures |r| == |Headers|
    ensures forall k | 0 <= k < |r| :: r[k].0 == Headers[k]
  {
    [ ("product_page_url", TextCell(rec.productPageUrl)),
      ("universal_product_code", TextCell(rec.universalProductCode)),
      ("title", TextCell(rec.title)),
      ("price_including_tax", DecimalCell(rec.priceIncludingTax)),
      ("price_excluding_tax", DecimalCell(rec.priceExcludingTax)),
      ("number_available", IntCell(rec.numberAvailable)),
      ("product_description", TextCell(rec.productDescription)),
      ("category", TextCell(rec.category)),
      ("review_rating", RatingCell(rec.reviewRating)),
      ("image_url", TextCell(rec.imageUrl)) ]
  }

  /** The header names are distinct, so every key of a row names exactly one
      column and the writer accepts every row. */
  lemma HeadersDistinct()
    ensures forall i, j | 0 <= i < j < |Headers| :: Headers[i] != Headers[j]
  {
  }
}
