# A verified model of a books.toscrape.com scraper

The repository scrapes the demonstration bookshop `https://books.toscrape.com/`.

- `Code/Scraper3.py` is the full pipeline. It reads the category links from the home page's sidebar. It walks each category's listing pages by following their "next" links and collects every product page address. It scrapes each product page into a record of ten fields. It writes one CSV file per category, named after the category.
- `Code/Scraper.py` is the earlier version. It scrapes a single product page with helpers that differ in small but observable ways.

This Dafny project models the extraction and crawl logic of both scripts:

- `wrappers.dfy` (`Wrappers`): `Option` and `Result`.
- `text.dfy` (`Text`): ASCII character classes, `str.strip()`, `str.lower()`, and filtering of characters (a `"".join(... if ...)` comprehension or a chain of `replace(x, "")` calls).
- `numbers.dfy` (`Numbers`): the regular-expression search `\d+`, `int()` on a digit run, and `float()` on decimal literals. `float()` is modelled as a parse to the exact decimal the literal denotes.
- `page_view.dfy` (`PageView`): what the helpers read from a fetched page, the errors, and `urljoin` as a parameter (`Resolver`).
- `scraper3.dfy` (`Scraper3`): `safe_filename`, the product helpers, `scrape_product` and the CSV header of `Code/Scraper3.py`.
- `crawl.dfy` (`Crawl`): the two loops of `Code/Scraper3.py`, `category_product_urls` and `get_categories`, as methods.
  - `category_product_urls` is proved against the specification function `Walk`.
  - Lemmas characterise `Walk` as following a chain of next links that never repeats a page.
- `scraper.dfy` (`Scraper`): the helpers of `Code/Scraper.py` that differ, its `product_data` record, and lemmas comparing it with `Code/Scraper3.py`.
  - Its price helpers (`Code/Scraper.py:22-33`) are the same code as in `Code/Scraper3.py`, so both models use the functions of `Scraper3`.
  - Its description helper (`Code/Scraper.py:42-50`) is written differently but behaves the same, so it uses that function too. It tests `p is None` where the later version tests `p`, and a found element is always true.

A page is given as the values the BeautifulSoup queries return:

- cell texts;
- the class tokens of the rating element;
- the breadcrumb link texts;
- the `src` of the gallery image, once for each of the two queries that look for it: the CSS selector of `Code/Scraper3.py` and the exact class match of `Code/Scraper.py`;
- the listing page's product `href`s and optional next `href`;
- `None` where a query finds nothing.

A failed query, index, conversion or fetch, which raises an exception in Python, is an `Err` of `PageView.Error`. The site is a map from address to listing page. An address outside the map cannot be fetched.

Some behaviour of the code differs from what a reader might expect. The model follows the code in each case:

- **Empty sidebar.** `get_categories` returns an empty list when the home page has no category sidebar. The CSS selector then matches nothing, and nothing reports it.
- **No visited-page guard.** `category_product_urls` accepts listing pages with no products. Nothing records the pages already visited, so a cycle of "next" links never ends. A walk that finishes never fetches a page twice (`Crawl.WalkFinishes`, `Crawl.ChainDistinct`), so no walk through a cycle finishes. `Crawl.SelfLinkNeverStops` shows the one-page cycle.
- **Rating column.** In `Code/Scraper3.py` the rating column holds `""` when the rating is missing or unrecognised. It does not leave the field out.
- **One failure ends the run.** `main` does not isolate failures per product. One failing product page ends the whole run.
- **Untrimmed fields.** `Code/Scraper.py` returns the title and the UPC untrimmed (`Scraper.TitleKeepsWhitespace`).
- **Category lookup.** `Code/Scraper.py` takes the last breadcrumb link as the category. `Code/Scraper3.py` takes the third. They agree on the site's three-link breadcrumb. With no link both fail. With one or two links only the later version fails. With more than three links they read different links, whose texts may still coincide (`Scraper.CategoryVersionsCompared`, `Scraper.CategoryDiffersOnFourLinks`).
- **Whitespace around a price.** `str.strip()` removes the separators 0x1C to 0x1F, but `float()` does not accept them around a number. A price cell such as `"£"` + 0x1C + `"1"` therefore fails (`Scraper3.PriceInclSeparatorExample`).
- **Gallery image.** `Code/Scraper.py` matches the class attribute `item active` exactly, while `Code/Scraper3.py` matches the class tokens. A gallery `div` with a further class is found only by the later version (`Scraper.ImageQueriesDiffer`).
- **Error order.** `Code/Scraper3.py` reads the category before every other field. `Code/Scraper.py` reads the fields in key order. A page missing several elements can therefore fail differently in the two versions (`Scraper.ErrorOrderDiffers`).

## Model

| member | source | states |
|---|---|---|
| `Text.Strip` | Code/Scraper3.py:29 | `str.strip()`: the result has no whitespace at either end, and it is the infix of the input that starts after the leading whitespace. Every non-space character of the input lies inside it. |
| `Text.StripIdempotent` | Code/Scraper3.py:20 | Stripping twice is stripping once. |
| `Text.StripThenFilter` | Code/Scraper3.py:37-38 | A character filter that rejects whitespace gives the same text before and after stripping. |
| `Text.Filter` | Code/Scraper3.py:38 | The comprehension keeps only characters satisfying the test and never lengthens the text. `Text.FilterAppend`, `Text.FilterEmpty` and `Text.FilterOfFilter` pin it down, and the last one also covers the `replace` chain of line 44. |
| `Text.Lower` | Code/Scraper3.py:20 | `str.lower()`: same length, no capital left, each capital replaced by its small letter, every other character kept. |
| `Text.FilterAppend` | Code/Scraper3.py:38 | Filtering distributes over concatenation. With the one-element case, this makes the filter "keep exactly the matching characters, in order". |
| `Text.FilterOfFilter` | Code/Scraper3.py:44 | Filtering by a narrower predicate after a wider one is filtering by the narrower one alone. |
| `Text.FilterEmpty` | Code/Scraper3.py:22-23 | A filter yields nothing exactly when no element satisfies its predicate (both directions). |
| `Numbers.DigitsValue` | Code/Scraper3.py:51 | `int()` on a digit run: a value below 10 to the power of the run's length. `Numbers.DigitsValueAppend` fixes its exact value. |
| `Numbers.DigitsValueAppend` | Code/Scraper.py:40 | The decimal place-value law: a digit text read in two parts is worth the front part times 10 to the length of the back part, plus the back part. With `Numbers.DigitsValueOne` (a single digit is worth itself) this fixes the value of every digit run. |
| `Numbers.DigitsValueOne` | Code/Scraper3.py:51 | A single digit is worth its own value. |
| `Numbers.FirstDigitRun` | Code/Scraper3.py:50 | `re.search(r"\d+")`: `None` exactly when the text has no digit; otherwise the span is the first maximal digit run. |
| `Numbers.FirstDigitRunUnique` | Code/Scraper3.py:50 | Any span with the first-maximal-run property is the one the search returns. |
| `Numbers.ParseFloat` | Code/Scraper3.py:39 | `float()` on decimal literals: its `float()` whitespace is removed, then a sign, a mantissa and an exponent are read. `Numbers.ParseFloatAlphabet`, `Numbers.DigitsAndDotsParse` and `Numbers.FixedPointValue` characterise it. |
| `Numbers.FloatStrip` | Code/Scraper3.py:45 | The text `float()` reads: its ends are not space, tab, line feed, vertical tab, form feed or carriage return, and every character cut off is one of those. |
| `Numbers.ParseFloatAlphabet` | Code/Scraper3.py:45 | Every text `float()` accepts consists only of digits, dots, signs, exponent letters and the whitespace `float()` removes. |
| `Numbers.DigitsAndDotsParse` | Code/Scraper3.py:39 | On text made of digits and dots, `float()` succeeds exactly when there is at least one digit and at most one dot. |
| `Numbers.FixedPointValue` | Code/Scraper.py:26 | A literal `a.b` made of digits parses to the decimal `ab × 10^-len(b)`. |
| `Numbers.PriceParseExample` | Code/Scraper.py:33 | `"51.77"` parses to `5177 × 10^-2`. |
| `Numbers.CommaExample` | Code/Scraper3.py:45 | `"51,77"` is rejected by `float()`. |
| `Numbers.TwoDotsExample` | Code/Scraper3.py:38-39 | `"1.2.3"` is rejected by `float()`. |
| `Numbers.PriceValueExample` | Code/Scraper3.py:39 | `5177 × 10^-2` is the number 51.77. |
| `Numbers.SeparatorExample` | Code/Scraper3.py:43-45 | 0x1C followed by `1` is stripped to `"1"` by `str.strip()`, but rejected by `float()`. |
| `Numbers.HasTwoDots` | Code/Scraper.py:25-26 | A text with dots at two positions keeps at least two dots after filtering. |
| `Scraper3.CollapseSpaces` | Code/Scraper3.py:21 | `re.sub(r"\s+", "_", s)` leaves no whitespace. |
| `Scraper3.CollapseSpacesRun` | Code/Scraper3.py:21 | Each maximal run of whitespace becomes a single `_`, wherever it sits. The text on either side is substituted on its own. |
| `Scraper3.CollapseAppend` | Code/Scraper3.py:21 | The substitution works piecewise across a cut that is not inside a whitespace run. |
| `Scraper3.CollapseNoSpace` | Code/Scraper3.py:21 | Text without whitespace is unchanged by the substitution. |
| `Scraper3.CollapseFilterEmpty` | Code/Scraper3.py:21-22 | Nothing survives both substitutions exactly when the text has no whitespace and no allowed character. |
| `Scraper3.Slug` | Code/Scraper3.py:20-22 | The text surviving both substitutions consists only of `[a-z0-9_-]`. |
| `Scraper3.SafeFilename` | Code/Scraper3.py:18-23 | `safe_filename` always returns a non-empty text made only of `a-z`, `0-9`, `_` and `-`. |
| `Scraper3.SafeFilenameFallback` | Code/Scraper3.py:20-23 | Nothing survives exactly when no character of the trimmed name is whitespace or lower-cases to an allowed character. The result is then `"categorie"`; otherwise it is the surviving text. |
| `Scraper3.SafeFilenameIdempotent` | Code/Scraper3.py:18-23 | Applying `safe_filename` twice gives the same result as applying it once. |
| `Scraper3.SafeFilenameExample` | Code/Scraper3.py:20-22 | `"Science Fiction"` becomes `"science_fiction"`. |
| `Scraper3.SafeFilenameFallbackExample` | Code/Scraper3.py:23 | `"???"` becomes `"categorie"`. |
| `Scraper3.CsvFileName` | Code/Scraper3.py:153 | The file name ends in `.csv`. Before the extension it has no dot and no path separator, so the file is written directly inside the output directory. |
| `Scraper3.Title` | Code/Scraper3.py:28-29 | Fails (missing `h1`) exactly when there is no heading. Otherwise returns the heading with no whitespace at either end. |
| `Scraper3.UniversalProductCode` | Code/Scraper3.py:31-33 | Fails exactly when the UPC cell is missing. Otherwise returns the trimmed cell text. |
| `Scraper3.CleanExcl` | Code/Scraper3.py:37-38 | The cleaned text consists only of digits and dots. |
| `Scraper3.CleanExclAccepted` | Code/Scraper3.py:37-39 | The cleaned text converts exactly when the raw cell has at least one digit and at most one dot. |
| `Scraper3.PriceExcludingTax` | Code/Scraper3.py:35-39 | Missing cell: missing-element error. Otherwise succeeds exactly when the cell has at least one digit and at most one dot, with the value `float()` gives on the cleaned text. Fails with the cleaned text otherwise. |
| `Scraper3.CleanIncl` | Code/Scraper3.py:43-44 | The two `replace` calls remove exactly `£` and `Â` and keep every other character of the trimmed cell, in order. |
| `Scraper3.CleanInclPoundPrefix` | Code/Scraper3.py:43-44 | A trimmed cell made of a pound sign and text without `£` or `Â` is cleaned to that text. |
| `Scraper3.PriceIncludingTax` | Code/Scraper3.py:41-45 | Missing cell: missing-element error. Otherwise succeeds exactly when `float()` accepts the cleaned text, and fails with that text otherwise. |
| `Scraper3.PriceInclRejects` | Code/Scraper3.py:43-45 | Any character of the cell other than `£` and `Â` that is not a digit, dot, sign, `e`/`E` or whitespace (a comma, a currency sign, any other letter) makes the helper fail in the model. |
| `Scraper3.PriceInclSeparatorExample` | Code/Scraper3.py:41-45 | The cell `"£"` + 0x1C + `"1"` fails with the cleaned text 0x1C + `"1"`: the separator survives `strip()` and the deletions, and `float()` rejects it. |
| `Scraper3.CleanExclKeeps` | Code/Scraper3.py:37-38 | Cleaning keeps every digit and every dot of the cell, in order. |
| `Text.FilterKeeps` | Code/Scraper3.py:38 | An element the filter's predicate accepts survives the filter. |
| `Scraper3.PricesAgree` | Code/Scraper.py:22-33 | On a cell of digits, dots, `£` and `Â`, the two cleanings give the same text. |
| `Scraper3.SitePriceExample` | Code/Scraper3.py:35-45 | The site's cell `"Â£51.77"` cleans to `"51.77"` both ways, and converts to 51.77. |
| `Scraper3.NumberAvailable` | Code/Scraper3.py:47-51 | Missing cell: error. Otherwise the value of the first maximal digit run of the trimmed cell, and 0 when it has no digit. |
| `Scraper3.ProductDescription` | Code/Scraper3.py:53-58 | Never fails. Empty when the block or the paragraph after it is missing. Otherwise the trimmed paragraph text. |
| `Scraper3.CategoryName` | Code/Scraper3.py:60-63 | Succeeds exactly when there is a breadcrumb with at least three links. The result is the third link's trimmed text; fewer links is an index error at 2. |
| `Scraper3.StarWordsRange` | Code/Scraper3.py:70 | Every recognised class token stands for one to five stars. |
| `Scraper3.FirstStarToken` | Code/Scraper3.py:71-73 | Returns the first position, in list order, whose token is recognised, or none when no token is. |
| `Scraper3.ReviewRating` | Code/Scraper3.py:65-74 | An absent element or no recognised token gives `""`. Otherwise the result is the count (1 to 5) of the first recognised token in list order. A count is given exactly when some token is recognised. |
| `Scraper3.ImageUrl` | Code/Scraper3.py:76-78 | The image `src` resolved against the page address, or `""` when there is no image. |
| `Scraper3.ScrapeProduct` | Code/Scraper3.py:80-94 | A failed fetch is a fetch error. Otherwise succeeds exactly when every failing helper succeeds, with a record of the helpers' values in column order. Otherwise the error is that of the first failing helper in reading order: category, UPC, title, price with tax, price without tax, availability. |
| `Scraper3.Row` | Code/Scraper3.py:83-94 | The record's keys are the ten header names, one per column, in header order. |
| `Scraper3.HeadersDistinct` | Code/Scraper3.py:133-144 | The ten header names are distinct. |
| `Crawl.Walk` | Code/Scraper3.py:103-111 | The loop as a function of the site and a bound on the pages. `Crawl.WalkFinishes` characterises the walks that finish: exactly along a chain of next links that never repeats a page. `Crawl.WalkFails` characterises the walks that fail. |
| `Crawl.NextCursor` | Code/Scraper3.py:110-111 | The next page's address, or none. `Crawl.ChainTail` and `Crawl.LeadsToTail` state that a walk continues from it. |
| `Crawl.PageProductUrls` | Code/Scraper3.py:106-108 | One resolved address per product link, in document order. |
| `Crawl.ChainTail` | Code/Scraper3.py:110-111 | A chain of pages continues as a chain from the page the first one links to. |
| `Crawl.WalkFinishedIsChain` | Code/Scraper3.py:99-113 | A finished walk fetched exactly a chain of pages: it starts at the category address and follows each page's next link until a page has none. The collected addresses are those pages' product addresses in visit order. |
| `Crawl.ChainIsWalked` | Code/Scraper3.py:99-113 | Conversely, every such chain within the fuel is walked to the end with that result. |
| `Crawl.ChainNoRepeat` | Code/Scraper3.py:103-111 | Two positions of a finished chain hold different pages. |
| `Crawl.ChainDistinct` | Code/Scraper3.py:103-111 | A finished chain never visits a page twice. |
| `Crawl.WalkFinishes` | Code/Scraper3.py:99-113 | The walk finishes with given addresses and pages if and only if the pages form a chain within the fuel and the addresses are its products. A finished walk never repeats a page. |
| `Crawl.WalkFails` | Code/Scraper3.py:103-111 | The walk fails at an address if and only if a path of served pages along next links, shorter than the fuel, leads from the start to that address, and the site does not serve it. The address is the first one the loop cannot fetch. |
| `Crawl.WalkFailedPath` | Code/Scraper3.py:103-111 | A failed walk went through served pages, along next links, to the address it could not fetch. |
| `Crawl.PathFails` | Code/Scraper3.py:103-111 | Conversely, such a path within the fuel makes the walk fail at that address. |
| `Crawl.LeadsToTail` | Code/Scraper3.py:110-111 | A path continues as a path from the page its first page links to. |
| `Crawl.SelfLinkNeverStops` | Code/Scraper3.py:103-111 | A page whose next link leads back to itself keeps the loop going for ever. |
| `Crawl.TwoPageExample` | Code/Scraper3.py:103-111 | Two linked pages are fetched in order, and their products are concatenated. With fuel for one page the walk has not stopped. |
| `Crawl.CategoryProductUrls` | Code/Scraper3.py:99-113 | The loop returns the walk's result. That is the products of the chain of pages (`Crawl.WalkFinishes`), or the fetch error of the first page that cannot be fetched (`Crawl.WalkFails`). |
| `Crawl.GetCategories` | Code/Scraper3.py:118-125 | One (name, address) pair per sidebar link, in order: the trimmed link text and the link resolved against the home page. A failed fetch of the home page is a fetch error. |
| `Scraper.Title` | Code/Scraper.py:14-16 | Fails exactly when there is no heading. Otherwise returns the heading text unchanged. |
| `Scraper.UniversalProductCode` | Code/Scraper.py:18-20 | Fails exactly when the UPC cell is missing. Otherwise returns the cell text unchanged. |
| `Scraper.TrimmedInLaterVersion` | Code/Scraper.py:14-20 | The later version fails on the same pages and returns the trimmed title and UPC. |
| `Scraper.TitleKeepsWhitespace` | Code/Scraper.py:14-16 | A heading starting with whitespace is returned differently by the two versions. |
| `Scraper.NumberAvailable` | Code/Scraper.py:36-40 | The value of the first maximal digit run of the trimmed cell. Text without a digit is an error (there is no 0 default). |
| `Scraper.NumberAvailableAgrees` | Code/Scraper.py:36-40 | The two versions agree whenever the cell has a digit. Without one, this version fails and the later one gives 0. |
| `Scraper.Category` | Code/Scraper.py:53-55 | Succeeds exactly when the breadcrumb has a link. The result is the trimmed text of the last link; an empty list is an index error at -1. |
| `Scraper.CategoryAgreesOnThreeLinks` | Code/Scraper.py:53-55 | With three links the last link is the third, and the two versions agree. |
| `Scraper.CategoryVersionsCompared` | Code/Scraper.py:53-55 | With no breadcrumb link both versions fail. With one or two links only the later version fails. With three or more they agree exactly when the last and the third link have the same trimmed text. |
| `Scraper.CategoryDiffersOnFourLinks` | Code/Scraper.py:53-55 | With four links this version names the fourth and the later one the third. |
| `Scraper.StarText` | Code/Scraper.py:65 | `f"{k}/5"` is a digit whose value is `k`, followed by `/5`. |
| `Scraper.StarTextInjective` | Code/Scraper.py:65 | Different counts give different texts. |
| `Scraper.ReviewRating` | Code/Scraper.py:57-65 | An absent element is an error. Otherwise a text is given exactly when some class token is recognised, and `None` when none is. |
| `Scraper.RatingsAgree` | Code/Scraper.py:57-65 | `k` stars in the later version is the text `k/5` here, and `""` there is `None` here (both directions). |
| `Scraper.ImageUrl` | Code/Scraper.py:68-70 | Succeeds exactly when a `div` whose class attribute is exactly `item active` and its image exist, with the `src` resolved against the page address. |
| `Scraper.ImageQueriesDiffer` | Code/Scraper.py:68-70 | A gallery found only by the CSS selector makes this version fail while the later one reads the image. When the two queries reach images whose addresses differ, the versions report different addresses. |
| `Scraper.ProductDataOf` | Code/Scraper.py:72-83 | Succeeds exactly when every helper succeeds, with a record of their values in key order. Otherwise the error is that of the first failing helper in key order: UPC, title, price with tax, price without tax, availability, category, rating, image. |
| `Scraper.ErrorOrderDiffers` | Code/Scraper.py:72-83 | With both the breadcrumb and the UPC cell missing, this version reports the UPC and the later one the breadcrumb. |
| `Scraper.RecordsAgree` | Code/Scraper.py:72-83 | On a page both versions read, whose breadcrumb has the site's three links and whose gallery both image queries find alike, the records agree field by field, except that the later version trims the title and UPC; the ratings are related by `Scraper.RatingsAgree`. |

## Left out

- **HTTP.** `get_soup` (`Code/Scraper3.py:13-16`), the request timeout, `raise_for_status` and the top-level fetch of `Code/Scraper.py` (lines 9-12) are network I/O. A fetch is either a page view or a failure. `Code/Scraper.py` never checks the status, so its page is given directly.
- **HTML parsing.** BeautifulSoup's parsing and its `find`, `find_all`, `select`, `select_one` and `find_next_sibling` queries are library calls. The model starts from the values those queries return.
- **Missing attributes.** A link without `href` or an image without `src` (Python `KeyError`, or `urljoin` on `None`) is not modelled. Attributes are assumed present.
- **`urljoin`.** Reference resolution (RFC 3986, section 5.2) is not modelled. It is a function parameter, so no property depends on how addresses are resolved.
- Numbers.ParseFloat: modelled on plain decimal literals: sign, digits with an optional dot, and an optional exponent. The result is the exact decimal, not its rounding to a binary double. Underscores between digits, `inf`, `nan` and non-ASCII digits are not modelled, so texts such as `"nan"` are rejected where Python accepts them.
- Scraper3.PriceInclRejects: holds for the modelled `float()` only. That `float()` rejects `inf`, `infinity`, `nan` (in any case) and digit runs with underscores, which Python reads. So cells such as `"£infinity"` or `"£1_0"` fail in the model, while the script returns `inf` and `10.0`.
- Scraper3.ImageUrl: reads the first `div.item.active` only. `select_one("div.item.active img")` could also find an image in a later item when the first has none.
- Scraper3.NumberAvailable: returns the value of any digit run. Python 3.11 and later refuse to convert a run longer than the interpreter's limit (4300 digits by default, configurable) and raise `ValueError`. The limit depends on the interpreter's version and settings, so it is not modelled.
- Scraper.NumberAvailable: the same digit-count limit of `int()` is not modelled, for the same reason.
- **Unicode.** Whitespace, digits and lower-casing are ASCII only (Python's `\s`, `\d`, `str.isdigit`, `str.lower` and `float()` also act on other characters).
- **File and console I/O.** `main` (`Code/Scraper3.py:130-164`), `os.makedirs`, `print`, and the CSV writing of both scripts are I/O. Only the file name, the header order and the row's key order are modelled.
- Crawl.CategoryProductUrls: stated only for walks that stop within a ghost bound on the number of pages. The script's loop has no bound and no visited-page guard, so around a cycle of next links it never stops (`Crawl.SelfLinkNeverStops`). Such walks have no result to state.
