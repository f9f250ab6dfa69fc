/** What the scraper reads from a fetched page, once the HTML tree has been
    queried. Each field holds the text, attribute or list one query of the
    scraper returns; `None` stands for a query that found nothing. */
module PageView {
  import opened Wrappers

  /** The ways one scraping step fails. In the scripts each is a Python
      exception that ends the run. */
  datatype Error =
    | FetchFailed(url: string)
      // the request for `url` failed or answered with an error status
    | MissingElement(selector: string)
      // an attribute or method was used on a query that found nothing
    | IndexOutOfRange(index: int, length: nat)
      // a list of links was indexed past its end
    | InvalidNumber(text: string)
      // `float()` rejected the cleaned text
    | NoMatch(text: string)
      // `.group()` was called on a failed regular-expression search

  /** `urljoin(base, reference)`: resolving a link against the address of
      the page it appears on. The resolution algorithm is not modelled; it
      is a parameter of every operation that uses it. */
  type Resolver = (string, string) -> string

  /** A product page as the helpers see it. */
  datatype ProductPage = ProductPage(
    /** Text of the first `h1`. */
    heading: Option<string>,
    /** Text of the cell next to the header cell `UPC`. */
    upcCell: Option<string>,
    /** Text of the cell next to `Price (excl. tax)`. */
    priceExclCell: Option<string>,
    /** Text of the cell next to `Price (incl. tax)`. */
    priceInclCell: Option<string>,
    /** Text of the cell next to `Availability`. */
    availabilityCell: Option<string>,
    /** The `div#product_description` block (outer option) and the text of
        the paragraph that follows it (inner option). */
    description: Option<Option<string>>,
    /** Texts of the links of the `ul.breadcrumb` list, in document order. */
    breadcrumb: Option<seq<string>>,
    /** Class tokens of the `p.star-rating` element, in attribute order. */
    starRating: Option<seq<string>>,
    /** The first `div.item.active` (outer option) and the `src` of its
        first `img` (inner option). The CSS class selector matches any
        `div` whose class tokens include `item` and `active`. */
    gallery: Option<Option<string>>,
    /** The first `div` whose class attribute is exactly `item active`
        (outer option) and the `src` of its first `img` (inner option): the
        keyword query `find("div", class_="item active")`, which compares
        the whole attribute text and so skips a `div` with further classes. */
    exactActiveItem: Option<Option<string>>
  )

  /** A page of a category listing: the `href` of each product link, in
      document order, and the `href` of the `li.next` link if there is one. */
  datatype ListingPage = ListingPage(productHrefs: seq<string>, nextHref: Option<string>)

  /** A link of the home page's category sidebar. */
  datatype SidebarLink = SidebarLink(text: string, href: string)

  /** The listing pages the site serves, by address; an address that is not
      in the map cannot be fetched. */
  type Site = map<string, ListingPage>
}
