/**
 * `GET /api/og-image` (app/api/og-image/route.ts): the preview image named by a page,
 * taken from `og:image`, then `twitter:image`, then the first `<img>`.
 */
module OgImage {
  import opened Wrappers
  import opened Http

  /**
   * What the parsed page offers: the `content` of `meta[property="og:image"]`, the
   * `content` of `meta[name="twitter:image"]` and the `src` of the first `img`.
   */
  datatype PageImages = PageImages(ogImage: Option<string>, twitterImage: Option<string>, firstImgSrc: Option<string>)

  /** Fetching the page and parsing its HTML, supplied by the caller. */
  type PageFetcher = string -> Result<PageImages, string>

  /** The body `{ imageUrl }`; None when no candidate was found. */
  datatype ImageBody = ImageBody(imageUrl: Option<string>)

  /** The first-truthy chain: each later candidate is read only if the earlier ones are falsy. */
  function ChooseImage(p: PageImages): (r: Option<string>)
    ensures r == p.ogImage || r == p.twitterImage || r == p.firstImgSrc
  {
    var imageUrl := p.ogImage;
    var imageUrl := if !Truthy(imageUrl) then p.twitterImage else imageUrl;
    if !Truthy(imageUrl) then p.firstImgSrc else imageUrl
  }

  /** The handler: 400 for a falsy `url`, 500 when the fetch or the parse fails. */
  function GetOgImage(url: Option<string>, fetch: PageFetcher): Response<ImageBody> {
    if !Truthy(url) then Error(400, "URL is required")
    else match fetch(url.value)
      case Err(_) => Error(500, "Failed to fetch image")
      case Ok(page) => Json(ImageBody(ChooseImage(page)))
  }

  // ----- properties -----

  /** A truthy `og:image` wins over everything else. */
  lemma OgImageFirst(p: PageImages)
    ensures Truthy(p.ogImage) ==> ChooseImage(p) == p.ogImage
  {
  }

  /** Otherwise a truthy `twitter:image` is chosen. */
  lemma TwitterImageSecond(p: PageImages)
    ensures !Truthy(p.ogImage) && Truthy(p.twitterImage) ==> ChooseImage(p) == p.twitterImage
  {
  }

  /** Otherwise the first `<img>` source is taken as it is, even empty or absent. */
  lemma FirstImgLast(p: PageImages)
    ensures !Truthy(p.ogImage) && !Truthy(p.twitterImage) ==> ChooseImage(p) == p.firstImgSrc
  {
  }

  /** An empty attribute counts as absent: `og:image=""` falls through to the next candidate. */
  lemma EmptyOgImageFallsThrough()
    ensures ChooseImage(PageImages(Some(""), Some("t"), Some("i"))) == Some("t")
    ensures ChooseImage(PageImages(Some(""), None, None)) == None
  {
  }

  /** A usable image is reported exactly when some candidate is usable. */
  lemma ChosenIsTruthyIff(p: PageImages)
    ensures Truthy(ChooseImage(p)) <==> Truthy(p.ogImage) || Truthy(p.twitterImage) || Truthy(p.firstImgSrc)
  {
  }

  /**
   * The answer: 400 without a usable url, 500 on failure, else a success whose image is
   * the chosen candidate of the page, possibly none.
   */
  lemma OgImageOutcomes(url: Option<string>, fetch: PageFetcher)
    ensures !Truthy(url) ==> GetOgImage(url, fetch) == Error(400, "URL is required")
    ensures Truthy(url) && fetch(url.value).Err? ==> GetOgImage(url, fetch) == Error(500, "Failed to fetch image")
    ensures Truthy(url) && fetch(url.value).Ok? ==>
      && GetOgImage(url, fetch).Json?
      && var p := fetch(url.value).value;
         && GetOgImage(url, fetch).body.imageUrl == ChooseImage(p)
         && (GetOgImage(url, fetch).body.imageUrl.None? <==>
            (!Truthy(p.ogImage) && !Truthy(p.twitterImage) && p.firstImgSrc.None?))
  {
  }
}
