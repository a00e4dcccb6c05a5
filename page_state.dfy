/** The two page-state tests of `crawlProduct`: the "blocked" classifier run by
    `checkVerificationState` and the URL test the manual wait polls for. */
module PageState {
  import opened Strings

  /** What the classifier reads from the live page: `window.location.href` and
      `document.body.innerText`. */
  datatype Page = Page(url: string, text: string)

  const VerifySegment: string := "/verify/"
  const LoginAddress: string := "shopee.vn/login"
  const LoginSegment: string := "/login"
  /** Vietnamese "sign in". */
  const SignInMarker: string := "Đăng nhập"
  /** Vietnamese "verify". */
  const VerifyMarker: string := "Xác minh"

  /** The address shows a verification redirect or the login wall. */
  predicate UrlMarked(url: string) {
    Contains(url, VerifySegment) || Contains(url, LoginAddress)
  }

  /** The visible text asks the visitor to sign in or to verify. */
  predicate TextMarked(text: string) {
    Contains(text, SignInMarker) || Contains(text, VerifyMarker)
  }

  /** `checkVerificationState()`: true when the session is blocked. */
  predicate IsBlocked(p: Page) {
    UrlMarked(p.url) || TextMarked(p.text)
  }

  /** The path of the product offer page the crawl navigates to. */
  function ProductPath(productId: string): string {
    "product_offer/" + productId
  }

  /** The condition the manual wait polls for: the address is the product's
      offer page and neither a verification nor a login address. The page
      text is not consulted. */
  predicate Released(url: string, productId: string) {
    && Contains(url, ProductPath(productId))
    && !Contains(url, VerifySegment)
    && !Contains(url, LoginSegment)
  }

  /** An address that releases the manual wait carries none of the address
      markers of the classifier: "shopee.vn/login" contains "/login". */
  lemma ReleasedUrlIsUnmarked(url: string, productId: string)
    requires Released(url, productId)
    ensures !UrlMarked(url)
  {
    if Contains(url, LoginAddress) {
      assert LoginAddress == "shopee.vn" + LoginSegment + "";
      InfixContains(url, "shopee.vn", LoginSegment, "");
    }
  }

  /** The offer page of product "1" releases the manual wait. */
  lemma OfferPageReleases()
    ensures Released(ProductPath("1"), "1")
  {
    var url := ProductPath("1");
    assert StartsWith(url, ProductPath("1"));
    assert forall j :: 0 <= j < |url| ==> url[j] != 'v' && url[j] != 'g';
    MissingCharExcludes(url, VerifySegment, 1);
    MissingCharExcludes(url, LoginSegment, 3);
  }

  /** The release test and the classifier disagree on text: a page whose
      address releases the manual wait can still read as blocked, because
      its text asks for verification. */
  lemma ReleasedPageCanStillBeBlocked()
    ensures exists p: Page :: Released(p.url, "1") && IsBlocked(p)
  {
    OfferPageReleases();
    var p := Page(ProductPath("1"), VerifyMarker);
    assert StartsWith(p.text, VerifyMarker);
    assert TextMarked(p.text);
    assert Released(p.url, "1") && IsBlocked(p);
  }
}
