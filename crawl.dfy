/** `crawlProduct(productId)` from the browser's first page on: cookie
    injection, the first blocked-state check with its escalation, and the
    extraction phase, which runs whatever the escalation did. Browser launch,
    navigation and the delays between the phases are not part of the model. */
module Crawler {
  import opened Wrappers
  import opened PageState
  import opened Cookies
  import opened Escalation
  import opened Extraction

  /** Everything one crawl meets: the cookie file, the page after navigation,
      the attempts of the escalation, the addresses seen during a manual wait,
      and what the extraction phase finds. */
  datatype CrawlEnv = CrawlEnv(
    cookieFile: CookieFile,
    initial: Page,
    attempts: seq<Attempt>,
    waitUrls: seq<string>,
    extraction: ExtractionEnv)

  /** What one crawl did: the cookies handed to the browser (None: none), the
      escalation, and the returned record. */
  datatype CrawlRun = CrawlRun(injected: Option<seq<Cookie>>, escalation: Escalation, productData: ProductData)

  function Crawl(productId: string, env: CrawlEnv): CrawlRun
    requires AttemptsWellFormed(env.attempts)
  {
    CrawlRun(
      Injected(env.cookieFile),
      Escalate(productId, env.initial, env.attempts, env.waitUrls),
      Extract(env.extraction))
  }

  /** The phases in the order the source runs them. */
  method CrawlProduct(productId: string, env: CrawlEnv) returns (run: CrawlRun)
    requires AttemptsWellFormed(env.attempts)
    ensures run == Crawl(productId, env)
  {
    var injected := Injected(env.cookieFile);
    var escalation := RunEscalation(productId, env.initial, env.attempts, env.waitUrls);
    var productData := ExtractLink(env.extraction);
    run := CrawlRun(injected, escalation, productData);
  }

  /** The returned record depends on the extraction phase alone: two crawls
      that find the same button and modal return the same record, whatever
      their cookies, captchas and manual waits did, and it is never the
      initial placeholder. The escalation's own page reads are taken not to
      throw. */
  lemma RecordIgnoresEscalation(productId: string, env1: CrawlEnv, env2: CrawlEnv)
    requires AttemptsWellFormed(env1.attempts) && AttemptsWellFormed(env2.attempts)
    requires env1.extraction == env2.extraction
    ensures Crawl(productId, env1).productData == Crawl(productId, env2).productData
    ensures !Crawl(productId, env1).productData.Unextracted?
  {
    ExtractOutcome(env1.extraction);
  }

  /** A manual wait that times out does not end the crawl: a page whose link
      can be read still yields a success record carrying that link. */
  lemma TimedOutWaitStillExtracts(productId: string, env: CrawlEnv, link: string)
    requires AttemptsWellFormed(env.attempts)
    requires Crawl(productId, env).escalation.manual == WaitTimedOut
    requires env.extraction.buttonError.None? && env.extraction.modal.Some?
    requires FirstPresent(Candidates(env.extraction.modal.value)) == Some(link) && link != ""
    ensures Crawl(productId, env).productData == Success(link, env.extraction.pageUrl, env.extraction.timestamp)
  {
    ExtractOutcome(env.extraction);
  }
}
