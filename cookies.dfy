/** Cookie injection at the start of `crawlProduct`: the parsed `cookies.json`
    (a bare array, or an object holding a `cookies` array as the J2TEAM
    extension exports it) is normalised field by field for the browser, the
    template entry shipped with the repository is dropped, and the rest is
    handed to `page.setCookie` when anything is left. */
module Cookies {
  import opened Wrappers

  /** The name of the placeholder entry of the sample file. */
  const TemplateName: string := "TEMPLATE_COOKIE_NAME"
  /** The extension's `sameSite` value that the browser does not accept. */
  const Unspecified: string := "unspecified"
  const DefaultPath: string := "/"

  /** One entry of the file; a field that is absent (or null) is None. */
  datatype RawCookie = RawCookie(
    name: Option<string>,
    value: Option<string>,
    domain: Option<string>,
    path: Option<string>,
    expirationDate: Option<real>,
    httpOnly: Option<bool>,
    secure: Option<bool>,
    sameSite: Option<string>)

  /** A cookie as passed to the browser. */
  datatype Cookie = Cookie(
    name: Option<string>,
    value: Option<string>,
    domain: Option<string>,
    path: string,
    expires: Option<real>,
    httpOnly: Option<bool>,
    secure: Option<bool>,
    sameSite: Option<string>)

  /** `cookies.json` as the crawl finds it: absent, not JSON, the JSON value
      null, another non-object JSON value, an array of entries, or an object
      with or without a `cookies` field. */
  datatype CookieFile =
    | Missing
    | Malformed
    | NullDoc
    | ScalarDoc
    | ArrayDoc(entries: seq<RawCookie>)
    | ObjectDoc(cookies: Option<seq<RawCookie>>)

  /** The entries the file offers: the array itself, or the object's `cookies`
      (`[]` when absent). A missing file, a parse error and `null.cookies`
      all end in nothing to inject; a scalar has no `cookies` field. */
  function Entries(file: CookieFile): seq<RawCookie> {
    match file
    case ArrayDoc(entries) => entries
    case ObjectDoc(Some(cookies)) => cookies
    case _ => []
  }

  /** The field map of one entry: it keeps the name, which the filter reads,
      and always gives a path. */
  function Normalise(c: RawCookie): (r: Cookie)
    ensures r.name == c.name && r.path != ""
  {
    Cookie(
      c.name,
      c.value,
      c.domain,
      if Truthy(c.path) then c.path.value else DefaultPath,
      c.expirationDate,
      c.httpOnly,
      c.secure,
      if c.sameSite == Some(Unspecified) then None else c.sameSite)
  }

  /** `cookies.map(...)`. */
  function NormaliseAll(entries: seq<RawCookie>): (r: seq<Cookie>)
    ensures |r| == |entries|
  {
    if entries == [] then [] else [Normalise(entries[0])] + NormaliseAll(entries[1..])
  }

  /** `.filter(c => c.name !== 'TEMPLATE_COOKIE_NAME')`. */
  function DropTemplate(cookies: seq<Cookie>): (r: seq<Cookie>)
    ensures |r| <= |cookies|
  {
    if cookies == [] then []
    else (if cookies[0].name == Some(TemplateName) then [] else [cookies[0]]) + DropTemplate(cookies[1..])
  }

  /** `validCookies`: normalise, then drop the template. */
  function ValidCookies(entries: seq<RawCookie>): seq<Cookie> {
    DropTemplate(NormaliseAll(entries))
  }

  /** The cookies handed to `page.setCookie`, None when it is not called. */
  function Injected(file: CookieFile): (r: Option<seq<Cookie>>)
    ensures r.Some? ==> |r.value| > 0 && |r.value| <= |Entries(file)|
  {
    var entries := Entries(file);
    if |entries| == 0 then None
    else
      var valid := ValidCookies(entries);
      if |valid| > 0 then Some(valid) else None
  }

  // ---------------------------------------------------------------------------
  // What normalisation promises

  /** The reference order of the two steps: drop the raw template entries
      first. */
  function KeepNamed(entries: seq<RawCookie>): seq<RawCookie> {
    if entries == [] then []
    else (if entries[0].name == Some(TemplateName) then [] else [entries[0]]) + KeepNamed(entries[1..])
  }

  /** Normalisation keeps the name, so filtering after the map gives the same
      cookies, in the same order, as normalising the entries that are not the
      template. */
  lemma {:induction false} FilterCommutes(entries: seq<RawCookie>)
    ensures ValidCookies(entries) == NormaliseAll(KeepNamed(entries))
  {
    if entries != [] {
      FilterCommutes(entries[1..]);
      NormaliseAllAppend(if entries[0].name == Some(TemplateName) then [] else [entries[0]], KeepNamed(entries[1..]));
      assert NormaliseAll(entries)[1..] == NormaliseAll(entries[1..]);
    }
  }

  lemma {:induction false} NormaliseAllAppend(a: seq<RawCookie>, b: seq<RawCookie>)
    ensures NormaliseAll(a + b) == NormaliseAll(a) + NormaliseAll(b)
  {
    if a != [] {
      assert (a + b)[1..] == a[1..] + b;
      NormaliseAllAppend(a[1..], b);
      assert NormaliseAll(a + b) == [Normalise(a[0])] + NormaliseAll(a[1..] + b);
    } else {
      assert a + b == b;
    }
  }

  /** A cookie is injected-ready exactly when it is the normalised form of an
      entry that is not the template. */
  lemma {:induction false} ValidCookiesMembers(entries: seq<RawCookie>, c: Cookie)
    ensures c in ValidCookies(entries) <==>
      exists i :: 0 <= i < |entries| && entries[i].name != Some(TemplateName) && Normalise(entries[i]) == c
  {
    if entries != [] {
      ValidCookiesMembers(entries[1..], c);
      assert NormaliseAll(entries)[1..] == NormaliseAll(entries[1..]);
      assert NormaliseAll(entries)[0] == Normalise(entries[0]);
      assert forall i :: 1 <= i < |entries| ==> entries[i] == entries[1..][i - 1];
      if c in ValidCookies(entries) && c != Normalise(entries[0]) {
        var j :| 0 <= j < |entries[1..]| && entries[1..][j].name != Some(TemplateName) && Normalise(entries[1..][j]) == c;
        assert entries[j + 1] == entries[1..][j];
      }
    }
  }

  /** Every cookie handed to the browser has a non-empty path, is not the
      template, and never carries `sameSite: 'unspecified'`. */
  lemma {:induction false} ValidCookiesAreClean(entries: seq<RawCookie>)
    ensures forall c :: c in ValidCookies(entries) ==>
      c.path != "" && c.name != Some(TemplateName) && c.sameSite != Some(Unspecified)
  {
    forall c | c in ValidCookies(entries)
      ensures c.path != "" && c.name != Some(TemplateName) && c.sameSite != Some(Unspecified)
    {
      ValidCookiesMembers(entries, c);
    }
  }

  /** The field map: the path defaults to "/" when absent or empty, `expires`
      is `expirationDate`, `sameSite: 'unspecified'` is dropped while any other
      `sameSite` is copied; name, value, domain, httpOnly and secure are
      copied, and no other field of the entry is kept. */
  lemma NormaliseFields(c: RawCookie)
    ensures var n := Normalise(c);
      && (c.path.None? || c.path == Some("") ==> n.path == DefaultPath)
      && (c.path.Some? && c.path != Some("") ==> n.path == c.path.value)
      && n.expires == c.expirationDate
      && n.sameSite == (if c.sameSite == Some(Unspecified) then None else c.sameSite)
      && n.name == c.name && n.value == c.value && n.domain == c.domain
      && n.httpOnly == c.httpOnly && n.secure == c.secure
  {
  }

  /** `setCookie` is called only with a non-empty list, and is called exactly
      when the file offers at least one entry that is not the template: an
      array as it is, an object through its `cookies` field. */
  lemma InjectedIffSomeValid(file: CookieFile)
    ensures Injected(file).Some? ==> |Injected(file).value| > 0 && Injected(file).value == ValidCookies(Entries(file))
    ensures Injected(file).Some? <==>
      exists i :: 0 <= i < |Entries(file)| && Entries(file)[i].name != Some(TemplateName)
    ensures file.ArrayDoc? ==> Entries(file) == file.entries
    ensures file.ObjectDoc? ==> Entries(file) == (if file.cookies.Some? then file.cookies.value else [])
  {
    var entries := Entries(file);
    if exists i :: 0 <= i < |entries| && entries[i].name != Some(TemplateName) {
      var i :| 0 <= i < |entries| && entries[i].name != Some(TemplateName);
      ValidCookiesMembers(entries, Normalise(entries[i]));
    } else if |ValidCookies(entries)| > 0 {
      ValidCookiesMembers(entries, ValidCookies(entries)[0]);
    }
  }
}
