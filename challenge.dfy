/** How `solveSliderCaptcha` finds the two slider-challenge images inside the
    `.sec-container` element and turns each into base64 text: `<img>` sources
    first, then the CSS `background-image` of every element in the container,
    then inline `data:image` URLs decoded in place and other URLs downloaded. */
module Challenge {
  import opened Wrappers
  import opened Strings

  /** What the page script sees inside the container: the `src` of each `<img>`
      and the computed `background-image` of each element, in document order. */
  datatype ChallengeDom = ChallengeDom(imgSrcs: seq<string>, cssBackgrounds: seq<string>)

  /** The script's `result`: the piece image and the background image, each
      null until assigned. */
  datatype Slots = Slots(piece: Option<string>, bg: Option<string>)

  /** The assignment from `<img>` elements: two or more give the piece and the
      background, exactly one gives only the background. */
  function ImgSlots(srcs: seq<string>): Slots {
    if |srcs| >= 2 then Slots(Some(srcs[0]), Some(srcs[1]))
    else if |srcs| == 1 then Slots(None, Some(srcs[0]))
    else Slots(None, None)
  }

  /** The filter on a computed `background-image` value. */
  predicate HasCssUrl(v: string) {
    v != "" && v != "none" && Contains(v, "url(")
  }

  predicate IsQuote(c: char) {
    c == '\'' || c == '"'
  }

  /** `v.replace(/url\(['"]?/, '')`: the first "url(" is removed together with
      one quote right after it. */
  function StripOpen(v: string): string {
    match IndexOf(v, "url(")
    case None => v
    case Some(i) =>
      var j := i + 4;
      var k := if j < |v| && IsQuote(v[j]) then j + 1 else j;
      v[..i] + v[k..]
  }

  /** Where the pattern `['"]?\)` first matches in `v`, and the length of the
      match: the earliest position holding ")" or a quote followed by ")". */
  function FirstClose(v: string, from: nat): Option<(nat, nat)>
    requires from <= |v|
    decreases |v| - from
  {
    if from == |v| then None
    else if v[from] == ')' then Some((from, 1))
    else if IsQuote(v[from]) && from + 1 < |v| && v[from + 1] == ')' then Some((from, 2))
    else FirstClose(v, from + 1)
  }

  /** `v.replace(/['"]?\)/, '')`. */
  function StripClose(v: string): string {
    match FirstClose(v, 0)
    case None => v
    case Some((i, n)) => if i + n <= |v| then v[..i] + v[i + n..] else v
  }

  /** The URL read out of a `background-image` value. */
  function CssUrl(v: string): string {
    StripClose(StripOpen(v))
  }

  /** One step of the CSS pass: a URL fills the background when that is still
      falsy, otherwise the piece when that is still falsy, otherwise nothing. */
  function CssStep(s: Slots, v: string): Slots {
    if !HasCssUrl(v) then s
    else if !Truthy(s.bg) then s.(bg := Some(CssUrl(v)))
    else if !Truthy(s.piece) then s.(piece := Some(CssUrl(v)))
    else s
  }

  /** The CSS pass over the remaining values, in document order. */
  function CssPass(s: Slots, css: seq<string>): Slots
    decreases |css|
  {
    if css == [] then s else CssPass(CssStep(s, css[0]), css[1..])
  }

  /** The slots the page script returns for a container. */
  function AssignSlots(dom: ChallengeDom): Slots {
    CssPass(ImgSlots(dom.imgSrcs), dom.cssBackgrounds)
  }

  /** The page script: assign from `<img>` elements, then scan every element's
      CSS background, whatever the number of images was. */
  method ExtractSlots(dom: ChallengeDom) returns (piece: Option<string>, bg: Option<string>)
    ensures Slots(piece, bg) == AssignSlots(dom)
  {
    var imgs := dom.imgSrcs;
    piece, bg := None, None;
    if |imgs| >= 2 {
      piece := Some(imgs[0]);
      bg := Some(imgs[1]);
    } else if |imgs| == 1 {
      bg := Some(imgs[0]);
    }
    var css := dom.cssBackgrounds;
    for i := 0 to |css|
      invariant CssPass(Slots(piece, bg), css[i..]) == AssignSlots(dom)
    {
      assert css[i..][1..] == css[i + 1..];
      var v := css[i];
      if v != "" && v != "none" && Contains(v, "url(") {
        var url := CssUrl(v);
        if !Truthy(bg) {
          bg := Some(url);
        } else if !Truthy(piece) {
          piece := Some(url);
        }
      }
    }
  }

  // ---------------------------------------------------------------------------
  // What the slot assignment promises

  /** The URLs the CSS pass can use, in document order. */
  function CssUrls(css: seq<string>): seq<string> {
    if css == [] then []
    else if HasCssUrl(css[0]) then [CssUrl(css[0])] + CssUrls(css[1..])
    else CssUrls(css[1..])
  }

  /** The `k`-th element of `s`, if there is one. */
  function Nth(s: seq<string>, k: nat): Option<string> {
    if k < |s| then Some(s[k]) else None
  }

  /** A slot that already holds a truthy value is never overwritten. */
  lemma {:induction false} CssPassKeepsFilled(s: Slots, css: seq<string>)
    ensures Truthy(s.bg) ==> CssPass(s, css).bg == s.bg
    ensures Truthy(s.piece) ==> CssPass(s, css).piece == s.piece
    decreases |css|
  {
    if css != [] {
      CssPassKeepsFilled(CssStep(s, css[0]), css[1..]);
    }
  }

  /** With the background truthy and the piece falsy (null or ""), the first
      CSS URL, if any, becomes the piece and every later one is ignored. */
  lemma {:induction false} CssPassFillsPiece(s: Slots, css: seq<string>)
    requires Truthy(s.bg) && !Truthy(s.piece)
    requires forall k :: 0 <= k < |CssUrls(css)| ==> CssUrls(css)[k] != ""
    ensures var u := CssUrls(css);
      CssPass(s, css) == Slots(if |u| > 0 then Some(u[0]) else s.piece, s.bg)
  {
    if css != [] {
      if HasCssUrl(css[0]) {
        CssPassKeepsFilled(s.(piece := Some(CssUrl(css[0]))), css[1..]);
      } else {
        assert CssUrls(css) == CssUrls(css[1..]);
        CssPassFillsPiece(s, css[1..]);
      }
    }
  }

  /** With the piece truthy and the background falsy (null or ""), the first
      CSS URL, if any, becomes the background and every later one is
      ignored. */
  lemma {:induction false} CssPassFillsBackground(s: Slots, css: seq<string>)
    requires !Truthy(s.bg) && Truthy(s.piece)
    requires forall k :: 0 <= k < |CssUrls(css)| ==> CssUrls(css)[k] != ""
    ensures var u := CssUrls(css);
      CssPass(s, css) == Slots(s.piece, if |u| > 0 then Some(u[0]) else s.bg)
  {
    if css != [] {
      if HasCssUrl(css[0]) {
        CssPassKeepsFilled(s.(bg := Some(CssUrl(css[0]))), css[1..]);
      } else {
        assert CssUrls(css) == CssUrls(css[1..]);
        CssPassFillsBackground(s, css[1..]);
      }
    }
  }

  /** With both slots falsy (null or ""), the first CSS URL becomes the
      background and the second the piece; a slot without a URL keeps its
      value, and later URLs are ignored. */
  lemma {:induction false} CssPassFillsBoth(s: Slots, css: seq<string>)
    requires !Truthy(s.bg) && !Truthy(s.piece)
    requires forall k :: 0 <= k < |CssUrls(css)| ==> CssUrls(css)[k] != ""
    ensures var u := CssUrls(css);
      CssPass(s, css) == Slots(if |u| > 1 then Some(u[1]) else s.piece, if |u| > 0 then Some(u[0]) else s.bg)
  {
    if css != [] {
      var urls := CssUrls(css);
      if HasCssUrl(css[0]) {
        assert urls[0] == CssUrl(css[0]) && urls[1..] == CssUrls(css[1..]);
        CssPassFillsPiece(s.(bg := Some(CssUrl(css[0]))), css[1..]);
      } else {
        assert urls == CssUrls(css[1..]);
        CssPassFillsBoth(s, css[1..]);
      }
    }
  }

  /** Two or more images with non-empty sources: the first is the piece, the
      second the background, and the CSS pass changes nothing. */
  lemma TwoImagesDecide(dom: ChallengeDom)
    requires |dom.imgSrcs| >= 2 && dom.imgSrcs[0] != "" && dom.imgSrcs[1] != ""
    ensures AssignSlots(dom) == Slots(Some(dom.imgSrcs[0]), Some(dom.imgSrcs[1]))
  {
    CssPassKeepsFilled(ImgSlots(dom.imgSrcs), dom.cssBackgrounds);
  }

  /** Two or more images whose first two sources are empty: the slots read as
      unset, so the first two CSS URLs take them over, the background first;
      a slot left without a URL keeps its empty source. */
  lemma EmptyImagesGiveWayToCss(dom: ChallengeDom)
    requires |dom.imgSrcs| >= 2 && dom.imgSrcs[0] == "" && dom.imgSrcs[1] == ""
    requires forall k :: 0 <= k < |CssUrls(dom.cssBackgrounds)| ==> CssUrls(dom.cssBackgrounds)[k] != ""
    ensures var u := CssUrls(dom.cssBackgrounds);
      AssignSlots(dom) == Slots(if |u| > 1 then Some(u[1]) else Some(""), if |u| > 0 then Some(u[0]) else Some(""))
  {
    CssPassFillsBoth(ImgSlots(dom.imgSrcs), dom.cssBackgrounds);
  }

  /** Two or more images, the first with a source and the second without:
      the first is the piece, and the first CSS URL, if any, takes the
      background. */
  lemma EmptySecondImageGivesWayToCss(dom: ChallengeDom)
    requires |dom.imgSrcs| >= 2 && dom.imgSrcs[0] != "" && dom.imgSrcs[1] == ""
    requires forall k :: 0 <= k < |CssUrls(dom.cssBackgrounds)| ==> CssUrls(dom.cssBackgrounds)[k] != ""
    ensures var u := CssUrls(dom.cssBackgrounds);
      AssignSlots(dom) == Slots(Some(dom.imgSrcs[0]), if |u| > 0 then Some(u[0]) else Some(""))
  {
    CssPassFillsBackground(ImgSlots(dom.imgSrcs), dom.cssBackgrounds);
  }

  /** Exactly one image with a non-empty source: it is the background, and the
      first CSS URL, if any, is the piece. */
  lemma OneImageIsBackground(dom: ChallengeDom)
    requires |dom.imgSrcs| == 1 && dom.imgSrcs[0] != ""
    requires forall k :: 0 <= k < |CssUrls(dom.cssBackgrounds)| ==> CssUrls(dom.cssBackgrounds)[k] != ""
    ensures AssignSlots(dom) == Slots(Nth(CssUrls(dom.cssBackgrounds), 0), Some(dom.imgSrcs[0]))
  {
    CssPassFillsPiece(ImgSlots(dom.imgSrcs), dom.cssBackgrounds);
  }

  /** No image: the first CSS URL is the background and the second the piece. */
  lemma NoImageUsesCss(dom: ChallengeDom)
    requires |dom.imgSrcs| == 0
    requires forall k :: 0 <= k < |CssUrls(dom.cssBackgrounds)| ==> CssUrls(dom.cssBackgrounds)[k] != ""
    ensures AssignSlots(dom) == Slots(Nth(CssUrls(dom.cssBackgrounds), 1), Nth(CssUrls(dom.cssBackgrounds), 0))
  {
    CssPassFillsBoth(ImgSlots(dom.imgSrcs), dom.cssBackgrounds);
  }

  /** Unwrapping `url(...)`: a plain URL inside `url(...)`, `url('...')` or
      `url("...")` is read back unchanged. */
  lemma CssUrlUnwraps(u: string, q: string)
    requires q == "" || q == "'" || q == "\""
    requires forall k :: 0 <= k < |u| ==> !IsQuote(u[k]) && u[k] != ')'
    ensures CssUrl("url(" + q + u + q + ")") == u
  {
    var v := "url(" + q + u + q + ")";
    assert StartsWith(v, "url(");
    assert IndexOf(v, "url(") == Some(0);
    var w := u + q + ")";
    assert StripOpen(v) == w by {
      assert v[4..] == q + w;
      if q != "" { assert v[4] == q[0]; }
    }
    FirstCloseAfter(w, u, 0);
    if q == "" {
      assert w[|u|] == ')';
      assert w[..|u|] + w[|u| + 1..] == u;
    } else {
      assert w[|u|] == q[0] && w[|u| + 1] == ')';
      assert w[..|u|] + w[|u| + 2..] == u;
    }
  }

  /** `FirstClose` skips a prefix free of ")" and quotes. */
  lemma {:induction false} FirstCloseAfter(w: string, u: string, from: nat)
    requires |u| < |w| && w[..|u|] == u && from <= |u|
    requires forall k :: 0 <= k < |u| ==> !IsQuote(u[k]) && u[k] != ')'
    ensures FirstClose(w, from) == FirstClose(w, |u|)
    decreases |u| - from
  {
    if from < |u| {
      assert w[from] == u[from];
      FirstCloseAfter(w, u, from + 1);
    }
  }

  // ---------------------------------------------------------------------------
  // `imgUrlToBase64`

  /** `s.split(',')[1]`: the text between the first comma and the next one (or
      the end), undefined when `s` has no comma. */
  function SecondField(s: string): Option<string> {
    match IndexOf(s, ",")
    case None => None
    case Some(i) =>
      var rest := s[i + 1..];
      match IndexOf(rest, ",")
      case None => Some(rest)
      case Some(j) => Some(rest[..j])
  }

  /** The result of a download of a remote image: its base64 text, or a network
      error, which rejects the promise. */
  datatype Download = Downloaded(base64: string) | DownloadFailed

  /** What `imgUrlToBase64` yields: a value (null or a string) or a rejection. */
  datatype ImageData = Data(base64: Option<string>) | FetchError

  /** `imgUrlToBase64(src)`, with the network's answer given as `download`. */
  function ImageBase64(src: Option<string>, download: Download): ImageData {
    if !Truthy(src) then Data(None)
    else if StartsWith(src.value, "data:image") then Data(SecondField(src.value))
    else match download
      case Downloaded(b) => Data(Some(b))
      case DownloadFailed => FetchError
  }

  /** An inline image "data:image/...;base64,<payload>" decodes to its payload
      without touching the network. */
  lemma DataUrlPayload(header: string, payload: string, download: Download)
    requires StartsWith(header, "data:image")
    requires forall k :: 0 <= k < |header| ==> header[k] != ','
    requires forall k :: 0 <= k < |payload| ==> payload[k] != ','
    ensures ImageBase64(Some(header + "," + payload), download) == Data(Some(payload))
  {
    var s := header + "," + payload;
    assert s[..|"data:image"|] == header[..|"data:image"|];
    NoCommaIndex(header);
    assert OccursAt(s, ",", |header|);
    forall j | 0 <= j < |header|
      ensures !OccursAt(s, ",", j)
    {
      assert s[j..j + 1] == [header[j]];
    }
    var i := IndexOf(s, ",").value;
    assert i == |header|;
    assert s[i + 1..] == payload;
    NoCommaIndex(payload);
  }

  /** `split(',')[1]` keeps only the second field: a text with a second comma
      loses everything from that comma on. */
  lemma SecondFieldStopsAtComma(a: string, b: string, c: string)
    requires forall k :: 0 <= k < |a| ==> a[k] != ','
    requires forall k :: 0 <= k < |b| ==> b[k] != ','
    ensures SecondField(a + "," + b + "," + c) == Some(b)
  {
    var s := a + "," + b + "," + c;
    NoCommaIndex(a);
    assert OccursAt(s, ",", |a|);
    forall j | 0 <= j < |a|
      ensures !OccursAt(s, ",", j)
    {
      assert s[j..j + 1] == [a[j]];
    }
    assert IndexOf(s, ",") == Some(|a|);
    var rest := s[|a| + 1..];
    assert rest == b + "," + c;
    NoCommaIndex(b);
    assert OccursAt(rest, ",", |b|);
    forall j | 0 <= j < |b|
      ensures !OccursAt(rest, ",", j)
    {
      assert rest[j..j + 1] == [b[j]];
    }
    assert IndexOf(rest, ",") == Some(|b|);
    assert rest[..|b|] == b;
  }

  /** A string without commas has no comma position. */
  lemma NoCommaIndex(s: string)
    requires forall k :: 0 <= k < |s| ==> s[k] != ','
    ensures forall j :: 0 <= j <= |s| ==> !OccursAt(s, ",", j)
  {
    forall j | 0 <= j < |s|
      ensures !OccursAt(s, ",", j)
    {
      assert s[j..j + 1] == [s[j]];
    }
  }
}
