/** The extraction phase of `crawlProduct`: wait for the "get link" button,
    click it, read the affiliate link from the first input of the modal, and
    build the product record. `productData` starts as a generic error and is
    reassigned on every path. */
module Extraction {
  import opened Wrappers

  /** The initial value of `productData`. */
  const InitialError: string := "Failed to extract data"
  /** The error when the modal yields no link. */
  const NoInputError: string := "Modal opened but could not find link input"

  /** The modal as the link is read: for each selector in priority order
      (`input.ant-input`, `input[type="text"]`, `textarea`, `input`), the value
      of the first element inside `.ant-modal-content` that matches it; None
      when nothing matches. */
  datatype Modal = Modal(
    antInput: Option<string>,
    textInput: Option<string>,
    textarea: Option<string>,
    anyInput: Option<string>)

  /** What the phase meets: the message of the exception thrown while waiting
      for `.get-link-btn` (None: the button appeared), the modal when the link
      is read (None: no modal), the page address and the ISO timestamp. The
      click, the link read and the modal dump are taken not to throw. */
  datatype ExtractionEnv = ExtractionEnv(
    buttonError: Option<string>,
    modal: Option<Modal>,
    pageUrl: string,
    timestamp: string)

  /** The record `crawlProduct` returns. */
  datatype ProductData =
    | Unextracted(error: string)
    | Success(affiliateLink: string, url: string, timestamp: string)
    | Failure(error: string)

  /** The `||` chain over the four selectors: the value of the first element
      found, even when that value is empty. */
  function FindInput(m: Modal): Option<string> {
    if m.antInput.Some? then m.antInput
    else if m.textInput.Some? then m.textInput
    else if m.textarea.Some? then m.textarea
    else m.anyInput
  }

  /** The link the page script returns: null without a modal or an input. */
  function LinkValue(modal: Option<Modal>): Option<string> {
    if modal.None? then None else FindInput(modal.value)
  }

  /** The outcome of the phase. */
  function Extract(env: ExtractionEnv): ProductData {
    if env.buttonError.Some? then Failure(env.buttonError.value)
    else
      var link := LinkValue(env.modal);
      if Truthy(link) then Success(link.value, env.pageUrl, env.timestamp)
      else Failure(NoInputError)
  }

  /** The phase as the source runs it, reassigning `productData`. The waits for
      the modal and its input swallow their own timeouts, so only the state of
      the modal when the link is read matters. */
  method ExtractLink(env: ExtractionEnv) returns (productData: ProductData)
    ensures productData == Extract(env)
  {
    productData := Unextracted(InitialError);
    if env.buttonError.Some? {
      // the `catch` of the phase
      productData := Failure(env.buttonError.value);
      return;
    }
    var affiliateLink := LinkValue(env.modal);
    if Truthy(affiliateLink) {
      productData := Success(affiliateLink.value, env.pageUrl, env.timestamp);
    } else {
      productData := Failure(NoInputError);
    }
  }

  // ---------------------------------------------------------------------------
  // What the phase promises

  /** The selectors' answers in priority order. */
  function Candidates(m: Modal): seq<Option<string>> {
    [m.antInput, m.textInput, m.textarea, m.anyInput]
  }

  /** The reference reading of a priority list: the first answer present. */
  function FirstPresent(cands: seq<Option<string>>): Option<string> {
    if cands == [] then None
    else if cands[0].Some? then cands[0]
    else FirstPresent(cands[1..])
  }

  /** `FirstPresent` gives the answer at some position exactly when every
      earlier position is empty, and nothing only when all are. */
  lemma {:induction false} FirstPresentIsFirst(cands: seq<Option<string>>)
    ensures FirstPresent(cands).None? <==> forall k :: 0 <= k < |cands| ==> cands[k].None?
    ensures FirstPresent(cands).Some? ==>
      exists k :: 0 <= k < |cands| && cands[k] == FirstPresent(cands) && forall j :: 0 <= j < k ==> cands[j].None?
  {
    if cands != [] && cands[0].None? {
      FirstPresentIsFirst(cands[1..]);
      assert forall k :: 1 <= k < |cands| ==> cands[k] == cands[1..][k - 1];
      if FirstPresent(cands).Some? {
        var k :| 0 <= k < |cands[1..]| && cands[1..][k] == FirstPresent(cands[1..])
                 && forall j :: 0 <= j < k ==> cands[1..][j].None?;
        assert cands[k + 1] == cands[1..][k];
      }
    }
  }

  /** The link is read from the first selector that matches, in the order
      `input.ant-input`, `input[type="text"]`, `textarea`, `input`; a later
      selector is consulted only when every earlier one matched nothing. */
  lemma FindInputFollowsPriority(m: Modal)
    ensures FindInput(m) == FirstPresent(Candidates(m))
    ensures FindInput(m).None? <==> forall k :: 0 <= k < 4 ==> Candidates(m)[k].None?
    ensures FindInput(m).Some? ==>
      exists k :: 0 <= k < 4 && Candidates(m)[k] == FindInput(m) && forall j :: 0 <= j < k ==> Candidates(m)[j].None?
  {
    var c := Candidates(m);
    assert c[1..] == [m.textInput, m.textarea, m.anyInput];
    assert c[1..][1..] == [m.textarea, m.anyInput];
    assert c[1..][1..][1..] == [m.anyInput];
    assert c[1..][1..][1..][1..] == [];
    if m.antInput.None? {
      assert FirstPresent(c) == FirstPresent(c[1..]);
      if m.textInput.None? {
        assert FirstPresent(c[1..]) == FirstPresent(c[1..][1..]);
        if m.textarea.None? {
          assert FirstPresent(c[1..][1..]) == FirstPresent(c[1..][1..][1..]);
        }
      }
    }
    FirstPresentIsFirst(c);
  }

  /** An empty first match hides a filled later one: the element is chosen,
      not its value. */
  lemma EmptyMatchHidesLaterInput(env: ExtractionEnv, later: string)
    requires env.buttonError.None? && env.modal.Some?
    requires env.modal.value.antInput == Some("")
    requires env.modal.value.textarea == Some(later) && later != ""
    ensures Extract(env) == Failure(NoInputError)
  {
  }

  /** The phase never returns its initial placeholder. It succeeds exactly when
      the button appeared and the chosen input holds a non-empty value, and
      then records that value, the page address and the timestamp; a missing
      button gives the exception's message; every other failure is the
      "could not find link input" error. */
  lemma ExtractOutcome(env: ExtractionEnv)
    ensures !Extract(env).Unextracted?
    ensures Extract(env).Success? <==>
      env.buttonError.None? && env.modal.Some? && Truthy(FirstPresent(Candidates(env.modal.value)))
    ensures Extract(env).Success? ==>
      Extract(env) == Success(FirstPresent(Candidates(env.modal.value)).value, env.pageUrl, env.timestamp)
    ensures env.buttonError.Some? ==> Extract(env) == Failure(env.buttonError.value)
    ensures env.buttonError.None? && !Extract(env).Success? ==> Extract(env) == Failure(NoInputError)
  {
    if env.modal.Some? {
      FindInputFollowsPriority(env.modal.value);
    }
  }
}
