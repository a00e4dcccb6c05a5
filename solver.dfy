/** `solveSliderCaptcha`: the chain of guards that ends a solve early, the poll
    loop against the solving service, the `parseInt` check of its answer and
    the drag. The browser, the key file and the network are replaced by the
    answers they gave (a `SolveEnv`). */
module Solver {
  import opened Wrappers
  import opened Strings
  import opened ParseInt
  import opened Challenge
  import opened Drag

  /** The poll budget: at most 30 requests, 2 s apart. */
  const MaxPolls: nat := 30
  /** The service's "not ready yet" answer (its own spelling). */
  const NotReady: string := "CAPCHA_NOT_READY"
  /** The text of the key file as shipped, before a real key is pasted in. */
  const KeyPlaceholder: string := "PASTE_YOUR"

  /** A reply of the service as `makeRequest` hands it over: a body that is no
      JSON object (kept as text, or a JSON number, string or boolean), the
      JSON value null, or an object with its `status === 1` test and its
      `request` field when that is a string. */
  datatype Reply =
    | Text
    | Null
    | Object(statusIsOne: bool, request: Option<string>)

  /** How the poll loop ended: the `result` it kept (null, or the `request` of
      the first reply with status 1), the number of polls made, and whether a
      null reply made it throw. */
  datatype PollOutcome = PollOutcome(result: Option<string>, polls: nat, threw: bool)

  /** The poll loop from poll `i` on. */
  function Polling(replies: seq<Reply>, i: nat): (r: PollOutcome)
    requires i <= MaxPolls <= |replies|
    ensures i <= r.polls <= MaxPolls
    decreases MaxPolls - i
  {
    if i == MaxPolls then PollOutcome(None, MaxPolls, false)
    else match replies[i]
      case Null => PollOutcome(None, i + 1, true)
      case Object(true, request) => PollOutcome(request, i + 1, false)
      case _ => Polling(replies, i + 1)
  }

  /** The poll loop: `replies[i]` is the answer to poll `i`. */
  method Poll(replies: seq<Reply>) returns (result: Option<string>, polls: nat, threw: bool)
    requires |replies| >= MaxPolls
    ensures PollOutcome(result, polls, threw) == Polling(replies, 0)
  {
    result, polls, threw := None, 0, false;
    var i := 0;
    while i < MaxPolls
      invariant i <= MaxPolls
      invariant Polling(replies, i) == Polling(replies, 0)
    {
      var reply := replies[i];
      if reply.Null? {
        // `null.status` throws a TypeError
        return None, i + 1, true;
      } else if reply.Object? && reply.statusIsOne {
        return reply.request, i + 1, false;
      } else if reply.Object? && reply.request == Some(NotReady) {
        // not ready yet: poll again
      } else {
        // an unexpected reply is logged and polling goes on
      }
      i := i + 1;
    }
    polls := MaxPolls;
  }

  /** A reply that makes the loop stop. */
  predicate Stops(reply: Reply) {
    reply.Null? || (reply.Object? && reply.statusIsOne)
  }

  /** Polling stops at the first reply with status 1 (or the first null), takes
      that reply's `request`, and goes on through every other reply, "not
      ready" or unexpected, until 30 polls are spent. */
  lemma {:induction false} PollingStopsAtFirst(replies: seq<Reply>, i: nat)
    requires i <= MaxPolls <= |replies|
    ensures var r := Polling(replies, i);
      && (forall k :: i <= k < r.polls - 1 ==> !Stops(replies[k]))
      && (r.polls < MaxPolls ==> Stops(replies[r.polls - 1]))
      && (r.threw <==> r.polls > i && replies[r.polls - 1].Null?)
      && (r.result.Some? ==> replies[r.polls - 1] == Object(true, r.result))
      && (r.polls > i && replies[r.polls - 1].Object? && replies[r.polls - 1].statusIsOne ==>
            r.result == replies[r.polls - 1].request)
      && (r.polls == MaxPolls && !Stops(replies[MaxPolls - 1]) ==> r.result == None && !r.threw)
    decreases MaxPolls - i
  {
    if i < MaxPolls && !Stops(replies[i]) {
      PollingStopsAtFirst(replies, i + 1);
    }
  }

  /** A service that never answers with status 1 within 30 polls, whether it
      says "not ready" or something unexpected, yields no solution. */
  lemma {:induction false} NoStatusOneNoSolution(replies: seq<Reply>, i: nat)
    requires i <= MaxPolls <= |replies|
    requires forall k :: i <= k < MaxPolls ==> replies[k].Text? || (replies[k].Object? && !replies[k].statusIsOne)
    ensures Polling(replies, i) == PollOutcome(None, MaxPolls, false)
    decreases MaxPolls - i
  {
    if i < MaxPolls {
      NoStatusOneNoSolution(replies, i + 1);
    }
  }

  // ---------------------------------------------------------------------------
  // The guard chain

  /** The bounding box of the slider handle. */
  datatype Box = Box(x: real, y: real, width: real, height: real)

  /** Everything the solve reads from outside: the trimmed key file text ("" when
      the file is missing), the container as the page script finds it (None:
      no `.sec-container`), the downloads of the piece and background images
      (used only for non-inline URLs), the submission reply, the poll replies,
      whether the slider handle and its container were found, and the
      handle's bounding box (None: not visible). */
  datatype SolveEnv = SolveEnv(
    apiKey: string,
    challenge: Option<ChallengeDom>,
    pieceDownload: Download,
    bgDownload: Download,
    submitReply: Reply,
    pollReplies: seq<Reply>,
    handleFound: bool,
    handleBox: Option<Box>)

  predicate WellFormed(env: SolveEnv) {
    |env.pollReplies| >= MaxPolls
  }

  /** Why a solve returned before dragging. */
  datatype AbortReason =
    | NoApiKey        // key missing or still the placeholder
    | NoImages        // no container, or neither slot filled
    | MissingImage    // one of the two base64 images is null or empty
    | NoTaskId        // the submission reply has no `request`
    | NoSolution      // polling ended without a truthy `result`
    | InvalidSolution // `parseInt(result)` is NaN
    | NoHandle        // slider handle or slider container missing
    | NoHandleBox     // the handle has no bounding box

  /** The end of one solve: an early return, an exception caught by the
      solve's own `catch`, or a drag by `offset` pixels with its mouse events. */
  datatype SolveOutcome =
    | Aborted(reason: AbortReason)
    | Threw
    | Dragged(offset: int, trace: seq<MouseEvent>)

  predicate KeyUsable(apiKey: string) {
    apiKey != "" && !Contains(apiKey, KeyPlaceholder)
  }

  /** The `request` of a submission reply; `Threw` stands for `null.request`. */
  function TaskId(reply: Reply): Option<string> {
    if reply.Object? then reply.request else None
  }

  /** The solve, guard by guard in the order the source checks them: the key,
      then the images, the submission, the polling, the answer and the handle. */
  function Solve(env: SolveEnv): SolveOutcome
    requires WellFormed(env)
  {
    if !KeyUsable(env.apiKey) then Aborted(NoApiKey)
    else if env.challenge.None? then Aborted(NoImages)
    else WithSlots(env, AssignSlots(env.challenge.value))
  }

  /** The solve once the page script has filled the two slots. The piece is
      converted before the background, so a failed piece download throws
      first. */
  function WithSlots(env: SolveEnv, slots: Slots): SolveOutcome
    requires WellFormed(env)
  {
    if !Truthy(slots.piece) && !Truthy(slots.bg) then Aborted(NoImages)
    else match ImageBase64(slots.piece, env.pieceDownload)
      case FetchError => Threw
      case Data(piece64) =>
        match ImageBase64(slots.bg, env.bgDownload)
        case FetchError => Threw
        case Data(bg64) => WithImages(env, piece64, bg64)
  }

  /** The solve once both images are converted: submit them, then poll. */
  function WithImages(env: SolveEnv, piece64: Option<string>, bg64: Option<string>): SolveOutcome
    requires WellFormed(env)
  {
    if !Truthy(piece64) || !Truthy(bg64) then Aborted(MissingImage)
    else if env.submitReply.Null? then Threw
    else if !Truthy(TaskId(env.submitReply)) then Aborted(NoTaskId)
    else WithPolled(env, Polling(env.pollReplies, 0))
  }

  /** The solve once polling has ended. */
  function WithPolled(env: SolveEnv, polled: PollOutcome): SolveOutcome {
    if polled.threw then Threw
    else if !Truthy(polled.result) then Aborted(NoSolution)
    else match ParseInt.ParseInt(polled.result.value)
      case None => Aborted(InvalidSolution)
      case Some(solutionX) => WithOffset(env, solutionX)
  }

  /** The solve once the answer is a number: find the handle and drag it. */
  function WithOffset(env: SolveEnv, solutionX: int): SolveOutcome {
    if !env.handleFound then Aborted(NoHandle)
    else match env.handleBox
      case None => Aborted(NoHandleBox)
      case Some(box) => Dragged(solutionX, DragTrace(box.x + box.width / 2.0, solutionX as real))
  }

  /** `solveSliderCaptcha(page)`. */
  method SolveSliderCaptcha(env: SolveEnv) returns (outcome: SolveOutcome)
    requires WellFormed(env)
    ensures outcome == Solve(env)
  {
    if env.apiKey == "" || Contains(env.apiKey, KeyPlaceholder) {
      return Aborted(NoApiKey);
    }
    if env.challenge.None? {
      return Aborted(NoImages);
    }
    var piece, bg := ExtractSlots(env.challenge.value);
    assert Solve(env) == WithSlots(env, Slots(piece, bg));
    if !Truthy(piece) && !Truthy(bg) {
      return Aborted(NoImages);
    }
    var pieceData := ImageBase64(piece, env.pieceDownload);
    if pieceData.FetchError? {
      return Threw;
    }
    var bgData := ImageBase64(bg, env.bgDownload);
    if bgData.FetchError? {
      return Threw;
    }
    assert Solve(env) == WithImages(env, pieceData.base64, bgData.base64);
    outcome := SubmitAndDrag(env, pieceData.base64, bgData.base64);
  }

  /** The second half of `solveSliderCaptcha`, from the image check on:
      submit, poll, parse the answer, find the handle and drag. */
  method SubmitAndDrag(env: SolveEnv, piece64: Option<string>, bg64: Option<string>)
    returns (outcome: SolveOutcome)
    requires WellFormed(env)
    ensures outcome == WithImages(env, piece64, bg64)
  {
    if !Truthy(piece64) || !Truthy(bg64) {
      return Aborted(MissingImage);
    }
    var response := env.submitReply;
    if response.Null? {
      return Threw;
    }
    if !Truthy(TaskId(response)) {
      return Aborted(NoTaskId);
    }
    var result, polls, threw := Poll(env.pollReplies);
    assert WithImages(env, piece64, bg64) == WithPolled(env, PollOutcome(result, polls, threw));
    if threw {
      return Threw;
    }
    if !Truthy(result) {
      return Aborted(NoSolution);
    }
    var parsed := ParseInt.ParseInt(result.value);
    if parsed.None? {
      return Aborted(InvalidSolution);
    }
    var solutionX := parsed.value;
    assert WithImages(env, piece64, bg64) == WithOffset(env, solutionX);
    if !env.handleFound {
      return Aborted(NoHandle);
    }
    if env.handleBox.None? {
      return Aborted(NoHandleBox);
    }
    var box := env.handleBox.value;
    var startX := box.x + box.width / 2.0;
    var trace := Drag.Drag(startX, solutionX as real);
    assert WithOffset(env, solutionX) == Dragged(solutionX, DragTrace(startX, solutionX as real));
    return Dragged(solutionX, trace);
  }

  // ---------------------------------------------------------------------------
  // What the guard chain promises

  /** Every guard of the chain passes: a usable key, a container, two
      non-empty images (downloads that did not fail), a task id, a polled
      answer that is a number, and a visible handle. */
  predicate ReachesDrag(env: SolveEnv)
    requires WellFormed(env)
  {
    && KeyUsable(env.apiKey)
    && env.challenge.Some?
    && ImagesReady(env, AssignSlots(env.challenge.value))
    && env.submitReply.Object? && Truthy(env.submitReply.request)
    && AnswerReady(Polling(env.pollReplies, 0))
    && env.handleFound
    && env.handleBox.Some?
  }

  predicate ImagesReady(env: SolveEnv, slots: Slots) {
    var piece := ImageBase64(slots.piece, env.pieceDownload);
    var bg := ImageBase64(slots.bg, env.bgDownload);
    piece.Data? && Truthy(piece.base64) && bg.Data? && Truthy(bg.base64)
  }

  predicate AnswerReady(polled: PollOutcome) {
    !polled.threw && Truthy(polled.result) && ParseInt.ParseInt(polled.result.value).Some?
  }

  /** A converted image is never truthy for an empty slot. */
  lemma EmptySlotNoImage(src: Option<string>, download: Download)
    requires !Truthy(src)
    ensures ImageBase64(src, download) == Data(None)
  {
  }

  /** A drag happens exactly when every guard passes, and then it moves the
      handle by the parsed answer: from the handle's centre to the centre plus
      the offset. In particular no solution, or an answer that parses to NaN,
      means no drag. */
  lemma SolveDragsIffGuardsPass(env: SolveEnv)
    requires WellFormed(env)
    ensures Solve(env).Dragged? <==> ReachesDrag(env)
    ensures Solve(env).Dragged? ==>
      var n := ParseInt.ParseInt(Polling(env.pollReplies, 0).result.value).value;
      var box := env.handleBox.value;
      && Solve(env).offset == n
      && Solve(env).trace == DragTrace(box.x + box.width / 2.0, n as real)
  {
    if KeyUsable(env.apiKey) && env.challenge.Some? {
      var slots := AssignSlots(env.challenge.value);
      assert Solve(env) == WithSlots(env, slots);
      var piece := ImageBase64(slots.piece, env.pieceDownload);
      var bg := ImageBase64(slots.bg, env.bgDownload);
      if piece.Data? && bg.Data? {
        if Truthy(piece.base64) && !Truthy(slots.piece) {
          EmptySlotNoImage(slots.piece, env.pieceDownload);
        }
        assert WithSlots(env, slots) == WithImages(env, piece.base64, bg.base64) || !ImagesReady(env, slots);
        WithImagesDrags(env, piece.base64, bg.base64);
      }
    }
  }

  /** The guard chain from the image check on. */
  lemma WithImagesDrags(env: SolveEnv, piece64: Option<string>, bg64: Option<string>)
    requires WellFormed(env)
    ensures var o := WithImages(env, piece64, bg64);
      && (o.Dragged? <==>
            Truthy(piece64) && Truthy(bg64) && env.submitReply.Object? && Truthy(env.submitReply.request)
            && AnswerReady(Polling(env.pollReplies, 0)) && env.handleFound && env.handleBox.Some?)
      && (o.Dragged? ==>
            var n := ParseInt.ParseInt(Polling(env.pollReplies, 0).result.value).value;
            var box := env.handleBox.value;
            o == Dragged(n, DragTrace(box.x + box.width / 2.0, n as real)))
  {
    var polled := Polling(env.pollReplies, 0);
    WithPolledDrags(env, polled);
    if Truthy(piece64) && Truthy(bg64) && env.submitReply.Object? && Truthy(env.submitReply.request) {
      assert WithImages(env, piece64, bg64) == WithPolled(env, polled);
    }
  }

  /** The guard chain from the end of polling on. */
  lemma WithPolledDrags(env: SolveEnv, polled: PollOutcome)
    ensures var o := WithPolled(env, polled);
      && (o.Dragged? <==> AnswerReady(polled) && env.handleFound && env.handleBox.Some?)
      && (o.Dragged? ==>
            var n := ParseInt.ParseInt(polled.result.value).value;
            var box := env.handleBox.value;
            o == Dragged(n, DragTrace(box.x + box.width / 2.0, n as real)))
  {
  }

  /** The scenario of a service answering "137": the drag ends at the handle's
      centre plus 137 pixels. */
  lemma AnswerIsDragDistance(env: SolveEnv, n: int)
    requires WellFormed(env) && ReachesDrag(env)
    requires Polling(env.pollReplies, 0).result == Some(SignedNumeral(n))
    ensures var box := env.handleBox.value;
      && Solve(env).Dragged?
      && Solve(env).offset == n
      && Solve(env).trace[Steps + 2] == Move(box.x + box.width / 2.0 + n as real)
  {
    var box := env.handleBox.value;
    AnswerParses(n);
    DragByAnswer(env, n);
    TraceShape(box.x + box.width / 2.0, n as real);
  }

  /** With every guard passing, the drag moves the handle by the parsed
      answer. */
  lemma DragByAnswer(env: SolveEnv, n: int)
    requires WellFormed(env) && ReachesDrag(env)
    requires ParseInt.ParseInt(Polling(env.pollReplies, 0).result.value) == Some(n)
    ensures var box := env.handleBox.value;
      Solve(env) == Dragged(n, DragTrace(box.x + box.width / 2.0, n as real))
  {
    SolveDragsIffGuardsPass(env);
  }

  lemma AnswerParses(n: int)
    ensures ParseInt.ParseInt(SignedNumeral(n)) == Some(n)
  {
    NumeralRoundTrip(n, []);
    assert SignedNumeral(n) + [] == SignedNumeral(n);
  }
}
