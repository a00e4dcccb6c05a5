/** The escalation of `crawlProduct` after navigation: when the page reads as
    blocked, up to three captcha attempts (`checkAndSolveCaptcha`, each
    followed by a re-check of the page), then, if the page is still blocked,
    a manual wait for the offer page whose timeout is swallowed. */
module Escalation {
  import opened Strings
  import opened PageState
  import opened Solver

  /** The attempt budget. */
  const MaxAttempts: nat := 3

  /** What the page shows during one attempt: whether `.sec-container` is
      there, what a solve started on it meets, and the page the re-check
      reads afterwards. */
  datatype Attempt = Attempt(hasContainer: bool, solve: SolveEnv, pageAfter: Page)

  /** The manual wait: not entered, released by the offer page, or timed out
      after 300000 ms (the exception is caught and only logged). */
  datatype ManualWait = NotWaited | AccessGranted | WaitTimedOut

  /** What the escalation did: how many times `checkAndSolveCaptcha` ran, the
      outcomes of the solves it started, the final `isBlocked`, and the manual
      wait. */
  datatype Escalation = Escalation(attempts: nat, solves: seq<SolveOutcome>, blocked: bool, manual: ManualWait)

  /** One attempt's answers are on hand for every iteration the loop may run. */
  predicate AttemptsWellFormed(attempts: seq<Attempt>) {
    |attempts| >= MaxAttempts && forall k :: 0 <= k < |attempts| ==> WellFormed(attempts[k].solve)
  }

  /** Where the attempt loop stops: the attempts made, the final `isBlocked`
      and how many solves were started. */
  datatype LoopEnd = LoopEnd(used: nat, blocked: bool, started: nat)

  /** The attempt loop from attempt `k` (counting from 0), entered blocked
      with `started` solves behind it. */
  function AttemptsFrom(attempts: seq<Attempt>, k: nat, started: nat): (r: LoopEnd)
    requires k <= MaxAttempts && AttemptsWellFormed(attempts)
    ensures k <= r.used <= MaxAttempts
    ensures k < MaxAttempts ==> k < r.used
    ensures started <= r.started <= started + (r.used - k)
    decreases MaxAttempts - k
  {
    if k == MaxAttempts then LoopEnd(MaxAttempts, true, started)
    else
      var a := attempts[k];
      if !a.hasContainer then LoopEnd(k + 1, true, started)
      else if !IsBlocked(a.pageAfter) then LoopEnd(k + 1, false, started + 1)
      else AttemptsFrom(attempts, k + 1, started + 1)
  }

  /** The outcomes of the solves started on the first `n` attempts. */
  function SolvesOf(attempts: seq<Attempt>, n: nat): (r: seq<SolveOutcome>)
    requires n <= MaxAttempts && AttemptsWellFormed(attempts)
    ensures |r| == n
  {
    seq(n, j requires 0 <= j < n => Solve(attempts[j].solve))
  }

  /** The manual wait: `waitUrls` are the addresses the page shows while the
      wait polls, up to its timeout. */
  function ManualOutcome(productId: string, waitUrls: seq<string>): ManualWait {
    if exists i :: 0 <= i < |waitUrls| && Released(waitUrls[i], productId) then AccessGranted
    else WaitTimedOut
  }

  /** The whole escalation for a page first read as `initial`. */
  function Escalate(productId: string, initial: Page, attempts: seq<Attempt>, waitUrls: seq<string>): Escalation
    requires AttemptsWellFormed(attempts)
  {
    if !IsBlocked(initial) then Escalation(0, [], false, NotWaited)
    else
      var end := AttemptsFrom(attempts, 0, 0);
      Escalation(end.used, SolvesOf(attempts, end.started), end.blocked,
                 if end.blocked then ManualOutcome(productId, waitUrls) else NotWaited)
  }

  /** The escalation as the source runs it: `attempt` counts from 1 to 3 and
      `isBlocked` is re-read after each solve. */
  method RunEscalation(productId: string, initial: Page, attempts: seq<Attempt>, waitUrls: seq<string>)
    returns (e: Escalation)
    requires AttemptsWellFormed(attempts)
    ensures e == Escalate(productId, initial, attempts, waitUrls)
  {
    var isBlocked := IsBlocked(initial);
    var used := 0;
    var solves: seq<SolveOutcome> := [];
    var manual := NotWaited;
    if isBlocked {
      var attempt := 1;
      while attempt <= MaxAttempts
        invariant 1 <= attempt <= MaxAttempts + 1
        invariant used == attempt - 1 && isBlocked
        invariant |solves| <= used && solves == SolvesOf(attempts, |solves|)
        invariant AttemptsFrom(attempts, used, |solves|) == AttemptsFrom(attempts, 0, 0)
      {
        var a := attempts[attempt - 1];
        used := attempt;
        // checkAndSolveCaptcha: true whenever the container exists
        var hadCaptcha := false;
        if a.hasContainer {
          var outcome := SolveSliderCaptcha(a.solve);
          solves := solves + [outcome];
          hadCaptcha := true;
        }
        if !hadCaptcha {
          break;
        }
        isBlocked := IsBlocked(a.pageAfter);
        if !isBlocked {
          break;
        }
        attempt := attempt + 1;
      }
      if isBlocked {
        manual := ManualOutcome(productId, waitUrls);
      }
    }
    e := Escalation(used, solves, isBlocked, manual);
  }

  // ---------------------------------------------------------------------------
  // What the escalation promises

  /** The attempt loop, from attempt `k` on: every attempt before the last one
      found a container and left the page blocked; the loop stops early only
      on a missing container or an unblocked page; and it ends blocked exactly
      when its last attempt found no container or left the page blocked. */
  lemma {:induction false} AttemptsFromStops(attempts: seq<Attempt>, k: nat, started: nat)
    requires k <= MaxAttempts && AttemptsWellFormed(attempts)
    ensures var r := AttemptsFrom(attempts, k, started);
      && (forall j :: k <= j < r.used - 1 ==> attempts[j].hasContainer && IsBlocked(attempts[j].pageAfter))
      && (k < r.used < MaxAttempts ==> !attempts[r.used - 1].hasContainer || !IsBlocked(attempts[r.used - 1].pageAfter))
      && (k < r.used ==> (r.blocked <==> !attempts[r.used - 1].hasContainer || IsBlocked(attempts[r.used - 1].pageAfter)))
      && (k == r.used ==> r.blocked)
    decreases MaxAttempts - k
  {
    if k < MaxAttempts && attempts[k].hasContainer && IsBlocked(attempts[k].pageAfter) {
      AttemptsFromStops(attempts, k + 1, started + 1);
    }
  }

  /** From attempt `k` on, the loop starts one solve per attempt it makes,
      except a last attempt that found no container. */
  lemma {:induction false} AttemptsFromCountsSolves(attempts: seq<Attempt>, k: nat, started: nat)
    requires k <= MaxAttempts && AttemptsWellFormed(attempts)
    ensures var r := AttemptsFrom(attempts, k, started);
      r.started == started + (r.used - k) - (if k < r.used && !attempts[r.used - 1].hasContainer then 1 else 0)
    decreases MaxAttempts - k
  {
    if k < MaxAttempts && attempts[k].hasContainer && IsBlocked(attempts[k].pageAfter) {
      AttemptsFromCountsSolves(attempts, k + 1, started + 1);
    }
  }

  /** The loop only decides on containers and re-checked pages: two runs that
      see the same containers and pages make the same attempts, start the
      same number of solves and end in the same state, whatever their solves
      did. */
  lemma {:induction false} AttemptsFromIgnoresSolves(a1: seq<Attempt>, a2: seq<Attempt>, k: nat, started: nat)
    requires k <= MaxAttempts && AttemptsWellFormed(a1) && AttemptsWellFormed(a2)
    requires forall j :: k <= j < MaxAttempts ==>
      a1[j].hasContainer == a2[j].hasContainer && a1[j].pageAfter == a2[j].pageAfter
    ensures AttemptsFrom(a1, k, started) == AttemptsFrom(a2, k, started)
    decreases MaxAttempts - k
  {
    if k < MaxAttempts && a1[k].hasContainer && IsBlocked(a1[k].pageAfter) {
      AttemptsFromIgnoresSolves(a1, a2, k + 1, started + 1);
    }
  }

  /** The escalation runs only when the first check reads the page as blocked,
      and then calls `checkAndSolveCaptcha` between one and three times,
      starting a solve on every call but possibly the last. */
  lemma EscalationBounds(productId: string, initial: Page, attempts: seq<Attempt>, waitUrls: seq<string>)
    requires AttemptsWellFormed(attempts)
    ensures var e := Escalate(productId, initial, attempts, waitUrls);
      && (!IsBlocked(initial) ==> e == Escalation(0, [], false, NotWaited))
      && (IsBlocked(initial) ==> 1 <= e.attempts <= MaxAttempts)
      && e.attempts - 1 <= |e.solves| <= e.attempts
  {
    if IsBlocked(initial) {
      AttemptsFromCountsSolves(attempts, 0, 0);
    }
  }

  /** The loop stops at the first attempt that finds no container or whose
      re-check reads the page as unblocked; every earlier attempt found a
      container and left the page blocked. A failed solve does not stop it:
      every solve started is recorded, one per attempt that found a
      container, in order. */
  lemma StopsAtFirstNoContainerOrUnblocked(productId: string, initial: Page, attempts: seq<Attempt>, waitUrls: seq<string>)
    requires AttemptsWellFormed(attempts)
    requires IsBlocked(initial)
    ensures var e := Escalate(productId, initial, attempts, waitUrls);
      && (forall j :: 0 <= j < e.attempts - 1 ==> attempts[j].hasContainer && IsBlocked(attempts[j].pageAfter))
      && (e.attempts < MaxAttempts ==>
            !attempts[e.attempts - 1].hasContainer || !IsBlocked(attempts[e.attempts - 1].pageAfter))
      && |e.solves| == (if attempts[e.attempts - 1].hasContainer then e.attempts else e.attempts - 1)
      && (forall j :: 0 <= j < |e.solves| ==> e.solves[j] == Solve(attempts[j].solve))
  {
    AttemptsFromStops(attempts, 0, 0);
    AttemptsFromCountsSolves(attempts, 0, 0);
  }

  /** The manual wait is entered exactly when the page is still blocked after
      the loop, which needs a blocked first check and a last attempt that
      found no container or left the page blocked. A "no container" break
      always leads there. */
  lemma ManualWaitIffStillBlocked(productId: string, initial: Page, attempts: seq<Attempt>, waitUrls: seq<string>)
    requires AttemptsWellFormed(attempts)
    ensures var e := Escalate(productId, initial, attempts, waitUrls);
      && (e.manual != NotWaited <==> e.blocked)
      && (e.blocked <==>
            (IsBlocked(initial)
             && (!attempts[e.attempts - 1].hasContainer || IsBlocked(attempts[e.attempts - 1].pageAfter))))
      && (IsBlocked(initial) && !attempts[e.attempts - 1].hasContainer ==> e.manual != NotWaited)
  {
    if IsBlocked(initial) {
      AttemptsFromStops(attempts, 0, 0);
    }
  }

  /** How many attempts run, whether the page ends blocked and what the
      manual wait does depend only on the containers and the re-checked
      pages, never on how the solves went. */
  lemma ControlIgnoresSolveOutcomes(productId: string, initial: Page, a1: seq<Attempt>, a2: seq<Attempt>, waitUrls: seq<string>)
    requires AttemptsWellFormed(a1) && AttemptsWellFormed(a2)
    requires forall j :: 0 <= j < MaxAttempts ==>
      a1[j].hasContainer == a2[j].hasContainer && a1[j].pageAfter == a2[j].pageAfter
    ensures var e1, e2 := Escalate(productId, initial, a1, waitUrls), Escalate(productId, initial, a2, waitUrls);
      e1.attempts == e2.attempts && e1.blocked == e2.blocked && e1.manual == e2.manual
  {
    AttemptsFromIgnoresSolves(a1, a2, 0, 0);
  }

  /** The manual wait grants access exactly when one of the addresses it sees
      releases it, and such an address shows the product's offer page and is
      not one the classifier reads as a verification or login address;
      otherwise the wait times out. */
  lemma ManualWaitRelease(productId: string, initial: Page, attempts: seq<Attempt>, waitUrls: seq<string>)
    requires AttemptsWellFormed(attempts)
    ensures var e := Escalate(productId, initial, attempts, waitUrls);
      && (e.manual == AccessGranted ==>
            exists i :: 0 <= i < |waitUrls| && Contains(waitUrls[i], ProductPath(productId)) && !UrlMarked(waitUrls[i]))
      && (e.blocked ==>
            (e.manual == AccessGranted <==> exists i :: 0 <= i < |waitUrls| && Released(waitUrls[i], productId)))
      && (e.blocked && (forall i :: 0 <= i < |waitUrls| ==> !Released(waitUrls[i], productId)) ==> e.manual == WaitTimedOut)
  {
    var e := Escalate(productId, initial, attempts, waitUrls);
    if e.manual == AccessGranted {
      var i :| 0 <= i < |waitUrls| && Released(waitUrls[i], productId);
      ReleasedUrlIsUnmarked(waitUrls[i], productId);
    }
  }
}
