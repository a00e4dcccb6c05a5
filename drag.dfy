/** The slider drag of `solveSliderCaptcha`: move to the handle's centre, press,
    40 intermediate moves along an ease-out quadratic curve, one final move to
    the exact target, release. Positions are exact reals; the random vertical
    jitter and the delays between moves are not part of the model, so a move
    carries only its x coordinate. */
module Drag {

  /** The number of intermediate moves. */
  const Steps: nat := 40

  datatype MouseEvent = Move(x: real) | Down | Up

  /** `r * r`: the curve squares the progress still to go. */
  function Square(r: real): real {
    r * r
  }

  /** The ease-out curve: eased progress for linear progress `p`, one minus the
      square of the progress still to go. */
  function Eased(p: real): real {
    1.0 - Square(1.0 - p)
  }

  /** The eased progress of intermediate move `i`, with linear progress
      `i/40`. */
  function Ease(i: nat): real {
    Eased(i as real / 40.0)
  }

  /** The point reached at eased progress `ease` between `startX` and `targetX`. */
  function Position(startX: real, targetX: real, ease: real): real {
    startX + (targetX - startX) * ease
  }

  /** The x coordinate of intermediate move `i`. */
  function StepX(startX: real, targetX: real, i: nat): real {
    Position(startX, targetX, Ease(i))
  }

  /** The events the drag sends, for a handle centred at `startX` and an offset
      of `solutionX` pixels. */
  function DragTrace(startX: real, solutionX: real): seq<MouseEvent> {
    var targetX := startX + solutionX;
    [Move(startX), Down]
      + seq(Steps, i requires 0 <= i < Steps => Move(StepX(startX, targetX, i)))
      + [Move(targetX), Up]
  }

  /** The drag loop, computing each position with the source's formula:
      progress `i/40`, eased to `1 - (1 - progress)^2`. */
  method Drag(startX: real, solutionX: real) returns (trace: seq<MouseEvent>)
    ensures trace == DragTrace(startX, solutionX)
  {
    var targetX := startX + solutionX;
    trace := [Move(startX), Down];
    for i := 0 to Steps
      invariant |trace| == 2 + i
      invariant trace[..2] == [Move(startX), Down]
      invariant forall k :: 0 <= k < i ==> trace[2 + k] == Move(StepX(startX, targetX, k))
    {
      var progress := i as real / Steps as real;
      var ease := 1.0 - Square(1.0 - progress);
      assert ease == Ease(i) by {
        assert Steps as real == 40.0;
      }
      var nextX := startX + (targetX - startX) * ease;
      trace := trace + [Move(nextX)];
    }
    trace := trace + [Move(targetX), Up];
  }

  // ---------------------------------------------------------------------------
  // What the schedule promises

  /** The curve starts at 0 and ends at 1. */
  lemma EasedEnds()
    ensures Eased(0.0) == 0.0 && Eased(1.0) == 1.0
  {
  }

  /** In between it stays within [0, 1]. */
  lemma EasedWithin(p: real)
    requires 0.0 <= p <= 1.0
    ensures 0.0 <= Eased(p) <= 1.0
  {
    SquareWithin(1.0 - p);
  }

  /** Before the end it stays below 1. */
  lemma EasedBelowOne(p: real)
    requires p < 1.0
    ensures Eased(p) < 1.0
  {
    SquarePositive(1.0 - p);
  }

  /** The curve rises strictly. */
  lemma EasedIncreasing(p: real, q: real)
    requires 0.0 <= p < q <= 1.0
    ensures Eased(p) < Eased(q)
  {
    SquareLess(1.0 - q, 1.0 - p);
  }

  /** The first intermediate move has eased progress 0, and the schedule would
      reach 1 at step 40. */
  lemma EaseEnds()
    ensures Ease(0) == 0.0 && Ease(Steps) == 1.0
  {
    calc {
      Ease(0);
    == Eased(0.0);
    == { EasedEnds(); }
      0.0;
    }
    calc {
      Ease(Steps);
    == Eased(1.0);
    == { EasedEnds(); }
      1.0;
    }
  }

  /** Eased progress stays within [0, 1], and below 1 for every intermediate
      move. */
  lemma EaseBounds(i: nat)
    requires i <= Steps
    ensures 0.0 <= Ease(i) <= 1.0
    ensures i < Steps ==> Ease(i) < 1.0
  {
    var p := i as real / 40.0;
    EasedWithin(p);
    if i < Steps {
      EasedBelowOne(p);
    }
  }

  /** Eased progress grows strictly from one step to the next. */
  lemma EaseIncreasing(i: nat, j: nat)
    requires i < j <= Steps
    ensures Ease(i) < Ease(j)
  {
    EasedIncreasing(i as real / 40.0, j as real / 40.0);
  }

  /** The drag is: one move to the handle, a press, 40 intermediate moves of
      which the first is on the handle, one move to the exact target, and a
      release. */
  lemma TraceShape(startX: real, solutionX: real)
    ensures var t := DragTrace(startX, solutionX);
      && |t| == Steps + 4
      && t[0] == Move(startX) && t[1] == Down
      && t[2] == Move(startX)
      && (forall k :: 2 <= k < Steps + 2 ==> t[k] == Move(StepX(startX, startX + solutionX, k - 2)))
      && t[Steps + 2] == Move(startX + solutionX) && t[Steps + 3] == Up
  {
    var targetX := startX + solutionX;
    calc {
      StepX(startX, targetX, 0);
    == Position(startX, targetX, Ease(0));
    == { EaseEnds(); }
      Position(startX, targetX, 0.0);
    == startX;
    }
  }

  /** Between the handle and a target to its right, a larger eased progress
      gives a point further right, and progress below 1 stays short of the
      target. */
  lemma PositionBetween(startX: real, targetX: real, a: real, b: real)
    requires startX < targetX && 0.0 <= a < b < 1.0
    ensures startX <= Position(startX, targetX, a) < Position(startX, targetX, b) < targetX
  {
    var d := targetX - startX;
    calc {
      startX;
    <= { ProductNonNegative(d, a); }
      startX + d * a;
    == Position(startX, targetX, a);
    }
    calc {
      Position(startX, targetX, a);
    == startX + d * a;
    < { ProductLess(d, a, b); }
      startX + d * b;
    == Position(startX, targetX, b);
    }
    calc {
      Position(startX, targetX, b);
    == startX + d * b;
    < { ProductLess(d, b, 1.0); }
      startX + d * 1.0;
    == targetX;
    }
  }

  /** Mirroring both ends mirrors every point between them. */
  lemma PositionMirror(startX: real, targetX: real, e: real)
    ensures Position(-startX, -targetX, e) == -Position(startX, targetX, e)
  {
    var d := targetX - startX;
    calc {
      Position(-startX, -targetX, e);
    == -startX + (-d) * e;
    == { NegatedProduct(d, e); }
      -startX - d * e;
    == -Position(startX, targetX, e);
    }
  }

  // ---------------------------------------------------------------------------
  // Products, one fact at a time

  lemma ProductNonNegative(x: real, y: real)
    requires 0.0 <= x && 0.0 <= y
    ensures 0.0 <= x * y
  {
  }

  lemma ProductPositive(x: real, y: real)
    requires 0.0 < x && 0.0 < y
    ensures 0.0 < x * y
  {
  }

  lemma ProductAtMost(x: real, y: real, z: real)
    requires 0.0 <= x && y <= z
    ensures x * y <= x * z
  {
  }

  lemma ProductLess(x: real, y: real, z: real)
    requires 0.0 < x && y < z
    ensures x * y < x * z
  {
  }

  lemma NegatedProduct(x: real, y: real)
    ensures (-x) * y == -(x * y)
  {
  }

  /** The square of a number in [0, 1] stays in [0, that number]. */
  lemma SquareWithin(r: real)
    requires 0.0 <= r <= 1.0
    ensures 0.0 <= Square(r) <= r
  {
    calc {
      0.0;
    <= { ProductNonNegative(r, r); }
      r * r;
    == Square(r);
    }
    calc {
      Square(r);
    == r * r;
    <= { ProductAtMost(r, r, 1.0); }
      r * 1.0;
    == r;
    }
  }

  /** The square of a positive number is positive. */
  lemma SquarePositive(r: real)
    requires 0.0 < r
    ensures 0.0 < Square(r)
  {
    calc {
      0.0;
    < { ProductPositive(r, r); }
      r * r;
    == Square(r);
    }
  }

  /** Squares of non-negative numbers keep their order. */
  lemma SquareLess(a: real, b: real)
    requires 0.0 <= a < b
    ensures Square(a) < Square(b)
  {
    calc {
      Square(a);
    == a * a;
    <= { ProductAtMost(a, a, b); }
      a * b;
    == b * a;
    < { ProductLess(b, a, b); }
      b * b;
    == Square(b);
    }
  }

  /** For a positive offset the intermediate moves go strictly rightwards, start
      on the handle and stay short of the target; only the final move lands on
      it. */
  lemma IntermediateBelowTarget(startX: real, solutionX: real, i: nat, j: nat)
    requires solutionX > 0.0
    requires i < j < Steps
    ensures var targetX := startX + solutionX;
      && startX <= StepX(startX, targetX, i) < StepX(startX, targetX, j) < targetX
  {
    EaseBounds(i);
    EaseBounds(j);
    EaseIncreasing(i, j);
    PositionBetween(startX, startX + solutionX, Ease(i), Ease(j));
  }

  /** For a negative offset the same holds leftwards. */
  lemma IntermediateAboveTarget(startX: real, solutionX: real, i: nat, j: nat)
    requires solutionX < 0.0
    requires i < j < Steps
    ensures var targetX := startX + solutionX;
      && startX >= StepX(startX, targetX, i) > StepX(startX, targetX, j) > targetX
  {
    EaseBounds(i);
    EaseBounds(j);
    EaseIncreasing(i, j);
    var a, b, targetX := Ease(i), Ease(j), startX + solutionX;
    PositionBetween(-startX, -targetX, a, b);
    PositionMirror(startX, targetX, a);
    PositionMirror(startX, targetX, b);
  }
}
