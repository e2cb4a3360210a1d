/**
 * Temporal stages of the examination pipeline: the n frames are split at
 * int(n * 0.33) and int(n * 0.66) into start, middle and end.
 */
module Stages {
  import opened Categories

  /** int(n * 0.33), taken as the integer floor of 33n/100. */
  function FirstBoundary(n: nat): (b: nat)
    ensures b * 100 <= n * 33 < b * 100 + 100
  {
    n * 33 / 100
  }

  /** int(n * 0.66), taken as the integer floor of 66n/100. */
  function SecondBoundary(n: nat): (b: nat)
    ensures b * 100 <= n * 66 < b * 100 + 100
  {
    n * 66 / 100
  }

  /** The position of a stage in time. */
  function Rank(s: Stage): nat
  {
    match s
    case Inicio => 0
    case Medio => 1
    case Final => 2
  }

  /** The stage of frame i among n frames: i compared with 0.33 n and 0.66 n. */
  function StageAt(i: nat, n: nat): (s: Stage)
    ensures s == Inicio <==> 100 * i <= 33 * n
    ensures s == Medio <==> 33 * n < 100 * i <= 66 * n
    ensures s == Final <==> 66 * n < 100 * i
  {
    if i <= FirstBoundary(n) then Inicio
    else if i <= SecondBoundary(n) then Medio
    else Final
  }

  /** The list of stages, one per frame, built by appending one stage per frame. */
  method AssignStages(n: nat) returns (stages: seq<Stage>)
    ensures |stages| == n
    ensures forall i :: 0 <= i < n ==> (stages[i] == Inicio <==> i <= n * 33 / 100)
    ensures forall i :: 0 <= i < n ==> (stages[i] == Medio <==> n * 33 / 100 < i <= n * 66 / 100)
    ensures forall i :: 0 <= i < n ==> (stages[i] == Final <==> n * 66 / 100 < i)
    ensures forall i :: 0 <= i < n ==> stages[i] == StageAt(i, n)
  {
    var b0, b1 := FirstBoundary(n), SecondBoundary(n);
    stages := [];
    for i := 0 to n
      invariant |stages| == i
      invariant forall k :: 0 <= k < i ==> stages[k] == StageAt(k, n)
    {
      if i <= b0 {
        stages := stages + [Inicio];
      } else if i <= b1 {
        stages := stages + [Medio];
      } else {
        stages := stages + [Final];
      }
    }
  }

  /** The first boundary never lies after the second. */
  lemma BoundariesOrdered(n: nat)
    ensures FirstBoundary(n) <= SecondBoundary(n)
    ensures SecondBoundary(n) < n || n == 0
  {
    var q0, q1 := FirstBoundary(n), SecondBoundary(n);
    assert q0 * 100 <= n * 33;
    assert n * 66 < q1 * 100 + 100;
    assert q0 * 200 <= n * 66;
  }

  /** Stages never go back in time: a later frame is never in an earlier stage. */
  lemma StagesNonDecreasing(i: nat, j: nat, n: nat)
    requires i <= j
    ensures Rank(StageAt(i, n)) <= Rank(StageAt(j, n))
  {
    BoundariesOrdered(n);
  }

  /** The first frame is always in the start stage, and with three or more frames all three stages occur. */
  lemma StagesAllOccur(n: nat)
    ensures n > 0 ==> StageAt(0, n) == Inicio
    ensures n >= 3 ==> StageAt(FirstBoundary(n) + 1, n) == Medio && FirstBoundary(n) + 1 < n
    ensures n >= 3 ==> StageAt(n - 1, n) == Final
  {
    if n >= 3 {
      var q0, q1 := FirstBoundary(n), SecondBoundary(n);
      assert q0 * 100 <= n * 33 < q0 * 100 + 100;
      assert q1 * 100 <= n * 66 < q1 * 100 + 100;
      assert q0 + 1 <= q1;
      assert q1 < n - 1;
    }
  }
}
