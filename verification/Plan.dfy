/** The ways to cut a row into unrolled blocks, single limbs and interruptions. */
module Plan {

  /** One piece of a row; `Reload` is a STOP followed by an INIT that finds the processor's carry flag as given. */
  datatype Piece = Core | Huit | Reload(flag: int)

  function Size(p: Piece): nat {
    match p
    case Core => 1
    case Huit => 8
    case Reload(_) => 0
  }

  function Total(plan: seq<Piece>): nat {
    if plan == [] then 0 else Total(plan[..|plan| - 1]) + Size(plan[|plan| - 1])
  }

  lemma {:induction false} TotalMonotone(plan: seq<Piece>, i: nat)
    requires i <= |plan|
    ensures Total(plan[..i]) <= Total(plan)
  {
    if i == |plan| {
      assert plan[..i] == plan;
    } else {
      var front := plan[..|plan| - 1];
      TotalMonotone(front, i);
      assert front[..i] == plan[..i];
    }
  }

  lemma TotalGrows(plan: seq<Piece>, i: nat)
    requires i < |plan|
    ensures Total(plan[..i + 1]) == Total(plan[..i]) + Size(plan[i])
    ensures Total(plan[..i + 1]) <= Total(plan)
    ensures plan[..i + 1][..i] == plan[..i]
  {
    assert plan[..i + 1][..i] == plan[..i];
    TotalMonotone(plan, i + 1);
  }
}
