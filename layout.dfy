/**
 * Where `Vertex.add_child` places a new vertex, relative to the position of
 * its parent, and when it refuses to add one.
 */
module Layout {
  import opened Mtg

  /**
   * The angle of a new "+" son when `n` "+" sons exist: -60 + 30 * n, with
   * `n` stepped over 2, so the angles run -60, -30, 30, 60, 90, ...
   */
  function BranchAngle(n: nat): (angle: int)
    ensures angle != 0
    ensures angle % 30 == 0 && angle >= -60
    ensures angle < 0 <==> n < 2
  {
    var m := if n < 60 / 30 then n else n + 1;
    -60 + m * 30
  }

  /** Each new "+" son fans out further; the step is 30 degrees, 60 across the skipped 0. */
  lemma BranchAnglesIncrease(m: nat, n: nat)
    requires m < n
    ensures BranchAngle(m) < BranchAngle(n)
    ensures BranchAngle(n) - BranchAngle(m) == 30 * (n - m) + (if m < 2 <= n then 30 else 0)
  {
  }

  datatype Placement = Rejected | Placed(pos: Pos)

  /**
   * The placement rule: from the parent position `p`, the kind of the new
   * edge and the number of existing sons of that kind. `dx(a)` stands for
   * the floating-point offset `sin(radians(a)) * 80`.
   */
  function Place(p: Pos, kind: EdgeKind, sameKindSons: nat, dx: int -> real): (r: Placement)
    ensures r.Rejected? <==> kind == Successor && sameKindSons > 0
    ensures r.Placed? && (kind == Successor || kind == Branch) ==> r.pos.y == p.y - 40.0
    ensures r.Placed? && kind == Successor ==> r.pos.x == p.x
    ensures r.Placed? && kind == Branch ==> r.pos.x == p.x + dx(BranchAngle(sameKindSons))
    ensures r.Placed? && (kind == Component || kind == Complex) ==> r.pos.y == p.y
    ensures r.Placed? && kind == Component ==> r.pos.x == p.x + 200.0
    ensures r.Placed? && kind == Complex ==> r.pos.x == p.x - 200.0
  {
    var y := if kind == Branch || kind == Successor then p.y - 40.0 else p.y;
    if kind == Successor && sameKindSons > 0 then Rejected
    else if kind == Branch then Placed(Pos(p.x + dx(BranchAngle(sameKindSons)), y))
    else if kind == Component then Placed(Pos(p.x + 200.0, y))
    else if kind == Complex then Placed(Pos(p.x - 200.0, y))
    else Placed(Pos(p.x, y))
  }

  function Shift(p: Pos, d: Pos): Pos {
    Pos(p.x + d.x, p.y + d.y)
  }

  /** The rule only looks at offsets: moving the parent moves the new vertex alike. */
  lemma PlaceCommutesWithShift(p: Pos, d: Pos, kind: EdgeKind, n: nat, dx: int -> real)
    ensures var r := Place(p, kind, n, dx);
      var r' := Place(Shift(p, d), kind, n, dx);
      r'.Rejected? == r.Rejected? && (r.Placed? ==> r'.pos == Shift(r.pos, d))
  {
  }

  /** A complex placed from a component lands back at the position of the component's parent. */
  lemma ComplexUndoesComponent(p: Pos, n: nat, m: nat, dx: int -> real)
    ensures Place(Place(p, Component, n, dx).pos, Complex, m, dx) == Placed(p)
  {
  }
}
