/*
 * A single rigid body: a position per dimension that is either a literal or
 * an expression in time, a velocity estimated by central differences, and a
 * static orientation.  The expression engine is outside the model: a
 * compiled expression is an optional function of time per dimension, and
 * evaluating it reads the body's current time.
 */
module Bodies {
  import opened ElementPackets

  const Dimensions: nat := 2

  /** Half-width of the central difference used for velocities (1e-5). */
  const VelStep: real := 0.00001

  /** A compiled position expression per dimension, or None for a literal position. */
  type Program = seq<Option<real -> real>>

  predicate HasExpression(funcs: Program) {
    exists i :: 0 <= i < |funcs| && funcs[i].Some?
  }

  /** One coordinate as `get_pos(t)` reports it: the expression's value at `t` where there
      is one, the stored literal otherwise. */
  function PosComponent(stored: real, f: Option<real -> real>, t: real): real {
    match f
    case Some(x) => x(t)
    case None => stored
  }

  /** What `get_pos(t)` reports. */
  function PosAt(stored: seq<real>, funcs: Program, t: real): (p: seq<real>)
    requires |stored| == Dimensions && |funcs| == Dimensions
    ensures |p| == Dimensions
  {
    [PosComponent(stored[0], funcs[0], t), PosComponent(stored[1], funcs[1], t)]
  }

  /** The two-point derivative estimate of `f` at `t`. */
  function CentralDifference(f: real -> real, t: real): real {
    (f(t + VelStep) - f(t - VelStep)) / (2.0 * VelStep)
  }

  /** One velocity component as `get_vel(t)` reports it: the central difference where there
      is an expression, the previously stored velocity otherwise. */
  function VelComponent(stored: real, f: Option<real -> real>, t: real): real {
    match f
    case Some(x) => CentralDifference(x, t)
    case None => stored
  }

  /** What `get_vel(t)` reports. */
  function VelAt(stored: seq<real>, funcs: Program, t: real): (v: seq<real>)
    requires |stored| == Dimensions && |funcs| == Dimensions
    ensures |v| == Dimensions
  {
    [VelComponent(stored[0], funcs[0], t), VelComponent(stored[1], funcs[1], t)]
  }

  /** A body without expressions reports its stored position and velocity at every time. */
  lemma LiteralBodyIsStatic(pos: seq<real>, vel: seq<real>, funcs: Program, t: real)
    requires |pos| == Dimensions && |vel| == Dimensions && |funcs| == Dimensions
    requires !HasExpression(funcs)
    ensures PosAt(pos, funcs, t) == pos && VelAt(vel, funcs, t) == vel
  {
    assert funcs[0].None? && funcs[1].None?;
  }

  /** Evaluating the positions twice at the same time changes nothing the second time. */
  lemma PosAtIdempotent(stored: seq<real>, funcs: Program, t: real)
    requires |stored| == Dimensions && |funcs| == Dimensions
    ensures PosAt(PosAt(stored, funcs, t), funcs, t) == PosAt(stored, funcs, t)
  {
  }

  /** A literal stored on a dimension that has an expression is overwritten by the next
      evaluation: `set_pos(i, v)` does not clear the expression. */
  lemma LiteralUnderExpressionIsLost(stored: seq<real>, funcs: Program, i: nat, v: real, t: real)
    requires |stored| == Dimensions && |funcs| == Dimensions && i < Dimensions && funcs[i].Some?
    ensures PosAt(stored[i := v], funcs, t) == PosAt(stored, funcs, t)
  {
  }

  /** Only the latest evaluation time matters for velocities: the stored values it reuses
      are exactly the ones no evaluation overwrites. */
  lemma VelAtAbsorbs(stored: seq<real>, funcs: Program, t1: real, t2: real)
    requires |stored| == Dimensions && |funcs| == Dimensions
    ensures VelAt(VelAt(stored, funcs, t1), funcs, t2) == VelAt(stored, funcs, t2)
  {
  }

  /** The central difference is exact for a quadratic motion a + b t + c t^2. */
  lemma CentralDifferenceExactForQuadratic(a: real, b: real, c: real, t: real)
    ensures CentralDifference(s => a + b * s + c * s * s, t) == b + 2.0 * c * t
  {
    var f := s => a + b * s + c * s * s;
    var h := VelStep;
    calc {
      f(t + h) - f(t - h);
      (a + b * (t + h) + c * (t + h) * (t + h)) - (a + b * (t - h) + c * (t - h) * (t - h));
      { QuadraticDifference(b, c, t, h); }
      2.0 * h * (b + 2.0 * c * t);
    }
  }

  lemma QuadraticDifference(b: real, c: real, t: real, h: real)
    ensures (b * (t + h) + c * (t + h) * (t + h)) - (b * (t - h) + c * (t - h) * (t - h))
            == 2.0 * h * (b + 2.0 * c * t)
  {
    assert c * (t + h) * (t + h) == c * t * t + 2.0 * c * t * h + c * h * h;
    assert c * (t - h) * (t - h) == c * t * t - 2.0 * c * t * h + c * h * h;
  }

  /** A body whose every dimension is an expression gets its velocity from the expressions alone. */
  lemma VelAtIgnoresStoredUnderExpressions(s1: seq<real>, s2: seq<real>, funcs: Program, t: real)
    requires |s1| == Dimensions && |s2| == Dimensions && |funcs| == Dimensions
    requires forall i :: 0 <= i < |funcs| ==> funcs[i].Some?
    ensures VelAt(s1, funcs, t) == VelAt(s2, funcs, t)
  {
  }

  class Body {
    var name: string
    var parent: string
    /** The time the expressions are evaluated at (the only variable they may use). */
    var thisTime: real
    var pos: seq<real>
    var vel: seq<real>
    var apos: real
    var avel: real
    var posExpr: seq<string>
    var posFunc: Program

    ghost predicate Valid()
      reads this
    {
      |pos| == Dimensions && |vel| == Dimensions && |posExpr| == Dimensions && |posFunc| == Dimensions
    }

    /** What the setters define; evaluation never changes it. */
    ghost function Definition(): (string, string, real, real, seq<string>, Program)
      reads this
    {
      (name, parent, apos, avel, posExpr, posFunc)
    }

    /** Body(x, y): at rest at (x, y), no expressions, time zero. */
    constructor (x: real, y: real)
      ensures Valid()
      ensures pos == [x, y] && vel == [0.0, 0.0] && apos == 0.0 && avel == 0.0 && thisTime == 0.0
      ensures posFunc == [None, None] && posExpr == ["", ""] && name == "" && parent == ""
    {
      name, parent := "", "";
      thisTime := 0.0;
      pos := [x, y];
      vel := [0.0, 0.0];
      apos, avel := 0.0, 0.0;
      posExpr := ["", ""];
      posFunc := [None, None];
    }

    /** Body(): the delegating constructor, a body at the origin. */
    constructor Default()
      ensures Valid()
      ensures pos == [0.0, 0.0] && vel == [0.0, 0.0] && apos == 0.0 && avel == 0.0 && thisTime == 0.0
      ensures posFunc == [None, None] && posExpr == ["", ""] && name == "" && parent == ""
    {
      name, parent := "", "";
      thisTime := 0.0;
      pos := [0.0, 0.0];
      vel := [0.0, 0.0];
      apos, avel := 0.0, 0.0;
      posExpr := ["", ""];
      posFunc := [None, None];
    }

    function GetName(): (n: string)
      reads this
      ensures n == name
    {
      name
    }

    /** set_name: a later `get_name` returns `n`; nothing else changes. */
    method SetName(n: string)
      modifies this
      ensures GetName() == n
      ensures parent == old(parent) && apos == old(apos) && avel == old(avel)
      ensures posExpr == old(posExpr) && posFunc == old(posFunc)
      ensures pos == old(pos) && vel == old(vel) && thisTime == old(thisTime)
    {
      name := n;
    }

    method SetParentName(n: string)
      modifies this
      ensures parent == n
      ensures name == old(name) && apos == old(apos) && avel == old(avel)
      ensures posExpr == old(posExpr) && posFunc == old(posFunc)
      ensures pos == old(pos) && vel == old(vel) && thisTime == old(thisTime)
    {
      parent := n;
    }

    /** set_pos(i, double): one literal coordinate; the expression of that dimension, if any,
        is kept (and wins at the next evaluation, see LiteralUnderExpressionIsLost). */
    method SetPosLiteral(i: nat, v: real)
      requires Valid() && i < Dimensions
      modifies this
      ensures Valid()
      ensures pos == old(pos)[i := v]
      ensures Definition() == old(Definition())
      ensures vel == old(vel) && thisTime == old(thisTime)
    {
      pos := pos[i := v];
    }

    /** set_pos(i, string): store the text and its compiled form; a text that fails to
        compile leaves None, discarding any earlier expression.  Positions are untouched. */
    method SetPosExpr(i: nat, expr: string, compiled: Option<real -> real>)
      requires Valid() && i < Dimensions
      modifies this
      ensures Valid()
      ensures posExpr == old(posExpr)[i := expr] && posFunc == old(posFunc)[i := compiled]
      ensures name == old(name) && parent == old(parent) && apos == old(apos) && avel == old(avel)
      ensures pos == old(pos) && vel == old(vel) && thisTime == old(thisTime)
    {
      posExpr := posExpr[i := expr];
      posFunc := posFunc[i := compiled];
    }

    /** get_pos(t): move the body's clock to `t` and evaluate every expression there. */
    method GetPos(t: real) returns (p: seq<real>)
      requires Valid()
      modifies this
      ensures Valid()
      ensures thisTime == t
      ensures pos == PosAt(old(pos), posFunc, t) && p == pos
      ensures Definition() == old(Definition()) && vel == old(vel)
    {
      thisTime := t;
      var i := 0;
      while i < Dimensions
        invariant 0 <= i <= Dimensions && Valid()
        invariant thisTime == t && Definition() == old(Definition()) && vel == old(vel)
        invariant forall k :: 0 <= k < i ==> pos[k] == PosAt(old(pos), posFunc, t)[k]
        invariant forall k :: i <= k < Dimensions ==> pos[k] == old(pos)[k]
      {
        if posFunc[i].Some? {
          pos := pos[i := posFunc[i].value(thisTime)];
        }
        i := i + 1;
      }
      p := pos;
    }

    /** get_vel(t): for each dimension with an expression, evaluate it one step after and
        one step before `t` and take the central difference.  The clock is left at the
        last evaluation, `t - VelStep`, if there was any. */
    method GetVel(t: real) returns (v: seq<real>)
      requires Valid()
      modifies this
      ensures Valid()
      ensures vel == VelAt(old(vel), posFunc, t) && v == vel
      ensures thisTime == (if HasExpression(posFunc) then t - VelStep else old(thisTime))
      ensures Definition() == old(Definition()) && pos == old(pos)
    {
      var i := 0;
      while i < Dimensions
        invariant 0 <= i <= Dimensions && Valid()
        invariant Definition() == old(Definition()) && pos == old(pos)
        invariant forall k :: 0 <= k < i ==> vel[k] == VelAt(old(vel), posFunc, t)[k]
        invariant forall k :: i <= k < Dimensions ==> vel[k] == old(vel)[k]
        invariant thisTime == (if HasExpression(posFunc[..i]) then t - VelStep else old(thisTime))
      {
        if posFunc[i].Some? {
          thisTime := t + VelStep;
          var pplus := posFunc[i].value(thisTime);
          thisTime := t - VelStep;
          var pminus := posFunc[i].value(thisTime);
          vel := vel[i := (pplus - pminus) / (2.0 * VelStep)];
        }
        assert posFunc[..i + 1] == posFunc[..i] + [posFunc[i]];
        i := i + 1;
      }
      assert posFunc[..i] == posFunc;
      v := vel;
    }

    /** get_orient(t): the stored angle, whatever the time. */
    function GetOrient(t: real): (a: real)
      reads this
      ensures a == apos
    {
      apos
    }

    /** get_rotvel(t): the stored angular velocity, whatever the time. */
    function GetRotvel(t: real): (w: real)
      reads this
      ensures w == avel
    {
      avel
    }
  }

  /** Orientation and rotation rate do not depend on the time asked for. */
  lemma OrientationIsStatic(b: Body, t1: real, t2: real)
    ensures b.GetOrient(t1) == b.GetOrient(t2) && b.GetRotvel(t1) == b.GetRotvel(t2)
  {
  }
}
