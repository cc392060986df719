/** `TransformStack`: a stack of 4×4 matrices whose top is post-multiplied by
    translations, scalings and rotations about the z axis, and used to map
    points forward and (for hit-testing) backward. */
module TransformStacks {
  import opened Basics

  /** A matrix of the shape
        [ a  b  0   tx ]
        [ c  d  0   ty ]
        [ 0  0  sz  0  ]
        [ 0  0  0   1  ]
      which is the shape of every matrix the stack can hold: the identity has
      it and translate, scale and rotate keep it. */
  datatype Affine = Affine(a: real, b: real, c: real, d: real, tx: real, ty: real, sz: real)

  const Identity: Affine := Affine(1.0, 0.0, 0.0, 1.0, 0.0, 0.0, 1.0)

  /** A rotation angle given by its cosine and sine (trigonometry is not modelled). */
  type Rotation = r: (real, real) | r.0 * r.0 + r.1 * r.1 == 1.0 witness (1.0, 0.0)

  /** `transform_point` on `(x, y, 0)`, keeping the first two coordinates. */
  function Apply(m: Affine, p: Vec2): Vec2
  {
    Vec2(m.a * p.x + m.b * p.y + m.tx, m.c * p.x + m.d * p.y + m.ty)
  }

  /** Determinant of the 4×4 matrix. */
  function Det(m: Affine): real
  {
    m.sz * (m.a * m.d - m.b * m.c)
  }

  /** `nalgebra_glm::translate(m, (x, y, 0))`, that is `m * T`. */
  function Translated(m: Affine, x: real, y: real): (r: Affine)
    ensures forall p :: Apply(r, p) == Apply(m, Vec2(p.x + x, p.y + y))
    ensures Det(r) == Det(m)
  {
    var r := m.(tx := m.a * x + m.b * y + m.tx, ty := m.c * x + m.d * y + m.ty);
    forall p
      ensures Apply(r, p) == Apply(m, Vec2(p.x + x, p.y + y))
    {
      var q := Vec2(p.x + x, p.y + y);
      ShiftRow(m.a, m.b, m.tx, x, y, p.x, p.y, q.x, q.y, r.tx);
      ShiftRow(m.c, m.d, m.ty, x, y, p.x, p.y, q.x, q.y, r.ty);
    }
    r
  }

  /** One row of `m * T`: translating first moves the row's constant term. */
  lemma ShiftRow(u: real, v: real, t: real, x: real, y: real, px: real, py: real,
                 qx: real, qy: real, rt: real)
    requires qx == px + x && qy == py + y && rt == u * x + v * y + t
    ensures u * px + v * py + rt == u * qx + v * qy + t
  {
    assert u * qx == u * px + u * x;
    assert v * qy == v * py + v * y;
  }

  /** `nalgebra_glm::scale(m, (x, y, 0))`, that is `m * diag(x, y, 0, 1)`:
      the z factor is 0, so the result is always singular. */
  function Scaled(m: Affine, x: real, y: real): (r: Affine)
    ensures forall p :: Apply(r, p) == Apply(m, Vec2(x * p.x, y * p.y))
    ensures Det(r) == 0.0
  {
    var r := m.(a := m.a * x, c := m.c * x, b := m.b * y, d := m.d * y, sz := 0.0);
    forall p
      ensures Apply(r, p) == Apply(m, Vec2(x * p.x, y * p.y))
    {
      var q := Vec2(x * p.x, y * p.y);
      ScaleRow(m.a, m.b, x, y, p.x, p.y, r.a, r.b, q.x, q.y);
      ScaleRow(m.c, m.d, x, y, p.x, p.y, r.c, r.d, q.x, q.y);
    }
    r
  }

  /** One row of `m * S`: the scaled row applied to `(px, py)` is the old row
      applied to the scaled point `(qx, qy)`. */
  lemma ScaleRow(u: real, v: real, x: real, y: real, px: real, py: real, ru: real, rv: real,
                 qx: real, qy: real)
    requires ru == u * x && rv == v * y && qx == x * px && qy == y * py
    ensures ru * px + rv * py == u * qx + v * qy
  {
    assert ru * px == u * (x * px);
    assert rv * py == v * (y * py);
  }

  /** Rotating the point by `rot` about the origin. */
  function Rotate2(rot: Rotation, p: Vec2): Vec2
  {
    Vec2(rot.0 * p.x - rot.1 * p.y, rot.1 * p.x + rot.0 * p.y)
  }

  /** `nalgebra_glm::rotate(m, angle, z)`, that is `m * R`. */
  function Rotated(m: Affine, rot: Rotation): (r: Affine)
    ensures forall p :: Apply(r, p) == Apply(m, Rotate2(rot, p))
    ensures Det(r) == Det(m)
  {
    var co, si := rot.0, rot.1;
    var r := m.(a := m.a * co + m.b * si, b := m.b * co - m.a * si,
                c := m.c * co + m.d * si, d := m.d * co - m.c * si);
    RotateDet(m.a, m.b, m.c, m.d, co, si, r.a, r.b, r.c, r.d);
    RotatedApply(m, r, rot);
    r
  }

  lemma RotatedApply(m: Affine, r: Affine, rot: Rotation)
    requires r.a == m.a * rot.0 + m.b * rot.1 && r.b == m.b * rot.0 - m.a * rot.1
    requires r.c == m.c * rot.0 + m.d * rot.1 && r.d == m.d * rot.0 - m.c * rot.1
    requires r.tx == m.tx && r.ty == m.ty
    ensures forall p :: Apply(r, p) == Apply(m, Rotate2(rot, p))
  {
    forall p
      ensures Apply(r, p) == Apply(m, Rotate2(rot, p))
    {
      var q := Rotate2(rot, p);
      RotateRow(m.a, m.b, rot.0, rot.1, p.x, p.y, r.a, r.b, q.x, q.y);
      RotateRow(m.c, m.d, rot.0, rot.1, p.x, p.y, r.c, r.d, q.x, q.y);
      SameRows(m, r, p, q);
    }
  }

  /** Two matrices with the same translation map `p` and `q` to the same
      point when their linear rows agree on them. */
  lemma SameRows(m: Affine, r: Affine, p: Vec2, q: Vec2)
    requires r.a * p.x + r.b * p.y == m.a * q.x + m.b * q.y
    requires r.c * p.x + r.d * p.y == m.c * q.x + m.d * q.y
    requires r.tx == m.tx && r.ty == m.ty
    ensures Apply(r, p) == Apply(m, q)
  {
  }

  /** A rotation by a unit `(co, si)` keeps the 2×2 determinant. */
  lemma RotateDet(a: real, b: real, c: real, d: real, co: real, si: real,
                  ra: real, rb: real, rc: real, rd: real)
    requires co * co + si * si == 1.0
    requires ra == a * co + b * si && rb == b * co - a * si
    requires rc == c * co + d * si && rd == d * co - c * si
    ensures ra * rd - rb * rc == a * d - b * c
  {
    assert ra * rd - rb * rc == (a * d - b * c) * (co * co + si * si);
  }

  /** One row of `m * R`: the rotated row applied to `(x, y)` is the old row
      applied to the rotated point `(qx, qy)`. */
  lemma RotateRow(u: real, v: real, co: real, si: real, x: real, y: real, ru: real, rv: real,
                  qx: real, qy: real)
    requires ru == u * co + v * si && rv == v * co - u * si
    requires qx == co * x - si * y && qy == si * x + co * y
    ensures ru * x + rv * y == u * qx + v * qy
  {
    assert ru * x == u * co * x + v * si * x;
    assert rv * y == v * co * y - u * si * y;
    assert u * qx == u * co * x - u * si * y;
    assert v * qy == v * si * x + v * co * y;
  }

  /** The point that `m` sends to `q`, computed from the inverse matrix;
      `None` when `try_inverse` fails. */
  function InvApply(m: Affine, q: Vec2): (r: Option<Vec2>)
    ensures r.None? <==> Det(m) == 0.0
    ensures r.Some? ==> Apply(m, r.value) == q
  {
    if Det(m) == 0.0 then None
    else
      var k := m.a * m.d - m.b * m.c;
      var u, v := q.x - m.tx, q.y - m.ty;
      var p := Vec2((m.d * u - m.b * v) / k, (m.a * v - m.c * u) / k);
      InvApplyCorrect(m.a, m.b, m.c, m.d, u, v, k);
      Some(p)
  }

  lemma InvApplyCorrect(a: real, b: real, c: real, d: real, u: real, v: real, k: real)
    requires k == a * d - b * c && k != 0.0
    ensures a * ((d * u - b * v) / k) + b * ((a * v - c * u) / k) == u
    ensures c * ((d * u - b * v) / k) + d * ((a * v - c * u) / k) == v
  {
    assert a * (d * u - b * v) + b * (a * v - c * u) == k * u;
    assert c * (d * u - b * v) + d * (a * v - c * u) == k * v;
  }

  /** Mapping forward and then backward through an invertible matrix gives
      the point back. */
  lemma InvApplyApply(m: Affine, p: Vec2)
    requires Det(m) != 0.0
    ensures InvApply(m, Apply(m, p)) == Some(p)
  {
    var q := InvApply(m, Apply(m, p)).value;
    var k := m.a * m.d - m.b * m.c;
    var dx, dy := q.x - p.x, q.y - p.y;
    assert m.a * dx + m.b * dy == 0.0;
    assert m.c * dx + m.d * dy == 0.0;
    assert k * dx == m.d * (m.a * dx + m.b * dy) - m.b * (m.c * dx + m.d * dy);
    assert k * dy == m.a * (m.c * dx + m.d * dy) - m.c * (m.a * dx + m.b * dy);
  }

  datatype TransformStack = TransformStack(stack: seq<Affine>)
  {
    function Top(): Affine
      requires |stack| > 0
    {
      stack[|stack| - 1]
    }
  }

  /** `TransformStack::new`. */
  function New(): (s: TransformStack)
    ensures s.stack == [Identity]
    ensures forall p :: Apply(s.Top(), p) == p
  {
    TransformStack([Identity])
  }

  /** `push`: duplicate the top. `None` stands for the panic of
      `last().unwrap()` on an empty stack. */
  function Push(s: TransformStack): (r: Option<TransformStack>)
    ensures r.None? <==> |s.stack| == 0
    ensures r.Some? ==> |r.value.stack| == |s.stack| + 1
    ensures r.Some? ==> r.value.stack[..|s.stack|] == s.stack && r.value.Top() == s.Top()
  {
    if |s.stack| == 0 then None else Some(TransformStack(s.stack + [s.Top()]))
  }

  /** `pop`: `Vec::pop` on an empty vector does nothing. */
  function Pop(s: TransformStack): (r: TransformStack)
    ensures |s.stack| > 0 ==> |r.stack| == |s.stack| - 1 && r.stack == s.stack[..|s.stack| - 1]
    ensures |s.stack| == 0 ==> r == s
  {
    if |s.stack| == 0 then s else TransformStack(s.stack[..|s.stack| - 1])
  }

  /** Replace the top entry. */
  function SetTop(s: TransformStack, m: Affine): (r: TransformStack)
    requires |s.stack| > 0
    ensures |r.stack| == |s.stack| && r.Top() == m
    ensures r.stack[..|s.stack| - 1] == s.stack[..|s.stack| - 1]
  {
    TransformStack(s.stack[..|s.stack| - 1] + [m])
  }

  /** `translate`: afterwards the top maps `p` where it used to map `p + (x, y)`. */
  function Translate(s: TransformStack, x: real, y: real): (r: Option<TransformStack>)
    ensures r.None? <==> |s.stack| == 0
    ensures r.Some? ==> |r.value.stack| == |s.stack|
    ensures r.Some? ==> r.value.stack[..|s.stack| - 1] == s.stack[..|s.stack| - 1]
    ensures r.Some? ==> forall p :: Apply(r.value.Top(), p) == Apply(s.Top(), Vec2(p.x + x, p.y + y))
  {
    if |s.stack| == 0 then None else Some(SetTop(s, Translated(s.Top(), x, y)))
  }

  /** `scale`: passes a z factor of 0, so the new top is never invertible. */
  function Scale(s: TransformStack, x: real, y: real): (r: Option<TransformStack>)
    ensures r.None? <==> |s.stack| == 0
    ensures r.Some? ==> |r.value.stack| == |s.stack|
    ensures r.Some? ==> r.value.stack[..|s.stack| - 1] == s.stack[..|s.stack| - 1]
    ensures r.Some? ==> forall p :: Apply(r.value.Top(), p) == Apply(s.Top(), Vec2(x * p.x, y * p.y))
    ensures r.Some? ==> Det(r.value.Top()) == 0.0
  {
    if |s.stack| == 0 then None else Some(SetTop(s, Scaled(s.Top(), x, y)))
  }

  /** `rotate` about the z axis. */
  function Rotate(s: TransformStack, rot: Rotation): (r: Option<TransformStack>)
    ensures r.None? <==> |s.stack| == 0
    ensures r.Some? ==> |r.value.stack| == |s.stack|
    ensures r.Some? ==> r.value.stack[..|s.stack| - 1] == s.stack[..|s.stack| - 1]
    ensures r.Some? ==> forall p :: Apply(r.value.Top(), p) == Apply(s.Top(), Rotate2(rot, p))
    ensures r.Some? ==> Det(r.value.Top()) == Det(s.Top())
  {
    if |s.stack| == 0 then None else Some(SetTop(s, Rotated(s.Top(), rot)))
  }

  /** `transform`. */
  function Transform(s: TransformStack, p: Vec2): (r: Option<Vec2>)
    ensures r.None? <==> |s.stack| == 0
    ensures r.Some? ==> r.value == Apply(s.Top(), p)
  {
    if |s.stack| == 0 then None else Some(Apply(s.Top(), p))
  }

  /** `inv_transform`: `None` on an empty stack and when the top is singular
      (`try_inverse().unwrap()` panics); otherwise a point the top maps to `q`. */
  function InvTransform(s: TransformStack, q: Vec2): (r: Option<Vec2>)
    ensures r.None? <==> |s.stack| == 0 || Det(s.Top()) == 0.0
    ensures r.Some? ==> Transform(s, r.value) == Some(q)
  {
    if |s.stack| == 0 then None else InvApply(s.Top(), q)
  }

  /** Push followed by pop restores the stack exactly. */
  lemma PushPop(s: TransformStack)
    requires |s.stack| > 0
    ensures Pop(Push(s).value) == s
  {
  }

  /** After any `scale` the inverse transform fails, whatever the factors. */
  lemma ScaleBlocksInverse(s: TransformStack, x: real, y: real, q: Vec2)
    requires |s.stack| > 0
    ensures InvTransform(Scale(s, x, y).value, q).None?
  {
  }

  /** The stack operations, for describing a sequence of calls. */
  datatype Op = PushOp | PopOp | TranslateOp(x: real, y: real) | ScaleOp(sx: real, sy: real) | RotateOp(rot: Rotation)

  function Step(s: TransformStack, op: Op): Option<TransformStack>
  {
    match op
    case PushOp => Push(s)
    case PopOp => Some(Pop(s))
    case TranslateOp(x, y) => Translate(s, x, y)
    case ScaleOp(x, y) => Scale(s, x, y)
    case RotateOp(rot) => Rotate(s, rot)
  }

  /** Run the calls in order; `None` once one of them panics. */
  function Run(s: TransformStack, ops: seq<Op>): Option<TransformStack>
    decreases |ops|
  {
    if |ops| == 0 then Some(s)
    else match Step(s, ops[0])
      case None => None
      case Some(s') => Run(s', ops[1..])
  }

  /** Every entry of the stack is an invertible matrix. */
  predicate AllInvertible(s: TransformStack)
  {
    forall i :: 0 <= i < |s.stack| ==> Det(s.stack[i]) != 0.0
  }

  predicate NoScale(ops: seq<Op>)
  {
    forall i :: 0 <= i < |ops| ==> !ops[i].ScaleOp?
  }

  /** Pushes, pops, translations and rotations keep every entry invertible. */
  lemma {:induction false} RunKeepsInvertible(s: TransformStack, ops: seq<Op>)
    requires AllInvertible(s) && NoScale(ops)
    ensures Run(s, ops).Some? ==> AllInvertible(Run(s, ops).value)
    decreases |ops|
  {
    if |ops| > 0 {
      match Step(s, ops[0])
      case None =>
      case Some(s') =>
        var n := |s.stack|;
        assert !ops[0].ScaleOp?;
        forall i | 0 <= i < |s'.stack|
          ensures Det(s'.stack[i]) != 0.0
        {
          if ops[0].PushOp? {
            if i < n { assert s'.stack[i] == s.stack[i]; } else { assert s'.stack[i] == s.stack[n - 1]; }
          } else if ops[0].PopOp? {
            assert s'.stack[i] == s.stack[i];
          } else if i < n - 1 {
            assert s'.stack[..n - 1][i] == s.stack[..n - 1][i];
          }
        }
        assert NoScale(ops[1..]) by {
          forall i | 0 <= i < |ops| - 1
            ensures !ops[1..][i].ScaleOp?
          {
            assert ops[1..][i] == ops[i + 1];
          }
        }
        RunKeepsInvertible(s', ops[1..]);
    }
  }

  /** For a top built from `new` by translations and rotations (with any
      pushes and pops), `inv_transform(transform(p)) == p`. */
  lemma InverseAfterRigidOps(ops: seq<Op>, p: Vec2)
    requires NoScale(ops)
    requires Run(New(), ops).Some? && |Run(New(), ops).value.stack| > 0
    ensures var s := Run(New(), ops).value; InvTransform(s, Transform(s, p).value) == Some(p)
  {
    RunKeepsInvertible(New(), ops);
    var s := Run(New(), ops).value;
    InvApplyApply(s.Top(), p);
  }

  /** Popping the base entry makes every later push, translate, scale, rotate,
      transform and inverse transform fail. */
  lemma PopBaseThenFail(x: real, y: real, rot: Rotation, p: Vec2)
    ensures Pop(New()).stack == []
    ensures Push(Pop(New())).None? && Translate(Pop(New()), x, y).None?
    ensures Scale(Pop(New()), x, y).None? && Rotate(Pop(New()), rot).None?
    ensures Transform(Pop(New()), p).None? && InvTransform(Pop(New()), p).None?
  {
  }
}
