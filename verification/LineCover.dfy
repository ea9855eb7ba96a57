/** What is left of a clipped line covers its visible part, and stays beside the line
    (src/comdraw_driver.c:436-479). Truncation moves every cut towards the first end, by less
    than a pixel: that is why two pixels are enough for both ends. */
module LineCover {
  import opened Basics
  import opened LineClip

  /** q is p, or falls short of it by less than n on the way dir points. */
  predicate Lag(p: real, q: real, dir: int, n: nat) {
    if n == 0 then p == q
    else if dir >= 0 then 0.0 <= p - q < n as real else 0.0 <= q - p < n as real
  }

  predicate Along(dir: int, a: int, b: int) { if dir >= 0 then a <= b else a >= b }

  lemma LagMore(p: real, q: real, q': real, dir: int, n: nat)
    requires Lag(p, q, dir, n) && -1.0 < q' - q < 1.0
    requires if dir >= 0 then q' <= q else q' >= q
    ensures Lag(p, q', dir, n + 1)
  {
  }

  /** The point px, py is near one of the line from a1, b1 to a2, b2. */
  ghost predicate Beside(px: real, py: real, a1: int, b1: int, a2: int, b2: int, dx: int, dy: int, i: nat, j: nat) {
    exists s: real :: 0.0 <= s <= 1.0 && Lag(px, Mix(a1, a2, s), dx, i) && Lag(py, Mix(b1, b2, s), dy, j)
  }

  lemma MixTurned(a: int, b: int, t: real)
    ensures Mix(a, b, t) == Mix(b, a, 1.0 - t)
  {
    assert (1.0 - t) * (a - b) as real == (a - b) as real - t * (a - b) as real;
    assert t * (b - a) as real == -(t * (a - b) as real);
  }

  lemma DeviationTurned(va: int, ua: int, vb: int, ub: int, u: int, v: int)
    ensures Deviation(vb, ub, va, ua, u, v) == -Deviation(va, ua, vb, ub, u, v)
  {
    var a, b, c, d := ub - ua, v - va, u - ua, vb - va;
    assert (ua - ub) * (v - vb) == -(a * (b - d)) == a * d - a * b;
    assert (u - ub) * (va - vb) == -((c - a) * d) == a * d - c * d;
  }

  /** Cutting the first end: the point at the same height on the line that is left. */
  lemma SlideFirst(va: int, ua: int, vb: int, ub: int, u: int, s: real, dir: int) returns (s': real)
    requires ua != u && Between(u, ua, ub) && 0.0 <= s <= 1.0 && Along(dir, va, vb)
    requires if ua > u then Mix(ua, ub, s) <= u as real else Mix(ua, ub, s) >= u as real
    ensures 0.0 <= s' <= 1.0 && Mix(u, ub, s') == Mix(ua, ub, s)
    ensures var q, q' := Mix(va, vb, s), Mix(Cut(va, ua, vb, ub, u), vb, s');
      -1.0 < q' - q < 1.0 && if dir >= 0 then q' <= q else q' >= q
  {
    hide Mix, Cut, Deviation;
    CutError(va, ua, vb, ub, u);
    CutSign(va, ua, vb, ub, u);
    s' := Slide(va, ua, vb, ub, u, Cut(va, ua, vb, ub, u), s);
  }

  /** The same for the second end. */
  lemma SlideSecond(va: int, ua: int, vb: int, ub: int, u: int, s: real, dir: int) returns (s': real)
    requires ub != u && Between(u, ua, ub) && 0.0 <= s <= 1.0 && Along(dir, va, vb)
    requires if ub > u then Mix(ua, ub, s) <= u as real else Mix(ua, ub, s) >= u as real
    ensures 0.0 <= s' <= 1.0 && Mix(ua, u, s') == Mix(ua, ub, s)
    ensures var q, q' := Mix(va, vb, s), Mix(va, Cut(va, ua, vb, ub, u), s');
      -1.0 < q' - q < 1.0 && if dir >= 0 then q' <= q else q' >= q
  {
    hide Mix, Cut, Deviation;
    var v := Cut(va, ua, vb, ub, u);
    CutError(va, ua, vb, ub, u);
    CutSign(va, ua, vb, ub, u);
    DeviationTurned(va, ua, vb, ub, u, v);
    MixTurned(ua, ub, s);
    MixTurned(va, vb, s);
    var t := Slide(vb, ub, va, ua, u, v, 1.0 - s);
    s' := 1.0 - t;
    MixTurned(ua, u, s');
    MixTurned(va, v, s');
  }

  /** Back from the line that is left to the line before the cut. */
  lemma SlideBack(va: int, ua: int, vb: int, ub: int, u: int, v: int, s': real) returns (s: real)
    requires ua != ub && Between(u, ua, ub) && Abs(Deviation(va, ua, vb, ub, u, v)) < Abs(ub - ua)
    requires 0.0 <= s' <= 1.0
    ensures 0.0 <= s <= 1.0 && Mix(ua, ub, s) == Mix(u, ub, s')
    ensures var q, q' := Mix(va, vb, s), Mix(v, vb, s');
      && -1.0 < q' - q < 1.0
      && (Short(Deviation(va, ua, vb, ub, u, v), ub - ua) ==> q' <= q)
      && (Short(Deviation(va, ua, vb, ub, u, v), ua - ub) ==> q' >= q)
  {
    hide Mix, Deviation;
    var d, e := (ub - ua) as real, (ub - u) as real;
    var w := (1.0 - s') * e;
    Part(1.0 - s', e, w);
    var a := Quotient(w, d);
    s := 1.0 - a;
    MixBack(ua, ub, s);
    MixBack(u, ub, s');
    Apart(va, ua, vb, ub, u, v, s, 1.0 - s');
  }

  lemma BackFirst(va: int, ua: int, vb: int, ub: int, u: int, s': real, dir: int) returns (s: real)
    requires ua != ub && Between(u, ua, ub) && 0.0 <= s' <= 1.0 && Along(dir, va, vb)
    ensures 0.0 <= s <= 1.0 && Mix(ua, ub, s) == Mix(u, ub, s')
    ensures var q, q' := Mix(va, vb, s), Mix(Cut(va, ua, vb, ub, u), vb, s');
      -1.0 < q' - q < 1.0 && if dir >= 0 then q' <= q else q' >= q
  {
    hide Mix, Cut, Deviation;
    CutError(va, ua, vb, ub, u);
    CutSign(va, ua, vb, ub, u);
    s := SlideBack(va, ua, vb, ub, u, Cut(va, ua, vb, ub, u), s');
  }

  lemma BackSecond(va: int, ua: int, vb: int, ub: int, u: int, s': real, dir: int) returns (s: real)
    requires ua != ub && Between(u, ua, ub) && 0.0 <= s' <= 1.0 && Along(dir, va, vb)
    ensures 0.0 <= s <= 1.0 && Mix(ua, ub, s) == Mix(ua, u, s')
    ensures var q, q' := Mix(va, vb, s), Mix(va, Cut(va, ua, vb, ub, u), s');
      -1.0 < q' - q < 1.0 && if dir >= 0 then q' <= q else q' >= q
  {
    hide Mix, Cut, Deviation;
    var v := Cut(va, ua, vb, ub, u);
    CutError(va, ua, vb, ub, u);
    CutSign(va, ua, vb, ub, u);
    DeviationTurned(va, ua, vb, ub, u, v);
    MixTurned(ua, u, s');
    MixTurned(va, v, s');
    var t := SlideBack(vb, ub, va, ua, u, v, 1.0 - s');
    s := 1.0 - t;
    MixTurned(ua, ub, s);
    MixTurned(va, vb, s);
  }

  // ------------------------------------------------- one cut

  function V(c: Code): nat { if c.top || c.bottom then 1 else 0 }

  function H(c: Code): nat { if c.left || c.right then 1 else 0 }

  /** Errors after cutting at a side: V sides are level, so the cut is off sideways. */
  function X(c: Code, i: nat): nat { i + V(c) }

  function Y(c: Code, j: nat): nat { if V(c) == 1 then j else j + 1 }

  lemma FirstBeside(px: real, py: real, a1: int, b1: int, a2: int, b2: int, dx: int, dy: int, i: nat, j: nat, r: Rect)
    requires r.w >= 0 && r.h >= 0 && i <= 1 && j <= 1 && Along(dx, a1, a2) && Along(dy, b1, b2)
    requires Deep(px, py, r) && Beside(px, py, a1, b1, a2, b2, dx, dy, i, j)
    requires var c1, c2 := ComputeCode(a1, b1, r), ComputeCode(a2, b2, r); Out(c1) && !Share(c1, c2)
    ensures var c1 := ComputeCode(a1, b1, r);
      var p := CutPoint(a1, b1, a2, b2, r, c1);
      Beside(px, py, p.0, p.1, a2, b2, dx, dy, X(c1, i), Y(c1, j))
  {
    var c1 := ComputeCode(a1, b1, r);
    var p := CutPoint(a1, b1, a2, b2, r, c1);
    var s :| 0.0 <= s <= 1.0 && Lag(px, Mix(a1, a2, s), dx, i) && Lag(py, Mix(b1, b2, s), dy, j);
    hide Mix, Cut;
    if V(c1) == 1 {
      var s' := SlideFirst(a1, b1, a2, b2, p.1, s, dx);
      LagMore(px, Mix(a1, a2, s), Mix(p.0, a2, s'), dx, i);
    } else {
      var s' := SlideFirst(b1, a1, b2, a2, p.0, s, dy);
      LagMore(py, Mix(b1, b2, s), Mix(p.1, b2, s'), dy, j);
    }
  }

  lemma SecondBeside(px: real, py: real, a1: int, b1: int, a2: int, b2: int, dx: int, dy: int, i: nat, j: nat, r: Rect)
    requires r.w >= 0 && r.h >= 0 && Along(dx, a1, a2) && Along(dy, b1, b2) && Inside(a1, b1, r)
    requires Deep(px, py, r) && Beside(px, py, a1, b1, a2, b2, dx, dy, i, j) && Out(ComputeCode(a2, b2, r))
    ensures var c2 := ComputeCode(a2, b2, r);
      var p := CutPoint(a1, b1, a2, b2, r, c2);
      Beside(px, py, a1, b1, p.0, p.1, dx, dy, X(c2, i), Y(c2, j))
  {
    var c2 := ComputeCode(a2, b2, r);
    var p := CutPoint(a1, b1, a2, b2, r, c2);
    var s :| 0.0 <= s <= 1.0 && Lag(px, Mix(a1, a2, s), dx, i) && Lag(py, Mix(b1, b2, s), dy, j);
    hide Mix, Cut;
    if V(c2) == 1 {
      var s' := SlideSecond(a1, b1, a2, b2, p.1, s, dx);
      LagMore(px, Mix(a1, a2, s), Mix(a1, p.0, s'), dx, i);
    } else {
      var s' := SlideSecond(b1, a1, b2, a2, p.0, s, dy);
      LagMore(py, Mix(b1, b2, s), Mix(b1, p.1, s'), dy, j);
    }
  }

  /** The point qx, qy is off the line x1, y1 to x2, y2 by less than i and j. */
  ghost predicate Off(qx: real, qy: real, x1: int, y1: int, x2: int, y2: int, i: nat, j: nat) {
    exists t: real :: 0.0 <= t <= 1.0 && Lag(Mix(x1, x2, t), qx, x2 - x1, i) && Lag(Mix(y1, y2, t), qy, y2 - y1, j)
  }

  /** Every point of the line that lies inside by a pixel is near what is left of it. */
  ghost predicate Covers(x1: int, y1: int, x2: int, y2: int, a1: int, b1: int, a2: int, b2: int, r: Rect,
                         i: nat, j: nat) {
    forall t: real :: 0.0 <= t <= 1.0 && Deep(Mix(x1, x2, t), Mix(y1, y2, t), r) ==>
      Beside(Mix(x1, x2, t), Mix(y1, y2, t), a1, b1, a2, b2, x2 - x1, y2 - y1, i, j)
  }

  /** Every point of what is left is near the line. */
  ghost predicate Hugs(x1: int, y1: int, x2: int, y2: int, a1: int, b1: int, a2: int, b2: int, i: nat, j: nat) {
    forall s: real :: 0.0 <= s <= 1.0 ==> Off(Mix(a1, a2, s), Mix(b1, b2, s), x1, y1, x2, y2, i, j)
  }

  ghost predicate Faithful(x1: int, y1: int, x2: int, y2: int, a1: int, b1: int, a2: int, b2: int, r: Rect,
                           i: nat, j: nat) {
    && Covers(x1, y1, x2, y2, a1, b1, a2, b2, r, i, j) && Hugs(x1, y1, x2, y2, a1, b1, a2, b2, i, j)
    && Along(x2 - x1, a1, a2) && Along(y2 - y1, b1, b2)
  }

  lemma OffMore(q: real, q': real, qy: real, x1: int, y1: int, x2: int, y2: int, i: nat, j: nat)
    requires Off(q, qy, x1, y1, x2, y2, i, j) && -1.0 < q' - q < 1.0
    requires if x2 - x1 >= 0 then q' <= q else q' >= q
    ensures Off(q', qy, x1, y1, x2, y2, i + 1, j)
  {
    var t :| 0.0 <= t <= 1.0 && Lag(Mix(x1, x2, t), q, x2 - x1, i) && Lag(Mix(y1, y2, t), qy, y2 - y1, j);
    hide Mix;
    LagMore(Mix(x1, x2, t), q, q', x2 - x1, i);
  }

  lemma OffTurned(qx: real, qy: real, x1: int, y1: int, x2: int, y2: int, i: nat, j: nat)
    ensures Off(qx, qy, x1, y1, x2, y2, i, j) <==> Off(qy, qx, y1, x1, y2, x2, j, i)
  {
    hide Mix, Lag;
  }

  lemma FirstHugs(x1: int, y1: int, x2: int, y2: int, a1: int, b1: int, a2: int, b2: int, i: nat, j: nat, r: Rect)
    requires r.w >= 0 && r.h >= 0 && Hugs(x1, y1, x2, y2, a1, b1, a2, b2, i, j)
    requires Along(x2 - x1, a1, a2) && Along(y2 - y1, b1, b2)
    requires var c1, c2 := ComputeCode(a1, b1, r), ComputeCode(a2, b2, r); Out(c1) && !Share(c1, c2)
    ensures var c1 := ComputeCode(a1, b1, r);
      var p := CutPoint(a1, b1, a2, b2, r, c1);
      Hugs(x1, y1, x2, y2, p.0, p.1, a2, b2, X(c1, i), Y(c1, j))
  {
    hide Mix, Cut, Off;
    var c1 := ComputeCode(a1, b1, r);
    var p := CutPoint(a1, b1, a2, b2, r, c1);
    forall s': real | 0.0 <= s' <= 1.0
      ensures Off(Mix(p.0, a2, s'), Mix(p.1, b2, s'), x1, y1, x2, y2, X(c1, i), Y(c1, j))
    {
      if V(c1) == 1 {
        var s := BackFirst(a1, b1, a2, b2, p.1, s', x2 - x1);
        OffMore(Mix(a1, a2, s), Mix(p.0, a2, s'), Mix(b1, b2, s), x1, y1, x2, y2, i, j);
      } else {
        var s := BackFirst(b1, a1, b2, a2, p.0, s', y2 - y1);
        OffTurned(Mix(a1, a2, s), Mix(b1, b2, s), x1, y1, x2, y2, i, j);
        OffMore(Mix(b1, b2, s), Mix(p.1, b2, s'), Mix(a1, a2, s), y1, x1, y2, x2, j, i);
        OffTurned(Mix(p.0, a2, s'), Mix(p.1, b2, s'), x1, y1, x2, y2, i, j + 1);
      }
    }
  }

  lemma SecondHugs(x1: int, y1: int, x2: int, y2: int, a1: int, b1: int, a2: int, b2: int, i: nat, j: nat, r: Rect)
    requires r.w >= 0 && r.h >= 0 && Hugs(x1, y1, x2, y2, a1, b1, a2, b2, i, j)
    requires Along(x2 - x1, a1, a2) && Along(y2 - y1, b1, b2)
    requires Inside(a1, b1, r) && Out(ComputeCode(a2, b2, r))
    ensures var c2 := ComputeCode(a2, b2, r);
      var p := CutPoint(a1, b1, a2, b2, r, c2);
      Hugs(x1, y1, x2, y2, a1, b1, p.0, p.1, X(c2, i), Y(c2, j))
  {
    hide Mix, Cut, Off;
    var c2 := ComputeCode(a2, b2, r);
    var p := CutPoint(a1, b1, a2, b2, r, c2);
    forall s': real | 0.0 <= s' <= 1.0
      ensures Off(Mix(a1, p.0, s'), Mix(b1, p.1, s'), x1, y1, x2, y2, X(c2, i), Y(c2, j))
    {
      if V(c2) == 1 {
        var s := BackSecond(a1, b1, a2, b2, p.1, s', x2 - x1);
        OffMore(Mix(a1, a2, s), Mix(a1, p.0, s'), Mix(b1, b2, s), x1, y1, x2, y2, i, j);
      } else {
        var s := BackSecond(b1, a1, b2, a2, p.0, s', y2 - y1);
        OffTurned(Mix(a1, a2, s), Mix(b1, b2, s), x1, y1, x2, y2, i, j);
        OffMore(Mix(b1, b2, s), Mix(b1, p.1, s'), Mix(a1, a2, s), y1, x1, y2, x2, j, i);
        OffTurned(Mix(a1, p.0, s'), Mix(b1, p.1, s'), x1, y1, x2, y2, i, j + 1);
      }
    }
  }

  lemma FirstFaithful(x1: int, y1: int, x2: int, y2: int, a1: int, b1: int, a2: int, b2: int, r: Rect, i: nat, j: nat)
    requires r.w >= 0 && r.h >= 0 && i <= 1 && j <= 1 && Faithful(x1, y1, x2, y2, a1, b1, a2, b2, r, i, j)
    requires var c1, c2 := ComputeCode(a1, b1, r), ComputeCode(a2, b2, r); Out(c1) && !Share(c1, c2)
    ensures var c1 := ComputeCode(a1, b1, r);
      var p := CutPoint(a1, b1, a2, b2, r, c1);
      Faithful(x1, y1, x2, y2, p.0, p.1, a2, b2, r, X(c1, i), Y(c1, j))
  {
    hide Mix, Deep, Beside, Hugs, ComputeCode, CutPoint, Share;
    var c1 := ComputeCode(a1, b1, r);
    var p := CutPoint(a1, b1, a2, b2, r, c1);
    FirstHugs(x1, y1, x2, y2, a1, b1, a2, b2, i, j, r);
    forall t: real | 0.0 <= t <= 1.0 && Deep(Mix(x1, x2, t), Mix(y1, y2, t), r)
      ensures Beside(Mix(x1, x2, t), Mix(y1, y2, t), p.0, p.1, a2, b2, x2 - x1, y2 - y1, X(c1, i), Y(c1, j))
    {
      FirstBeside(Mix(x1, x2, t), Mix(y1, y2, t), a1, b1, a2, b2, x2 - x1, y2 - y1, i, j, r);
    }
  }

  lemma SecondFaithful(x1: int, y1: int, x2: int, y2: int, a1: int, b1: int, a2: int, b2: int, r: Rect, i: nat, j: nat)
    requires r.w >= 0 && r.h >= 0 && Faithful(x1, y1, x2, y2, a1, b1, a2, b2, r, i, j)
    requires Inside(a1, b1, r) && Out(ComputeCode(a2, b2, r))
    ensures var c2 := ComputeCode(a2, b2, r);
      var p := CutPoint(a1, b1, a2, b2, r, c2);
      Faithful(x1, y1, x2, y2, a1, b1, p.0, p.1, r, X(c2, i), Y(c2, j))
  {
    hide Mix, Deep, Beside, Hugs, CutPoint;
    var c2 := ComputeCode(a2, b2, r);
    var p := CutPoint(a1, b1, a2, b2, r, c2);
    SecondHugs(x1, y1, x2, y2, a1, b1, a2, b2, i, j, r);
    forall t: real | 0.0 <= t <= 1.0 && Deep(Mix(x1, x2, t), Mix(y1, y2, t), r)
      ensures Beside(Mix(x1, x2, t), Mix(y1, y2, t), a1, b1, p.0, p.1, x2 - x1, y2 - y1, X(c2, i), Y(c2, j))
    {
      SecondBeside(Mix(x1, x2, t), Mix(y1, y2, t), a1, b1, a2, b2, x2 - x1, y2 - y1, i, j, r);
    }
  }

  // ------------------------------------------------- all cuts

  /** A cut end is no longer beyond the side it was cut at, nor beyond a new one, unless the
      line is rejected. */
  lemma CutSides(a1: int, b1: int, a2: int, b2: int, r: Rect)
    requires r.w >= 1 && r.h >= 1
    requires var c1, c2 := ComputeCode(a1, b1, r), ComputeCode(a2, b2, r); (Out(c1) || Out(c2)) && !Share(c1, c2)
    ensures var c1, c2 := ComputeCode(a1, b1, r), ComputeCode(a2, b2, r);
      var out, other := if Out(c1) then c1 else c2, if Out(c1) then c2 else c1;
      var p := CutPoint(a1, b1, a2, b2, r, out);
      var c := ComputeCode(p.0, p.1, r);
      Share(c, other) || Share(other, c) ||
        if V(out) == 1 then V(c) == 0 && H(c) <= H(out) else V(c) == 0 == H(c)
  {
    hide Cut;
  }

  /** For a line that is drawn: each point of it that lies inside the rectangle by a pixel is
      within two pixels, in either coordinate, of a point of what is left, and each point of
      what is left, the two ends among them, is within two pixels of the line. */
  lemma DrawnFaithful(x1: int, y1: int, x2: int, y2: int, r: Rect)
    requires r.w >= 0 && r.h >= 0 && Clipped(x1, y1, x2, y2, r).Left?
    ensures var c := Clipped(x1, y1, x2, y2, r);
      exists i: nat, j: nat :: i <= 2 && j <= 2 && Faithful(x1, y1, x2, y2, c.a1, c.b1, c.a2, c.b2, r, i, j)
  {
    hide Mix, Deep;
    forall t: real | 0.0 <= t <= 1.0
      ensures Beside(Mix(x1, x2, t), Mix(y1, y2, t), x1, y1, x2, y2, x2 - x1, y2 - y1, 0, 0)
      ensures Off(Mix(x1, x2, t), Mix(y1, y2, t), x1, y1, x2, y2, 0, 0)
    {
      assert Lag(Mix(x1, x2, t), Mix(x1, x2, t), x2 - x1, 0) && Lag(Mix(y1, y2, t), Mix(y1, y2, t), y2 - y1, 0);
    }
    LeftFaithful(x1, y1, x2, y2, x1, y1, x2, y2, r, 0, 0);
  }

  lemma {:induction false} LeftFaithful(x1: int, y1: int, x2: int, y2: int, a1: int, b1: int, a2: int, b2: int, r: Rect,
                                        i: nat, j: nat)
    requires r.w >= 0 && r.h >= 0 && Faithful(x1, y1, x2, y2, a1, b1, a2, b2, r, i, j)
    requires var c1, c2 := ComputeCode(a1, b1, r), ComputeCode(a2, b2, r);
      i + V(c1) + V(c2) <= 2 && j + H(c1) + H(c2) <= 2 && (Out(c1) ==> i + V(c1) <= 1 && j + H(c1) <= 1)
    requires Clipped(a1, b1, a2, b2, r).Left?
    ensures var c := Clipped(a1, b1, a2, b2, r);
      exists i: nat, j: nat :: i <= 2 && j <= 2 && Faithful(x1, y1, x2, y2, c.a1, c.b1, c.a2, c.b2, r, i, j)
    decreases Length(a1, b1, a2, b2)
  {
    hide Faithful, ComputeCode, CutPoint, Length, Share;
    ClippedInside(a1, b1, a2, b2, r);
    var c1, c2 := ComputeCode(a1, b1, r), ComputeCode(a2, b2, r);
    OutIff(a1, b1, r);
    OutIff(a2, b2, r);
    if Out(c1) || Out(c2) {
      CutSides(a1, b1, a2, b2, r);
      ClippedShare(a1, b1, a2, b2, r);
      if Out(c1) {
        FirstFaithful(x1, y1, x2, y2, a1, b1, a2, b2, r, i, j);
        var p := CutPoint(a1, b1, a2, b2, r, c1);
        ClippedShare(p.0, p.1, a2, b2, r);
        LeftFaithful(x1, y1, x2, y2, p.0, p.1, a2, b2, r, X(c1, i), Y(c1, j));
      } else {
        SecondFaithful(x1, y1, x2, y2, a1, b1, a2, b2, r, i, j);
        var p := CutPoint(a1, b1, a2, b2, r, c2);
        ClippedShare(a1, b1, p.0, p.1, r);
        LeftFaithful(x1, y1, x2, y2, a1, b1, p.0, p.1, r, X(c2, i), Y(c2, j));
      }
    }
  }

  lemma ClippedShare(a1: int, b1: int, a2: int, b2: int, r: Rect)
    requires r.w >= 0 && r.h >= 0 && Clipped(a1, b1, a2, b2, r).Left?
    ensures !Share(ComputeCode(a1, b1, r), ComputeCode(a2, b2, r))
    ensures !Share(ComputeCode(a2, b2, r), ComputeCode(a1, b1, r))
  {
    if Share(ComputeCode(a1, b1, r), ComputeCode(a2, b2, r)) {
      SharedOut(ComputeCode(a1, b1, r), ComputeCode(a2, b2, r));
    }
    hide ComputeCode;
  }
}
