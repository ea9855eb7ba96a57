/** Clipping a line to a rectangle (src/comdraw_driver.c:394-480). */
module LineClip {
  import opened Basics

  /** compute_code: on which sides of the rectangle a point lies. */
  datatype Code = Code(top: bool, bottom: bool, left: bool, right: bool)

  datatype Rect = Rect(x: int, y: int, w: int, h: int)

  function X2(r: Rect): int { r.x + r.w - 1 }

  function Y2(r: Rect): int { r.y + r.h - 1 }

  function ComputeCode(x: int, y: int, r: Rect): (c: Code)
    ensures !(c.top && c.bottom) || r.h <= 0
    ensures c == Code(false, false, false, false) <==> Inside(x, y, r)
  {
    Code(y <= Y2(r) && y < r.y, y > Y2(r), x <= X2(r) && x < r.x, x > X2(r))
  }

  predicate Inside(x: int, y: int, r: Rect) { r.x <= x <= X2(r) && r.y <= y <= Y2(r) }

  predicate Out(c: Code) { c.top || c.bottom || c.left || c.right }

  predicate Share(a: Code, b: Code) {
    (a.top && b.top) || (a.bottom && b.bottom) || (a.left && b.left) || (a.right && b.right)
  }

  function Abs(a: int): nat { if a >= 0 then a else -a }

  predicate Between(x: int, a: int, b: int) { (a <= x <= b) || (b <= x <= a) }

  /** The point of the line at height y, for y between the ends: it stays between the ends
      although the division truncates. */
  function Cut(x1: int, y1: int, x2: int, y2: int, y: int): (x: int)
    requires y1 != y2 && Between(y, y1, y2)
    ensures Between(x, x1, x2)
  {
    Fraction(x2 - x1, y - y1, y2 - y1);
    x1 + TruncDiv((x2 - x1) * (y - y1), y2 - y1)
  }

  lemma Fraction(d: int, n: int, m: int)
    requires m != 0 && Between(n, 0, m)
    ensures Between(TruncDiv(d * n, m), 0, d)
  {
    var a, b, c := Abs(d), Abs(n), Abs(m);
    AbsMul(d, n);
    Shrinks(a, b, c);
    Signs(d, n);
  }

  lemma AbsMul(d: int, n: int)
    ensures Abs(d * n) == Abs(d) * Abs(n)
  {
  }

  lemma Signs(d: int, n: int)
    ensures d >= 0 && n >= 0 ==> d * n >= 0
    ensures d <= 0 && n <= 0 ==> d * n >= 0
    ensures d >= 0 && n <= 0 ==> d * n <= 0
    ensures d <= 0 && n >= 0 ==> d * n <= 0
  {
  }

  lemma Shrinks(a: nat, b: nat, c: nat)
    requires b <= c && c > 0
    ensures 0 <= a * b / c <= a
  {
    var q := a * b / c;
    assert a * b <= a * c && q * c <= a * b;
    MulOrder(a + 1, q, c);
    assert (a + 1) * c == a * c + c;
  }

  lemma MulOrder(x: int, y: int, c: nat)
    ensures x <= y ==> x * c <= y * c
  {
  }

  function Length(x1: int, y1: int, x2: int, y2: int): nat { Abs(x2 - x1) + Abs(y2 - y1) }

  /** Where the line meets the side of the rectangle that one of its ends is beyond. */
  function CutPoint(a1: int, b1: int, a2: int, b2: int, r: Rect, out: Code): (p: (int, int))
    requires r.w >= 0 && r.h >= 0 && Out(out)
    requires var c1, c2 := ComputeCode(a1, b1, r), ComputeCode(a2, b2, r);
      !Share(c1, c2) && out == if Out(c1) then c1 else c2
    ensures Between(p.0, a1, a2) && Between(p.1, b1, b2)
    ensures if out == ComputeCode(a1, b1, r) then Length(p.0, p.1, a2, b2) < Length(a1, b1, a2, b2)
      else Length(a1, b1, p.0, p.1) < Length(a1, b1, a2, b2)
  {
    if out.bottom then (Cut(a1, b1, a2, b2, Y2(r)), Y2(r))
    else if out.top then (Cut(a1, b1, a2, b2, r.y), r.y)
    else if out.right then (X2(r), Cut(b1, a1, b2, a2, X2(r)))
    else (r.x, Cut(b1, a1, b2, a2, r.x))
  }

  method CutAt(a1: int, b1: int, a2: int, b2: int, r: Rect, out: Code) returns (x: int, y: int)
    requires r.w >= 0 && r.h >= 0 && Out(out)
    requires var c1, c2 := ComputeCode(a1, b1, r), ComputeCode(a2, b2, r);
      !Share(c1, c2) && out == if Out(c1) then c1 else c2
    ensures (x, y) == CutPoint(a1, b1, a2, b2, r, out)
  {
    hide TruncDiv;
    if out.bottom {
      y := Y2(r);
      x := Cut(a1, b1, a2, b2, y);
    } else if out.top {
      y := r.y;
      x := Cut(a1, b1, a2, b2, y);
    } else if out.right {
      x := X2(r);
      y := Cut(b1, a1, b2, a2, x);
    } else {
      x := r.x;
      y := Cut(b1, a1, b2, a2, x);
    }
  }

  datatype Clip = Rejected | Left(a1: int, b1: int, a2: int, b2: int)

  /** The line that is left, cut end by end. */
  function Clipped(a1: int, b1: int, a2: int, b2: int, r: Rect): Clip
    requires r.w >= 0 && r.h >= 0
    decreases Length(a1, b1, a2, b2)
  {
    var c1, c2 := ComputeCode(a1, b1, r), ComputeCode(a2, b2, r);
    if !Out(c1) && !Out(c2) then Left(a1, b1, a2, b2)
    else if Share(c1, c2) then Rejected
    else if Out(c1) then
      var p := CutPoint(a1, b1, a2, b2, r, c1);
      Clipped(p.0, p.1, a2, b2, r)
    else
      var p := CutPoint(a1, b1, a2, b2, r, c2);
      Clipped(a1, b1, p.0, p.1, r)
  }

  lemma OutIff(x: int, y: int, r: Rect)
    ensures Out(ComputeCode(x, y, r)) <==> !Inside(x, y, r)
  {
  }

  lemma BetweenMore(x: int, a: int, b: int, c: int, d: int)
    requires Between(x, a, b) && Between(a, c, d) && Between(b, c, d)
    ensures Between(x, c, d)
  {
  }

  /** What is left lies in the rectangle and in the box of the line; an end that was inside
      stays, and then nothing is rejected. */
  lemma {:induction false} ClippedInside(a1: int, b1: int, a2: int, b2: int, r: Rect)
    requires r.w >= 0 && r.h >= 0
    ensures match Clipped(a1, b1, a2, b2, r)
            case Rejected => !Inside(a1, b1, r) && !Inside(a2, b2, r)
            case Left(x1, y1, x2, y2) =>
              && Inside(x1, y1, r) && Inside(x2, y2, r)
              && Between(x1, a1, a2) && Between(x2, a1, a2) && Between(y1, b1, b2) && Between(y2, b1, b2)
              && (Inside(a1, b1, r) ==> x1 == a1 && y1 == b1) && (Inside(a2, b2, r) ==> x2 == a2 && y2 == b2)
    decreases Length(a1, b1, a2, b2)
  {
    hide ComputeCode, CutPoint, Length, Share;
    var c1, c2 := ComputeCode(a1, b1, r), ComputeCode(a2, b2, r);
    OutIff(a1, b1, r);
    OutIff(a2, b2, r);
    if (Out(c1) || Out(c2)) && Share(c1, c2) {
      SharedOut(c1, c2);
    } else if Out(c1) {
      var p := CutPoint(a1, b1, a2, b2, r, c1);
      ClippedInside(p.0, p.1, a2, b2, r);
      KeepsBox(a1, b1, a2, b2, r, p, Clipped(p.0, p.1, a2, b2, r));
    } else if Out(c2) {
      var p := CutPoint(a1, b1, a2, b2, r, c2);
      ClippedInside(a1, b1, p.0, p.1, r);
      KeepsBox(a1, b1, a2, b2, r, p, Clipped(a1, b1, p.0, p.1, r));
    }
  }

  lemma SharedOut(c1: Code, c2: Code)
    requires Share(c1, c2)
    ensures Out(c1) && Out(c2)
  {
  }

  lemma KeepsBox(a1: int, b1: int, a2: int, b2: int, r: Rect, p: (int, int), c: Clip)
    requires Between(p.0, a1, a2) && Between(p.1, b1, b2)
    ensures c.Left? && (Between(c.a1, p.0, a2) || Between(c.a1, a1, p.0)) ==> Between(c.a1, a1, a2)
    ensures c.Left? && (Between(c.a2, p.0, a2) || Between(c.a2, a1, p.0)) ==> Between(c.a2, a1, a2)
    ensures c.Left? && (Between(c.b1, p.1, b2) || Between(c.b1, b1, p.1)) ==> Between(c.b1, b1, b2)
    ensures c.Left? && (Between(c.b2, p.1, b2) || Between(c.b2, b1, p.1)) ==> Between(c.b2, b1, b2)
  {
  }

  /** A rectangle without width and height means no clipping. */
  predicate Unclipped(r: Rect) { r.w == 0 && r.h == 0 }

  /** do_line_clip: true when a part of the line is left, with its ends. */
  method DoLineClip(x1: int, y1: int, x2: int, y2: int, r: Rect)
    returns (drawn: bool, a1: int, b1: int, a2: int, b2: int)
    requires r.w >= 0 && r.h >= 0
    ensures x1 == y1 == x2 == y2 ==> !drawn
    ensures !(x1 == y1 == x2 == y2) && Unclipped(r) ==> drawn && (a1, b1, a2, b2) == (x1, y1, x2, y2)
    ensures !(x1 == y1 == x2 == y2) && !Unclipped(r) ==>
      Clipped(x1, y1, x2, y2, r) == if drawn then Left(a1, b1, a2, b2) else Rejected
    ensures drawn && !Unclipped(r) ==> Inside(a1, b1, r) && Inside(a2, b2, r)
    ensures Between(a1, x1, x2) && Between(a2, x1, x2) && Between(b1, y1, y2) && Between(b2, y1, y2)
    ensures Inside(x1, y1, r) ==> a1 == x1 && b1 == y1
    ensures Inside(x2, y2, r) ==> a2 == x2 && b2 == y2
    ensures !Unclipped(r) && Share(ComputeCode(x1, y1, r), ComputeCode(x2, y2, r)) ==> !drawn
    ensures Inside(x1, y1, r) || Inside(x2, y2, r) ==> (drawn <==> !(x1 == y1 == x2 == y2))
    ensures !drawn && !(x1 == y1 == x2 == y2) ==> Misses(x1, y1, x2, y2, r)
  {
    ClippedInside(x1, y1, x2, y2, r);
    if Clipped(x1, y1, x2, y2, r) == Rejected {
      RejectedMisses(x1, y1, x2, y2, r);
    }
    if Share(ComputeCode(x1, y1, r), ComputeCode(x2, y2, r)) {
      SharedOut(ComputeCode(x1, y1, r), ComputeCode(x2, y2, r));
    }
    hide ComputeCode, Length, CutPoint, Misses;
    a1, b1, a2, b2 := x1, y1, x2, y2;
    var code1, code2 := ComputeCode(a1, b1, r), ComputeCode(a2, b2, r);
    if a1 == b1 && b1 == a2 && a2 == b2 {
      return false, a1, b1, a2, b2;
    }
    if r.w == 0 && r.h == 0 {
      return true, a1, b1, a2, b2;
    }
    while Out(code1) || Out(code2)
      invariant code1 == ComputeCode(a1, b1, r) && code2 == ComputeCode(a2, b2, r)
      invariant Clipped(a1, b1, a2, b2, r) == Clipped(x1, y1, x2, y2, r)
      invariant Between(a1, x1, x2) && Between(a2, x1, x2) && Between(b1, y1, y2) && Between(b2, y1, y2)
      decreases Length(a1, b1, a2, b2)
    {
      if Share(code1, code2) {
        return false, a1, b1, a2, b2;
      }
      var out := if Out(code1) then code1 else code2;
      var x, y := CutAt(a1, b1, a2, b2, r, out);
      BetweenMore(x, a1, a2, x1, x2);
      BetweenMore(y, b1, b2, y1, y2);
      if out == code1 {
        a1, b1 := x, y;
        code1 := ComputeCode(a1, b1, r);
      } else {
        a2, b2 := x, y;
        code2 := ComputeCode(a2, b2, r);
      }
    }
    return true, a1, b1, a2, b2;
  }

  // ------------------------------------------------- what is rejected

  /** A point of the line from a (t = 0) to b (t = 1), in one coordinate. */
  function Mix(a: int, b: int, t: real): real { a as real + t * (b - a) as real }

  /** Inside the rectangle by at least one pixel on each side. */
  predicate Deep(px: real, py: real, r: Rect) {
    && (r.x + 1) as real <= px <= (X2(r) - 1) as real
    && (r.y + 1) as real <= py <= (Y2(r) - 1) as real
  }

  /** No point of the line lies inside by a pixel. */
  ghost predicate Misses(x1: int, y1: int, x2: int, y2: int, r: Rect) {
    forall t: real :: 0.0 <= t <= 1.0 ==> !Deep(Mix(x1, x2, t), Mix(y1, y2, t), r)
  }

  /** Less than n apart, or equal for n == 0. */
  predicate Close(u: real, v: real, n: nat) { if n == 0 then u == v else -(n as real) < u - v < n as real }

  /** A point that was cut away, or is near one that is left. */
  ghost predicate Near(px: real, py: real, a1: int, b1: int, a2: int, b2: int, n: nat) {
    exists s: real :: 0.0 <= s <= 1.0 && Close(px, Mix(a1, a2, s), n) && Close(py, Mix(b1, b2, s), n)
  }

  lemma TruncError(n: int, m: int)
    requires m != 0
    ensures Abs(n - TruncDiv(n, m) * m) < Abs(m)
  {
  }

  /** How far the cut is from the line, in units of the other coordinate's extent. */
  function Deviation(va: int, ua: int, vb: int, ub: int, u: int, v: int): int {
    (ub - ua) * (v - va) - (u - ua) * (vb - va)
  }

  /** The cut is off by less than one. */
  lemma CutError(va: int, ua: int, vb: int, ub: int, u: int)
    requires ua != ub && Between(u, ua, ub)
    ensures Abs(Deviation(va, ua, vb, ub, u, Cut(va, ua, vb, ub, u))) < Abs(ub - ua)
  {
    hide TruncDiv;
    var n, d := (vb - va) * (u - ua), Cut(va, ua, vb, ub, u) - va;
    TruncError(n, ub - ua);
    Commutes(d, ub - ua);
    Commutes(vb - va, u - ua);
  }

  lemma Commutes(a: int, b: int)
    ensures a * b == b * a
  {
  }

  /** The sign of a deviation: what it is a multiple of falls short, or is exact. */
  predicate Short(dev: int, d: int) { (d > 0 && dev <= 0) || (d < 0 && dev >= 0) }

  lemma TruncSign(n: int, m: int)
    requires m != 0
    ensures n >= 0 ==> TruncDiv(n, m) * m <= n
    ensures n <= 0 ==> TruncDiv(n, m) * m >= n
  {
  }

  /** Truncation moves the cut towards the first end. */
  lemma CutSign(va: int, ua: int, vb: int, ub: int, u: int)
    requires ua != ub && Between(u, ua, ub)
    ensures var dev := Deviation(va, ua, vb, ub, u, Cut(va, ua, vb, ub, u));
      (va <= vb ==> Short(dev, ub - ua)) && (va >= vb ==> Short(dev, ua - ub))
  {
    hide TruncDiv;
    var n, d := (vb - va) * (u - ua), Cut(va, ua, vb, ub, u) - va;
    TruncSign(n, ub - ua);
    Signs(vb - va, u - ua);
    Commutes(d, ub - ua);
    Commutes(vb - va, u - ua);
  }

  lemma Order(a: real, b: real, c: real)
    requires a <= b && c >= 0.0
    ensures a * c <= b * c
  {
  }

  lemma Quotient(w: real, e: real) returns (k: real)
    requires (e > 0.0 && 0.0 <= w <= e) || (e < 0.0 && e <= w <= 0.0)
    ensures 0.0 <= k <= 1.0 && k * e == w
  {
    k := w / e;
  }

  lemma Below(k: real, r: real, d: real, q: real)
    requires 0.0 <= k <= 1.0 && -d < r < d && q == k * r
    ensures -d < q < d
  {
    Part(k, r, q);
  }

  lemma SmallPositive(f: real, d: real, q: real)
    requires f * d == q && d > 0.0 && -d < q < d
    ensures -1.0 < f < 1.0
  {
    NegatedLeft(f, d);
    if f >= 1.0 {
      Order(1.0, f, d);
    } else if f <= -1.0 {
      Order(1.0, -f, d);
    }
  }

  /** A product smaller than one of its factors. */
  lemma SmallFactor(f: real, d: real, k: real, r: real)
    requires f * d == k * r && 0.0 <= k <= 1.0
    requires (d > 0.0 && -d < r < d) || (d < 0.0 && d < r < -d)
    ensures -1.0 < f < 1.0
  {
    if d > 0.0 {
      Below(k, r, d, k * r);
      SmallPositive(f, d, k * r);
    } else {
      Below(k, r, -d, k * r);
      Negated(f, d);
      SmallPositive(f, -d, -(k * r));
    }
  }

  lemma Negated(a: real, b: real)
    ensures a * -b == -(a * b)
  {
  }

  lemma NegatedLeft(a: real, b: real)
    ensures -a * b == -(a * b)
  {
  }

  /** A part q of d. */
  lemma Part(t: real, d: real, q: real)
    requires 0.0 <= t <= 1.0 && q == t * d
    ensures d >= 0.0 ==> 0.0 <= q <= d
    ensures d <= 0.0 ==> d <= q <= 0.0
  {
    var u := 1.0 - t;
    assert u * d == d - q;
    WeightSign(t, d);
    WeightSign(u, d);
  }

  lemma Expand(k: real, e: real, d: real, x: real, y: real, w: real)
    requires k * e == w
    ensures w * x - k * y * d == k * (e * x - d * y)
  {
    assert k * (e * x - d * y) == (k * e) * x - k * y * d;
  }

  lemma MixBack(a: int, b: int, t: real)
    ensures Mix(a, b, t) == b as real - (1.0 - t) * (b - a) as real
  {
  }

  lemma DeviationReal(va: int, ua: int, vb: int, ub: int, u: int, v: int)
    ensures Deviation(va, ua, vb, ub, u, v) as real ==
      (ub - u) as real * (vb - va) as real - (ub - ua) as real * (vb - v) as real
  {
    assert Deviation(va, ua, vb, ub, u, v) == (ub - u) * (vb - va) - (ub - ua) * (vb - v);
  }

  /** A point of the line that the cut keeps lies less than one from a point of the line
      that is left, at the same height. */
  lemma Slide(va: int, ua: int, vb: int, ub: int, u: int, v: int, s: real) returns (s': real)
    requires ua != u && Between(u, ua, ub) && Abs(Deviation(va, ua, vb, ub, u, v)) < Abs(ub - ua)
    requires 0.0 <= s <= 1.0
    requires if ua > u then Mix(ua, ub, s) <= u as real else Mix(ua, ub, s) >= u as real
    ensures 0.0 <= s' <= 1.0 && Mix(u, ub, s') == Mix(ua, ub, s)
    ensures -1.0 < Mix(v, vb, s') - Mix(va, vb, s) < 1.0
    ensures Short(Deviation(va, ua, vb, ub, u, v), ub - ua) ==> Mix(v, vb, s') <= Mix(va, vb, s)
    ensures Short(Deviation(va, ua, vb, ub, u, v), ua - ub) ==> Mix(v, vb, s') >= Mix(va, vb, s)
  {
    hide Mix, Deviation;
    var d, e := (ub - ua) as real, (ub - u) as real;
    var w := (1.0 - s) * d;
    MixBack(ua, ub, s);
    var k := Weight(w, d, e, 1.0 - s);
    s' := 1.0 - k;
    MixBack(u, ub, s');
    Apart(va, ua, vb, ub, u, v, s, k);
  }

  lemma Weight(w: real, d: real, e: real, a: real) returns (k: real)
    requires w == a * d && 0.0 <= a && d != 0.0
    requires if d < 0.0 then d <= e <= 0.0 && w >= e else 0.0 <= e <= d && w <= e
    ensures 0.0 <= k <= 1.0 && k * e == w
  {
    WeightSign(a, d);
    if e == 0.0 {
      k := 0.0;
    } else {
      k := Quotient(w, e);
    }
  }

  lemma Apart(va: int, ua: int, vb: int, ub: int, u: int, v: int, s: real, k: real)
    requires ua != ub && Abs(Deviation(va, ua, vb, ub, u, v)) < Abs(ub - ua) && 0.0 <= k <= 1.0
    requires k * (ub - u) as real == (1.0 - s) * (ub - ua) as real
    ensures -1.0 < Mix(v, vb, 1.0 - k) - Mix(va, vb, s) < 1.0
    ensures Short(Deviation(va, ua, vb, ub, u, v), ub - ua) ==> Mix(v, vb, 1.0 - k) <= Mix(va, vb, s)
    ensures Short(Deviation(va, ua, vb, ub, u, v), ua - ub) ==> Mix(v, vb, 1.0 - k) >= Mix(va, vb, s)
  {
    hide Mix, Deviation;
    MixBack(v, vb, 1.0 - k);
    MixBack(va, vb, s);
    DeviationReal(va, ua, vb, ub, u, v);
    var d, e, x, y := (ub - ua) as real, (ub - u) as real, (vb - va) as real, (vb - v) as real;
    var f := Mix(v, vb, 1.0 - k) - Mix(va, vb, s);
    TimesD(f, 1.0 - s, x, k, y, d);
    Expand(k, e, d, x, y, (1.0 - s) * d);
    SmallFactor(f, d, k, e * x - d * y);
    SignFactor(f, d, k, e * x - d * y);
  }

  lemma SignFactor(f: real, d: real, k: real, r: real)
    requires f * d == k * r && k >= 0.0 && d != 0.0
    ensures (d > 0.0 && r <= 0.0) || (d < 0.0 && r >= 0.0) ==> f <= 0.0
    ensures (d > 0.0 && r >= 0.0) || (d < 0.0 && r <= 0.0) ==> f >= 0.0
  {
    ProductSign(k, r);
    ProductSign(if f > 0.0 then f else -f, d);
    NegatedLeft(f, d);
  }

  lemma ProductSign(k: real, r: real)
    requires k >= 0.0
    ensures (r <= 0.0 ==> k * r <= 0.0) && (r >= 0.0 ==> k * r >= 0.0)
    ensures k > 0.0 ==> (r < 0.0 ==> k * r < 0.0) && (r > 0.0 ==> k * r > 0.0)
  {
  }

  lemma TimesD(f: real, a: real, x: real, k: real, y: real, d: real)
    requires f == a * x - k * y
    ensures f * d == (a * d) * x - k * y * d
  {
  }

  lemma WeightSign(a: real, d: real)
    requires 0.0 <= a
    ensures (d >= 0.0 ==> a * d >= 0.0) && (d <= 0.0 ==> a * d <= 0.0)
  {
  }

  /** Every point of the line x1, y1 to x2, y2 that lies deep inside is near one of the
      line from a1, b1 to the same end. */
  ghost predicate Covered(x1: int, y1: int, x2: int, y2: int, a1: int, b1: int, r: Rect, n: nat) {
    forall t: real :: 0.0 <= t <= 1.0 && Deep(Mix(x1, x2, t), Mix(y1, y2, t), r) ==>
      Near(Mix(x1, x2, t), Mix(y1, y2, t), a1, b1, x2, y2, n)
  }

  /** Cutting the first end keeps the deep points near: they are not on the part cut away. */
  lemma CutKeepsNear(px: real, py: real, a1: int, b1: int, a2: int, b2: int, r: Rect, n: nat)
    requires r.w >= 0 && r.h >= 0 && n <= 1 && Deep(px, py, r) && Near(px, py, a1, b1, a2, b2, n)
    requires var c1, c2 := ComputeCode(a1, b1, r), ComputeCode(a2, b2, r); Out(c1) && !Share(c1, c2)
    ensures var p := CutPoint(a1, b1, a2, b2, r, ComputeCode(a1, b1, r));
      Near(px, py, p.0, p.1, a2, b2, n + 1)
  {
    var c1 := ComputeCode(a1, b1, r);
    var p := CutPoint(a1, b1, a2, b2, r, c1);
    var s :| 0.0 <= s <= 1.0 && Close(px, Mix(a1, a2, s), n) && Close(py, Mix(b1, b2, s), n);
    hide Mix, Cut;
    if c1.bottom || c1.top {
      CutError(a1, b1, a2, b2, p.1);
      var s' := Slide(a1, b1, a2, b2, p.1, p.0, s);
      assert Close(px, Mix(p.0, a2, s'), n + 1) && Close(py, Mix(p.1, b2, s'), n + 1);
    } else {
      CutError(b1, a1, b2, a2, p.0);
      var s' := Slide(b1, a1, b2, a2, p.0, p.1, s);
      assert Close(px, Mix(p.0, a2, s'), n + 1) && Close(py, Mix(p.1, b2, s'), n + 1);
    }
  }

  lemma CutKeepsCovered(x1: int, y1: int, x2: int, y2: int, a1: int, b1: int, r: Rect, n: nat)
    requires r.w >= 0 && r.h >= 0 && n <= 1 && Covered(x1, y1, x2, y2, a1, b1, r, n)
    requires var c1, c2 := ComputeCode(a1, b1, r), ComputeCode(x2, y2, r); Out(c1) && !Share(c1, c2)
    ensures var p := CutPoint(a1, b1, x2, y2, r, ComputeCode(a1, b1, r));
      Covered(x1, y1, x2, y2, p.0, p.1, r, n + 1)
  {
    hide Near, Mix, Deep, ComputeCode, CutPoint;
    var p := CutPoint(a1, b1, x2, y2, r, ComputeCode(a1, b1, r));
    forall t: real | 0.0 <= t <= 1.0 && Deep(Mix(x1, x2, t), Mix(y1, y2, t), r)
      ensures Near(Mix(x1, x2, t), Mix(y1, y2, t), p.0, p.1, x2, y2, n + 1)
    {
      CutKeepsNear(Mix(x1, x2, t), Mix(y1, y2, t), a1, b1, x2, y2, r, n);
    }
  }

  lemma MixBounds(a: int, b: int, t: real, lo: int, hi: int)
    requires 0.0 <= t <= 1.0 && lo <= a <= hi && lo <= b <= hi
    ensures lo as real <= Mix(a, b, t) <= hi as real
  {
    Part(t, (b - a) as real, t * (b - a) as real);
  }

  /** Both ends beyond one side: nothing deep is near. */
  lemma SharedFar(px: real, py: real, a1: int, b1: int, a2: int, b2: int, r: Rect, n: nat)
    requires n <= 2 && Share(ComputeCode(a1, b1, r), ComputeCode(a2, b2, r)) && Near(px, py, a1, b1, a2, b2, n)
    ensures !Deep(px, py, r)
  {
    var s :| 0.0 <= s <= 1.0 && Close(px, Mix(a1, a2, s), n) && Close(py, Mix(b1, b2, s), n);
    hide Mix;
    MixBounds(a1, a2, s, if a1 < a2 then a1 else a2, if a1 < a2 then a2 else a1);
    MixBounds(b1, b2, s, if b1 < b2 then b1 else b2, if b1 < b2 then b2 else b1);
  }

  function Sides(c: Code): nat {
    (if c.top || c.bottom then 1 else 0) + if c.left || c.right then 1 else 0
  }

  /** A cut end is beyond fewer sides, or beyond one that the other end is beyond too. */
  lemma FewerSides(a1: int, b1: int, a2: int, b2: int, r: Rect)
    requires r.w >= 0 && r.h >= 0
    requires var c1, c2 := ComputeCode(a1, b1, r), ComputeCode(a2, b2, r); Out(c1) && !Share(c1, c2)
    ensures var c1 := ComputeCode(a1, b1, r);
      var p := CutPoint(a1, b1, a2, b2, r, c1);
      var c := ComputeCode(p.0, p.1, r);
      Sides(c) < Sides(c1) || Share(c, ComputeCode(a2, b2, r))
  {
    hide Cut;
  }

  /** The first end is cut at most twice before the line is rejected. */
  lemma {:induction false} RejectedCovered(x1: int, y1: int, x2: int, y2: int, a1: int, b1: int, r: Rect, n: nat)
    requires r.w >= 0 && r.h >= 0 && Covered(x1, y1, x2, y2, a1, b1, r, n)
    requires n + Sides(ComputeCode(a1, b1, r)) <= 2 ||
      (n <= 2 && Share(ComputeCode(a1, b1, r), ComputeCode(x2, y2, r)))
    requires Clipped(a1, b1, x2, y2, r) == Rejected
    ensures Misses(x1, y1, x2, y2, r)
    decreases Length(a1, b1, x2, y2)
  {
    hide Covered, Misses, ComputeCode, CutPoint, Length;
    var c1, c2 := ComputeCode(a1, b1, r), ComputeCode(x2, y2, r);
    if Share(c1, c2) {
      AllFar(x1, y1, x2, y2, a1, b1, r, n);
    } else {
      ClippedInside(a1, b1, x2, y2, r);
      OutIff(a1, b1, r);
      var p := CutPoint(a1, b1, x2, y2, r, c1);
      CutKeepsCovered(x1, y1, x2, y2, a1, b1, r, n);
      FewerSides(a1, b1, x2, y2, r);
      RejectedCovered(x1, y1, x2, y2, p.0, p.1, r, n + 1);
    }
  }

  lemma AllFar(x1: int, y1: int, x2: int, y2: int, a1: int, b1: int, r: Rect, n: nat)
    requires n <= 2 && Covered(x1, y1, x2, y2, a1, b1, r, n)
    requires Share(ComputeCode(a1, b1, r), ComputeCode(x2, y2, r))
    ensures Misses(x1, y1, x2, y2, r)
  {
    hide Near, Mix, Deep, ComputeCode;
    forall t: real | 0.0 <= t <= 1.0 ensures !Deep(Mix(x1, x2, t), Mix(y1, y2, t), r) {
      if Near(Mix(x1, x2, t), Mix(y1, y2, t), a1, b1, x2, y2, n) {
        SharedFar(Mix(x1, x2, t), Mix(y1, y2, t), a1, b1, x2, y2, r, n);
      }
    }
  }

  /** A rejected line stays outside the rectangle, up to one pixel at its border. */
  lemma RejectedMisses(x1: int, y1: int, x2: int, y2: int, r: Rect)
    requires r.w >= 0 && r.h >= 0 && Clipped(x1, y1, x2, y2, r) == Rejected
    ensures Misses(x1, y1, x2, y2, r)
  {
    hide Mix, Deep, Clipped;
    forall t: real | 0.0 <= t <= 1.0
      ensures Near(Mix(x1, x2, t), Mix(y1, y2, t), x1, y1, x2, y2, 0)
    {
      assert Close(Mix(x1, x2, t), Mix(x1, x2, t), 0);
    }
    RejectedCovered(x1, y1, x2, y2, x1, y1, r, 0);
  }

  /** The pixel is needed: this line goes through the corner of its rectangle, 0, 0, and is
      rejected all the same. */
  lemma RejectsCorner()
    ensures var r := Rect(0, 0, 1, 2);
      && Clipped(-1, 3, 1, -3, r) == Rejected
      && Mix(-1, 1, 0.5) == 0.0 && Mix(3, -3, 0.5) == 0.0 && Inside(0, 0, r)
  {
    hide TruncDiv, Mix, Cut;
    CornerCuts();
    var r := Rect(0, 0, 1, 2);
    assert CutPoint(-1, 3, 1, -3, r, ComputeCode(-1, 3, r)) == (-1, 1);
    assert CutPoint(-1, 1, 1, -3, r, ComputeCode(-1, 1, r)) == (0, -1);
    assert Clipped(0, -1, 1, -3, r) == Rejected;
    assert Clipped(-1, 1, 1, -3, r) == Rejected;
    MidPoint(-1, 1);
    MidPoint(3, -3);
  }

  lemma CornerCuts()
    ensures Cut(-1, 3, 1, -3, 1) == -1 && Cut(1, -1, -3, 1, 0) == -1
  {
    assert TruncDiv(-4, -6) == 0 && TruncDiv(-4, 2) == -2;
  }

  lemma MidPoint(a: int, b: int)
    requires a + b == 0
    ensures Mix(a, b, 0.5) == 0.0
  {
  }
}
