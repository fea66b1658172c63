/** Vector and paddle helpers shared by the game rules. */
module Helpers {
  import opened Vectors
  import Controllers

  /**
   * The platform's square root as the rules use it. Reals have no square
   * root function in Dafny, so callers pass it in; this says it is one.
   */
  ghost predicate IsSquareRoot(sqrt: real -> real)
  {
    forall s :: 0.0 <= s ==> 0.0 <= sqrt(s) && Sq(sqrt(s)) == s
  }

  lemma ZeroProduct(x: real, y: real)
    requires x * y == 0.0
    ensures x == 0.0 || y == 0.0
  {
    if x != 0.0 {
      assert y == (x * y) / x;
    }
  }

  lemma SquareSign(a: real)
    ensures Sq(a) >= 0.0
    ensures Sq(a) == 0.0 <==> a == 0.0
  {
    if a < 0.0 {
      assert a * a == (-a) * (-a);
    }
    if Sq(a) == 0.0 {
      ZeroProduct(a, a);
    }
  }

  lemma SqrLenSign(v: Vec)
    ensures SqrLen(v) >= 0.0
    ensures SqrLen(v) == 0.0 <==> v == Vec(0.0, 0.0)
  {
    SquareSign(v.x);
    SquareSign(v.y);
  }

  /** The only non-negative square root of one is one. */
  lemma UnitRoot(r: real)
    requires r >= 0.0 && Sq(r) == 1.0
    ensures r == 1.0
  {
    assert (r - 1.0) * (r + 1.0) == 0.0;
    ZeroProduct(r - 1.0, r + 1.0);
  }

  /** Scales both components by the scalar. */
  function Multiply(v: Vec, scalar: real): Vec
  {
    Vec(v.x * scalar, v.y * scalar)
  }

  /**
   * Divides a vector by its length. A vector of length zero is returned as it
   * is: that is the documented degenerate case, not an error.
   */
  function Normalize(v: Vec, sqrt: real -> real): Vec
    requires IsSquareRoot(sqrt)
  {
    SqrLenSign(v);
    var sqrLen := SqrLen(v);
    if sqrLen != 0.0 then
      var len := sqrt(sqrLen);
      Vec(v.x / len, v.y / len)
    else
      v
  }

  /** The zero vector is returned unchanged, and only it keeps length zero. */
  lemma NormalizeZero(v: Vec, sqrt: real -> real)
    requires IsSquareRoot(sqrt)
    ensures v == Vec(0.0, 0.0) ==> Normalize(v, sqrt) == v
    ensures SqrLen(Normalize(v, sqrt)) == 0.0 <==> v == Vec(0.0, 0.0)
  {
    SqrLenSign(v);
    if v != Vec(0.0, 0.0) {
      NormalizeUnit(v, sqrt);
    }
  }

  /** Any other vector comes out with length one. */
  lemma NormalizeUnit(v: Vec, sqrt: real -> real)
    requires IsSquareRoot(sqrt)
    requires v != Vec(0.0, 0.0)
    ensures SqrLen(Normalize(v, sqrt)) == 1.0
  {
    SqrLenSign(v);
    var sq := SqrLen(v);
    var len := sqrt(sq);
    assert Sq(len) == sq;
    SquareSign(len);
    assert len != 0.0;
    var r := Normalize(v, sqrt);
    assert r == Vec(v.x / len, v.y / len);
    DivSquare(v.x, len);
    DivSquare(v.y, len);
    assert SqrLen(r) == Sq(v.x / len) + Sq(v.y / len);
    assert (Sq(v.x / len) + Sq(v.y / len) - 1.0) * Sq(len)
        == Sq(v.x / len) * Sq(len) + Sq(v.y / len) * Sq(len) - Sq(len);
    ZeroProduct(Sq(v.x / len) + Sq(v.y / len) - 1.0, Sq(len));
  }

  lemma DivSquare(a: real, d: real)
    requires d != 0.0
    ensures Sq(a / d) * Sq(d) == Sq(a)
  {
    var q := a / d;
    assert q * d == a;
    SquareSign(d);
    assert (q * q) * (d * d) == (q * d) * (q * d);
  }

  /** Normalising keeps the direction: scaled back by the length, the result is the input. */
  lemma NormalizeRoundTrip(v: Vec, sqrt: real -> real)
    requires IsSquareRoot(sqrt)
    ensures Multiply(Normalize(v, sqrt), sqrt(SqrLen(v))) == v
  {
    SqrLenSign(v);
    var len := sqrt(SqrLen(v));
    assert Sq(len) == SqrLen(v);
    SquareSign(len);
    if v != Vec(0.0, 0.0) {
      DivTimes(v.x, len);
      DivTimes(v.y, len);
    }
  }

  lemma DivTimes(a: real, d: real)
    requires d != 0.0
    ensures (a / d) * d == a
  {
  }

  /** Normalising twice is normalising once. */
  lemma NormalizeIdempotent(v: Vec, sqrt: real -> real)
    requires IsSquareRoot(sqrt)
    ensures Normalize(Normalize(v, sqrt), sqrt) == Normalize(v, sqrt)
  {
    if v != Vec(0.0, 0.0) {
      NormalizeUnit(v, sqrt);
      UnitRoot(sqrt(1.0));
    }
  }

  /** Scaling by a then by b is scaling by a * b; the squared length grows by the squared factor. */
  lemma MultiplyScales(v: Vec, a: real, b: real)
    ensures Multiply(Multiply(v, a), b) == Multiply(v, a * b)
    ensures SqrLen(Multiply(v, a)) == a * a * SqrLen(v)
  {
    assert (v.x * a) * b == v.x * (a * b);
    assert (v.y * a) * b == v.y * (a * b);
    assert (v.x * a) * (v.x * a) == a * a * (v.x * v.x);
    assert (v.y * a) * (v.y * a) == a * a * (v.y * v.y);
  }

  /**
   * The scalar bound helper as written: max(min(obj, min), max). Its own
   * documentation promises min <= result <= max for min < max.
   */
  function KeepInBounds(obj: real, min: real, max: real): real
  {
    Max(Min(obj, min), max)
  }

  /** With min < max the helper ignores obj and always answers max. */
  lemma KeepInBoundsIgnoresObject(obj: real, min: real, max: real)
    requires min < max
    ensures KeepInBounds(obj, min, max) == max
  {
  }

  /** With the bounds the other way round (min >= max) it does clamp, into [max, min]. */
  lemma KeepInBoundsReversedClamps(obj: real, min: real, max: real)
    requires max <= min
    ensures max <= KeepInBounds(obj, min, max) <= min
    ensures max <= obj <= min ==> KeepInBounds(obj, min, max) == obj
  {
  }

  /** An object in the middle of the bounds is moved to the upper bound. */
  lemma KeepInBoundsCounterexample()
    ensures KeepInBounds(5.0, 0.0, 10.0) == 10.0
    ensures Clamp(5.0, 0.0, 10.0) == 5.0
  {
  }

  /** The rectangle overload: each coordinate through the scalar helper. */
  function KeepInBoundsRect(obj: Vec, bounds: Rect): Vec
  {
    Vec(KeepInBounds(obj.x, bounds.left, bounds.left + bounds.width),
        KeepInBounds(obj.y, bounds.top, bounds.top + bounds.height))
  }

  /** For a rectangle of positive size it always answers the bottom-right corner. */
  lemma KeepInBoundsRectIsCorner(obj: Vec, bounds: Rect)
    requires bounds.width > 0.0 && bounds.height > 0.0
    ensures KeepInBoundsRect(obj, bounds) == Vec(bounds.left + bounds.width, bounds.top + bounds.height)
  {
    KeepInBoundsIgnoresObject(obj.x, bounds.left, bounds.left + bounds.width);
    KeepInBoundsIgnoresObject(obj.y, bounds.top, bounds.top + bounds.height);
  }

  /** The clamp the helper's documentation describes: lo <= result <= hi, and obj itself when it already lies there. */
  function Clamp(obj: real, lo: real, hi: real): (r: real)
    requires lo <= hi
    ensures lo <= r <= hi
    ensures lo <= obj <= hi ==> r == obj
    ensures obj < lo ==> r == lo
    ensures hi < obj ==> r == hi
  {
    Max(Min(obj, hi), lo)
  }

  /** The rectangle clamp built on Clamp: the result lies in the rectangle, and a point inside stays put. */
  function ClampToRect(obj: Vec, bounds: Rect): (r: Vec)
    requires bounds.width >= 0.0 && bounds.height >= 0.0
    ensures bounds.left <= r.x <= bounds.left + bounds.width
    ensures bounds.top <= r.y <= bounds.top + bounds.height
    ensures bounds.left <= obj.x <= bounds.left + bounds.width && bounds.top <= obj.y <= bounds.top + bounds.height ==> r == obj
  {
    Vec(Clamp(obj.x, bounds.left, bounds.left + bounds.width),
        Clamp(obj.y, bounds.top, bounds.top + bounds.height))
  }

  /** Offset of the ball from the paddle centre, relative to half the paddle height. */
  function RelativeOffset(ballY: real, paddleY: real, paddleHeight: real): real
    requires paddleHeight != 0.0
  {
    var offset := ballY - (paddleY + paddleHeight / 2.0);
    offset / (paddleHeight / 2.0)
  }

  /**
   * Bounces the ball off a paddle: the horizontal direction reverses and the
   * vertical direction gains the cube of the relative hit offset, so hits far
   * from the centre deflect much more than central ones.
   */
  function ReflectBallFromPaddle(ballDir: Vec, ballY: real, paddleY: real, paddleHeight: real): Vec
    requires paddleHeight != 0.0
  {
    var relativeOffset := RelativeOffset(ballY, paddleY, paddleHeight);
    var relativeOffsetSquaredSigned := relativeOffset * Abs(relativeOffset) * Abs(relativeOffset);
    Vec(-ballDir.x, ballDir.y + relativeOffsetSquaredSigned)
  }

  /** The added vertical spin is the cube of the relative offset; x only changes sign. */
  lemma ReflectIsCubicSpin(ballDir: Vec, ballY: real, paddleY: real, paddleHeight: real)
    requires paddleHeight != 0.0
    ensures var r := RelativeOffset(ballY, paddleY, paddleHeight);
            ReflectBallFromPaddle(ballDir, ballY, paddleY, paddleHeight) == Vec(-ballDir.x, ballDir.y + r * r * r)
  {
    var r := RelativeOffset(ballY, paddleY, paddleHeight);
    assert Abs(r) * Abs(r) == r * r;
  }

  /** A hit at the exact centre of the paddle only reverses the horizontal direction. */
  lemma ReflectAtCentre(ballDir: Vec, paddleY: real, paddleHeight: real)
    requires paddleHeight != 0.0
    ensures ReflectBallFromPaddle(ballDir, paddleY + paddleHeight / 2.0, paddleY, paddleHeight) == Vec(-ballDir.x, ballDir.y)
  {
  }

  /** Mirrored hit heights give deflections of equal size and opposite sign. */
  lemma ReflectIsOdd(ballDir: Vec, delta: real, paddleY: real, paddleHeight: real)
    requires paddleHeight != 0.0
    ensures var c := paddleY + paddleHeight / 2.0;
            var above := ReflectBallFromPaddle(ballDir, c - delta, paddleY, paddleHeight);
            var below := ReflectBallFromPaddle(ballDir, c + delta, paddleY, paddleHeight);
            above.x == below.x && above.y - ballDir.y == -(below.y - ballDir.y)
  {
    var c := paddleY + paddleHeight / 2.0;
    var h := paddleHeight / 2.0;
    assert RelativeOffset(c - delta, paddleY, paddleHeight) == -delta / h;
    assert RelativeOffset(c + delta, paddleY, paddleHeight) == delta / h;
    ReflectIsCubicSpin(ballDir, c - delta, paddleY, paddleHeight);
    ReflectIsCubicSpin(ballDir, c + delta, paddleY, paddleHeight);
    var q := delta / h;
    assert (-q) * (-q) * (-q) == -(q * q * q);
  }

  lemma CubeIncreasing(a: real, b: real)
    requires a < b
    ensures a * a * a < b * b * b
  {
    var d := b - a;
    assert b * b * b - a * a * a == d * (a * a + a * b + b * b);
    assert a * a + a * b + b * b == (a + b / 2.0) * (a + b / 2.0) + 3.0 * b * b / 4.0;
    SquareSign(b);
    SquareSign(a + b / 2.0);
    assert Sq(b) == b * b && Sq(a + b / 2.0) == (a + b / 2.0) * (a + b / 2.0);
    assert d * (a * a + a * b + b * b) > 0.0;
  }

  /** On a paddle of positive height, a lower hit (greater y) always deflects further downwards. */
  lemma ReflectIsMonotone(ballDir: Vec, ballY1: real, ballY2: real, paddleY: real, paddleHeight: real)
    requires paddleHeight > 0.0 && ballY1 < ballY2
    ensures ReflectBallFromPaddle(ballDir, ballY1, paddleY, paddleHeight).y
          < ReflectBallFromPaddle(ballDir, ballY2, paddleY, paddleHeight).y
  {
    var r1 := RelativeOffset(ballY1, paddleY, paddleHeight);
    var r2 := RelativeOffset(ballY2, paddleY, paddleHeight);
    var h := paddleHeight / 2.0;
    assert r1 * h == ballY1 - (paddleY + h);
    assert r2 * h == ballY2 - (paddleY + h);
    assert (r2 - r1) * h > 0.0;
    assert r1 < r2;
    ReflectIsCubicSpin(ballDir, ballY1, paddleY, paddleHeight);
    ReflectIsCubicSpin(ballDir, ballY2, paddleY, paddleHeight);
    CubeIncreasing(r1, r2);
  }

  /** A ball centre within the paddle's span adds at most one unit of vertical spin. */
  lemma ReflectSpinBounded(ballDir: Vec, ballY: real, paddleY: real, paddleHeight: real)
    requires paddleHeight > 0.0 && paddleY <= ballY <= paddleY + paddleHeight
    ensures -1.0 <= ReflectBallFromPaddle(ballDir, ballY, paddleY, paddleHeight).y - ballDir.y <= 1.0
  {
    var r := RelativeOffset(ballY, paddleY, paddleHeight);
    var h := paddleHeight / 2.0;
    assert r * h == ballY - (paddleY + h);
    assert -1.0 <= r <= 1.0;
    ReflectIsCubicSpin(ballDir, ballY, paddleY, paddleHeight);
    CubeBounded(r);
  }

  lemma CubeBounded(r: real)
    requires -1.0 <= r <= 1.0
    ensures -1.0 <= r * r * r <= 1.0
  {
    SquareSign(r);
    assert r * r <= 1.0 by {
      if r >= 0.0 {
        assert r * r <= r * 1.0;
      } else {
        assert r * r <= (-r) * 1.0;
      }
    }
    if r >= 0.0 {
      assert (r * r) * r <= 1.0 * r;
    } else {
      assert (r * r) * (-r) <= 1.0 * (-r);
    }
  }

  /** Moves a paddle vertically by paddleSpeed * elapsedSeconds: up subtracts, down adds. */
  function MovePaddle(currentPosition: Vec, action: Controllers.Action, paddleSpeed: real, elapsedSeconds: real): Vec
  {
    match action
    case Up => Sub(currentPosition, Vec(0.0, paddleSpeed * elapsedSeconds))
    case Down => Add(currentPosition, Vec(0.0, paddleSpeed * elapsedSeconds))
    case None => currentPosition
  }

  /** A paddle only ever moves vertically, by exactly one step or not at all. */
  lemma MovePaddleIsVertical(p: Vec, action: Controllers.Action, speed: real, dt: real)
    ensures MovePaddle(p, action, speed, dt).x == p.x
    ensures var dy := MovePaddle(p, action, speed, dt).y - p.y;
            (action == Controllers.None ==> dy == 0.0) &&
            (action == Controllers.Up ==> dy == -(speed * dt)) &&
            (action == Controllers.Down ==> dy == speed * dt)
  {
  }

  /** Moving up then down (or down then up) with the same speed and time returns the paddle to where it was. */
  lemma MovePaddleUpDownCancel(p: Vec, speed: real, dt: real)
    ensures MovePaddle(MovePaddle(p, Controllers.Up, speed, dt), Controllers.Down, speed, dt) == p
    ensures MovePaddle(MovePaddle(p, Controllers.Down, speed, dt), Controllers.Up, speed, dt) == p
  {
  }
}
