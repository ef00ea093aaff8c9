/**
 The game engine. Floats are reals; the elementary functions are a parameter, of
 which only the laws named in Math.Valid are used.
 */
module Pong {
  import opened Text

  const LCD_WIDTH := 128.0
  const LCD_HEIGHT := 64.0
  const PADDLE_WIDTH := 4.0
  const PADDLE_HEIGHT := 14.0
  const PADDLE_BORDER := 5.0
  const PADDLE_SPEED := 80.0
  const PADDLE_AUTO_SPEED := 55.0
  const PUCK_START_SPEED := 40.0
  const PUCK_PLAY_SPEED := 120.0
  const PUCK_RADIUS := 2.0
  const COLLISION_TOLERANCE := 3.0

  const VELOCITIES_A: seq<(real, real)> := [
    (0.299777, 0.278854), (-0.723800, -0.510216), (-1.299285, 0.353399), (-0.198242, 0.180985), (-1.415851, -0.562724),
    (0.385606, 0.122490), (-1.547527, -0.559119), (0.765541, 0.517615), (0.468526, -0.319499), (1.702367, -0.795579)]
  const VELOCITIES_B: seq<(real, real)> := [
    (-1.953737, 0.694989), (1.198595, 0.459464), (1.583319, -0.842400), (-0.481705, 0.154704), (-1.070532, 0.322527),
    (2.557897, 0.710635), (1.290885, -0.444053), (1.393786, -0.674692), (-1.231363, 0.403641), (-0.330321, 0.218262)]
  const VELOCITIES_C: seq<(real, real)> := [
    (-1.439538, -0.673195), (-1.302843, 0.369229), (0.594090, -0.541904), (0.236921, -0.197670), (1.435542, -0.574747),
    (1.013453, -0.714257), (1.129002, 0.494028), (-1.101814, -0.276007), (-0.024249, 0.019053), (-1.053354, 0.722206)]
  const VELOCITIES_D: seq<(real, real)> := [
    (-1.323984, 0.584159), (0.642460, -0.230465), (-0.227863, 0.058229), (0.484477, 0.360567), (1.085422, 0.537197),
    (0.308061, -0.130469), (-3.101142, 0.943776), (-1.404513, 0.741037), (-2.282604, -0.694321), (-0.487959, 0.197889)]
  const VELOCITIES_E: seq<(real, real)> := [
    (3.120547, 0.858197), (-0.897647, -0.521095), (-2.036904, -0.828693), (-2.483721, 0.955969), (-1.802931, -0.743217),
    (1.699721, -0.469887), (-3.516844, 0.928726), (0.935688, 0.425898), (-0.316027, -0.123800), (-0.601032, -0.504189)]
  const PUCK_VELOCITIES := VELOCITIES_A + VELOCITIES_B + VELOCITIES_C + VELOCITIES_D + VELOCITIES_E

  datatype Math = Math(sqrt: real -> real, cos: real -> real, sin: real -> real, atan2: (real, real) -> real, pi: real)
  {
    ghost predicate Valid() {
      && 3.14 < pi < 3.15
      && (forall x {:trigger sqrt(x)} :: x >= 0.0 ==> sqrt(x) >= 0.0 && sqrt(x) * sqrt(x) == x)
      && (forall a {:trigger cos(a)} :: cos(a) * cos(a) + sin(a) * sin(a) == 1.0)
      && (forall a {:trigger sin(a)} :: -pi < a < pi ==> Sign(sin(a)) == Sign(a))
      && (forall a {:trigger cos(a)} :: -pi < 2.0 * a < pi ==> cos(a) > 0.0)
    }
  }

  function Sign(v: real): int { if v > 0.0 then 1 else if v < 0.0 then -1 else 0 }

  /** Python's int of a float. */
  function Truncate(r: real): int { if r >= 0.0 then r.Floor else -(-r).Floor }

  /** The fraction is cut off, towards zero. */
  lemma TruncateMeans(r: real)
    ensures var n := Truncate(r) as real;
            (r >= 0.0 ==> n <= r < n + 1.0 && n >= 0.0) && (r <= 0.0 ==> n - 1.0 < r <= n && n <= 0.0)
  {
  }

  // ------------------------------------------------------------- real arithmetic

  lemma SquaresScale(x: real, y: real, m: real, s: real)
    requires x * x + y * y == m * m
    ensures (x * s) * (x * s) + (y * s) * (y * s) == (m * s) * (m * s)
  {
    SquareOfProduct(x, s);
    SquareOfProduct(y, s);
    SquareOfProduct(m, s);
    var a, b, t := x * x, y * y, s * s;
    assert a * t + b * t == (a + b) * t;
  }

  lemma UnitScales(c: real, s: real, m: real)
    requires c * c + s * s == 1.0
    ensures (m * c) * (m * c) + (m * s) * (m * s) == m * m
  {
    SquaresScale(c, s, 1.0, m);
  }

  lemma SquareOfProduct(x: real, s: real)
    ensures (x * s) * (x * s) == (x * x) * (s * s)
  {
    assert (x * s) * (x * s) == ((x * s) * x) * s;
  }

  lemma RootUnique(a: real, b: real)
    requires a >= 0.0 && b >= 0.0 && a * a == b * b
    ensures a == b
  {
    if a < b {
      SquareGrows(a, b);
    } else if b < a {
      SquareGrows(b, a);
    }
  }

  lemma CoordinateBound(x: real, y: real, m: real)
    requires m >= 0.0 && x * x + y * y == m * m
    ensures -m <= y <= m && -m <= x <= m
  {
    assert x * x >= 0.0 && y * y >= 0.0;
    SquareBound(y, m);
    SquareBound(x, m);
  }

  lemma SquareBound(y: real, m: real)
    requires m >= 0.0 && y * y <= m * m
    ensures -m <= y <= m
  {
    if y > m {
      SquareGrows(m, y);
    } else if y < -m {
      SquareGrows(m, -y);
    }
  }

  lemma SquareGrows(a: real, b: real)
    requires 0.0 <= a < b
    ensures a * a < b * b
  {
    ProductSign(b - a, b + a);
    assert (b - a) * (b + a) == b * b - a * a;
  }

  lemma ProductSign(a: real, b: real)
    requires b > 0.0
    ensures Sign(a * b) == Sign(a)
  {
  }

  /** A coordinate of a vector of a length, u being the coordinate of its unit vector. */
  function Component(length: real, u: real): real { length * u }

  lemma Rescaled(m: real, u: real, mag: real)
    requires m > 0.0
    ensures Component(m, u) * (mag / m) == Component(mag, u)
  {
    var q := mag / m;
    assert q * m == mag;
    assert (m * u) * q == (q * m) * u;
  }

  /** Everything about a vector brought to another length. */
  lemma ScaledTo(x: real, y: real, m: real, mag: real, scale: real, x': real, y': real)
    requires m > 0.0 && mag > 0.0 && scale == mag / m && x' == x * scale && y' == y * scale
    requires x * x + y * y == m * m
    ensures x' * x' + y' * y' == mag * mag && SameDirection(x', y', x, y)
    ensures forall u :: x == Component(m, u) ==> x' == Component(mag, u)
    ensures forall u :: y == Component(m, u) ==> y' == Component(mag, u)
  {
    SquaresScale(x, y, m, scale);
    assert m * scale == mag;
    SameWay(x, y, scale);
    forall u ensures Component(m, u) * scale == Component(mag, u) {
      Rescaled(m, u, mag);
    }
  }

  lemma SameWay(x: real, y: real, scale: real)
    requires scale > 0.0
    ensures SameDirection(x * scale, y * scale, x, y)
  {
    ProductSign(x, scale);
    ProductSign(y, scale);
    assert (x * scale) * y == (y * scale) * x;
  }

  lemma NegatedComponent(m: real, u: real)
    ensures -Component(m, u) == Component(m, -u)
  {
  }

  predicate SameDirection(x: real, y: real, u: real, v: real) {
    Sign(x) == Sign(u) && Sign(y) == Sign(v) && x * v == y * u
  }

  class Vector {
    var x: real
    var y: real
    var magnitude: real
    var angle: real

    /** The magnitude is the length of (x, y). */
    ghost predicate Polar()
      reads this
    {
      magnitude >= 0.0 && x * x + y * y == magnitude * magnitude
    }

    constructor (math: Math, x: real, y: real)
      requires math.Valid()
      ensures this.x == x && this.y == y && Polar()
    {
      this.x, this.y := x, y;
      magnitude := 0.0;
      angle := 0.0;
      new;
      Recalc(math);
    }

    method Recalc(math: Math)
      requires math.Valid()
      modifies this`magnitude, this`angle
      ensures Polar()
      ensures angle == if magnitude != 0.0 then math.atan2(y, x) else 0.0
    {
      assert x * x >= 0.0 && y * y >= 0.0;
      magnitude := math.sqrt(x * x + y * y);
      if magnitude != 0.0 {
        angle := math.atan2(y, x);
      } else {
        angle := 0.0;
      }
    }

    method Set(math: Math, x: real, y: real)
      requires math.Valid()
      modifies this
      ensures this.x == x && this.y == y && Polar()
    {
      this.x, this.y := x, y;
      Recalc(math);
    }

    /** Keeps the direction. */
    method SetMagnitude(mag: real)
      requires Polar() && magnitude > 0.0 && mag > 0.0
      modifies this
      ensures magnitude == mag && Polar() && angle == old(angle)
      ensures SameDirection(x, y, old(x), old(y))
      ensures forall u :: old(x) == Component(old(magnitude), u) ==> x == Component(mag, u)
      ensures forall u :: old(y) == Component(old(magnitude), u) ==> y == Component(mag, u)
    {
      if magnitude != 0.0 {
        var scale := mag / magnitude;
        ghost var x0, y0 := x, y;
        x := x * scale;
        y := y * scale;
        ScaledTo(x0, y0, magnitude, mag, scale, x, y);
      }
      magnitude := mag;
    }

    method SetAngle(math: Math, angle: real)
      requires math.Valid() && Polar() && magnitude > 0.0
      modifies this
      ensures magnitude == old(magnitude) && Polar() && this.angle == angle
      ensures x == Component(magnitude, math.cos(angle)) && y == Component(magnitude, math.sin(angle))
    {
      PointAlong(math.cos(angle), math.sin(angle));
      this.angle := angle;
    }

    /** The same length in the direction of a unit vector. */
    method PointAlong(c: real, s: real)
      requires Polar() && c * c + s * s == 1.0
      modifies this`x, this`y
      ensures Polar() && x == Component(magnitude, c) && y == Component(magnitude, s)
    {
      UnitScales(c, s, magnitude);
      x := magnitude * c;
      y := magnitude * s;
    }

    method FlipY(math: Math)
      requires math.Valid() && Polar()
      modifies this
      ensures y == -old(y) && x == old(x) && magnitude == old(magnitude) && Polar()
    {
      y := 0.0 - y;
      Recalc(math);
      RootUnique(magnitude, old(magnitude));
    }

    method FlipX(math: Math)
      requires math.Valid() && Polar()
      modifies this
      ensures x == -old(x) && y == old(y) && magnitude == old(magnitude) && Polar()
    {
      x := 0.0 - x;
      Recalc(math);
      RootUnique(magnitude, old(magnitude));
    }
  }

  /** One frame's input; a missing key reads as false, "" and "none". */
  datatype Input = Input(quit: bool, start: string, player1: string, player2: string)

  /** All that a paddle goes by. */
  datatype View = View(isAuto: bool, speed: real, x: real, y: real, puckX: real, puckY: real, puckSpeedX: real)

  /** Where a paddle wants to go: towards an approaching puck, or as the player says. */
  function Wish(v: View, up: bool, down: bool, dt: real): real {
    if v.isAuto then
      var diff := v.puckY - v.y;
      if Sign(v.x - v.puckX) != Sign(v.puckSpeedX) then v.y
      else if diff < -PADDLE_AUTO_SPEED * dt then v.y - PADDLE_AUTO_SPEED * dt
      else if diff > PADDLE_AUTO_SPEED * dt then v.y + PADDLE_AUTO_SPEED * dt
      else v.y
    else v.y + v.speed * dt * (if up then -1.0 else if down then 1.0 else 0.0)
  }

  /** A player moves a paddle up by lowering its y: 0 is the top row. */
  lemma PlayerSteers(v: View, up: bool, down: bool, dt: real)
    requires !v.isAuto
    ensures up ==> Wish(v, up, down, dt) == v.y - v.speed * dt
    ensures !up && down ==> Wish(v, up, down, dt) == v.y + v.speed * dt
    ensures !up && !down ==> Wish(v, up, down, dt) == v.y
  {
  }

  /** An automatic paddle follows the height of a puck that approaches, and only that. */
  lemma AutoFollows(v: View, up: bool, down: bool, dt: real)
    requires v.isAuto && dt >= 0.0
    ensures var approaches := (v.puckSpeedX > 0.0 && v.puckX < v.x) || (v.puckSpeedX < 0.0 && v.puckX > v.x)
                              || (v.puckSpeedX == 0.0 && v.puckX == v.x);
            && (!approaches || -55.0 * dt <= v.puckY - v.y <= 55.0 * dt ==> Wish(v, up, down, dt) == v.y)
            && (approaches && v.puckY < v.y - 55.0 * dt ==> Wish(v, up, down, dt) == v.y - 55.0 * dt)
            && (approaches && v.puckY > v.y + 55.0 * dt ==> Wish(v, up, down, dt) == v.y + 55.0 * dt)
  {
  }

  class Paddle {
    const position: Vector
    var speed: real
    var score: nat
    var isAuto: bool
    var up: bool
    var down: bool

    ghost predicate InRange()
      reads position
    {
      PADDLE_HEIGHT / 2.0 <= position.y <= LCD_HEIGHT - PADDLE_HEIGHT / 2.0
    }

    /** Only an automatic paddle is slower. */
    ghost predicate Paced()
      reads this
    {
      isAuto || speed == PADDLE_SPEED
    }

    constructor (math: Math, x: real)
      requires math.Valid()
      ensures fresh(position) && position.x == x && InRange() && score == 0
      ensures !isAuto && !up && !down && speed == PADDLE_SPEED
    {
      position := new Vector(math, x, LCD_HEIGHT / 2.0);
      speed := PADDLE_SPEED;
      score := 0;
      isAuto := false;
      up := false;
      down := false;
    }

    method SetInput(direction: string)
      modifies this`up, this`down
      ensures up == (direction == "up") && down == (direction == "down")
    {
      if direction == "up" {
        up := true;
        down := false;
      } else if direction == "down" {
        up := false;
        down := true;
      } else {
        up := false;
        down := false;
      }
    }

    ghost function Sees(puck: Puck): View
      reads this, position, puck, puck.position, puck.velocity
    {
      View(isAuto, speed, position.x, position.y, puck.position.x, puck.position.y, puck.velocity.x)
    }

    method Follow(dt: real, puck: Puck)
      requires isAuto && position != puck.position && position != puck.velocity
      modifies this`speed, position`y
      ensures position.y == Wish(old(Sees(puck)), up, down, dt) && speed == PADDLE_AUTO_SPEED
    {
      speed := PADDLE_AUTO_SPEED;
      if Sign(position.x - puck.position.x) == Sign(puck.velocity.x) {
        var diff := puck.position.y - position.y;
        if diff < -speed * dt {
          position.y := position.y - speed * dt;
        } else if diff > speed * dt {
          position.y := position.y + speed * dt;
        }
      }
    }

    method Steer(dt: real)
      requires !isAuto
      modifies position`y
      ensures position.y == old(position.y) + speed * dt * (if up then -1.0 else if down then 1.0 else 0.0)
    {
      var direction := 0.0;
      if up {
        direction := -1.0;
      } else if down {
        direction := 1.0;
      }
      position.y := position.y + speed * dt * direction;
    }

    method Update(dt: real, puck: Puck)
      requires position != puck.position && position != puck.velocity
      modifies this`speed, position`y
      ensures position.y == Clamp(Wish(old(Sees(puck)), up, down, dt)) && InRange()
      ensures !isAuto ==>
        position.y == Clamp(if up then old(position.y) - old(speed) * dt
                            else if down then old(position.y) + old(speed) * dt else old(position.y))
      ensures isAuto && dt >= 0.0 ==>
        var y, reach, vx := old(position.y), 55.0 * dt, puck.velocity.x;
        var approaches := (vx > 0.0 && puck.position.x < position.x) || (vx < 0.0 && puck.position.x > position.x)
                          || (vx == 0.0 && puck.position.x == position.x);
        position.y == Clamp(if !approaches || -reach <= puck.position.y - y <= reach then y
                            else if puck.position.y < y then y - reach else y + reach)
      ensures speed == if isAuto then PADDLE_AUTO_SPEED else old(speed)
    {
      ghost var seen := Sees(puck);
      if isAuto {
        if dt >= 0.0 { AutoFollows(seen, up, down, dt); }
        Follow(dt, puck);
      } else {
        PlayerSteers(seen, up, down, dt);
        Steer(dt);
      }
      var halfH := PADDLE_HEIGHT / 2.0;
      var py := position.y;
      if py < halfH {
        py := halfH;
      }
      if py > LCD_HEIGHT - halfH {
        py := LCD_HEIGHT - halfH;
      }
      position.y := py;
    }
  }

  /** The nearest position of a paddle on the screen. */
  function Clamp(y: real): (r: real)
    ensures 7.0 <= r <= 57.0 && (7.0 <= y <= 57.0 ==> r == y)
    ensures forall z :: 7.0 <= z <= 57.0 ==> Distance(r, y) <= Distance(z, y)
  {
    if y < 7.0 then 7.0 else if y > 57.0 then 57.0 else y
  }

  function Distance(a: real, b: real): real { if a < b then b - a else a - b }

  class Puck {
    const position: Vector
    const velocity: Vector
    const left: Paddle
    const right: Paddle
    var velIdx: nat

    /** Everything the puck touches is a different object. */
    ghost predicate Separate() {
      && position != velocity && left != right && left.position != right.position
      && position !in {left.position, right.position} && velocity !in {left.position, right.position}
    }

    /** The next starting velocity is the one after as many as there were starts. */
    ghost predicate Counted()
      reads this, left, right
    {
      CountedAs(velIdx, left.score + right.score)
    }

    /** Never faster than a struck puck. */
    ghost predicate Moving()
      reads velocity
    {
      velocity.Polar() && velocity.magnitude in {PUCK_START_SPEED, PUCK_PLAY_SPEED} && -120.0 <= velocity.y <= 120.0
    }

    constructor (math: Math, left: Paddle, right: Paddle)
      requires math.Valid() && left != right && left.position != right.position && left.score == 0 && right.score == 0
      ensures this.left == left && this.right == right && fresh(position) && fresh(velocity) && Separate()
      ensures left.score == 0 && right.score == 0 && Counted() && Moving() && AtCentre()
    {
      this.left, this.right := left, right;
      position := new Vector(math, 0.0, 0.0);
      velocity := new Vector(math, 0.0, 0.0);
      velIdx := 0;
      new;
      Serve(math);
    }

    ghost predicate AtCentre()
      reads position
    {
      position.x == LCD_WIDTH / 2.0 && position.y == LCD_HEIGHT / 2.0
    }

    method NextVelocity() returns (vx: real, vy: real)
      requires velIdx < 50
      modifies this`velIdx
      ensures (vx, vy) == PUCK_VELOCITIES[old(velIdx)] && velIdx == (old(velIdx) + 1) % 50
    {
      vx, vy := PUCK_VELOCITIES[velIdx].0, PUCK_VELOCITIES[velIdx].1;
      velIdx := velIdx + 1;
      if velIdx >= 50 {
        velIdx := 0;
      }
    }

    /** A fresh start: at start speed in the direction of this table entry. */
    ghost predicate Started(i: nat)
      requires i < 50
      reads position, velocity
    {
      && AtCentre() && velocity.magnitude == PUCK_START_SPEED
      && SameDirection(velocity.x, velocity.y, PUCK_VELOCITIES[i].0, PUCK_VELOCITIES[i].1)
    }

    /** The direction of the table entry: on the same ray from the origin. */
    lemma StartMeans(i: nat)
      requires i < 50 && Started(i)
      ensures position.x == 64.0 && position.y == 32.0 && velocity.magnitude == 40.0
      ensures var (tx, ty) := PUCK_VELOCITIES[i];
        && velocity.x * ty == velocity.y * tx
        && (velocity.x > 0.0 <==> tx > 0.0) && (velocity.x < 0.0 <==> tx < 0.0)
        && (velocity.y > 0.0 <==> ty > 0.0) && (velocity.y < 0.0 <==> ty < 0.0)
    {
    }

    /** The second half of reset: back to the centre, with the next starting velocity. */
    method Serve(math: Math)
      requires math.Valid() && Separate() && velIdx < 50
      modifies this`velIdx, position, velocity
      ensures velIdx == NextIndex(old(velIdx)) && Moving() && Started(old(velIdx))
    {
      position.Set(math, LCD_WIDTH / 2.0, LCD_HEIGHT / 2.0);
      NoVelocityIsZero(velIdx);
      var vx, vy := NextVelocity();
      velocity.Set(math, vx, vy);
      MovingIsLong(velocity);
      velocity.SetMagnitude(PUCK_START_SPEED);
      VerticalSpeed(velocity);
    }

    method AddPoint(state: int)
      requires left != right
      modifies left`score, right`score
      ensures right.score == old(right.score) + (if state > 0 then 1 else 0)
      ensures left.score == old(left.score) + (if state < 0 then 1 else 0)
    {
      if state > 0 {
        right.score := right.score + 1;
      } else if state < 0 {
        left.score := left.score + 1;
      }
    }

    method Reset(math: Math, state: int)
      requires math.Valid() && Separate() && velIdx < 50
      modifies this`velIdx, position, velocity, left`score, right`score
      ensures velIdx == NextIndex(old(velIdx)) && Moving() && Started(old(velIdx))
      ensures right.score == old(right.score) + (if state > 0 then 1 else 0)
      ensures left.score == old(left.score) + (if state < 0 then 1 else 0)
      ensures old(Counted()) && state != 0 ==> Counted()
    {
      ghost var l, r, i := left.score, right.score, velIdx;
      AddPoint(state);
      Serve(math);
      NextCount(i, l + r, velIdx, left.score + right.score);
    }

    /** Neither above nor below the paddle, with some tolerance. */
    method BetweenPaddle(paddlePos: Vector) returns (r: bool)
      ensures r == Between(position.y, paddlePos.y)
    {
      var halfH := PADDLE_HEIGHT / 2.0;
      var yTop := paddlePos.y - halfH;
      var yBot := paddlePos.y + halfH;
      if position.y + PUCK_RADIUS + COLLISION_TOLERANCE <= yTop {
        return false;
      }
      if position.y - PUCK_RADIUS - COLLISION_TOLERANCE >= yBot {
        return false;
      }
      return true;
    }

    ghost predicate HitsLeft()
      reads this, position, left.position
    {
      position.x - PUCK_RADIUS < left.position.x + PADDLE_WIDTH / 2.0 && Between(position.y, left.position.y)
    }

    ghost predicate HitsRight()
      reads this, position, right.position
    {
      position.x + PUCK_RADIUS > right.position.x - PADDLE_WIDTH / 2.0 && Between(position.y, right.position.y)
    }

    /** The velocity leaves a paddle at full speed, at the angle of the place hit. */
    ghost predicate LeavesAt(math: Math, paddleY: real, leftwards: bool)
      reads position, velocity
    {
      Heads(math, HitAngle(math, position.y, paddleY), leftwards)
    }

    ghost predicate Heads(math: Math, angle: real, leftwards: bool)
      reads velocity
    {
      && velocity.magnitude == PUCK_PLAY_SPEED
      && velocity.x == Component(PUCK_PLAY_SPEED, if leftwards then -math.cos(angle) else math.cos(angle))
      && velocity.y == Component(PUCK_PLAY_SPEED, math.sin(angle))
    }

    /** What becomes of a velocity where the puck is: a paddle hit sends it back, then an edge flips it. */
    ghost predicate TurnedFrom(math: Math, vx: real, vy: real)
      reads this, position, velocity, left.position, right.position
    {
      if HitsRight() then Sent(math, right.position.y, true)
      else if HitsLeft() then Sent(math, left.position.y, false)
      else velocity.x == vx && velocity.y == Bounced(position.y, vy)
    }

    ghost predicate Sent(math: Math, paddleY: real, leftwards: bool)
      reads position, velocity
    {
      var angle := HitAngle(math, position.y, paddleY);
      && velocity.magnitude == PUCK_PLAY_SPEED
      && velocity.x == Component(PUCK_PLAY_SPEED, if leftwards then -math.cos(angle) else math.cos(angle))
      && velocity.y == Bounced(position.y, Component(PUCK_PLAY_SPEED, math.sin(angle)))
    }

    /**
     The velocity after a step, in numbers: a paddle within reach sends the puck back at 120, at an angle
     proportional to where it was hit, the right paddle first; then an edge turns the vertical part round.
     */
    lemma TurnMeans(math: Math, vx: real, vy: real)
      requires TurnedFrom(math, vx, vy)
      ensures var x, y := position.x, position.y;
        var a, b := HitAngle(math, y, right.position.y), HitAngle(math, y, left.position.y);
        var onRight := x > right.position.x - 4.0 && -12.0 < y - right.position.y < 12.0;
        var onLeft := x < left.position.x + 4.0 && -12.0 < y - left.position.y < 12.0;
        var wx := if onRight then -120.0 * math.cos(a) else if onLeft then 120.0 * math.cos(b) else vx;
        var wy := if onRight then 120.0 * math.sin(a) else if onLeft then 120.0 * math.sin(b) else vy;
        velocity.x == wx && velocity.y == if y < 2.0 || y > 62.0 then -wy else wy
    {
    }

    method Launch(math: Math, angle: real, flip: bool)
      requires math.Valid() && Moving()
      modifies velocity
      ensures Moving() && Heads(math, angle, flip)
    {
      velocity.SetAngle(math, angle);
      if flip {
        NegatedComponent(velocity.magnitude, math.cos(angle));
        velocity.FlipX(math);
      }
      velocity.SetMagnitude(PUCK_PLAY_SPEED);
      VerticalSpeed(velocity);
    }

    method Collide(math: Math)
      requires math.Valid() && Separate() && Moving()
      modifies velocity
      ensures Moving()
      ensures HitsRight() ==> LeavesAt(math, right.position.y, true)
      ensures HitsLeft() && !HitsRight() ==> LeavesAt(math, left.position.y, false)
      ensures !HitsLeft() && !HitsRight() ==> unchanged(velocity)
    {
      var halfW := PADDLE_WIDTH / 2.0;
      var onLeft := position.x - PUCK_RADIUS < left.position.x + halfW;
      var onRight := position.x + PUCK_RADIUS > right.position.x - halfW;
      var between := BetweenPaddle(left.position);
      if onLeft && between {
        Launch(math, HitAngle(math, position.y, left.position.y), false);
      }
      between := BetweenPaddle(right.position);
      if onRight && between {
        Launch(math, HitAngle(math, position.y, right.position.y), true);
      }
    }

    method Bounce(math: Math)
      requires math.Valid() && Separate() && Moving()
      modifies velocity
      ensures Moving() && velocity.x == old(velocity.x) && velocity.magnitude == old(velocity.magnitude)
      ensures velocity.y == Bounced(position.y, old(velocity.y))
    {
      if position.y < PUCK_RADIUS {
        velocity.FlipY(math);
      } else if position.y > LCD_HEIGHT - PUCK_RADIUS {
        velocity.FlipY(math);
      }
    }

    method Score(math: Math)
      requires math.Valid() && Separate() && Moving() && Counted()
      modifies this`velIdx, position, velocity, left`score, right`score
      ensures Moving() && Counted()
      ensures old(position.x) > 130.0 ==>
        Started(old(velIdx)) && left.score == old(left.score) + 1 && right.score == old(right.score)
      ensures old(position.x) < -2.0 ==>
        Started(old(velIdx)) && left.score == old(left.score) && right.score == old(right.score) + 1
      ensures -2.0 <= old(position.x) <= 130.0 ==> unchanged(this, position, velocity, left, right)
    {
      if position.x > LCD_WIDTH + PUCK_RADIUS {
        Reset(math, -1);
      } else if position.x < -PUCK_RADIUS {
        Reset(math, 1);
      }
    }

    /** Nothing clamps the puck, yet it overshoots the edges by at most one step at full speed, now and one step on. */
    ghost predicate InField(dt: real)
      reads position, velocity
    {
      InBand(dt, position.y) && InBand(dt, Next(position.y, velocity.y, dt)) && -2.0 <= position.x <= 130.0
    }

    method Move(math: Math, dt: real)
      requires math.Valid() && Separate()
      modifies position
      ensures position.x == old(Next(position.x, velocity.x, dt)) && position.y == old(Next(position.y, velocity.y, dt))
    {
      position.x := position.x + velocity.x * dt;
      position.y := position.y + velocity.y * dt;
      position.Recalc(math);
    }

    method Update(math: Math, dt: real)
      requires math.Valid() && dt >= 0.0 && Separate() && Moving() && Counted()
      requires left.InRange() && right.InRange() && InField(dt)
      modifies this`velIdx, position, velocity, left`score, right`score
      ensures Moving() && Counted() && InField(dt)
      ensures var x := old(Next(position.x, velocity.x, dt));
        && left.score == old(left.score) + (if x > 130.0 then 1 else 0)
        && right.score == old(right.score) + (if x < -2.0 then 1 else 0)
        && (if x < -2.0 || x > 130.0 then Started(old(velIdx))
            else position.x == x && position.y == old(Next(position.y, velocity.y, dt))
                 && TurnedFrom(math, old(velocity.x), old(velocity.y)))
    {
      ghost var y0, vy0 := position.y, velocity.y;
      Move(math, dt);
      Turn(math, dt, y0, vy0);
      Score(math);
      CentreIsInside(dt, velocity.y);
    }

    /** Collision and bounce after a step of the puck from y0 at vertical speed vy0. */
    method Turn(math: Math, dt: real, ghost y0: real, ghost vy0: real)
      requires math.Valid() && dt >= 0.0 && Separate() && Moving() && left.InRange() && right.InRange()
      requires velocity.y == vy0 && position.y == Next(y0, vy0, dt) && InBand(dt, y0) && InBand(dt, position.y)
      modifies velocity
      ensures Moving() && InBand(dt, Next(position.y, velocity.y, dt)) && TurnedFrom(math, old(velocity.x), vy0)
    {
      ghost var hit, paddleY := HitsLeft() || HitsRight(), if HitsRight() then right.position.y else left.position.y;
      Collide(math);
      if hit {
        HitAngleSign(math, position.y, paddleY);
      }
      ghost var vy1 := velocity.y;
      BounceKeepsBand(dt, y0, vy0, position.y, vy1, hit, paddleY);
      Bounce(math);
    }
  }

  /** The puck counts as beside the paddle if and only if some height lies within both of them, the puck
      widened by the tolerance. */
  lemma BetweenIsOverlap(y: real, paddleY: real)
    ensures Between(y, paddleY) <==> exists height ::
      Distance(height, y) < PUCK_RADIUS + COLLISION_TOLERANCE && Distance(height, paddleY) < PADDLE_HEIGHT / 2.0
  {
    if Between(y, paddleY) {
      var height := y + (paddleY - y) * 5.0 / 12.0;
      assert Distance(height, y) < 5.0 && Distance(height, paddleY) < 7.0;
    }
  }

  predicate Between(y: real, paddleY: real) {
    y + PUCK_RADIUS + COLLISION_TOLERANCE > paddleY - 7.0 && y - PUCK_RADIUS - COLLISION_TOLERANCE < paddleY + 7.0
  }

  function HitAngle(math: Math, y: real, paddleY: real): real {
    (y - (paddleY - PADDLE_HEIGHT / 2.0)) / PADDLE_HEIGHT * math.pi / 2.0 - math.pi / 4.0
  }

  /** The angle is proportional to the distance from the middle: an eighth of a turn at the ends of the paddle. */
  lemma HitAngleMeans(math: Math, y: real, paddleY: real)
    ensures HitAngle(math, y, paddleY) == (y - paddleY) / 14.0 * math.pi / 2.0
    ensures HitAngle(math, paddleY + 7.0, paddleY) == math.pi / 4.0
    ensures HitAngle(math, paddleY - 7.0, paddleY) == -math.pi / 4.0
  {
    assert (y - (paddleY - 7.0)) / PADDLE_HEIGHT == (y - paddleY) / 14.0 + 0.5;
    var d := (y - paddleY) / 14.0;
    assert (d + 0.5) * math.pi == d * math.pi + 0.5 * math.pi;
  }

  function Bounced(y: real, vy: real): real { if y < 2.0 || y > 62.0 then -vy else vy }

  /** One step of a coordinate at a speed. */
  function Next(y: real, v: real, dt: real): real { y + v * dt }

  predicate InBand(dt: real, y: real) { 2.0 - 120.0 * dt <= y <= 62.0 + 120.0 * dt }

  /** A puck above the middle of the paddle leaves upwards, one below it downwards, never steeper than a right angle. */
  lemma HitAngleSign(math: Math, y: real, paddleY: real)
    requires math.Valid() && Between(y, paddleY)
    ensures var a := HitAngle(math, y, paddleY);
            && Sign(a) == Sign(y - paddleY) && -math.pi < 2.0 * a < math.pi
            && Sign(Component(PUCK_PLAY_SPEED, math.sin(a))) == Sign(y - paddleY)
            && Component(PUCK_PLAY_SPEED, math.cos(a)) > 0.0
  {
    var a, d, pi := HitAngle(math, y, paddleY), (y - paddleY) / 14.0, math.pi;
    assert (y - (paddleY - 7.0)) / PADDLE_HEIGHT == d + 0.5;
    assert a == d * pi / 2.0;
    ProductSign(d, pi);
    ProductSign(1.0 - d, pi);
    ProductSign(1.0 + d, pi);
  }

  lemma VerticalSpeed(v: Vector)
    requires v.Polar() && v.magnitude <= PUCK_PLAY_SPEED
    ensures -120.0 <= v.y <= 120.0
  {
    CoordinateBound(v.x, v.y, v.magnitude);
  }

  lemma SpeedTimesStep(v: real, dt: real)
    requires dt >= 0.0 && -120.0 <= v <= 120.0
    ensures -(120.0 * dt) <= v * dt <= 120.0 * dt
  {
  }

  /**
   Why the puck stays near the screen: at an edge the flip either undoes the step that led there,
   or, after a hit, turns a velocity that pointed outwards.
   */
  lemma BounceKeepsBand(dt: real, y0: real, vy0: real, y1: real, vy1: real, hit: bool, paddleY: real)
    requires dt >= 0.0 && InBand(dt, y0) && y1 == Next(y0, vy0, dt) && InBand(dt, y1)
    requires -120.0 <= vy1 <= 120.0
    requires !hit ==> vy1 == vy0
    requires hit ==> 7.0 <= paddleY <= 57.0 && Sign(vy1) == Sign(y1 - paddleY)
    ensures InBand(dt, Next(y1, Bounced(y1, vy1), dt))
  {
    SpeedTimesStep(vy1, dt);
    assert (-vy1) * dt == -(vy1 * dt);
    if hit && y1 < 2.0 {
      assert vy1 < 0.0 && (-vy1) * dt >= 0.0;
    } else if hit && y1 > 62.0 {
      assert vy1 > 0.0 && vy1 * dt >= 0.0;
    }
  }

  lemma CentreIsInside(dt: real, vy: real)
    requires dt >= 0.0 && -120.0 <= vy <= 120.0
    ensures InBand(dt, 32.0) && InBand(dt, Next(32.0, vy, dt))
  {
    SpeedTimesStep(vy, dt);
  }

  /** The index that belongs to a number of points. */
  predicate CountedAs(velIdx: nat, points: nat) { velIdx == (1 + points) % 50 }

  function NextIndex(i: nat): nat { if i + 1 >= 50 then 0 else i + 1 }

  lemma NextCount(velIdx: nat, points: nat, velIdx': nat, points': nat)
    requires velIdx < 50 && velIdx' == NextIndex(velIdx)
    ensures CountedAs(velIdx, points) && points' == points + 1 ==> CountedAs(velIdx', points')
  {
  }

  predicate NoneVertical(velocities: seq<(real, real)>) { forall v :: v in velocities ==> v.0 != 0.0 }

  lemma FirstRowsMove()
    ensures NoneVertical(VELOCITIES_A) && NoneVertical(VELOCITIES_B)
  {
  }

  lemma MiddleRowsMove()
    ensures NoneVertical(VELOCITIES_C)
  {
  }

  lemma LastRowsMove()
    ensures NoneVertical(VELOCITIES_D) && NoneVertical(VELOCITIES_E)
  {
  }

  lemma NoVelocityIsZero(i: nat)
    requires i < 50
    ensures PUCK_VELOCITIES[i].0 != 0.0
  {
    FirstRowsMove();
    MiddleRowsMove();
    LastRowsMove();
    assert PUCK_VELOCITIES[i] in PUCK_VELOCITIES;
  }

  lemma MovingIsLong(v: Vector)
    requires v.Polar() && v.x != 0.0
    ensures v.magnitude > 0.0
  {
    LongVector(v.x, v.y, v.magnitude);
  }

  lemma LongVector(x: real, y: real, m: real)
    requires m >= 0.0 && x * x + y * y == m * m && x != 0.0
    ensures m > 0.0
  {
    var xx := Square(x);
    var yy := Square(y);
    var mm := Square(m);
  }

  /** The value of a square, named so that the solver keeps its sign. */
  lemma Square(x: real) returns (square: real)
    ensures square == x * x && square >= 0.0 && (square > 0.0 <==> x != 0.0)
  {
    square := x * x;
    if x > 0.0 { SquareGrows(0.0, x); } else if x < 0.0 { SquareGrows(0.0, -x); }
  }

  datatype GameState = Splash | Play | Quit

  /** What a step of the engine goes by: the state, what each paddle sees, and the rest of the puck. */
  datatype Scene = Scene(state: GameState, left: View, right: View, puckSpeedY: real,
                         leftScore: nat, rightScore: nat, velIdx: nat)

  class Game {
    const left: Paddle
    const right: Paddle
    const puck: Puck
    var state: GameState

    /** What holds between any two calls of step with the time step dt. */
    ghost predicate Valid(dt: real)
      reads left, left.position, right, right.position, puck, puck.position, puck.velocity
    {
      && puck.left == left && puck.right == right && puck.Separate() && puck.velIdx < 50
      && puck.Moving() && puck.Counted() && puck.InField(dt)
      && left.InRange() && right.InRange() && left.Paced() && right.Paced() && !right.isAuto
    }

    constructor (math: Math, dt: real)
      requires math.Valid() && dt >= 0.0
      ensures Valid(dt) && state == Splash && left.score == 0 && right.score == 0
      ensures left.position.x == PADDLE_BORDER && right.position.x == LCD_WIDTH - PADDLE_BORDER
    {
      var l := new Paddle(math, PADDLE_BORDER);
      var r := new Paddle(math, LCD_WIDTH - PADDLE_BORDER);
      left, right := l, r;
      puck := new Puck(math, l, r);
      state := Splash;
      new;
      CentreIsInside(dt, puck.velocity.y);
    }

    /** The numbers of the current frame. */
    ghost function Report(): Frame
      reads this, left, left.position, right, right.position, puck, puck.position
    {
      Frame(Truncate(puck.position.x), Truncate(puck.position.y), Truncate(left.position.y), Truncate(right.position.y),
            left.score, right.score)
    }

    /** What a step goes by. */
    ghost function Now(): Scene
      reads this, left, left.position, right, right.position, puck, puck.position, puck.velocity
    {
      Scene(state, left.Sees(puck), right.Sees(puck), puck.velocity.y, left.score, right.score, puck.velIdx)
    }

    method Step(math: Math, data: Input, dt: real) returns (text: string)
      requires math.Valid() && dt >= 0.0 && Valid(dt)
      modifies this, left, left.position, right, right.position, puck, puck.position, puck.velocity
      ensures Valid(dt) && SteppedFrom(math, data, dt, old(Now()))
      ensures text == if old(state) == Play && !data.quit then FrameText(Report()) else ""
      ensures old(state) != Play || data.quit ==>
        unchanged(left.position, right.position, puck, puck.position, puck.velocity)
      ensures old(state) == Play && !data.quit ==>
        right.position.y == Clamp(if data.player2 == "up" then old(right.position.y) - 80.0 * dt
                                  else if data.player2 == "down" then old(right.position.y) + 80.0 * dt
                                  else old(right.position.y))
      ensures old(state) == Play && !data.quit && !old(left.isAuto) ==>
        left.position.y == Clamp(if data.player1 == "up" then old(left.position.y) - 80.0 * dt
                                 else if data.player1 == "down" then old(left.position.y) + 80.0 * dt
                                 else old(left.position.y))
      ensures old(state) == Play && !data.quit && old(left.isAuto) ==>
        var y, reach, vx := old(left.position.y), 55.0 * dt, old(puck.velocity.x);
        var away := old(left.position.x - puck.position.x);
        var approaches := (vx > 0.0 && away > 0.0) || (vx < 0.0 && away < 0.0) || (vx == 0.0 && away == 0.0);
        left.position.y == Clamp(if !approaches || -reach <= old(puck.position.y) - y <= reach then y
                                 else if old(puck.position.y) < y then y - reach else y + reach)
    {
      text := "";
      match state
      case Splash =>
        if data.quit {
          state := Quit;
          return;
        }
        if data.start == "single" {
          left.isAuto := true;
          state := Play;
        } else if data.start == "multi" {
          state := Play;
        }
      case Play =>
        if data.quit {
          state := Quit;
          return;
        }
        text := StepPlay(math, data, dt);
      case Quit =>
    }

    method FrameNow() returns (text: string)
      ensures text == FrameText(Report())
    {
      var px := Itoa(Truncate(puck.position.x));
      var py := Itoa(Truncate(puck.position.y));
      var ly := Itoa(Truncate(left.position.y));
      var ry := Itoa(Truncate(right.position.y));
      var ls := Itoa(left.score);
      var rs := Itoa(right.score);
      text := px + ("," + (py + ("," + (ly + ("," + (ry + ("," + (ls + ("," + rs)))))))));
    }

    /** The state machine of the engine, and what a step in each state makes of the scene before. */
    ghost predicate SteppedFrom(math: Math, data: Input, dt: real, s: Scene)
      reads this, left, left.position, right, right.position, puck, puck.position, puck.velocity,
        puck.left, puck.left.position, puck.right, puck.right.position
    {
      match s.state
      case Quit => Now() == s
      case Play => if data.quit then Now() == s.(state := Quit) else state == Play && PlayedFrom(math, data, dt, s)
      case Splash =>
        if data.quit then Now() == s.(state := Quit)
        else if data.start == "single" then Now() == s.(state := Play, left := s.left.(isAuto := true))
        else if data.start == "multi" then Now() == s.(state := Play)
        else Now() == s
    }

    /** One step of play: each paddle follows its wish as far as the screen goes, the puck its velocity until
        it is out. */
    ghost predicate PlayedFrom(math: Math, data: Input, dt: real, s: Scene)
      reads left, left.position, right, right.position, puck, puck.position, puck.velocity,
        puck.left, puck.left.position, puck.right, puck.right.position
    {
      PaddlesPlayed(data, dt, s) && PuckPlayed(math, dt, s)
    }

    ghost predicate PaddlesPlayed(data: Input, dt: real, s: Scene)
      reads left, left.position, right, right.position
    {
      && left.position.y == Clamp(Wish(s.left, data.player1 == "up", data.player1 == "down", dt))
      && right.position.y == Clamp(Wish(s.right, data.player2 == "up", data.player2 == "down", dt))
      && left.isAuto == s.left.isAuto && right.isAuto == s.right.isAuto
    }

    ghost predicate PuckPlayed(math: Math, dt: real, s: Scene)
      reads left, left.position, right, right.position, puck, puck.position, puck.velocity,
        puck.left, puck.left.position, puck.right, puck.right.position
    {
      var x := Next(s.left.puckX, s.left.puckSpeedX, dt);
      && PuckMoved(dt, s)
      && (x < -2.0 || x > 130.0 ==> s.velIdx < 50 && puck.Started(s.velIdx))
      && (-2.0 <= x <= 130.0 ==> puck.TurnedFrom(math, s.left.puckSpeedX, s.puckSpeedY))
    }

    ghost predicate PuckMoved(dt: real, s: Scene)
      reads left, right, puck, puck.position
    {
      var x, y := Next(s.left.puckX, s.left.puckSpeedX, dt), Next(s.left.puckY, s.puckSpeedY, dt);
      && left.score == s.leftScore + (if x > 130.0 then 1 else 0)
      && right.score == s.rightScore + (if x < -2.0 then 1 else 0)
      && (-2.0 <= x <= 130.0 ==> puck.position.x == x && puck.position.y == y)
    }

    /** Where a step of play takes the paddles. */
    lemma PaddlesMove(data: Input, dt: real, s: Scene)
      requires PaddlesPlayed(data, dt, s) && dt >= 0.0
      requires !s.right.isAuto && s.right.speed == 80.0 && (s.left.isAuto || s.left.speed == 80.0)
      ensures right.position.y == Clamp(if data.player2 == "up" then s.right.y - 80.0 * dt
                                        else if data.player2 == "down" then s.right.y + 80.0 * dt else s.right.y)
      ensures !s.left.isAuto ==>
        left.position.y == Clamp(if data.player1 == "up" then s.left.y - 80.0 * dt
                                 else if data.player1 == "down" then s.left.y + 80.0 * dt else s.left.y)
      ensures s.left.isAuto ==>
        var y, reach, vx, away := s.left.y, 55.0 * dt, s.left.puckSpeedX, s.left.x - s.left.puckX;
        var approaches := (vx > 0.0 && away > 0.0) || (vx < 0.0 && away < 0.0) || (vx == 0.0 && away == 0.0);
        left.position.y == Clamp(if !approaches || -reach <= s.left.puckY - y <= reach then y
                                 else if s.left.puckY < y then y - reach else y + reach)
    {
      PlayerSteers(s.right, data.player2 == "up", data.player2 == "down", dt);
      if s.left.isAuto {
        AutoFollows(s.left, data.player1 == "up", data.player1 == "down", dt);
      } else {
        PlayerSteers(s.left, data.player1 == "up", data.player1 == "down", dt);
      }
    }

    method StepPlay(math: Math, data: Input, dt: real) returns (text: string)
      requires math.Valid() && dt >= 0.0 && Valid(dt)
      modifies left, left.position, right, right.position, puck, puck.position, puck.velocity
      ensures Valid(dt) && PlayedFrom(math, data, dt, old(Now())) && text == FrameText(Report())
      ensures right.position.y
           == Clamp(if data.player2 == "up" then old(right.position.y) - 80.0 * dt
                    else if data.player2 == "down" then old(right.position.y) + 80.0 * dt
                    else old(right.position.y))
      ensures !old(left.isAuto) ==>
        left.position.y == Clamp(if data.player1 == "up" then old(left.position.y) - 80.0 * dt
                                 else if data.player1 == "down" then old(left.position.y) + 80.0 * dt
                                 else old(left.position.y))
      ensures old(left.isAuto) ==>
        var y, reach, vx := old(left.position.y), 55.0 * dt, old(puck.velocity.x);
        var away := old(left.position.x - puck.position.x);
        var approaches := (vx > 0.0 && away > 0.0) || (vx < 0.0 && away < 0.0) || (vx == 0.0 && away == 0.0);
        left.position.y == Clamp(if !approaches || -reach <= old(puck.position.y) - y <= reach then y
                                 else if old(puck.position.y) < y then y - reach else y + reach)
    {
      MoveAll(math, data, dt);
      text := FrameNow();
    }

    /** Where a step of play takes the puck, and who scores. */
    lemma PuckMoves(dt: real, s: Scene)
      requires PuckMoved(dt, s)
      ensures var x, y := s.left.puckX + s.left.puckSpeedX * dt, s.left.puckY + s.puckSpeedY * dt;
        && (-2.0 <= x <= 130.0 ==>
             puck.position.x == x && puck.position.y == y && left.score == s.leftScore && right.score == s.rightScore)
        && (x > 130.0 ==> left.score == s.leftScore + 1 && right.score == s.rightScore)
        && (x < -2.0 ==> left.score == s.leftScore && right.score == s.rightScore + 1)
    {
    }

    /** Paddles first, then the puck. */
    method MoveAll(math: Math, data: Input, dt: real)
      requires math.Valid() && dt >= 0.0 && Valid(dt)
      modifies left, left.position, right, right.position, puck, puck.position, puck.velocity
      ensures Valid(dt) && PlayedFrom(math, data, dt, old(Now()))
      ensures right.position.y
           == Clamp(if data.player2 == "up" then old(right.position.y) - 80.0 * dt
                    else if data.player2 == "down" then old(right.position.y) + 80.0 * dt
                    else old(right.position.y))
      ensures !old(left.isAuto) ==>
        left.position.y == Clamp(if data.player1 == "up" then old(left.position.y) - 80.0 * dt
                                 else if data.player1 == "down" then old(left.position.y) + 80.0 * dt
                                 else old(left.position.y))
      ensures old(left.isAuto) ==>
        var y, reach, vx := old(left.position.y), 55.0 * dt, old(puck.velocity.x);
        var away := old(left.position.x - puck.position.x);
        var approaches := (vx > 0.0 && away > 0.0) || (vx < 0.0 && away < 0.0) || (vx == 0.0 && away == 0.0);
        left.position.y == Clamp(if !approaches || -reach <= old(puck.position.y) - y <= reach then y
                                 else if old(puck.position.y) < y then y - reach else y + reach)
    {
      ghost var before := Now();
      StepPaddles(data, dt);
      puck.Update(math, dt);
      PaddlesMove(data, dt, before);
    }

    method StepPaddles(data: Input, dt: real)
      requires left != right && left.position != right.position
      requires {puck.position, puck.velocity} !! {left.position, right.position}
      modifies left`up, left`down, left`speed, left.position`y, right`up, right`down, right`speed, right.position`y
      ensures left.InRange() && right.InRange()
      ensures old(left.Paced()) ==> left.Paced()
      ensures old(right.Paced()) ==> right.Paced()
      ensures left.position.y == Clamp(Wish(old(left.Sees(puck)), data.player1 == "up", data.player1 == "down", dt))
      ensures right.position.y == Clamp(Wish(old(right.Sees(puck)), data.player2 == "up", data.player2 == "down", dt))
    {
      left.SetInput(data.player1);
      right.SetInput(data.player2);
      left.Update(dt, puck);
      right.Update(dt, puck);
    }
  }
}
