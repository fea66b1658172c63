/**
 * The rules of one Pong game as values: the field, the initial layout and
 * the per-frame step that the game state's update performs in place.
 */
module GameRules {
  import opened Vectors
  import opened Helpers
  import Controllers
  import opened Events

  const SPEED_PADDLE: real := 200.0
  const SPEED_BALL: real := 450.0
  /** The ball is a circle of radius 20; its position is its centre. */
  const BALL_RADIUS: real := 20.0
  /** Both paddles are 20 wide and 120 high; a paddle's position is its top-left corner. */
  const PADDLE_WIDTH: real := 20.0
  const PADDLE_HEIGHT: real := 120.0
  /** Largest vertical part the ball's direction may keep after a frame. */
  const DIR_Y_LIMIT: real := 0.7

  /** The play area. */
  datatype Field = Field(left: real, right: real, top: real, bottom: real)
  {
    /** The centre lies halfway between the borders. */
    function GetCenter(): (c: Vec)
      ensures c.x - left == right - c.x && c.y - top == bottom - c.y
    {
      Vec((left + right) / 2.0, (top + bottom) / 2.0)
    }

    /** Width and height: added to the top-left corner they give the bottom-right one. */
    function GetSize(): (s: Vec)
      ensures left + s.x == right && top + s.y == bottom
    {
      Vec(right - left, bottom - top)
    }
  }

  /** The field for a screen: a margin of a sixteenth of the width left and right, a twelfth of the height above and below. */
  function FieldFor(screenSize: Vec): Field
  {
    var left := screenSize.x / 16.0;
    var top := screenSize.y / 12.0;
    Field(left, screenSize.x - left, top, screenSize.y - top)
  }

  /** On a screen of positive size the field is a proper rectangle centred on the screen. */
  lemma FieldLayout(screenSize: Vec)
    requires screenSize.x > 0.0 && screenSize.y > 0.0
    ensures var f := FieldFor(screenSize);
            f.left < f.right && f.top < f.bottom &&
            0.0 < f.left && f.right < screenSize.x && 0.0 < f.top && f.bottom < screenSize.y &&
            f.GetCenter() == Vec(screenSize.x / 2.0, screenSize.y / 2.0) &&
            f.GetSize() == Vec(screenSize.x * 7.0 / 8.0, screenSize.y * 5.0 / 6.0)
  {
  }

  /** Who steers a paddle. */
  datatype PaddleMode = Keyboard | AI

  /** Everything about a running game that its update may change, plus its fixed set-up. */
  datatype GameModel = GameModel(
    field: Field,
    leftMode: PaddleMode,
    rightMode: PaddleMode,
    posBall: Vec,
    dirBall: Vec,
    posPaddleLeft: Vec,
    posPaddleRight: Vec,
    scoreLeft: int,
    scoreRight: int,
    // where the paddle shapes were last placed; the controllers see their bounds
    shapePaddleLeft: Vec,
    shapePaddleRight: Vec)

  /** The ball keeps a horizontal direction of exactly one unit and a bounded vertical one. */
  ghost predicate DirectionInvariant(dir: Vec)
  {
    Abs(dir.x) == 1.0 && -DIR_Y_LIMIT <= dir.y <= DIR_Y_LIMIT
  }

  /**
   * A new game: the ball in the centre flying right, the left paddle just
   * outside the field's left border, the right one on its right border, both
   * vertically centred, no score, and the paddle shapes not yet placed.
   */
  function Initial(screenSize: Vec, leftMode: PaddleMode, rightMode: PaddleMode): GameModel
  {
    var field := FieldFor(screenSize);
    var center := field.GetCenter();
    GameModel(field, leftMode, rightMode,
              center, Vec(1.0, 0.0),
              Vec(field.left - PADDLE_WIDTH, center.y - PADDLE_HEIGHT / 2.0),
              Vec(field.right, center.y - PADDLE_HEIGHT / 2.0),
              0, 0,
              Vec(0.0, 0.0), Vec(0.0, 0.0))
  }

  /** A new game starts with no score, the ball at the centre and a direction that satisfies the invariant. */
  lemma InitialState(screenSize: Vec, leftMode: PaddleMode, rightMode: PaddleMode)
    requires screenSize.x > 0.0 && screenSize.y > 0.0
    ensures var m := Initial(screenSize, leftMode, rightMode);
            m.scoreLeft == 0 && m.scoreRight == 0 &&
            DirectionInvariant(m.dirBall) &&
            m.posBall == Vec(screenSize.x / 2.0, screenSize.y / 2.0) &&
            m.posPaddleLeft.x + PADDLE_WIDTH == m.field.left && m.posPaddleRight.x == m.field.right &&
            m.posPaddleLeft.y + PADDLE_HEIGHT / 2.0 == m.posBall.y &&
            m.posPaddleRight.y + PADDLE_HEIGHT / 2.0 == m.posBall.y
  {
    FieldLayout(screenSize);
  }

  /** The bounds of a paddle shape placed at pos. */
  function PaddleBounds(pos: Vec): Rect
  {
    Rect(pos.x, pos.y, PADDLE_WIDTH, PADDLE_HEIGHT)
  }

  /**
   * One controller's decision. A keyboard controller polls its two keys
   * (W and S for the left paddle, Up and Down for the right one).
   */
  function ControllerAct(mode: PaddleMode, upKey: Key, downKey: Key, keys: KeyboardState,
                         ball: Vec, ballSpeed: Vec, thisPaddle: Rect, enemyPaddle: Rect): Controllers.Action
  {
    match mode
    case Keyboard => Controllers.KeyboardAct(upKey in keys.held, downKey in keys.held)
    case AI => Controllers.AiAct(ball, ballSpeed, thisPaddle, enemyPaddle)
  }

  /** The ball touches the top wall, or the bottom wall. */
  predicate TouchesTop(field: Field, pos: Vec)
  {
    pos.y - BALL_RADIUS <= field.top
  }

  predicate TouchesBottom(field: Field, pos: Vec)
  {
    pos.y + BALL_RADIUS >= field.bottom
  }

  /** Top and bottom walls reverse the vertical direction, but only while it points further out. */
  function BounceOffWalls(field: Field, pos: Vec, dir: Vec): Vec
  {
    if (TouchesTop(field, pos) && dir.y < 0.0) || (TouchesBottom(field, pos) && dir.y > 0.0) then
      Vec(dir.x, dir.y * -1.0)
    else
      dir
  }

  /**
   * The bounce only ever flips the vertical direction, and afterwards a ball
   * touching just one wall does not head further into it; a ball that does not
   * head outwards keeps its direction.
   */
  lemma BounceOutwardOnly(field: Field, pos: Vec, dir: Vec)
    ensures var r := BounceOffWalls(field, pos, dir);
            r.x == dir.x && (r.y == dir.y || r.y == -dir.y) &&
            (TouchesTop(field, pos) && !TouchesBottom(field, pos) ==> r.y >= 0.0) &&
            (TouchesBottom(field, pos) && !TouchesTop(field, pos) ==> r.y <= 0.0) &&
            (!(TouchesTop(field, pos) && dir.y < 0.0) && !(TouchesBottom(field, pos) && dir.y > 0.0) ==> r == dir)
  {
  }

  /** Ball position and direction. */
  datatype Ball = Ball(pos: Vec, dir: Vec)

  /** The result of checking one side of the field: the ball afterwards, and whether the opponent scored. */
  datatype SideResult = SideResult(ball: Ball, scored: bool)

  /** The ball's vertical extent overlaps the paddle's (open intervals). */
  predicate OverlapsPaddle(ballY: real, paddleY: real)
  {
    ballY + BALL_RADIUS > paddleY && ballY - BALL_RADIUS < paddleY + PADDLE_HEIGHT
  }

  /**
   * A ball flying left whose left edge reached the field's left border is
   * either reflected by the left paddle or, missing it, scores for the right
   * player and restarts from the centre towards the right.
   */
  function LeftSide(field: Field, ball: Ball, paddleY: real): SideResult
  {
    if ball.dir.x < 0.0 && ball.pos.x - BALL_RADIUS <= field.left then
      if OverlapsPaddle(ball.pos.y, paddleY) then
        SideResult(Ball(ball.pos, ReflectBallFromPaddle(ball.dir, ball.pos.y, paddleY, PADDLE_HEIGHT)), false)
      else
        SideResult(Ball(field.GetCenter(), Vec(1.0, 0.0)), true)
    else
      SideResult(ball, false)
  }

  /** The mirror image on the right border: a miss scores for the left player and restarts towards the left. */
  function RightSide(field: Field, ball: Ball, paddleY: real): SideResult
  {
    if ball.dir.x > 0.0 && ball.pos.x + BALL_RADIUS >= field.right then
      if OverlapsPaddle(ball.pos.y, paddleY) then
        SideResult(Ball(ball.pos, ReflectBallFromPaddle(ball.dir, ball.pos.y, paddleY, PADDLE_HEIGHT)), false)
      else
        SideResult(Ball(field.GetCenter(), Vec(-1.0, 0.0)), true)
    else
      SideResult(ball, false)
  }

  /**
   * Once the left border is reached the ball always leaves flying right: a
   * score exactly when the paddle was missed, and then the ball restarts at the
   * centre with direction (1, 0). Nothing happens otherwise.
   */
  lemma LeftSideOutcome(field: Field, ball: Ball, paddleY: real)
    ensures var r := LeftSide(field, ball, paddleY);
            var reached := ball.dir.x < 0.0 && ball.pos.x - BALL_RADIUS <= field.left;
            (reached ==> r.ball.dir.x > 0.0 && (r.ball.dir.x == -ball.dir.x || r.ball.dir.x == 1.0)) &&
            (r.scored <==> reached && !OverlapsPaddle(ball.pos.y, paddleY)) &&
            (r.scored ==> r.ball == Ball(field.GetCenter(), Vec(1.0, 0.0))) &&
            (!r.scored ==> r.ball.pos == ball.pos) &&
            (!reached ==> r.ball == ball)
  {
  }

  /** The symmetric statement for the right border. */
  lemma RightSideOutcome(field: Field, ball: Ball, paddleY: real)
    ensures var r := RightSide(field, ball, paddleY);
            var reached := ball.dir.x > 0.0 && ball.pos.x + BALL_RADIUS >= field.right;
            (reached ==> r.ball.dir.x < 0.0 && (r.ball.dir.x == -ball.dir.x || r.ball.dir.x == -1.0)) &&
            (r.scored <==> reached && !OverlapsPaddle(ball.pos.y, paddleY)) &&
            (r.scored ==> r.ball == Ball(field.GetCenter(), Vec(-1.0, 0.0))) &&
            (!r.scored ==> r.ball.pos == ball.pos) &&
            (!reached ==> r.ball == ball)
  {
  }

  /** Clamps the vertical direction into [-0.7, 0.7] with fmin then fmax. */
  function LimitVertical(dir: Vec): Vec
  {
    Vec(dir.x, Max(Min(dir.y, DIR_Y_LIMIT), -DIR_Y_LIMIT))
  }

  /** The ball flies SPEED_BALL units per second along its normalised direction. */
  function Advance(pos: Vec, dir: Vec, elapsedSeconds: real, sqrt: real -> real): Vec
    requires IsSquareRoot(sqrt)
  {
    Add(pos, Multiply(Normalize(dir, sqrt), SPEED_BALL * elapsedSeconds))
  }

  /**
   * Both paddles move by their controllers' decisions. Each controller sees
   * the ball where it was and the bounds of the paddle shapes; the right one
   * is given the direction scaled by the ball speed, the left one the bare
   * direction.
   */
  function MovePaddles(m: GameModel, keys: KeyboardState, elapsedSeconds: real): GameModel
  {
    var actLeft := ControllerAct(m.leftMode, W, S, keys, m.posBall, m.dirBall,
                                 PaddleBounds(m.shapePaddleLeft), PaddleBounds(m.shapePaddleRight));
    var actRight := ControllerAct(m.rightMode, Up, Down, keys, m.posBall, Multiply(m.dirBall, SPEED_BALL),
                                  PaddleBounds(m.shapePaddleRight), PaddleBounds(m.shapePaddleLeft));
    m.(posPaddleLeft := MovePaddle(m.posPaddleLeft, actLeft, SPEED_PADDLE, elapsedSeconds),
       posPaddleRight := MovePaddle(m.posPaddleRight, actRight, SPEED_PADDLE, elapsedSeconds))
  }

  /** The walls' bounce applied to the game. */
  function Bounce(m: GameModel): GameModel
  {
    m.(dirBall := BounceOffWalls(m.field, m.posBall, m.dirBall))
  }

  /** The left border check applied to the game: a miss scores for the right player. */
  function LeftBorder(m: GameModel): GameModel
  {
    var r := LeftSide(m.field, Ball(m.posBall, m.dirBall), m.posPaddleLeft.y);
    m.(posBall := r.ball.pos, dirBall := r.ball.dir,
       scoreRight := if r.scored then m.scoreRight + 1 else m.scoreRight)
  }

  /** The right border check applied to the game: a miss scores for the left player. */
  function RightBorder(m: GameModel): GameModel
  {
    var r := RightSide(m.field, Ball(m.posBall, m.dirBall), m.posPaddleRight.y);
    m.(posBall := r.ball.pos, dirBall := r.ball.dir,
       scoreLeft := if r.scored then m.scoreLeft + 1 else m.scoreLeft)
  }

  /** The vertical direction is limited and the ball flies on. */
  function Fly(m: GameModel, elapsedSeconds: real, sqrt: real -> real): GameModel
    requires IsSquareRoot(sqrt)
  {
    var dir := LimitVertical(m.dirBall);
    m.(dirBall := dir, posBall := Advance(m.posBall, dir, elapsedSeconds, sqrt))
  }

  /**
   * One frame of the game, in the order the update performs it: the paddles
   * move, the walls bounce the ball, the left then the right border are
   * checked, the vertical direction is limited, the ball advances, and the
   * paddle shapes follow the paddles.
   */
  function Step(m: GameModel, keys: KeyboardState, elapsedSeconds: real, sqrt: real -> real): GameModel
    requires IsSquareRoot(sqrt)
  {
    var r := Fly(RightBorder(LeftBorder(Bounce(MovePaddles(m, keys, elapsedSeconds)))), elapsedSeconds, sqrt);
    r.(shapePaddleLeft := r.posPaddleLeft, shapePaddleRight := r.posPaddleRight)
  }

  /** After any frame the vertical direction lies in [-0.7, 0.7]. */
  lemma StepLimitsVertical(m: GameModel, keys: KeyboardState, dt: real, sqrt: real -> real)
    requires IsSquareRoot(sqrt)
    ensures -DIR_Y_LIMIT <= Step(m, keys, dt, sqrt).dirBall.y <= DIR_Y_LIMIT
  {
  }

  /** A frame keeps the direction invariant: only negation or a reset to one touches the horizontal part. */
  lemma StepKeepsDirectionInvariant(m: GameModel, keys: KeyboardState, dt: real, sqrt: real -> real)
    requires IsSquareRoot(sqrt)
    requires Abs(m.dirBall.x) == 1.0
    ensures DirectionInvariant(Step(m, keys, dt, sqrt).dirBall)
  {
    var b := Bounce(MovePaddles(m, keys, dt));
    BounceOutwardOnly(b.field, b.posBall, m.dirBall);
    var l := LeftBorder(b);
    LeftSideOutcome(b.field, Ball(b.posBall, b.dirBall), b.posPaddleLeft.y);
    assert Abs(l.dirBall.x) == 1.0;
    var r := RightBorder(l);
    RightSideOutcome(l.field, Ball(l.posBall, l.dirBall), l.posPaddleRight.y);
    assert Abs(r.dirBall.x) == 1.0;
  }

  /** Scores never fall, and each grows by at most one per frame. */
  lemma StepScores(m: GameModel, keys: KeyboardState, dt: real, sqrt: real -> real)
    requires IsSquareRoot(sqrt)
    ensures var r := Step(m, keys, dt, sqrt);
            (r.scoreLeft == m.scoreLeft || r.scoreLeft == m.scoreLeft + 1) &&
            (r.scoreRight == m.scoreRight || r.scoreRight == m.scoreRight + 1)
  {
  }

  /**
   * Paddles move only vertically, by nothing or one step of SPEED_PADDLE * dt,
   * with no clamping to the field; their shapes end up where the paddles are;
   * the field and the controller modes never change.
   */
  lemma StepMovesPaddles(m: GameModel, keys: KeyboardState, dt: real, sqrt: real -> real)
    requires IsSquareRoot(sqrt)
    ensures var r := Step(m, keys, dt, sqrt);
            r.posPaddleLeft.x == m.posPaddleLeft.x && r.posPaddleRight.x == m.posPaddleRight.x &&
            (r.posPaddleLeft.y - m.posPaddleLeft.y) in {0.0, SPEED_PADDLE * dt, -(SPEED_PADDLE * dt)} &&
            (r.posPaddleRight.y - m.posPaddleRight.y) in {0.0, SPEED_PADDLE * dt, -(SPEED_PADDLE * dt)} &&
            r.shapePaddleLeft == r.posPaddleLeft && r.shapePaddleRight == r.posPaddleRight &&
            r.field == m.field && r.leftMode == m.leftMode && r.rightMode == m.rightMode
  {
    var actLeft := ControllerAct(m.leftMode, W, S, keys, m.posBall, m.dirBall,
                                 PaddleBounds(m.shapePaddleLeft), PaddleBounds(m.shapePaddleRight));
    var actRight := ControllerAct(m.rightMode, Up, Down, keys, m.posBall, Multiply(m.dirBall, SPEED_BALL),
                                  PaddleBounds(m.shapePaddleRight), PaddleBounds(m.shapePaddleLeft));
    MovePaddleIsVertical(m.posPaddleLeft, actLeft, SPEED_PADDLE, dt);
    MovePaddleIsVertical(m.posPaddleRight, actRight, SPEED_PADDLE, dt);
  }

  /**
   * The ball travels exactly SPEED_BALL * dt in a frame: from where it was,
   * or from the field centre when someone scored.
   */
  lemma StepBallTravel(m: GameModel, keys: KeyboardState, dt: real, sqrt: real -> real)
    requires IsSquareRoot(sqrt)
    requires Abs(m.dirBall.x) == 1.0
    ensures var r := Step(m, keys, dt, sqrt);
            var from := if r.scoreLeft != m.scoreLeft || r.scoreRight != m.scoreRight
                        then m.field.GetCenter() else m.posBall;
            SqrLen(Sub(r.posBall, from)) == Sq(SPEED_BALL * dt)
  {
    var r := Step(m, keys, dt, sqrt);
    StepKeepsDirectionInvariant(m, keys, dt, sqrt);
    var c := RightBorder(LeftBorder(Bounce(MovePaddles(m, keys, dt))));
    var from := if r.scoreLeft != m.scoreLeft || r.scoreRight != m.scoreRight
                then m.field.GetCenter() else m.posBall;
    assert c.posBall == from;
    var step := Multiply(Normalize(r.dirBall, sqrt), SPEED_BALL * dt);
    assert r.posBall == Add(from, step);
    assert Sub(r.posBall, from) == step;
    assert r.dirBall != Vec(0.0, 0.0);
    NormalizeUnit(r.dirBall, sqrt);
    MultiplyScales(Normalize(r.dirBall, sqrt), SPEED_BALL * dt, 1.0);
  }

  /**
   * Steering and moving work together: when the computer player decides to
   * move a paddle whose position is its bounds' corner, and the step is less
   * than twice the distance, the paddle's centre gets strictly closer to the ball.
   */
  lemma AiMoveApproachesBall(ball: Vec, ballSpeed: Vec, pos: Vec, enemy: Rect, speed: real, dt: real)
    requires 0.0 < speed * dt
    requires Controllers.AiAct(ball, ballSpeed, PaddleBounds(pos), enemy) != Controllers.None
    requires speed * dt < 2.0 * Abs(ball.y - Controllers.CenterY(PaddleBounds(pos)))
    ensures var moved := MovePaddle(pos, Controllers.AiAct(ball, ballSpeed, PaddleBounds(pos), enemy), speed, dt);
            Abs(ball.y - Controllers.CenterY(PaddleBounds(moved)))
              < Abs(ball.y - Controllers.CenterY(PaddleBounds(pos)))
  {
    var a := Controllers.AiAct(ball, ballSpeed, PaddleBounds(pos), enemy);
    MovePaddleIsVertical(pos, a, speed, dt);
  }
}
