/** Paddle controllers: each frame a controller turns what it sees into a move intent. */
module Controllers {
  import opened Vectors

  /** What a controller wants its paddle to do this frame. */
  datatype Action = None | Up | Down

  /** Vertical centre of a paddle's bounds. */
  function CenterY(paddle: Rect): real
  {
    paddle.top + paddle.height / 2.0
  }

  /**
   * The computer player. It idles while the ball flies away from its paddle
   * and otherwise steers towards the ball's height. The enemy paddle is part
   * of the controller interface but this rule never looks at it.
   */
  function AiAct(ball: Vec, ballSpeed: Vec, thisPaddle: Rect, enemyPaddle: Rect): Action
  {
    if thisPaddle.left < ball.x && ballSpeed.x > 0.0 then None       // ball right of the paddle, moving right
    else if !(thisPaddle.left < ball.x) && ballSpeed.x < 0.0 then None // ball left of the paddle, moving left
    else if ball.y > CenterY(thisPaddle) then Down
    else if ball.y < CenterY(thisPaddle) then Up
    else None
  }

  /**
   * A human player, given whether its "up" and "down" keys are held at the
   * moment of polling. The down key wins when both are held.
   */
  function KeyboardAct(upHeld: bool, downHeld: bool): (a: Action)
    ensures a == Down <==> downHeld
    ensures a == Up <==> upHeld && !downHeld
  {
    if downHeld then Down
    else if upHeld then Up
    else None
  }

  /** The ball flies away from the paddle: it is to the right and moves right, or to the left and moves left. */
  predicate MovingAway(ball: Vec, ballSpeed: Vec, thisPaddle: Rect)
  {
    if thisPaddle.left < ball.x then ballSpeed.x > 0.0 else ballSpeed.x < 0.0
  }

  /** A ball moving away from the paddle never makes the computer player move. */
  lemma AiIdlesWhileBallMovesAway(ball: Vec, ballSpeed: Vec, thisPaddle: Rect, enemyPaddle: Rect)
    requires MovingAway(ball, ballSpeed, thisPaddle)
    ensures AiAct(ball, ballSpeed, thisPaddle, enemyPaddle) == None
  {
  }

  /**
   * Otherwise (this includes a ball with no horizontal speed) the computer
   * player moves towards the ball: down exactly when the ball is below the
   * paddle's centre, up exactly when it is above, and not at all when level.
   */
  lemma AiSteersTowardsBall(ball: Vec, ballSpeed: Vec, thisPaddle: Rect, enemyPaddle: Rect)
    requires !MovingAway(ball, ballSpeed, thisPaddle)
    ensures AiAct(ball, ballSpeed, thisPaddle, enemyPaddle) == Down <==> ball.y > CenterY(thisPaddle)
    ensures AiAct(ball, ballSpeed, thisPaddle, enemyPaddle) == Up <==> ball.y < CenterY(thisPaddle)
    ensures AiAct(ball, ballSpeed, thisPaddle, enemyPaddle) == None <==> ball.y == CenterY(thisPaddle)
  {
  }

  /**
   * The decision depends on the ball's speed only through the sign of its
   * horizontal part, and not on the enemy paddle at all.
   */
  lemma AiSeesOnlySpeedSign(ball: Vec, speed1: Vec, speed2: Vec, thisPaddle: Rect, enemy1: Rect, enemy2: Rect)
    requires (speed1.x > 0.0 <==> speed2.x > 0.0) && (speed1.x < 0.0 <==> speed2.x < 0.0)
    ensures AiAct(ball, speed1, thisPaddle, enemy1) == AiAct(ball, speed2, thisPaddle, enemy2)
  {
  }
}
