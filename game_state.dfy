/** A running game as a state of the stack: its fields are updated in place every frame. */
module GamePlay {
  import opened Vectors
  import opened Helpers
  import opened Events
  import opened GameRules
  import Lifecycle

  class GameState {
    const base: Lifecycle.StateBase
    const field: Field
    const leftMode: PaddleMode
    const rightMode: PaddleMode
    var posBall: Vec
    var dirBall: Vec
    var posPaddleLeft: Vec
    var posPaddleRight: Vec
    var scoreLeft: int
    var scoreRight: int
    // positions of the two paddle shapes, whose bounds the controllers see
    var shapePaddleLeft: Vec
    var shapePaddleRight: Vec

    /** The game as a value. */
    ghost function Model(): GameModel
      reads this
    {
      GameModel(field, leftMode, rightMode, posBall, dirBall, posPaddleLeft, posPaddleRight,
                scoreLeft, scoreRight, shapePaddleLeft, shapePaddleRight)
    }

    /** The ball's direction keeps a unit horizontal part and a bounded vertical one. */
    ghost predicate Valid()
      reads this
    {
      DirectionInvariant(dirBall)
    }

    /** Lays out the field for the screen and the ball and paddles on it. */
    constructor (leftPlayer: PaddleMode, rightPlayer: PaddleMode, screenSize: Vec)
      ensures Model() == Initial(screenSize, leftPlayer, rightPlayer)
      ensures Valid()
      ensures fresh(base) && !base.disposed && base.name == "GameState"
    {
      base := new Lifecycle.StateBase("GameState");
      var left := screenSize.x / 16.0;
      var top := screenSize.y / 12.0;
      var f := Field(left, screenSize.x - left, top, screenSize.y - top);
      field := f;
      leftMode := leftPlayer;
      rightMode := rightPlayer;
      posBall := f.GetCenter();
      dirBall := Vec(1.0, 0.0);
      posPaddleLeft := Vec(f.left - PADDLE_WIDTH, f.GetCenter().y - PADDLE_HEIGHT / 2.0);
      posPaddleRight := Vec(f.right, f.GetCenter().y - PADDLE_HEIGHT / 2.0);
      scoreLeft := 0;
      scoreRight := 0;
      shapePaddleLeft := Vec(0.0, 0.0);
      shapePaddleRight := Vec(0.0, 0.0);
    }

    /**
     * Releasing Escape disposes the game; nothing else reacts. The source
     * returns no value here, so whether the event travels on to the states
     * below is left open.
     */
    method HandleInput(e: Event) returns (bubble: bool)
      modifies base
      ensures base.disposed == (old(base.disposed) || e == KeyReleased(Escape))
    {
      if e == KeyReleased(Escape) {
        base.Dispose();
      }
      bubble := *;
    }

    /**
     * One frame: the paddles move, then the ball, then the shapes follow
     * the paddles. The update never lets states below a game update.
     */
    method Update(elapsedSeconds: real, keys: KeyboardState, sqrt: real -> real) returns (bubble: bool)
      requires IsSquareRoot(sqrt)
      requires Valid()
      modifies this
      ensures Model() == Step(old(Model()), keys, elapsedSeconds, sqrt)
      ensures Valid()
      ensures !bubble
    {
      ghost var before := Model();
      MovePaddles(keys, elapsedSeconds);
      MoveBall(elapsedSeconds, sqrt);
      // update the shape positions
      shapePaddleLeft := posPaddleLeft;
      shapePaddleRight := posPaddleRight;
      StepKeepsDirectionInvariant(before, keys, elapsedSeconds, sqrt);
      return false;
    }

    /** The paddle controller movements of a frame. */
    method MovePaddles(keys: KeyboardState, elapsedSeconds: real)
      modifies this
      ensures Model() == GameRules.MovePaddles(old(Model()), keys, elapsedSeconds)
    {
      posPaddleLeft := MovePaddle(
        posPaddleLeft,
        ControllerAct(leftMode, W, S, keys, posBall, dirBall,
                      PaddleBounds(shapePaddleLeft), PaddleBounds(shapePaddleRight)),
        SPEED_PADDLE,
        elapsedSeconds);
      posPaddleRight := MovePaddle(
        posPaddleRight,
        ControllerAct(rightMode, Up, Down, keys, posBall, Multiply(dirBall, SPEED_BALL),
                      PaddleBounds(shapePaddleRight), PaddleBounds(shapePaddleLeft)),
        SPEED_PADDLE,
        elapsedSeconds);
    }

    /**
     * The ball movement of a frame: bounce off the top and bottom walls
     * only while heading further out, then the left and right borders,
     * then the vertical limit and the flight.
     */
    method MoveBall(elapsedSeconds: real, sqrt: real -> real)
      requires IsSquareRoot(sqrt)
      modifies this
      ensures Model() == Fly(RightBorder(LeftBorder(Bounce(old(Model())))), elapsedSeconds, sqrt)
    {
      ghost var before := Model();
      if (TouchesTop(field, posBall) && dirBall.y < 0.0) || (TouchesBottom(field, posBall) && dirBall.y > 0.0) {
        dirBall := dirBall.(y := dirBall.y * -1.0);
      }
      assert Model() == Bounce(before);
      ghost var bounced := Model();

      if dirBall.x < 0.0 && posBall.x - BALL_RADIUS <= field.left {
        if OverlapsPaddle(posBall.y, posPaddleLeft.y) {
          dirBall := ReflectBallFromPaddle(dirBall, posBall.y, posPaddleLeft.y, PADDLE_HEIGHT);
        } else {
          scoreRight := scoreRight + 1;
          dirBall := Vec(1.0, 0.0);
          posBall := field.GetCenter();
        }
      }
      assert Model() == LeftBorder(bounced);
      ghost var leftChecked := Model();

      if dirBall.x > 0.0 && posBall.x + BALL_RADIUS >= field.right {
        if OverlapsPaddle(posBall.y, posPaddleRight.y) {
          dirBall := ReflectBallFromPaddle(dirBall, posBall.y, posPaddleRight.y, PADDLE_HEIGHT);
        } else {
          scoreLeft := scoreLeft + 1;
          dirBall := Vec(-1.0, 0.0);
          posBall := field.GetCenter();
        }
      }
      assert Model() == RightBorder(leftChecked);

      dirBall := dirBall.(y := Max(Min(dirBall.y, DIR_Y_LIMIT), -DIR_Y_LIMIT));
      posBall := Add(posBall, Multiply(Normalize(dirBall, sqrt), SPEED_BALL * elapsedSeconds));
    }
  }
}
