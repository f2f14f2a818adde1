/**
 * The per-frame game state of the skiing game (src/main.ts): the score,
 * the game-over flag, the forward speed, the frame counter, the live
 * obstacles and the skier's position and tilt, all changed in place once
 * per animation frame and overwritten by a reset.
 *
 * Positions are exact reals. The keys held, the result of the collision
 * test and the two Math.random draws of a spawn come in as arguments.
 */
module Game {
  import opened Wrappers

  /** sin(SLOPE_ANGLE) for SLOPE_ANGLE = pi/6. */
  const SinSlope: real := 0.5
  /** SLOPE_HEIGHT_OFFSET = sin(SLOPE_ANGLE) * 2. */
  const SlopeHeightOffset: real := SinSlope * 2.0
  /** The skier's height at the start and after a reset. */
  const StartY: real := -2.0 + SlopeHeightOffset
  const BaseSpeed: real := 0.2
  const SpeedStep: real := 0.0001
  const MoveSpeed: real := 0.15
  /** Frames between obstacle spawns (obstacleSpawnInterval). */
  const SpawnInterval: nat := 60
  /** Frames per displayed score point. */
  const FramesPerPoint: nat := 60
  const SpawnDistance: real := 50.0
  const CullDistance: real := 10.0
  /** The skier moves sideways only while strictly inside (-Edge, Edge). */
  const Edge: real := 8.0
  /** Obstacles are spread over (xDraw - 0.5) * Spread. */
  const Spread: real := 16.0
  /** A spawn is a tree when its first draw exceeds this. */
  const TreeThreshold: real := 0.3
  /** Rocks sit this far below the slope surface. */
  const RockSink: real := 0.4

  /** Two successive spawns are at least SpawnInterval frames of at least BaseSpeed apart. */
  const MinSpacing: real := BaseSpeed * SpawnInterval as real
  /** The most obstacles alive at once. */
  const MaxObstacles: nat := 6

  datatype Kind = Tree | Rock

  datatype Obstacle = Obstacle(kind: Kind, x: real, y: real, z: real)

  /** rotation.z of the skier: pi/12 turning left, -pi/12 turning right, 0 otherwise. */
  datatype Tilt = TiltLeft | Level | TiltRight

  function Abs(r: real): real {
    if r < 0.0 then -r else r
  }

  /** The height of the slope surface at depth `z`: -2 + sin(SLOPE_ANGLE) * |z|. */
  function SlopeHeight(z: real): (h: real)
    ensures h >= -2.0
    ensures h == -2.0 <==> z == 0.0
  {
    -2.0 + SinSlope * Abs(z)
  }

  /** An obstacle as createTree and createRock place it. */
  predicate WellPlaced(o: Obstacle) {
    && -Edge <= o.x < Edge
    && o.y == SlopeHeight(o.z) - (if o.kind == Rock then RockSink else 0.0)
  }

  /** The obstacle spawnObstacle creates, from its two random draws and the skier's depth. */
  function PlaceObstacle(treeDraw: real, xDraw: real, skierZ: real): (o: Obstacle)
    requires 0.0 <= xDraw < 1.0
    ensures o.kind == Tree <==> treeDraw > TreeThreshold
    ensures o.z == skierZ - SpawnDistance
    ensures WellPlaced(o)
  {
    var x := (xDraw - 0.5) * Spread;
    var z := skierZ - SpawnDistance;
    if treeDraw > TreeThreshold then Obstacle(Tree, x, SlopeHeight(z), z)
    else Obstacle(Rock, x, SlopeHeight(z) - RockSink, z)
  }

  /** `obstacles.filter(obs => !(obs.position.z > limit))`. */
  function Cull(obs: seq<Obstacle>, limit: real): (r: seq<Obstacle>)
    ensures |r| <= |obs|
  {
    if obs == [] then []
    else (if obs[0].z > limit then [] else [obs[0]]) + Cull(obs[1..], limit)
  }

  /** Culling keeps exactly the obstacles no further back than `limit`. */
  lemma {:induction false} CullMembers(obs: seq<Obstacle>, limit: real)
    ensures forall o :: o in Cull(obs, limit) <==> o in obs && o.z <= limit
  {
    if obs != [] {
      CullMembers(obs[1..], limit);
      assert obs == [obs[0]] + obs[1..];
    }
  }

  /** Culling works element by element, so it keeps the survivors' order. */
  lemma {:induction false} CullAppend(a: seq<Obstacle>, b: seq<Obstacle>, limit: real)
    ensures Cull(a + b, limit) == Cull(a, limit) + Cull(b, limit)
  {
    if a == [] {
      assert a + b == b;
    } else {
      var head := if a[0].z > limit then [] else [a[0]];
      calc {
        Cull(a + b, limit);
        { assert (a + b)[0] == a[0]; assert (a + b)[1..] == a[1..] + b; }
        head + Cull(a[1..] + b, limit);
        { CullAppend(a[1..], b, limit); }
        head + (Cull(a[1..], limit) + Cull(b, limit));
        (head + Cull(a[1..], limit)) + Cull(b, limit);
        Cull(a, limit) + Cull(b, limit);
      }
    }
  }

  /** Each obstacle lies at least MinSpacing further down the slope than every earlier one. */
  predicate Spaced(obs: seq<Obstacle>) {
    forall i, j :: 0 <= i < j < |obs| ==> obs[j].z <= obs[i].z - MinSpacing
  }

  /** An obstacle at least MinSpacing above every one of a spaced list can go in front of it. */
  lemma SpacedPrepend(o: Obstacle, obs: seq<Obstacle>)
    requires Spaced(obs)
    requires forall c :: c in obs ==> c.z <= o.z - MinSpacing
    ensures Spaced([o] + obs)
  {
    var r := [o] + obs;
    forall i, j | 0 <= i < j < |r| ensures r[j].z <= r[i].z - MinSpacing {
      assert r[j] == obs[j - 1] && r[j] in obs;
      if i > 0 {
        assert r[i] == obs[i - 1];
      }
    }
  }

  /** Every obstacle after the first of a spaced list is at least MinSpacing below it. */
  lemma BelowFirst(obs: seq<Obstacle>, c: Obstacle)
    requires Spaced(obs) && obs != [] && c in obs[1..]
    ensures c.z <= obs[0].z - MinSpacing
  {
    var k :| 0 <= k < |obs[1..]| && obs[1..][k] == c;
    assert obs[k + 1] == c;
  }

  /** Culling keeps the spacing. */
  lemma {:induction false} CullSpaced(obs: seq<Obstacle>, limit: real)
    requires Spaced(obs)
    ensures Spaced(Cull(obs, limit))
  {
    if obs != [] {
      var rest := Cull(obs[1..], limit);
      assert Spaced(obs[1..]) by {
        forall i, j | 0 <= i < j < |obs| - 1 ensures obs[1..][j].z <= obs[1..][i].z - MinSpacing {
          assert obs[1..][j] == obs[j + 1] && obs[1..][i] == obs[i + 1];
        }
      }
      CullSpaced(obs[1..], limit);
      if obs[0].z <= limit {
        CullMembers(obs[1..], limit);
        forall c | c in rest ensures c.z <= obs[0].z - MinSpacing {
          BelowFirst(obs, c);
        }
        SpacedPrepend(obs[0], rest);
      }
    }
  }

  /** In a spaced list the last obstacle lies (length - 1) spacings below the first. */
  lemma {:induction false} SpacedSpan(obs: seq<Obstacle>)
    requires obs != [] && Spaced(obs)
    ensures obs[|obs| - 1].z <= obs[0].z - MinSpacing * (|obs| - 1) as real
  {
    if |obs| > 1 {
      SpacedSpan(obs[1..]);
      assert obs[1..][|obs| - 2] == obs[|obs| - 1];
    }
  }

  /** An obstacle at least MinSpacing below every one of a spaced list extends it. */
  lemma SpacedAppend(obs: seq<Obstacle>, o: Obstacle)
    requires Spaced(obs)
    requires forall c :: c in obs ==> o.z <= c.z - MinSpacing
    ensures Spaced(obs + [o])
  {
    var after := obs + [o];
    forall i, j | 0 <= i < j < |after| ensures after[j].z <= after[i].z - MinSpacing {
      assert after[i] == obs[i] && after[i] in obs;
      if j < |obs| {
        assert after[j] == obs[j];
      }
    }
  }

  /** In a spaced list the last obstacle is the lowest. */
  lemma LastIsLowest(obs: seq<Obstacle>, c: Obstacle)
    requires Spaced(obs) && c in obs
    ensures obs[|obs| - 1].z <= c.z
  {
    var i :| 0 <= i < |obs| && obs[i] == c;
    if i < |obs| - 1 {
      assert obs[|obs| - 1].z <= c.z - MinSpacing;
    }
  }

  /** What holds of the obstacle field `obs` while the skier is at depth `z`
      after `frames` frames: every obstacle is placed on the slope, they are
      spaced, the skier has covered at least BaseSpeed per frame since the
      last spawn, and at most MaxObstacles are alive. */
  predicate FieldValid(obs: seq<Obstacle>, z: real, frames: int) {
    && (forall o :: o in obs ==> WellPlaced(o))
    && Spaced(obs)
    && (obs != [] ==>
          z <= obs[|obs| - 1].z + SpawnDistance - BaseSpeed * (frames % SpawnInterval + 1) as real)
    && |obs| <= MaxObstacles
  }

  /** A spawn frame keeps the field valid: the newcomer lies SpawnDistance
      ahead of the skier, the survivors no more than CullDistance behind,
      and the previous spawn is at least MinSpacing further up. */
  lemma FieldAfterSpawn(before: seq<Obstacle>, o: Obstacle, skierZ: real, newZ: real, frames: int)
    requires FieldValid(before, skierZ, frames)
    requires (frames + 1) % SpawnInterval == 0
    requires o.z == skierZ - SpawnDistance && WellPlaced(o)
    requires newZ <= skierZ - BaseSpeed
    ensures FieldValid(Cull(before, skierZ + CullDistance) + [o], newZ, frames + 1)
  {
    assert frames % SpawnInterval == SpawnInterval - 1;
    var kept := Cull(before, skierZ + CullDistance);
    var after := kept + [o];
    CullSpaced(before, skierZ + CullDistance);
    CullMembers(before, skierZ + CullDistance);
    forall c | c in kept ensures o.z <= c.z - MinSpacing {
      LastIsLowest(before, c);
    }
    SpacedAppend(kept, o);
    SpawnedCount(after, skierZ);
    assert (frames + 1) % SpawnInterval == 0;
  }

  /** A spaced list that starts no further back than CullDistance behind
      the skier and ends SpawnDistance ahead of it holds at most MaxObstacles. */
  lemma SpawnedCount(after: seq<Obstacle>, skierZ: real)
    requires after != [] && Spaced(after)
    requires forall c :: c in after ==> c.z <= skierZ + CullDistance
    requires after[|after| - 1].z == skierZ - SpawnDistance
    ensures |after| <= MaxObstacles
  {
    SpacedSpan(after);
    assert after[0] in after;
    assert MinSpacing == 12.0;
    assert 12.0 * (|after| - 1) as real <= 60.0;
  }

  /** A frame without a spawn keeps the field valid. */
  lemma FieldAfterGlide(obs: seq<Obstacle>, skierZ: real, newZ: real, frames: int)
    requires FieldValid(obs, skierZ, frames)
    requires (frames + 1) % SpawnInterval != 0
    requires newZ <= skierZ - BaseSpeed
    ensures FieldValid(obs, newZ, frames + 1)
  {
    assert (frames + 1) % SpawnInterval == frames % SpawnInterval + 1;
  }

  /** `Math.floor(score / 60)`, the number the score display shows. */
  function DisplayScore(score: int): (shown: int)
    ensures FramesPerPoint * shown <= score < FramesPerPoint * (shown + 1)
  {
    score / FramesPerPoint
  }

  class SkiGame {
    var score: int
    var isGameOver: bool
    var speed: real
    var frameCount: int
    var obstacles: seq<Obstacle>
    /** skierGroup.position */
    var x: real
    var y: real
    var z: real
    /** skierGroup.rotation.z */
    var tilt: Tilt

    ghost predicate Valid()
      reads this
    {
      && score >= 0
      // a frame that ends the game is counted but not scored
      && frameCount == score + (if isGameOver then 1 else 0)
      && speed == BaseSpeed + SpeedStep * frameCount as real && speed >= BaseSpeed
      && -Edge - MoveSpeed < x < Edge + MoveSpeed
      && z <= 0.0
      && (frameCount == 0 ==> z == 0.0 && y == StartY && obstacles == [])
      && (frameCount > 0 ==> y == SlopeHeight(z))
      && FieldValid(obstacles, z, frameCount)
    }

    /** The state resetGame and the module's start both establish. */
    ghost predicate Initial()
      reads this
    {
      && score == 0 && !isGameOver && speed == BaseSpeed && frameCount == 0
      && x == 0.0 && y == StartY && z == 0.0 && tilt == Level
      && obstacles == []
    }

    /** The module-level state as the game starts. */
    constructor ()
      ensures Valid() && Initial()
    {
      score, isGameOver, speed, frameCount := 0, false, BaseSpeed, 0;
      obstacles := [];
      x, y, z, tilt := 0.0, StartY, 0.0, Level;
    }

    /** resetGame: overwrite the whole state. (Its trailing call to animate
        is the caller's next Tick.) */
    method Reset()
      modifies this
      ensures Valid() && Initial()
    {
      score := 0;
      isGameOver := false;
      speed := BaseSpeed;
      frameCount := 0;
      x, y, z := 0.0, StartY, 0.0;
      tilt := Level;
      obstacles := [];
    }

    /** spawnObstacle: push a new obstacle SpawnDistance ahead of the skier,
        then drop every obstacle more than CullDistance behind. */
    method SpawnObstacle(treeDraw: real, xDraw: real)
      requires 0.0 <= xDraw < 1.0
      modifies this`obstacles
      ensures obstacles == Cull(old(obstacles), z + CullDistance) + [PlaceObstacle(treeDraw, xDraw, z)]
      ensures forall o :: o in obstacles ==> o.z <= z + CullDistance
    {
      var o := PlaceObstacle(treeDraw, xDraw, z);
      CullAppend(obstacles, [o], z + CullDistance);
      CullMembers(obstacles + [o], z + CullDistance);
      obstacles := obstacles + [o];
      obstacles := Cull(obstacles, z + CullDistance);
    }

    /** handleGameOver: stop the game and show the final score. */
    method HandleGameOver() returns (finalScore: int)
      modifies this`isGameOver
      ensures isGameOver
      ensures finalScore == DisplayScore(score)
    {
      isGameOver := true;
      finalScore := DisplayScore(score);
    }

    /** The first half of animate: count the frame, spawn on every
        SpawnInterval-th frame, speed up and move down the slope. */
    method Advance(treeDraw: real, xDraw: real)
      requires Valid() && !isGameOver
      requires 0.0 <= xDraw < 1.0
      modifies this`frameCount, this`obstacles, this`speed, this`z, this`y
      ensures frameCount == old(frameCount) + 1
      ensures obstacles == (if frameCount % SpawnInterval == 0
                            then Cull(old(obstacles), old(z) + CullDistance) + [PlaceObstacle(treeDraw, xDraw, old(z))]
                            else old(obstacles))
      ensures speed == old(speed) + SpeedStep
      ensures z == old(z) - speed && z < old(z)
      ensures y == SlopeHeight(z)
      ensures speed == BaseSpeed + SpeedStep * frameCount as real && speed >= BaseSpeed
      ensures FieldValid(obstacles, z, frameCount)
    {
      ghost var skierZ, before := z, obstacles;
      frameCount := frameCount + 1;
      if frameCount % SpawnInterval == 0 {
        SpawnObstacle(treeDraw, xDraw);
      }
      speed := speed + SpeedStep;
      z := z - speed;
      y := SlopeHeight(z);
      if frameCount % SpawnInterval == 0 {
        FieldAfterSpawn(before, PlaceObstacle(treeDraw, xDraw, skierZ), skierZ, z, frameCount - 1);
      } else {
        FieldAfterGlide(before, skierZ, z, frameCount - 1);
      }
    }

    /** The steering step of animate: move one MoveSpeed step while the
        skier is strictly inside the slope's edges, and tilt accordingly. */
    method Steer(left: bool, right: bool)
      requires -Edge - MoveSpeed < x < Edge + MoveSpeed
      modifies this`x, this`tilt
      ensures -Edge - MoveSpeed < x < Edge + MoveSpeed
      ensures if left && old(x) > -Edge then x == old(x) - MoveSpeed && tilt == TiltLeft
              else if right && old(x) < Edge then x == old(x) + MoveSpeed && tilt == TiltRight
              else x == old(x) && tilt == Level
    {
      if left && x > -Edge {
        x, tilt := x - MoveSpeed, TiltLeft;
      } else if right && x < Edge {
        x, tilt := x + MoveSpeed, TiltRight;
      } else {
        tilt := Level;
      }
    }

    /** One call of animate. `left` and `right` are the keys held,
        `collided` is what checkCollision answers after the move, and
        `treeDraw`, `xDraw` are the two draws spawnObstacle would make.
        `shown` is the score put on screen this frame, if any. */
    method Tick(left: bool, right: bool, collided: bool, treeDraw: real, xDraw: real)
      returns (shown: Option<int>)
      requires Valid()
      requires 0.0 <= xDraw < 1.0
      modifies this
      ensures Valid()
      ensures old(isGameOver) ==> unchanged(this) && shown.None?
      ensures !old(isGameOver) ==>
        && frameCount == old(frameCount) + 1
        && obstacles == (if frameCount % SpawnInterval == 0
                         then Cull(old(obstacles), old(z) + CullDistance) + [PlaceObstacle(treeDraw, xDraw, old(z))]
                         else old(obstacles))
        && speed == old(speed) + SpeedStep
        && z == old(z) - speed && z < old(z)
        && y == SlopeHeight(z)
        && (if left && old(x) > -Edge then x == old(x) - MoveSpeed && tilt == TiltLeft
            else if right && old(x) < Edge then x == old(x) + MoveSpeed && tilt == TiltRight
            else x == old(x) && tilt == Level)
        && isGameOver == collided
        && score == old(score) + (if collided then 0 else 1)
        && shown == Some(DisplayScore(score))
    {
      if isGameOver {
        return None;
      }
      Advance(treeDraw, xDraw);
      Steer(left, right);
      if collided {
        var finalScore := HandleGameOver();
        return Some(finalScore);
      }
      score := score + 1;
      shown := Some(DisplayScore(score));
    }
  }
}
