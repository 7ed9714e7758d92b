/**
 * Obstacle records: their creation on the spawn timer and one pass of the
 * per-frame update (move left, award the pass-through point, drop the record
 * once it is off the left edge), stated as functions on the record sequence.
 * Horizontal positions are measured from the left edge of the container.
 */
module Obstacles {

  const Speed: real := 4.0
  const SpawnRate: int := 1500
  const Width: real := 30.0
  const GapHeight: real := 100.0
  /** The player's fixed left position; a record left of it has been passed. */
  const PlayerX: real := 50.0
  const MinHeight: real := 50.0
  const HeightRange: real := 150.0

  /** The tracked bottom pipe of a pipe pair. */
  datatype Obstacle = Obstacle(x: real, width: real, height: real, y: real, passed: bool)

  /** The spawn timer has run out: strictly more than SpawnRate ms since the last spawn. */
  predicate SpawnDue(now: int, lastSpawnTime: int)
  {
    now - lastSpawnTime > SpawnRate
  }

  /** What createObstacle computes: the bottom pipe's record and the height of its mirrored top pipe. */
  datatype Pipes = Pipes(bottom: Obstacle, topHeight: real)

  /**
   * A new pipe pair at the right edge. `random` stands for Math.random(), which
   * lies in [0, 1).
   */
  function NewObstacle(containerWidth: nat, containerHeight: nat, random: real): (r: Pipes)
    requires 0.0 <= random < 1.0
    ensures r.bottom.x == containerWidth as real && r.bottom.y == 0.0
    ensures r.bottom.width == Width && !r.bottom.passed
    ensures MinHeight <= r.bottom.height < MinHeight + HeightRange
    ensures r.bottom.height + GapHeight + r.topHeight == containerHeight as real
  {
    var height := MinHeight + random * HeightRange;
    Pipes(Obstacle(containerWidth as real, Width, height, 0.0, false),
          containerHeight as real - height - GapHeight)
  }

  /** The records the pass runs over: the current ones, plus a new one if the timer ran out. */
  function Queued(obstacles: seq<Obstacle>, lastSpawnTime: int, now: int,
                  containerWidth: nat, containerHeight: nat, random: real): (r: seq<Obstacle>)
    requires 0.0 <= random < 1.0
    ensures |r| == |obstacles| + (if SpawnDue(now, lastSpawnTime) then 1 else 0)
    ensures r[..|obstacles|] == obstacles
    ensures SpawnDue(now, lastSpawnTime) ==>
      r[|obstacles|].x == containerWidth as real && r[|obstacles|].width == Width && !r[|obstacles|].passed &&
      MinHeight <= r[|obstacles|].height < MinHeight + HeightRange
  {
    if SpawnDue(now, lastSpawnTime)
    then obstacles + [NewObstacle(containerWidth, containerHeight, random).bottom]
    else obstacles
  }

  /** This pass awards the record's point: once moved it is left of the player and was not yet counted. */
  predicate Scores(o: Obstacle)
  {
    o.x - Speed < PlayerX && !o.passed
  }

  /** The record after this pass's move and scoring check. */
  function Step(o: Obstacle): (r: Obstacle)
    ensures r.x == o.x - Speed && r.width == o.width && r.height == o.height && r.y == o.y
    ensures r.passed == (o.passed || r.x < PlayerX)
    ensures Scores(o) <==> !o.passed && r.passed
  {
    var moved := o.(x := o.x - Speed);
    if moved.x < PlayerX && !moved.passed then moved.(passed := true) else moved
  }

  /** Entirely past the left edge of the container. */
  predicate OffScreen(o: Obstacle)
  {
    o.x < -o.width
  }

  /**
   * The records left after one pass: each one stepped, the ones that ended
   * off screen dropped. Recursion on the head mirrors the source's backward
   * loop, which handles the last record first.
   */
  function Advance(os: seq<Obstacle>): (r: seq<Obstacle>)
    ensures |r| <= |os|
  {
    if os == [] then []
    else
      var o := Step(os[0]);
      (if OffScreen(o) then [] else [o]) + Advance(os[1..])
  }

  /**
   * After a pass no record is off screen, and every record left of the player
   * has been marked passed.
   */
  lemma {:induction false} AdvanceLeavesOnScreenRecords(os: seq<Obstacle>)
    ensures forall o :: o in Advance(os) ==> !OffScreen(o) && (o.x < PlayerX ==> o.passed)
  {
    if os != [] {
      AdvanceLeavesOnScreenRecords(os[1..]);
    }
  }

  /** The points one pass awards. */
  function Gain(os: seq<Obstacle>): (n: nat)
    ensures n <= |os|
  {
    if os == [] then 0 else (if Scores(os[0]) then 1 else 0) + Gain(os[1..])
  }

  /** Advance and Gain from index i handle record i first, then the rest. */
  lemma AdvanceFrom(os: seq<Obstacle>, i: nat)
    requires i < |os|
    ensures Advance(os[i..]) == (if OffScreen(Step(os[i])) then [] else [Step(os[i])]) + Advance(os[i + 1..])
    ensures Gain(os[i..]) == (if Scores(os[i]) then 1 else 0) + Gain(os[i + 1..])
  {
    assert os[i..][0] == os[i];
    assert os[i..][1..] == os[i + 1..];
  }

  /**
   * One turn of the backward loop of updateObstacles on the record array,
   * whose records i+1.. are handled (`done`) and whose records ..i are as
   * queued: record i is still in place; once the stepped record is written
   * back, the array holds the untouched prefix, the stepped record and the
   * handled suffix; splicing record i out joins prefix and suffix.
   */
  lemma WriteBack(kept: seq<Obstacle>, records: seq<Obstacle>, i: nat, done: seq<Obstacle>, obs: Obstacle)
    requires i < |records| && |kept| == i + 1 + |done|
    requires kept[..i + 1] == records[..i + 1] && kept[i + 1..] == done
    ensures kept[i] == records[i]
    ensures kept[i := obs][..i] == records[..i] && kept[i := obs][i..] == [obs] + done
    ensures var written := kept[i := obs];
      (written[..i] + written[i + 1..])[..i] == records[..i] && (written[..i] + written[i + 1..])[i..] == done
  {
    assert kept[i] == kept[..i + 1][i];
    assert kept[i := obs][..i] == kept[..i + 1][..i];
  }

  /** The number of records whose point is still to be awarded. */
  function Unpassed(os: seq<Obstacle>): nat
  {
    if os == [] then 0 else (if os[0].passed then 0 else 1) + Unpassed(os[1..])
  }

  /** Unpassed distributes over concatenation. */
  lemma {:induction false} UnpassedAppend(a: seq<Obstacle>, b: seq<Obstacle>)
    ensures Unpassed(a + b) == Unpassed(a) + Unpassed(b)
  {
    if a == [] {
      assert a + b == b;
    } else {
      assert (a + b)[0] == a[0];
      assert (a + b)[1..] == a[1..] + b;
      UnpassedAppend(a[1..], b);
    }
  }

  /**
   * Every point awarded in a pass is a record turning from unpassed to passed:
   * the points gained plus the unpassed records that remain equal the unpassed
   * records before. A record is dropped only after it has been passed, so
   * dropping records never loses a point.
   */
  lemma {:induction false} GainIsUnpassedConsumed(os: seq<Obstacle>)
    requires forall o :: o in os ==> o.width >= 0.0
    ensures Gain(os) + Unpassed(Advance(os)) == Unpassed(os)
  {
    if os != [] {
      var o := Step(os[0]);
      assert os[0] in os;
      assert forall q :: q in os[1..] ==> q in os;
      GainIsUnpassedConsumed(os[1..]);
      UnpassedAppend(if OffScreen(o) then [] else [o], Advance(os[1..]));
    }
  }

  /**
   * A pass keeps every record 30 wide and keeps a record marked passed left
   * of the player.
   */
  lemma {:induction false} AdvanceKeepsRecordShape(os: seq<Obstacle>)
    requires forall o :: o in os ==> o.width == Width && (o.passed ==> o.x < PlayerX)
    ensures forall o :: o in Advance(os) ==> o.width == Width && (o.passed ==> o.x < PlayerX)
  {
    if os != [] {
      assert os[0] in os;
      assert forall q :: q in os[1..] ==> q in os;
      AdvanceKeepsRecordShape(os[1..]);
    }
  }

  /** Every index moved one place up. */
  function Shift(ix: seq<nat>): (r: seq<nat>)
    ensures |r| == |ix|
    ensures forall k :: 0 <= k < |ix| ==> r[k] == ix[k] + 1
  {
    seq(|ix|, k requires 0 <= k < |ix| => ix[k] + 1)
  }

  lemma ShiftMembers(ix: seq<nat>)
    ensures 0 !in Shift(ix)
    ensures forall j: nat :: j + 1 in Shift(ix) <==> j in ix
  {
    forall j: nat
      ensures j + 1 in Shift(ix) <==> j in ix
    {
      if j in ix {
        var k :| 0 <= k < |ix| && ix[k] == j;
        assert Shift(ix)[k] == j + 1;
      }
    }
  }

  /** The indices of the records that survive the pass, in increasing order. */
  function Survivors(os: seq<Obstacle>): seq<nat>
  {
    if os == [] then []
    else (if OffScreen(Step(os[0])) then [] else [0]) + Shift(Survivors(os[1..]))
  }

  /** The surviving indices are exactly those whose stepped record is still on screen. */
  lemma {:induction false} SurvivorsAreOnScreen(os: seq<Obstacle>)
    ensures forall j :: 0 <= j < |os| ==> (j in Survivors(os) <==> !OffScreen(Step(os[j])))
  {
    if os != [] {
      var tail := os[1..];
      SurvivorsAreOnScreen(tail);
      ShiftMembers(Survivors(tail));
      forall j | 0 <= j < |os|
        ensures j in Survivors(os) <==> !OffScreen(Step(os[j]))
      {
        if j > 0 {
          assert os[j] == tail[j - 1];
        }
      }
    }
  }

  /** The surviving indices are in range and strictly increasing. */
  lemma {:induction false} SurvivorsIncrease(os: seq<Obstacle>)
    ensures forall k :: 0 <= k < |Survivors(os)| ==> Survivors(os)[k] < |os|
    ensures forall k, l :: 0 <= k < l < |Survivors(os)| ==> Survivors(os)[k] < Survivors(os)[l]
  {
    if os != [] {
      SurvivorsIncrease(os[1..]);
      var rest := Survivors(os[1..]);
      var ix := Survivors(os);
      var head: seq<nat> := if OffScreen(Step(os[0])) then [] else [0];
      var h := |head|;
      assert ix == head + Shift(rest);
      assert |ix| == h + |rest|;
      forall k | h <= k < |ix|
        ensures ix[k] == rest[k - h] + 1 && ix[k] < |os|
      {
      }
      forall k, l | 0 <= k < l < |ix|
        ensures ix[k] < ix[l]
      {
        if k >= h {
          assert rest[k - h] < rest[l - h];
        }
      }
    }
  }

  /**
   * Putting a first record in front of a matched list of surviving indices and
   * kept records: when the first record's entries are both empty or are index 0
   * and its stepped record, the k-th kept record is again the stepped record at
   * the k-th index.
   */
  lemma PrependSurvivor(os: seq<Obstacle>, rest: seq<nat>, kept: seq<Obstacle>, head: seq<nat>, first: seq<Obstacle>)
    requires |os| > 0 && |kept| == |rest|
    requires forall k :: 0 <= k < |rest| ==> rest[k] < |os| - 1 && kept[k] == Step(os[1..][rest[k]])
    requires (head == [] && first == []) || (head == [0] && first == [Step(os[0])])
    ensures |first + kept| == |head + Shift(rest)|
    ensures forall k :: 0 <= k < |head + Shift(rest)| ==>
      (head + Shift(rest))[k] < |os| && (first + kept)[k] == Step(os[(head + Shift(rest))[k]])
  {
    var ix, adv, h := head + Shift(rest), first + kept, |head|;
    forall k | 0 <= k < |ix|
      ensures ix[k] < |os| && adv[k] == Step(os[ix[k]])
    {
      if k >= h {
        assert ix[k] == rest[k - h] + 1;
        assert adv[k] == kept[k - h];
        assert os[1..][rest[k - h]] == os[rest[k - h] + 1];
      }
    }
  }

  /** The k-th record Advance keeps is the stepped record at the k-th surviving index. */
  lemma {:induction false} AdvanceIsSurvivorsStepped(os: seq<Obstacle>)
    ensures |Advance(os)| == |Survivors(os)|
    ensures forall k :: 0 <= k < |Survivors(os)| ==>
      Survivors(os)[k] < |os| && Advance(os)[k] == Step(os[Survivors(os)[k]])
  {
    if os != [] {
      AdvanceIsSurvivorsStepped(os[1..]);
      var o := Step(os[0]);
      PrependSurvivor(os, Survivors(os[1..]), Advance(os[1..]),
        if OffScreen(o) then [] else [0], if OffScreen(o) then [] else [o]);
    }
  }

  /**
   * Advance keeps exactly the records that are still on screen after moving,
   * each stepped, in their original relative order: the k-th survivor is the
   * stepped record at the k-th surviving index, the surviving indices increase,
   * and an index survives iff its stepped record is not off screen.
   */
  lemma AdvanceKeepsExactlySurvivors(os: seq<Obstacle>)
    ensures |Advance(os)| == |Survivors(os)|
    ensures forall k :: 0 <= k < |Survivors(os)| ==>
      Survivors(os)[k] < |os| && Advance(os)[k] == Step(os[Survivors(os)[k]])
    ensures forall k, l :: 0 <= k < l < |Survivors(os)| ==> Survivors(os)[k] < Survivors(os)[l]
    ensures forall j :: 0 <= j < |os| ==> (j in Survivors(os) <==> !OffScreen(Step(os[j])))
  {
    SurvivorsAreOnScreen(os);
    SurvivorsIncrease(os);
    AdvanceIsSurvivorsStepped(os);
  }

  /** Strictly increasing positions: the oldest record is the leftmost. */
  predicate LeftToRight(os: seq<Obstacle>)
  {
    forall i, j :: 0 <= i < j < |os| ==> os[i].x < os[j].x
  }

  /** A pass keeps the records ordered left to right. */
  lemma AdvanceKeepsLeftToRight(os: seq<Obstacle>)
    requires LeftToRight(os)
    ensures LeftToRight(Advance(os))
  {
    AdvanceKeepsExactlySurvivors(os);
    var ix := Survivors(os);
    forall k, l | 0 <= k < l < |Advance(os)|
      ensures Advance(os)[k].x < Advance(os)[l].x
    {
      assert os[ix[k]].x < os[ix[l]].x;
    }
  }

  /**
   * A spawn puts the new record at the right edge, so records that are ordered
   * and lie left of that edge stay ordered, and none lies beyond it.
   */
  lemma QueuedKeepsLeftToRight(os: seq<Obstacle>, lastSpawnTime: int, now: int,
                               containerWidth: nat, containerHeight: nat, random: real)
    requires 0.0 <= random < 1.0 && LeftToRight(os)
    requires forall o :: o in os ==> o.x < containerWidth as real
    ensures LeftToRight(Queued(os, lastSpawnTime, now, containerWidth, containerHeight, random))
    ensures forall o :: o in Queued(os, lastSpawnTime, now, containerWidth, containerHeight, random) ==>
      o.x <= containerWidth as real
  {
    var q := Queued(os, lastSpawnTime, now, containerWidth, containerHeight, random);
    forall i | 0 <= i < |q|
      ensures q[i].x <= containerWidth as real && (i < |os| ==> q[i].x < containerWidth as real)
    {
      if i < |os| {
        assert q[i] == q[..|os|][i] == os[i];
      }
    }
    forall i, j | 0 <= i < j < |q|
      ensures q[i].x < q[j].x
    {
      assert q[i] == q[..|os|][i];
      if j < |os| {
        assert q[j] == q[..|os|][j];
      }
    }
  }

  /** A pass moves every record it keeps left, by Speed. */
  lemma {:induction false} AdvanceMovesLeft(os: seq<Obstacle>, bound: real)
    requires forall o :: o in os ==> o.x <= bound
    ensures forall o :: o in Advance(os) ==> o.x <= bound - Speed
  {
    if os != [] {
      assert os[0] in os;
      assert forall q :: q in os[1..] ==> q in os;
      AdvanceMovesLeft(os[1..], bound);
    }
  }

  /** The record after n passes, ignoring removal. */
  function Life(o: Obstacle, n: nat): Obstacle
  {
    if n == 0 then o else Step(Life(o, n - 1))
  }

  /** The points the record earns over its first n passes. */
  function Awarded(o: Obstacle, n: nat): nat
  {
    if n == 0 then 0 else Awarded(o, n - 1) + (if Scores(Life(o, n - 1)) then 1 else 0)
  }

  /**
   * Over any number of passes a record earns its point exactly once, on the
   * pass that marks it passed: never more, and never if it started passed.
   */
  lemma {:induction false} AwardedAtMostOnce(o: Obstacle, n: nat)
    ensures o.passed ==> Life(o, n).passed
    ensures Awarded(o, n) == (if !o.passed && Life(o, n).passed then 1 else 0)
    ensures Awarded(o, n) <= 1
  {
    if n > 0 {
      AwardedAtMostOnce(o, n - 1);
    }
  }
}
