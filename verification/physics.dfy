/**
 * Vertical motion of the player: the constants of the physics block and the
 * one-frame integrator run by updatePlayer. Positions are measured upwards
 * from the floor of the game container; velocities are upwards-positive.
 */
module Physics {

  const Gravity: real := 0.6
  const JumpStrength: real := 15.0
  const FloorY: real := 0.0

  /** The player's vertical position and vertical speed. */
  datatype Player = Player(y: real, velocity: real)

  /** The player standing still on the floor, as every session starts. */
  const Grounded: Player := Player(FloorY, 0.0)

  /**
   * One frame of updatePlayer: gravity lowers the velocity, the velocity moves
   * the player, and a player at or below the floor is put back on it at rest.
   */
  function Integrate(p: Player): (r: Player)
    ensures r.y >= FloorY
    ensures r == Grounded <==> p.y + (p.velocity - Gravity) <= FloorY
    ensures r != Grounded ==> r.velocity == p.velocity - Gravity && r.y - p.y == r.velocity
  {
    var velocity := p.velocity - Gravity;
    var y := p.y + velocity;
    if y <= FloorY then Grounded else Player(y, velocity)
  }

  /** The player after n frames without a jump. */
  function Fall(p: Player, n: nat): Player
  {
    if n == 0 then p else Integrate(Fall(p, n - 1))
  }

  /**
   * Without a jump, a player that is not rising never rises again: every frame
   * lowers it strictly until it reaches the floor, and once grounded it stays
   * grounded.
   */
  lemma {:induction false} FallWithoutJumpDescends(p: Player, n: nat)
    requires p.y >= FloorY && p.velocity <= 0.0
    ensures Fall(p, n).y >= FloorY && Fall(p, n).velocity <= 0.0
    ensures Fall(p, n + 1).y <= Fall(p, n).y
    ensures Fall(p, n).y > FloorY ==> Fall(p, n + 1).y < Fall(p, n).y
    ensures Fall(p, n) == Grounded ==> Fall(p, n + 1) == Grounded
  {
    if n > 0 {
      FallWithoutJumpDescends(p, n - 1);
    }
  }
}
