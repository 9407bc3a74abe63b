/**
 * The five actuator commands shared by the color-mask server (server/server.py)
 * and the second neural-detector server (server/serverIA2.py), and the
 * first-match-wins decision tree both of them use to turn the centre of the
 * selected target into one of those commands.
 */
module Commands {

  const Forward: string := "FORWARD"
  const Left: string := "LEFT"
  const Right: string := "RIGHT"
  const Stop: string := "STOP"
  const Collect: string := "COLLECT"

  /** The closed command set (`VALID_COMMANDS`). */
  const ValidCommands: set<string> := {Forward, Left, Right, Stop, Collect}

  /** Membership of the command set, kept as one predicate so that facts about
      whole sequences of commands stay cheap to reason about. */
  predicate IsValidCommand(command: string)
  {
    command in ValidCommands
  }

  /** Horizontal dead-zone half-width, in pixels. */
  const ToleranceX: int := 50
  /** Height of the proximity band at the bottom of the frame, in pixels. */
  const ToleranceY: int := 100

  /**
   * The decision tree for a selected target centred at (cx, cy): the
   * proximity band pre-empts horizontal steering, then left, right and
   * forward. The frame centre is `frameWidth // 2`; Dafny's `/` agrees with
   * Python's floor division for the positive divisor 2.
   */
  function MapCommand(cx: int, cy: int, frameWidth: int, frameHeight: int): (r: string)
    ensures IsValidCommand(r) && r != Stop
  {
    var centerX := frameWidth / 2;
    if cy > frameHeight - ToleranceY then Collect
    else if cx < centerX - ToleranceX then Left
    else if cx > centerX + ToleranceX then Right
    else Forward
  }

  /** Each command is returned exactly when its condition holds and no earlier one does. */
  lemma MapCommandCases(cx: int, cy: int, frameWidth: int, frameHeight: int)
    ensures var r := MapCommand(cx, cy, frameWidth, frameHeight);
            var centerX := frameWidth / 2;
            && (r == Collect <==> cy > frameHeight - ToleranceY)
            && (r == Left <==> cy <= frameHeight - ToleranceY && cx < centerX - ToleranceX)
            && (r == Right <==> cy <= frameHeight - ToleranceY && cx > centerX + ToleranceX)
            && (r == Forward <==> cy <= frameHeight - ToleranceY
                                  && centerX - ToleranceX <= cx <= centerX + ToleranceX)
  {
  }

  /** Inside the proximity band the horizontal position does not matter. */
  lemma CollectIgnoresX(cx1: int, cx2: int, cy: int, frameWidth: int, frameHeight: int)
    requires cy > frameHeight - ToleranceY
    ensures MapCommand(cx1, cy, frameWidth, frameHeight) == Collect
    ensures MapCommand(cx1, cy, frameWidth, frameHeight) == MapCommand(cx2, cy, frameWidth, frameHeight)
  {
  }

  /** The dead zone is symmetric about the frame centre: a target `d` pixels to
      the right of it steers right exactly when one `d` pixels to the left steers left. */
  lemma SteeringIsSymmetric(d: int, cy: int, frameWidth: int, frameHeight: int)
    ensures var centerX := frameWidth / 2;
            MapCommand(centerX + d, cy, frameWidth, frameHeight) == Right
            <==> MapCommand(centerX - d, cy, frameWidth, frameHeight) == Left
  {
  }

  /** Left, forward, right in this order as the target moves right. */
  function SteeringRank(command: string): int
  {
    if command == Left then 0 else if command == Forward then 1 else 2
  }

  lemma SteeringIsMonotone(cx1: int, cx2: int, cy: int, frameWidth: int, frameHeight: int)
    requires cx1 <= cx2
    requires cy <= frameHeight - ToleranceY
    ensures SteeringRank(MapCommand(cx1, cy, frameWidth, frameHeight))
            <= SteeringRank(MapCommand(cx2, cy, frameWidth, frameHeight))
  {
  }
}
