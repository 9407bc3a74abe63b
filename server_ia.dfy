/**
 * The first neural-detector variant (server/serverIA.py): the target is the
 * first detection with the largest bounding box, its horizontal offset from
 * the centre of a 640x480 frame picks a turn, and inside the dead zone its
 * size picks between advancing and stopping. A history of the last five
 * frames' detection lists holds every command back until three frames have
 * been seen; after that only the newest list is used, and an empty one sends
 * "search".
 */
module ServerIA {

  import opened Options
  import opened Selection

  const FrameWidth: int := 640
  const FrameHeight: int := 480
  /** Horizontal offsets up to this many pixels do not cause a turn. */
  const DeadZone: int := 50
  /** A box smaller than this (in square pixels) is taken to be far away. */
  const SmallTargetArea: int := 10000
  /** `deque(maxlen=5)` */
  const HistoryLength: nat := 5
  /** Commands are computed only once the history holds this many lists. */
  const MinHistory: nat := 3

  const TurnRight: string := "turn_right"
  const TurnLeft: string := "turn_left"
  const MoveForward: string := "move_forward"
  const StopCommand: string := "stop"
  const Search: string := "search"

  /** What `calculate_movement_direction` can return as a command. */
  const MovementCommands: set<string> := {TurnRight, TurnLeft, MoveForward, StopCommand}

  /** Everything this variant ever sends to the controller. */
  const RobotCommands: set<string> := {TurnRight, TurnLeft, MoveForward, StopCommand, Search}

  predicate IsMovementCommand(command: string)
  {
    command in MovementCommands
  }

  predicate IsRobotCommand(command: string)
  {
    command in RobotCommands
  }

  /** A detection, reduced to its integer box centre and size. */
  datatype Detection = Detection(centerX: int, centerY: int, width: int, height: int)

  /** The result of `calculate_movement_direction`: the command and the target it was computed for. */
  datatype Movement = Movement(command: string, target: Detection)

  /** The key given to `max`. */
  function Size(d: Detection): (size: int)
    ensures d.width >= 0 && d.height >= 0 ==> size >= 0
  {
    d.width * d.height
  }

  function Sizes(detections: seq<Detection>): (keys: seq<int>)
    ensures |keys| == |detections|
    ensures forall i :: 0 <= i < |detections| ==> keys[i] == Size(detections[i])
  {
    seq(|detections|, i requires 0 <= i < |detections| => Size(detections[i]))
  }

  function Abs(x: int): int
  {
    if x < 0 then -x else x
  }

  /** The branches of `calculate_movement_direction` for a chosen target. The
      frame centre is `frame_width // 2`; the vertical offset is computed by
      the source but never read, so it does not appear. */
  function DirectionFor(target: Detection): (command: string)
    ensures IsMovementCommand(command)
  {
    var dx := target.centerX - FrameWidth / 2;
    if Abs(dx) > DeadZone then
      if dx > 0 then TurnRight else TurnLeft
    else if Size(target) < SmallTargetArea then MoveForward
    else StopCommand
  }

  /** Each command is returned exactly when its condition holds. An offset of
      exactly 50 pixels either way does not turn. */
  lemma DirectionCases(target: Detection)
    ensures var command, dx := DirectionFor(target), target.centerX - FrameWidth / 2;
            && (command == TurnRight <==> dx > DeadZone)
            && (command == TurnLeft <==> dx < -DeadZone)
            && (command == MoveForward <==> -DeadZone <= dx <= DeadZone && Size(target) < SmallTargetArea)
            && (command == StopCommand <==> -DeadZone <= dx <= DeadZone && Size(target) >= SmallTargetArea)
  {
  }

  /** The vertical position of the target never changes the command. */
  lemma DirectionIgnoresVertical(target: Detection, y: int)
    ensures DirectionFor(target.(centerY := y)) == DirectionFor(target)
  {
  }

  /** Outside the dead zone the size of the target does not matter. */
  lemma TurnsIgnoreSize(target: Detection, width: int, height: int)
    requires Abs(target.centerX - FrameWidth / 2) > DeadZone
    ensures DirectionFor(target.(width := width, height := height)) == DirectionFor(target)
    ensures DirectionFor(target) == TurnRight || DirectionFor(target) == TurnLeft
  {
  }

  /** `calculate_movement_direction`: `None` for no detection, otherwise the
      command for the first largest detection, reported with it. */
  function CalculateMovementDirection(detections: seq<Detection>): (r: Option<Movement>)
    ensures r.None? <==> detections == []
    ensures r.Some? ==> IsMovementCommand(r.value.command)
    ensures forall k :: IsFirstMax(Sizes(detections), k)
                        ==> r == Some(Movement(DirectionFor(detections[k]), detections[k]))
  {
    if detections == [] then None
    else
      var keys := Sizes(detections);
      var k := FirstMax(keys);
      assert forall k' :: IsFirstMax(keys, k') ==> k' == k by {
        forall k' | IsFirstMax(keys, k') ensures k' == k { FirstMaxIsUnique(keys, k', k); }
      }
      Some(Movement(DirectionFor(detections[k]), detections[k]))
  }

  /** The reported target is one of the detections and no detection is larger;
      the command is the one the target's position and size call for. */
  lemma TargetIsLargest(detections: seq<Detection>)
    requires detections != []
    ensures var r := CalculateMovementDirection(detections);
            && r.Some?
            && r.value.target in detections
            && (forall d :: d in detections ==> Size(d) <= Size(r.value.target))
            && r.value.command == DirectionFor(r.value.target)
  {
    var k := FirstMax(Sizes(detections));
    forall d | d in detections
      ensures Size(d) <= Size(detections[k])
    {
      var j :| 0 <= j < |detections| && detections[j] == d;
    }
  }

  /** Of several equally large detections the first one is the target. */
  lemma TiesGoToTheFirst(detections: seq<Detection>, k: int)
    requires IsFirstMax(Sizes(detections), k)
    ensures CalculateMovementDirection(detections).value.target == detections[k]
    ensures forall j :: 0 <= j < k ==> Size(detections[j]) < Size(detections[k])
  {
  }

  /** The decision of one pass of `run`, given the history after the newest
      list was appended: nothing before three lists, "search" when the newest
      list is empty, otherwise the movement command for it. */
  function Decision(history: seq<seq<Detection>>): (r: Option<string>)
    ensures r.Some? <==> |history| >= MinHistory
    ensures r.Some? ==> IsRobotCommand(r.value)
    ensures r == Some(Search) <==> |history| >= MinHistory && history[|history| - 1] == []
  {
    if |history| < MinHistory then None
    else
      var recent := history[|history| - 1];
      if recent != [] then
        match CalculateMovementDirection(recent)
        case Some(movement) => Some(movement.command)
        case None => None
      else Some(Search)
  }

  /** The command a frame's own detections call for: "search" when there are
      none, otherwise the direction towards the first largest of them. */
  function FrameCommand(detections: seq<Detection>): (command: string)
    ensures IsRobotCommand(command)
    ensures command == Search <==> detections == []
  {
    if detections == [] then Search
    else DirectionFor(detections[FirstMax(Sizes(detections))])
  }

  /** Only the length of the history and its newest list matter. */
  lemma DecisionUsesNewestOnly(history: seq<seq<Detection>>)
    ensures Decision(history)
            == if |history| < MinHistory then None else Some(FrameCommand(history[|history| - 1]))
  {
    if |history| >= MinHistory && history[|history| - 1] != [] {
      var recent := history[|history| - 1];
      assert IsFirstMax(Sizes(recent), FirstMax(Sizes(recent)));
    }
  }

  /** The most recent `HistoryLength` lists of a series of frames. */
  function Window(frames: seq<seq<Detection>>): (w: seq<seq<Detection>>)
    ensures |w| == if |frames| < HistoryLength then |frames| else HistoryLength
  {
    if |frames| <= HistoryLength then frames else frames[|frames| - HistoryLength..]
  }

  /** The window holds the newest lists, oldest first, and ends with the newest one. */
  lemma WindowKeepsNewest(frames: seq<seq<Detection>>)
    ensures var w := Window(frames);
            && (forall j :: 0 <= j < |w| ==> w[j] == frames[|frames| - |w| + j])
            && (frames != [] ==> w[|w| - 1] == frames[|frames| - 1])
  {
  }

  /** `detection_history.append(detections)` on a deque with `maxlen=5`: the
      oldest list is dropped once five are held. */
  function Pushed(history: seq<seq<Detection>>, detections: seq<Detection>): (r: seq<seq<Detection>>)
    requires |history| <= HistoryLength
    ensures |r| == if |history| < HistoryLength then |history| + 1 else HistoryLength
    ensures r[|r| - 1] == detections
  {
    if |history| == HistoryLength then history[1..] + [detections] else history + [detections]
  }

  /** Appending to the bounded history of all the frames seen so far gives the
      bounded history of those frames and the new one. */
  lemma PushWindow(frames: seq<seq<Detection>>, detections: seq<Detection>)
    ensures Pushed(Window(frames), detections) == Window(frames + [detections])
  {
    if |frames| >= HistoryLength {
      var n := |frames|;
      assert Window(frames)[1..] == frames[n - (HistoryLength - 1)..];
      assert (frames + [detections])[n - (HistoryLength - 1)..] == frames[n - (HistoryLength - 1)..] + [detections];
    }
  }

  /**
   * What the environment supplies in one pass of `run`: whether a frame was
   * read, the detections in it and whether 'q' was pressed. Running out of
   * ticks stands for a keyboard interrupt.
   */
  datatype Tick = Tick(readOk: bool, detections: seq<Detection>, quitKey: bool)

  /** The detection lists appended to the history from the tick at position
      `i` on: the loop ends at the first failed read (`break`) and after the
      frame on which 'q' is pressed. */
  function Frames(ticks: seq<Tick>, i: nat): (frames: seq<seq<Detection>>)
    requires i <= |ticks|
    ensures |frames| <= |ticks| - i
    ensures forall j :: i <= j < i + |frames| ==> ticks[j].readOk && frames[j - i] == ticks[j].detections
    decreases |ticks| - i
  {
    if i == |ticks| || !ticks[i].readOk then []
    else if ticks[i].quitKey then [ticks[i].detections]
    else [ticks[i].detections] + Frames(ticks, i + 1)
  }

  /** The frames run up to where the loop stops: no earlier frame had 'q'
      pressed, and the next tick is missing, a failed read, or follows the
      frame on which 'q' was pressed. */
  lemma {:induction false} FramesStopWhereTheLoopStops(ticks: seq<Tick>, i: nat)
    requires i <= |ticks|
    ensures var n := i + |Frames(ticks, i)|;
            && (forall j :: i <= j < n - 1 ==> !ticks[j].quitKey)
            && (n == |ticks| || !ticks[n].readOk || (n > i && ticks[n - 1].quitKey))
    decreases |ticks| - i
  {
    if i < |ticks| && ticks[i].readOk && !ticks[i].quitKey {
      FramesStopWhereTheLoopStops(ticks, i + 1);
    }
  }

  /** The commands sent from the tick at position `i` on, pass by pass, with
      `history` as the history before that pass. */
  function SendsFrom(ticks: seq<Tick>, i: nat, history: seq<seq<Detection>>): (sent: seq<string>)
    requires i <= |ticks|
    requires |history| <= HistoryLength
    ensures |sent| <= |ticks| - i
    ensures forall c :: c in sent ==> IsRobotCommand(c)
    decreases |ticks| - i
  {
    if i == |ticks| || !ticks[i].readOk then []
    else
      var next := Pushed(history, ticks[i].detections);
      if ticks[i].quitKey then ToSeq(Decision(next))
      else ToSeq(Decision(next)) + SendsFrom(ticks, i + 1, next)
  }

  /** One pass inside a session: what the session sends is what this pass sends
      followed by what the later passes send from the new history. */
  lemma SendsStep(before: seq<string>, ticks: seq<Tick>, i: nat, history: seq<seq<Detection>>)
    requires i < |ticks| && ticks[i].readOk
    requires |history| <= HistoryLength
    ensures var next := Pushed(history, ticks[i].detections);
            && (ticks[i].quitKey ==> before + SendsFrom(ticks, i, history) == before + ToSeq(Decision(next)))
            && (!ticks[i].quitKey ==> before + SendsFrom(ticks, i, history)
                                      == (before + ToSeq(Decision(next))) + SendsFrom(ticks, i + 1, next))
  {
  }

  /** The same for the detection lists appended to the history. */
  lemma FramesStep(before: seq<seq<Detection>>, ticks: seq<Tick>, i: nat, all: seq<seq<Detection>>)
    requires i < |ticks| && ticks[i].readOk
    requires before + Frames(ticks, i) == all
    ensures ticks[i].quitKey ==> before + [ticks[i].detections] == all
    ensures !ticks[i].quitKey ==> (before + [ticks[i].detections]) + Frames(ticks, i + 1) == all
  {
  }

  /** How many of the coming frames send nothing when the history already holds
      `historyLength` lists. */
  function Silent(historyLength: nat): nat
  {
    if historyLength >= MinHistory - 1 then 0 else MinHistory - 1 - historyLength
  }

  /** One command per frame past the first `silent`, each the frame's own command. */
  function ExpectedSends(frames: seq<seq<Detection>>, silent: nat): (sent: seq<string>)
    ensures |sent| == if |frames| <= silent then 0 else |frames| - silent
    ensures forall j :: 0 <= j < |sent| ==> sent[j] == FrameCommand(frames[j + silent])
  {
    var n := if |frames| <= silent then 0 else |frames| - silent;
    seq(n, j requires 0 <= j < n => FrameCommand(frames[j + silent]))
  }

  /** A silent frame contributes nothing. */
  lemma ExpectedSendsSkip(detections: seq<Detection>, later: seq<seq<Detection>>, silent: nat)
    requires silent > 0
    ensures ExpectedSends([detections] + later, silent) == ExpectedSends(later, silent - 1)
  {
    var frames := [detections] + later;
    var lhs, rhs := ExpectedSends(frames, silent), ExpectedSends(later, silent - 1);
    forall j | 0 <= j < |lhs|
      ensures lhs[j] == rhs[j]
    {
      assert frames[j + silent] == later[j + silent - 1];
    }
  }

  /** A frame past the silent ones contributes its own command. */
  lemma ExpectedSendsTake(detections: seq<Detection>, later: seq<seq<Detection>>)
    ensures ExpectedSends([detections] + later, 0) == [FrameCommand(detections)] + ExpectedSends(later, 0)
  {
    var frames := [detections] + later;
    var lhs, rhs := ExpectedSends(frames, 0), [FrameCommand(detections)] + ExpectedSends(later, 0);
    forall j | 0 < j < |lhs|
      ensures lhs[j] == rhs[j]
    {
      assert frames[j] == later[j - 1];
    }
  }

  /** The pass that appends a frame's list sends nothing while the frame is
      silent and the frame's own command afterwards. */
  lemma PassSends(history: seq<seq<Detection>>, detections: seq<Detection>)
    requires |history| <= HistoryLength
    ensures ToSeq(Decision(Pushed(history, detections)))
            == if Silent(|history|) > 0 then [] else [FrameCommand(detections)]
    ensures Silent(|Pushed(history, detections)|)
            == if Silent(|history|) > 0 then Silent(|history|) - 1 else 0
  {
    DecisionUsesNewestOnly(Pushed(history, detections));
  }

  /** A session's last frame. */
  lemma LastFrameSends(detections: seq<Detection>, silent: nat)
    ensures ExpectedSends([detections], silent) == if silent > 0 then [] else [FrameCommand(detections)]
  {
    assert [detections] == [detections] + [];
    if silent > 0 {
      ExpectedSendsSkip(detections, [], silent);
    } else {
      ExpectedSendsTake(detections, []);
    }
    assert |ExpectedSends([], if silent > 0 then silent - 1 else 0)| == 0;
  }

  /** The history gate in closed form: from any history, the pass-by-pass sends
      are one command per frame past the silent ones, each computed from that
      frame's detections alone. */
  lemma {:induction false} SendsFromMatchesExpected(ticks: seq<Tick>, i: nat, history: seq<seq<Detection>>)
    requires i <= |ticks|
    requires |history| <= HistoryLength
    ensures SendsFrom(ticks, i, history) == ExpectedSends(Frames(ticks, i), Silent(|history|))
    decreases |ticks| - i
  {
    if i == |ticks| || !ticks[i].readOk {
      assert |ExpectedSends([], Silent(|history|))| == 0;
    } else {
      var t := ticks[i];
      var next := Pushed(history, t.detections);
      var silent := Silent(|history|);
      PassSends(history, t.detections);
      if t.quitKey {
        LastFrameSends(t.detections, silent);
      } else {
        var later := Frames(ticks, i + 1);
        SendsFromMatchesExpected(ticks, i + 1, next);
        if silent > 0 {
          ExpectedSendsSkip(t.detections, later, silent);
          assert [] + ExpectedSends(later, silent - 1) == ExpectedSends(later, silent - 1);
        } else {
          ExpectedSendsTake(t.detections, later);
        }
      }
    }
  }

  /** A session from an empty history sends nothing for its first two frames
      and then, for every further frame, "search" when it shows nothing and
      the movement command for its largest detection otherwise. */
  lemma FreshSessionSends(ticks: seq<Tick>)
    ensures var frames, sent := Frames(ticks, 0), SendsFrom(ticks, 0, []);
            && |sent| == (if |frames| < MinHistory then 0 else |frames| - (MinHistory - 1))
            && (forall j :: 0 <= j < |sent| ==> sent[j] == FrameCommand(frames[j + MinHistory - 1]))
  {
    SendsFromMatchesExpected(ticks, 0, []);
  }

  class WasteDetectionSystem {

    var running: bool
    /** `detection_history` */
    var detectionHistory: seq<seq<Detection>>
    /** Every detection list ever appended to the history, oldest first. */
    ghost var seenFrames: seq<seq<Detection>>
    /** Every command handed to `send_command_to_esp32`. */
    ghost var sent: seq<string>

    /** The history is the bounded window of the lists seen so far, and only
        the five known commands are sent. */
    ghost predicate Valid()
      reads this
    {
      && |detectionHistory| <= HistoryLength
      && detectionHistory == Window(seenFrames)
      && forall c :: c in sent ==> IsRobotCommand(c)
    }

    constructor ()
      ensures Valid() && !running && detectionHistory == [] && seenFrames == [] && sent == []
    {
      running := false;
      detectionHistory := [];
      seenFrames := [];
      sent := [];
    }

    /** `send_command_to_esp32`: only reports the command; the request to the
        controller is disabled in the source. */
    method SendCommandToEsp32(command: string)
      modifies this`sent
      ensures sent == old(sent) + [command]
    {
      sent := sent + [command];
    }

    /** `stop()`: clears the flag and always sends "stop" once. */
    method Stop()
      modifies this`running, this`sent
      ensures !running
      ensures sent == old(sent) + [StopCommand]
    {
      running := false;
      SendCommandToEsp32(StopCommand);
    }

    /** One pass of the loop of `run` once a frame was read: the detection list
        is appended to the history, and the decision for the new history, if
        any, is sent. */
    method ProcessFrame(detections: seq<Detection>)
      requires Valid()
      modifies this`detectionHistory, this`seenFrames, this`sent
      ensures Valid()
      ensures detectionHistory == Pushed(old(detectionHistory), detections)
      ensures seenFrames == old(seenFrames) + [detections]
      ensures sent == old(sent) + ToSeq(Decision(detectionHistory))
    {
      PushWindow(seenFrames, detections);
      detectionHistory := Pushed(detectionHistory, detections);
      seenFrames := seenFrames + [detections];
      if |detectionHistory| >= MinHistory {
        var recent := detectionHistory[|detectionHistory| - 1];
        if recent != [] {
          var movement := CalculateMovementDirection(recent);
          if movement.Some? {
            SendCommandToEsp32(movement.value.command);
          }
        } else {
          SendCommandToEsp32(Search);
        }
      }
    }

    /** `run`: nothing happens when the stream cannot be opened; otherwise the
        loop runs and `stop()` follows it. */
    method Run(connected: bool, ticks: seq<Tick>)
      requires Valid()
      modifies this
      ensures Valid()
      ensures !connected ==> running == old(running) && detectionHistory == old(detectionHistory)
                             && seenFrames == old(seenFrames) && sent == old(sent)
      ensures connected ==> !running && seenFrames == old(seenFrames) + Frames(ticks, 0)
      ensures connected ==> sent == old(sent) + SendsFrom(ticks, 0, old(detectionHistory)) + [StopCommand]
    {
      if !connected {
        return;
      }
      running := true;
      var i := 0;
      ghost var total := sent + SendsFrom(ticks, 0, detectionHistory);
      ghost var allFrames := seenFrames + Frames(ticks, 0);
      while running && i < |ticks|
        invariant Valid() && running
        invariant 0 <= i <= |ticks|
        invariant sent + SendsFrom(ticks, i, detectionHistory) == total
        invariant seenFrames + Frames(ticks, i) == allFrames
        decreases |ticks| - i
      {
        var t := ticks[i];
        if !t.readOk {
          break;
        }
        SendsStep(sent, ticks, i, detectionHistory);
        FramesStep(seenFrames, ticks, i, allFrames);
        ProcessFrame(t.detections);
        if t.quitKey {
          break;
        }
        i := i + 1;
      }
      Stop();
    }
  }
}
