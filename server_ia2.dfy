/**
 * The second neural-detector variant (server/serverIA2.py): frames are
 * 640x480, the target is the first detection with the largest score, the
 * same decision tree as the color-mask variant maps it to a command, and the
 * send routine drops a repeat of the last recorded command and replaces an
 * unknown command by STOP before recording and posting it.
 */
module ServerIA2 {

  import opened Options
  import opened Commands
  import opened Selection
  import opened RateGate

  const FrameWidth: int := 640
  const FrameHeight: int := 480

  /** A detection, reduced to what the decision logic reads. */
  datatype Detection = Detection(centerX: int, centerY: int, area: int)

  /** The key given to `max`: `area * (1 + (frame_height - center_y) / frame_height)`. */
  function Score(d: Detection): (score: real)
    ensures 0 <= d.area && 0 <= d.centerY <= FrameHeight ==>
              d.area as real <= score <= 2.0 * (d.area as real)
  {
    (d.area as real) * (1.0 + ((FrameHeight - d.centerY) as real) / (FrameHeight as real))
  }

  /** The score multiplied by the frame height: `area * (2 * 480 - center_y)`. */
  function ScoreKey(d: Detection): int
  {
    d.area * (2 * FrameHeight - d.centerY)
  }

  function ScoreKeys(detections: seq<Detection>): (keys: seq<int>)
    ensures |keys| == |detections|
    ensures forall i :: 0 <= i < |detections| ==> keys[i] == ScoreKey(detections[i])
  {
    seq(|detections|, i requires 0 <= i < |detections| => ScoreKey(detections[i]))
  }

  /** Comparing scores is comparing the integer keys. */
  lemma ScoreOrder(a: Detection, b: Detection)
    ensures Score(a) < Score(b) <==> ScoreKey(a) < ScoreKey(b)
  {
    var h := FrameHeight as real;
    assert Score(a) * h == ScoreKey(a) as real;
    assert Score(b) * h == ScoreKey(b) as real;
  }

  /** For a fixed positive area the score FALLS as the centre moves down the
      frame: a detection nearer the bottom edge ranks lower, not higher. */
  lemma ScoreFallsTowardsBottom(a: Detection, b: Detection)
    requires a.area == b.area > 0 && a.centerY < b.centerY
    ensures Score(a) > Score(b)
  {
    ScoreOrder(b, a);
    assert a.area * (2 * FrameHeight - b.centerY) < a.area * (2 * FrameHeight - a.centerY);
  }

  /** `calculate_movement_command`: STOP for no detection, otherwise the
      decision tree on the best detection's centre in a 640x480 frame. */
  function CalculateMovementCommand(detections: seq<Detection>): (r: string)
    ensures IsValidCommand(r)
    ensures r == Stop <==> detections == []
    ensures forall k :: IsFirstMax(ScoreKeys(detections), k)
                        ==> r == MapCommand(detections[k].centerX, detections[k].centerY, FrameWidth, FrameHeight)
  {
    if detections == [] then Stop
    else
      var keys := ScoreKeys(detections);
      var k := FirstMax(keys);
      assert forall k' :: IsFirstMax(keys, k') ==> k' == k by {
        forall k' | IsFirstMax(keys, k') ensures k' == k { FirstMaxIsUnique(keys, k', k); }
      }
      MapCommand(detections[k].centerX, detections[k].centerY, FrameWidth, FrameHeight)
  }

  /** In the source's own terms, the detection steered towards is the one
      `max(detections, key=score)` returns: its score is the largest, and
      every detection before it scores strictly less. */
  lemma TargetMaximisesScore(detections: seq<Detection>, k: int)
    requires IsFirstMax(ScoreKeys(detections), k)
    ensures forall j :: 0 <= j < |detections| ==> Score(detections[j]) <= Score(detections[k])
    ensures forall j :: 0 <= j < k ==> Score(detections[j]) < Score(detections[k])
    ensures CalculateMovementCommand(detections)
            == MapCommand(detections[k].centerX, detections[k].centerY, FrameWidth, FrameHeight)
  {
    forall j | 0 <= j < |detections|
      ensures Score(detections[j]) <= Score(detections[k])
      ensures j < k ==> Score(detections[j]) < Score(detections[k])
    {
      ScoreOrder(detections[k], detections[j]);
      ScoreOrder(detections[j], detections[k]);
    }
  }

  /** The two-detection example: A (area 2000, centre (500,100)) outranks
      B (area 1000, centre (500,440)), and A lies right of the dead zone. */
  lemma TwoDetectionExample()
    ensures var a, b := Detection(500, 100, 2000), Detection(500, 440, 1000);
            CalculateMovementCommand([a, b]) == Right
  {
    var a, b := Detection(500, 100, 2000), Detection(500, 440, 1000);
    assert IsFirstMax(ScoreKeys([a, b]), 0);
  }

  /**
   * What one call of `send_command_to_esp32` transmits, given the recorded
   * last command: nothing when the command equals it, otherwise the command
   * itself when it is valid and STOP when it is not.
   */
  function Dispatch(lastCommand: Option<string>, command: string): (r: Option<string>)
    ensures r.None? <==> lastCommand == Some(command)
    ensures r.Some? ==> IsValidCommand(r.value)
    ensures r.Some? ==> (r.value == command <==> IsValidCommand(command))
  {
    if lastCommand == Some(command) then None
    else if command in ValidCommands then Some(command)
    else Some(Stop)
  }

  /** The duplicate check runs before validation, so an invalid command never
      matches a recorded (valid) command: it always leads to a STOP transmission,
      even right after a STOP. */
  lemma InvalidCommandAlwaysSendsStop(lastCommand: Option<string>, command: string)
    requires lastCommand.None? || IsValidCommand(lastCommand.value)
    requires !IsValidCommand(command)
    ensures Dispatch(lastCommand, command) == Some(Stop)
  {
  }

  /** The transmissions of a series of calls of `send_command_to_esp32`. */
  function Transmissions(lastCommand: Option<string>, calls: seq<string>): (sent: seq<string>)
    ensures |sent| <= |calls|
    ensures forall c :: c in sent ==> IsValidCommand(c)
    decreases |calls|
  {
    if calls == [] then []
    else
      match Dispatch(lastCommand, calls[0])
      case None => Transmissions(lastCommand, calls[1..])
      case Some(c) => [c] + Transmissions(Some(c), calls[1..])
  }

  /** The recorded last command after a series of calls: unchanged or a valid
      command, and the last call itself when every call is valid. */
  function LastAfter(lastCommand: Option<string>, calls: seq<string>): (r: Option<string>)
    ensures r != lastCommand ==> r.Some? && IsValidCommand(r.value)
    ensures calls != [] && (forall c :: c in calls ==> IsValidCommand(c)) ==> r == Some(calls[|calls| - 1])
    decreases |calls|
  {
    if calls == [] then lastCommand
    else
      match Dispatch(lastCommand, calls[0])
      case None => LastAfter(lastCommand, calls[1..])
      case Some(c) => LastAfter(Some(c), calls[1..])
  }

  /** None for no element, otherwise the last one. */
  function LastOf(s: seq<string>): Option<string>
  {
    if s == [] then None else Some(s[|s| - 1])
  }

  /** The recorded command is always the last transmission (or the one before
      the calls when nothing was transmitted). */
  lemma {:induction false} LastAfterIsLastTransmission(lastCommand: Option<string>, calls: seq<string>)
    ensures LastAfter(lastCommand, calls)
            == if Transmissions(lastCommand, calls) == [] then lastCommand
               else LastOf(Transmissions(lastCommand, calls))
    decreases |calls|
  {
    if calls != [] {
      match Dispatch(lastCommand, calls[0])
      case None =>
        LastAfterIsLastTransmission(lastCommand, calls[1..]);
      case Some(c) =>
        LastAfterIsLastTransmission(Some(c), calls[1..]);
    }
  }

  /** No transmission repeats its predecessor, and the first does not repeat
      `lastCommand`. */
  predicate NoRepeats(lastCommand: Option<string>, sent: seq<string>)
  {
    && (|sent| > 0 ==> lastCommand != Some(sent[0]))
    && (forall j :: 0 < j < |sent| ==> sent[j - 1] != sent[j])
  }

  /** With valid commands only, the duplicate check makes every transmission
      differ from the one before it. */
  lemma {:induction false} ValidCallsNeverRepeat(lastCommand: Option<string>, calls: seq<string>)
    requires forall c :: c in calls ==> IsValidCommand(c)
    ensures NoRepeats(lastCommand, Transmissions(lastCommand, calls))
    decreases |calls|
  {
    if calls != [] {
      assert calls[0] in calls;
      assert forall c :: c in calls[1..] ==> c in calls;
      match Dispatch(lastCommand, calls[0])
      case None =>
        ValidCallsNeverRepeat(lastCommand, calls[1..]);
      case Some(c) =>
        ValidCallsNeverRepeat(Some(c), calls[1..]);
        var rest := Transmissions(Some(c), calls[1..]);
        var sent := [c] + rest;
        forall j | 0 < j < |sent|
          ensures sent[j - 1] != sent[j]
        {
          assert sent[j] == rest[j - 1];
          if j > 1 {
            assert sent[j - 1] == rest[j - 2];
          }
        }
    }
  }

  /** An invalid command breaks that: after a STOP, "search" is transmitted as a second STOP. */
  lemma InvalidCommandRepeatsStop()
    ensures Transmissions(Some(Stop), ["search"]) == [Stop]
    ensures !NoRepeats(Some(Stop), Transmissions(Some(Stop), ["search"]))
  {
    assert "search" != Stop;
    assert "search" !in ValidCommands;
  }

  /** One call, then the rest. */
  lemma TransmissionsCons(lastCommand: Option<string>, c: string, rest: seq<string>)
    ensures Transmissions(lastCommand, [c] + rest)
            == ToSeq(Dispatch(lastCommand, c)) + Transmissions(LastAfter(lastCommand, [c]), rest)
  {
    assert ([c] + rest)[0] == c && ([c] + rest)[1..] == rest;
    assert [c][1..] == [];
  }

  /** One call, then the rest: the rest starts from the command recorded by the first call. */
  lemma LastAfterCons(lastCommand: Option<string>, c: string, rest: seq<string>)
    ensures LastAfter(lastCommand, [c] + rest) == LastAfter(LastAfter(lastCommand, [c]), rest)
  {
    assert ([c] + rest)[0] == c && ([c] + rest)[1..] == rest;
    assert [c][1..] == [];
  }

  /** A series of calls split in two: the second part transmits from where the first left off. */
  lemma {:induction false} TransmissionsAppend(lastCommand: Option<string>, first: seq<string>, second: seq<string>)
    ensures Transmissions(lastCommand, first + second)
            == Transmissions(lastCommand, first) + Transmissions(LastAfter(lastCommand, first), second)
    decreases |first|
  {
    if first == [] {
      assert [] + second == second;
    } else {
      assert (first + second)[0] == first[0] && (first + second)[1..] == first[1..] + second;
      match Dispatch(lastCommand, first[0])
      case None =>
        TransmissionsAppend(lastCommand, first[1..], second);
      case Some(c) =>
        TransmissionsAppend(Some(c), first[1..], second);
    }
  }

  /** One call inside a series: what the series transmits is what this call
      transmits followed by what the rest transmits from the new recorded
      command, and the series records what the rest records from there. */
  lemma SendStep(before: seq<string>, lastCommand: Option<string>, command: string, rest: seq<string>)
    ensures before + Transmissions(lastCommand, [command] + rest)
            == (before + ToSeq(Dispatch(lastCommand, command))) + Transmissions(LastAfter(lastCommand, [command]), rest)
    ensures LastAfter(lastCommand, [command] + rest) == LastAfter(LastAfter(lastCommand, [command]), rest)
  {
    TransmissionsCons(lastCommand, command, rest);
    LastAfterCons(lastCommand, command, rest);
  }

  /** The POST result: an HTTP status or an exception. Both are only logged. */
  datatype PostOutcome = Status(code: int) | Raised

  /**
   * What the environment supplies in one pass of `run`: whether a frame was
   * read, the detections in it, the clock reading, whether 'q' was pressed,
   * and the outcome of a POST made in this pass.
   */
  datatype Tick = Tick(readOk: bool, detections: seq<Detection>, now: real, quitKey: bool, outcome: PostOutcome)

  /** The (time, command) pairs offered to the rate gate from the tick at
      position `i` on: the loop ends at the first failed read (`break`) and
      after the frame on which 'q' is pressed. */
  function Candidates(ticks: seq<Tick>, i: nat): (candidates: seq<Attempt>)
    requires i <= |ticks|
    ensures forall a :: a in candidates ==> IsValidCommand(a.command)
    decreases |ticks| - i
  {
    if i == |ticks| || !ticks[i].readOk then []
    else
      var t := ticks[i];
      [Attempt(t.now, CalculateMovementCommand(t.detections))]
      + (if t.quitKey then [] else Candidates(ticks, i + 1))
  }

  /** The calls of `send_command_to_esp32` made by the loop of a session are
      more than `command_interval` apart, starting from `last_command_time = 0`;
      the reference time moves on every call, including calls the duplicate
      check then suppresses. */
  lemma SessionAttemptsAreSpaced(ticks: seq<Tick>)
    ensures Spaced(GatedAttempts(Candidates(ticks, 0), 0.0), 0.0)
  {
    GatedAttemptsAreSpaced(Candidates(ticks, 0), 0.0);
  }

  /** All the calls of a session: the loop's calls, then the STOP of `stop()`. */
  function SessionCalls(ticks: seq<Tick>): (calls: seq<string>)
    ensures |calls| > 0 && calls[|calls| - 1] == Stop
    ensures forall c :: c in calls ==> IsValidCommand(c)
  {
    GatedCommands(Candidates(ticks, 0), 0.0) + [Stop]
  }

  /** The calls still to come from the tick at position `i` on, read pass by
      pass as the loop runs, with the gate's reference time at `lastCommandTime`. */
  function CallsFrom(ticks: seq<Tick>, i: nat, lastCommandTime: real): (calls: seq<string>)
    requires i <= |ticks|
    ensures |calls| <= |ticks| - i
    ensures forall c :: c in calls ==> IsValidCommand(c)
    decreases |ticks| - i
  {
    if i == |ticks| || !ticks[i].readOk then []
    else
      var t := ticks[i];
      if GateOpen(t.now, lastCommandTime) then
        if t.quitKey then [CalculateMovementCommand(t.detections)]
        else [CalculateMovementCommand(t.detections)] + CallsFrom(ticks, i + 1, t.now)
      else if t.quitKey then []
      else CallsFrom(ticks, i + 1, lastCommandTime)
  }

  /** Running the loop pass by pass makes exactly the calls the gate lets through. */
  lemma {:induction false} CallsFromIsGatedCandidates(ticks: seq<Tick>, i: nat, lastCommandTime: real)
    requires i <= |ticks|
    ensures CallsFrom(ticks, i, lastCommandTime) == CommandsOf(GatedAttempts(Candidates(ticks, i), lastCommandTime))
    decreases |ticks| - i
  {
    if i < |ticks| && ticks[i].readOk {
      var t := ticks[i];
      var a := Attempt(t.now, CalculateMovementCommand(t.detections));
      var later := if t.quitKey then [] else Candidates(ticks, i + 1);
      assert Candidates(ticks, i) == [a] + later;
      GatedCommandsCons(a, later, lastCommandTime);
      if !t.quitKey {
        CallsFromIsGatedCandidates(ticks, i + 1, if GateOpen(t.now, lastCommandTime) then t.now else lastCommandTime);
      } else if GateOpen(t.now, lastCommandTime) {
        assert [a.command] + [] == [a.command];
      }
    }
  }

  /** A session transmits no command twice in a row, and its last transmission,
      if it made any, is STOP. */
  lemma SessionNeverRepeats(lastCommand: Option<string>, ticks: seq<Tick>)
    ensures NoRepeats(lastCommand, Transmissions(lastCommand, SessionCalls(ticks)))
    ensures LastAfter(lastCommand, SessionCalls(ticks)) == Some(Stop)
  {
    ValidCallsNeverRepeat(lastCommand, SessionCalls(ticks));
    LastAfterStop(lastCommand, GatedCommands(Candidates(ticks, 0), 0.0));
  }

  /** Ending a series of calls with STOP leaves STOP recorded. */
  lemma {:induction false} LastAfterStop(lastCommand: Option<string>, calls: seq<string>)
    ensures LastAfter(lastCommand, calls + [Stop]) == Some(Stop)
    decreases |calls|
  {
    if calls == [] {
      assert [] + [Stop] == [Stop];
    } else {
      assert (calls + [Stop])[1..] == calls[1..] + [Stop];
      match Dispatch(lastCommand, calls[0])
      case None => LastAfterStop(lastCommand, calls[1..]);
      case Some(c) => LastAfterStop(Some(c), calls[1..]);
    }
  }

  class WasteDetectionSystem {

    var running: bool
    /** `_last_command` */
    var lastCommand: Option<string>
    /** Every command for which a POST to the controller was attempted. */
    ghost var sent: seq<string>

    /** The recorded command is the last POST attempted, and only valid commands are posted. */
    ghost predicate Valid()
      reads this
    {
      && lastCommand == LastOf(sent)
      && forall c :: c in sent ==> IsValidCommand(c)
    }

    constructor ()
      ensures Valid() && !running && lastCommand == None && sent == []
    {
      running := false;
      lastCommand := None;
      sent := [];
    }

    /** `send_command_to_esp32`: the duplicate check, then validation, then
        recording, then the POST, whose outcome changes nothing. */
    method SendCommandToEsp32(command: string, outcome: PostOutcome)
      requires Valid()
      modifies this`lastCommand, this`sent
      ensures Valid()
      ensures sent == old(sent) + ToSeq(Dispatch(old(lastCommand), command))
      ensures lastCommand == LastAfter(old(lastCommand), [command])
    {
      if lastCommand == Some(command) {
        return;
      }
      var validated := command;
      if validated !in ValidCommands {
        validated := Commands.Stop;
      }
      lastCommand := Some(validated);
      sent := sent + [validated];
      match outcome
      case Status(code) =>
      case Raised =>
    }

    /** `stop()`: clears the flag and sends STOP through the same duplicate check. */
    method Stop(outcome: PostOutcome)
      requires Valid()
      modifies this`running, this`lastCommand, this`sent
      ensures Valid() && !running && lastCommand == Some(Commands.Stop)
      ensures old(lastCommand) == Some(Commands.Stop) ==> sent == old(sent)
      ensures old(lastCommand) != Some(Commands.Stop) ==> sent == old(sent) + [Commands.Stop]
      ensures sent == old(sent) + Transmissions(old(lastCommand), [Commands.Stop])
    {
      running := false;
      SendCommandToEsp32(Commands.Stop, outcome);
    }

    /** The loop of `run`: it ends at the first failed read, after the frame on
        which 'q' is pressed, or when the ticks run out, having made the calls
        the rate gate lets through. */
    method ControlLoop(ticks: seq<Tick>)
      requires Valid() && running
      modifies this`lastCommand, this`sent
      ensures Valid()
      ensures sent == old(sent) + Transmissions(old(lastCommand), GatedCommands(Candidates(ticks, 0), 0.0))
      ensures lastCommand == LastAfter(old(lastCommand), GatedCommands(Candidates(ticks, 0), 0.0))
    {
      var lastCommandTime: real := 0.0;
      var commandInterval: real := CommandInterval;
      var i := 0;
      ghost var total := old(sent) + Transmissions(old(lastCommand), CallsFrom(ticks, 0, 0.0));
      ghost var last := LastAfter(old(lastCommand), CallsFrom(ticks, 0, 0.0));
      ghost var pending := CallsFrom(ticks, 0, 0.0);
      while running && i < |ticks|
        invariant Valid()
        invariant 0 <= i <= |ticks|
        invariant pending == CallsFrom(ticks, i, lastCommandTime)
        invariant sent + Transmissions(lastCommand, pending) == total
        invariant LastAfter(lastCommand, pending) == last
        decreases |ticks| - i
      {
        var t := ticks[i];
        if !t.readOk {
          break;
        }
        var command := CalculateMovementCommand(t.detections);
        var currentTime := t.now;
        if currentTime - lastCommandTime > commandInterval {
          ghost var rest := if t.quitKey then [] else CallsFrom(ticks, i + 1, currentTime);
          assert [command] + [] == [command];
          SendStep(sent, lastCommand, command, rest);
          SendCommandToEsp32(command, t.outcome);
          lastCommandTime := currentTime;
          pending := rest;
        }
        if t.quitKey {
          break;
        }
        i := i + 1;
      }
      CallsFromIsGatedCandidates(ticks, 0, 0.0);
    }

    /** `run`: nothing happens when the stream cannot be opened; otherwise the
        loop runs and `stop()` follows it. */
    method Run(connected: bool, ticks: seq<Tick>, stopOutcome: PostOutcome)
      requires Valid()
      modifies this
      ensures Valid()
      ensures !connected ==> running == old(running) && lastCommand == old(lastCommand) && sent == old(sent)
      ensures connected ==> !running && lastCommand == Some(Commands.Stop)
      ensures connected ==> sent == old(sent) + Transmissions(old(lastCommand), SessionCalls(ticks))
    {
      if !connected {
        return;
      }
      running := true;
      ControlLoop(ticks);
      Stop(stopOutcome);
      TransmissionsAppend(old(lastCommand), GatedCommands(Candidates(ticks, 0), 0.0), [Commands.Stop]);
    }
  }
}
