/**
 * The color-mask variant (server/server.py): contours found by the color
 * masks are filtered by area, the object with the highest priority is chosen,
 * its centre is mapped to one of five commands, and the control loop offers
 * that command to the send routine at most once per second.
 */
module Server {

  import opened Options
  import opened Commands
  import opened Selection
  import opened RateGate

  /** Contour areas strictly between these bounds are kept. */
  const MinContourArea: int := 500
  const MaxContourArea: int := 50000

  /**
   * A contour as the color masks report it: the mask it came from, its area,
   * its zeroth moment and the centroid `(int(m10/m00), int(m01/m00))`, which is
   * only meaningful when `m00 != 0`.
   */
  datatype Contour = Contour(kind: string, area: int, m00: int, cx: int, cy: int)

  /** A retained waste object: its mask, centre and area. */
  datatype WasteObject = WasteObject(kind: string, cx: int, cy: int, area: int)

  /** The area filter and the zero-moment check of `detect_waste_objects`. */
  predicate Keep(c: Contour)
  {
    MinContourArea < c.area < MaxContourArea && c.m00 != 0
  }

  function ToObject(c: Contour): WasteObject
  {
    WasteObject(c.kind, c.cx, c.cy, c.area)
  }

  /** The objects built from the kept contours, in contour order. */
  function Retained(contours: seq<Contour>): (objects: seq<WasteObject>)
    ensures |objects| <= |contours|
    ensures forall i :: 0 <= i < |objects| ==> MinContourArea < objects[i].area < MaxContourArea
  {
    if contours == [] then []
    else
      var last := contours[|contours| - 1];
      Retained(contours[..|contours| - 1]) + (if Keep(last) then [ToObject(last)] else [])
  }

  /** An object is retained exactly when some contour passing the filter produced it. */
  lemma {:induction false} RetainedExactly(contours: seq<Contour>, o: WasteObject)
    ensures o in Retained(contours) <==> exists c :: c in contours && Keep(c) && ToObject(c) == o
    decreases |contours|
  {
    if contours != [] {
      var init := contours[..|contours| - 1];
      var last := contours[|contours| - 1];
      RetainedExactly(init, o);
      assert contours == init + [last];
      if o in Retained(contours) && o !in Retained(init) {
        assert Keep(last) && ToObject(last) == o;
      }
      if c :| c in contours && Keep(c) && ToObject(c) == o {
        if c != last {
          assert c in init;
        }
      }
    }
  }

  /** The filtering loop of `detect_waste_objects`, on contours already extracted. */
  method DetectWasteObjects(contours: seq<Contour>) returns (objects: seq<WasteObject>)
    ensures objects == Retained(contours)
  {
    objects := [];
    for i := 0 to |contours|
      invariant objects == Retained(contours[..i])
    {
      assert contours[..i + 1][..i] == contours[..i];
      var contour := contours[i];
      if MinContourArea < contour.area < MaxContourArea {
        if contour.m00 != 0 {
          objects := objects + [WasteObject(contour.kind, contour.cx, contour.cy, contour.area)];
        }
      }
    }
    assert contours[..|contours|] == contours;
  }

  /** The priority of `calculate_movement_command`, computed as the source
      writes it: `area * (1 + (h - distance_from_bottom) / h)` with
      `distance_from_bottom = h - cy`, in exact real arithmetic. */
  function Priority(o: WasteObject, frameHeight: int): (p: real)
    requires frameHeight > 0
    ensures p * (frameHeight as real) == ScaledPriority(o, frameHeight) as real
  {
    var distanceFromBottom := frameHeight - o.cy;
    var h := frameHeight as real;
    var q := ((frameHeight - distanceFromBottom) as real) / h;
    assert q * h == o.cy as real;
    assert (o.area as real) * (1.0 + q) * h == (o.area as real) * (h + q * h);
    (o.area as real) * (1.0 + q)
  }

  /** The priority multiplied by the (positive) frame height: `area * (h + cy)`. */
  function ScaledPriority(o: WasteObject, frameHeight: int): int
  {
    o.area * (frameHeight + o.cy)
  }

  function ScaledPriorities(objects: seq<WasteObject>, frameHeight: int): (keys: seq<int>)
    ensures |keys| == |objects|
    ensures forall i :: 0 <= i < |objects| ==> keys[i] == ScaledPriority(objects[i], frameHeight)
  {
    seq(|objects|, i requires 0 <= i < |objects| => ScaledPriority(objects[i], frameHeight))
  }

  /** Multiplying by a positive number keeps order and sign. */
  lemma ScaleByPositive(x: real, y: real, h: real)
    requires h > 0.0
    ensures x < y <==> x * h < y * h
    ensures x > 0.0 <==> x * h > 0.0
  {
  }

  /** Comparing priorities is comparing the integers `area * (h + cy)`, and a
      priority is positive exactly when that integer is. */
  lemma PriorityOrder(a: WasteObject, b: WasteObject, frameHeight: int)
    requires frameHeight > 0
    ensures Priority(a, frameHeight) < Priority(b, frameHeight)
            <==> ScaledPriority(a, frameHeight) < ScaledPriority(b, frameHeight)
    ensures Priority(a, frameHeight) > 0.0 <==> ScaledPriority(a, frameHeight) > 0
  {
    ScaleByPositive(Priority(a, frameHeight), Priority(b, frameHeight), frameHeight as real);
  }

  /** The same two facts for the integer key. */
  lemma ScaledPriorityIsMonotone(a: WasteObject, b: WasteObject, frameHeight: int)
    requires frameHeight > 0
    ensures a.area == b.area > 0 && a.cy < b.cy ==> ScaledPriority(a, frameHeight) < ScaledPriority(b, frameHeight)
    ensures a.cy == b.cy >= 0 && a.area < b.area ==> ScaledPriority(a, frameHeight) < ScaledPriority(b, frameHeight)
  {
    if a.area == b.area > 0 && a.cy < b.cy {
      assert a.area * (frameHeight + a.cy) < a.area * (frameHeight + b.cy);
    }
    if a.cy == b.cy >= 0 && a.area < b.area {
      assert a.area * (frameHeight + a.cy) < b.area * (frameHeight + a.cy);
    }
  }

  /** For a fixed positive area the priority grows as the centre moves down the
      frame, and for a centre in the frame it grows with the area. */
  lemma PriorityIsMonotone(a: WasteObject, b: WasteObject, frameHeight: int)
    requires frameHeight > 0
    ensures a.area == b.area > 0 && a.cy < b.cy ==> Priority(a, frameHeight) < Priority(b, frameHeight)
    ensures a.cy == b.cy >= 0 && a.area < b.area ==> Priority(a, frameHeight) < Priority(b, frameHeight)
  {
    PriorityOrder(a, b, frameHeight);
    ScaledPriorityIsMonotone(a, b, frameHeight);
  }

  /**
   * The object the selection loop ends with: `closest_object` starts as
   * `None` and `max_priority` as 0, and an object replaces them only when its
   * priority is strictly greater. Defined on prefixes, as the loop runs, and
   * on scaled priorities, which order objects as the priorities do.
   */
  function Closest(objects: seq<WasteObject>, frameHeight: int): (r: Option<nat>)
    ensures r.None? <==> forall j :: 0 <= j < |objects| ==> ScaledPriority(objects[j], frameHeight) <= 0
    ensures r.Some? ==> IsFirstMax(ScaledPriorities(objects, frameHeight), r.value)
                        && ScaledPriority(objects[r.value], frameHeight) > 0
    decreases |objects|
  {
    if objects == [] then None
    else
      var n := |objects| - 1;
      var prev := Closest(objects[..n], frameHeight);
      var maxPriority := if prev.None? then 0 else ScaledPriority(objects[prev.value], frameHeight);
      if ScaledPriority(objects[n], frameHeight) > maxPriority then Some(n) else prev
  }

  /** In the source's own terms: no object is selected exactly when no priority
      exceeds 0, and the selected object has the largest priority, every earlier
      object a strictly smaller one. */
  lemma ClosestMaximisesPriority(objects: seq<WasteObject>, frameHeight: int)
    requires frameHeight > 0
    ensures Closest(objects, frameHeight).None?
            <==> forall j :: 0 <= j < |objects| ==> Priority(objects[j], frameHeight) <= 0.0
    ensures Closest(objects, frameHeight).Some? ==>
              var k := Closest(objects, frameHeight).value;
              && k < |objects|
              && Priority(objects[k], frameHeight) > 0.0
              && (forall j :: 0 <= j < |objects| ==> Priority(objects[j], frameHeight) <= Priority(objects[k], frameHeight))
              && (forall j :: 0 <= j < k ==> Priority(objects[j], frameHeight) < Priority(objects[k], frameHeight))
  {
    forall j | 0 <= j < |objects|
      ensures Priority(objects[j], frameHeight) > 0.0 <==> ScaledPriority(objects[j], frameHeight) > 0
    {
      PriorityOrder(objects[j], objects[j], frameHeight);
    }
    var r := Closest(objects, frameHeight);
    if r.Some? {
      var k := r.value;
      forall j | 0 <= j < |objects|
        ensures Priority(objects[j], frameHeight) <= Priority(objects[k], frameHeight)
        ensures j < k ==> Priority(objects[j], frameHeight) < Priority(objects[k], frameHeight)
      {
        PriorityOrder(objects[k], objects[j], frameHeight);
        PriorityOrder(objects[j], objects[k], frameHeight);
      }
    }
  }

  /** An object with positive area whose centre is not above the frame is enough
      for some object to be selected. */
  lemma SomeObjectSelected(objects: seq<WasteObject>, frameHeight: int, j: int)
    requires frameHeight > 0
    requires 0 <= j < |objects| && objects[j].area > 0 && objects[j].cy >= 0
    ensures Closest(objects, frameHeight).Some?
  {
    assert ScaledPriority(objects[j], frameHeight) > 0;
  }

  /** What `calculate_movement_command` returns for a list of objects. */
  function MovementCommand(objects: seq<WasteObject>, frameHeight: int, frameWidth: int): (r: string)
    ensures IsValidCommand(r)
  {
    if objects == [] then Stop
    else
      match Closest(objects, frameHeight)
      case None => Stop
      case Some(k) => MapCommand(objects[k].cx, objects[k].cy, frameWidth, frameHeight)
  }

  /** STOP exactly when there is no object or no positive priority; otherwise the
      decision tree applied to the first object of largest priority. */
  lemma MovementCommandTargetsFirstMax(objects: seq<WasteObject>, frameHeight: int, frameWidth: int)
    ensures MovementCommand(objects, frameHeight, frameWidth) == Stop
            <==> objects == [] || forall j :: 0 <= j < |objects| ==> ScaledPriority(objects[j], frameHeight) <= 0
    ensures forall k :: IsFirstMax(ScaledPriorities(objects, frameHeight), k)
                        && ScaledPriority(objects[k], frameHeight) > 0
                        ==> MovementCommand(objects, frameHeight, frameWidth)
                            == MapCommand(objects[k].cx, objects[k].cy, frameWidth, frameHeight)
  {
    var keys := ScaledPriorities(objects, frameHeight);
    match Closest(objects, frameHeight)
    case None =>
    case Some(k) =>
      forall k' | IsFirstMax(keys, k') ensures k' == k { FirstMaxIsUnique(keys, k', k); }
  }

  /**
   * `calculate_movement_command`: the selection loop over the objects,
   * comparing real priorities as the source does, then the decision tree on the
   * selected centre.
   */
  method CalculateMovementCommand(objects: seq<WasteObject>, frameHeight: int, frameWidth: int)
    returns (command: string)
    requires objects != [] ==> frameHeight > 0
    ensures command == MovementCommand(objects, frameHeight, frameWidth)
  {
    if objects == [] {
      return Stop;
    }
    var closest: Option<nat> := None;
    var maxPriority: real := 0.0;
    for i := 0 to |objects|
      invariant closest == Closest(objects[..i], frameHeight)
      invariant closest.None? ==> maxPriority == 0.0
      invariant closest.Some? ==> closest.value < i && maxPriority == Priority(objects[closest.value], frameHeight)
    {
      assert objects[..i + 1][..i] == objects[..i];
      var priority := Priority(objects[i], frameHeight);
      if closest.Some? {
        PriorityOrder(objects[closest.value], objects[i], frameHeight);
        assert objects[..i][closest.value] == objects[closest.value];
      } else {
        PriorityOrder(objects[i], objects[i], frameHeight);
      }
      if priority > maxPriority {
        maxPriority := priority;
        closest := Some(i);
      }
    }
    assert objects[..|objects|] == objects;
    if closest.None? {
      return Stop;
    }
    var target := objects[closest.value];
    command := MapCommand(target.cx, target.cy, frameWidth, frameHeight);
  }

  /** Every retained object has area above 500, so as soon as one retained object
      has its centre inside the frame a target is selected and the command is not STOP. */
  lemma RetainedObjectIsAlwaysTargeted(contours: seq<Contour>, frameHeight: int, frameWidth: int, j: int)
    requires frameHeight > 0
    requires 0 <= j < |Retained(contours)| && Retained(contours)[j].cy >= 0
    ensures Closest(Retained(contours), frameHeight).Some?
    ensures MovementCommand(Retained(contours), frameHeight, frameWidth) != Stop
  {
    MovementCommandTargetsFirstMax(Retained(contours), frameHeight, frameWidth);
    SomeObjectSelected(Retained(contours), frameHeight, j);
  }

  /** A frame dimension in pixels: a captured frame is never empty. */
  type Extent = n: int | n > 0 witness 1

  /**
   * What the environment supplies in one pass of the control loop: whether a
   * frame was read, the contours found in it, its size, the clock reading
   * `time.time()`, whether 'q' was pressed, and whether the POST succeeded.
   */
  datatype Tick = Tick(readOk: bool, contours: seq<Contour>, frameHeight: Extent, frameWidth: Extent,
                       now: real, quitKey: bool, delivered: bool)

  /** The command `calculate_movement_command` computes for a frame that was read. */
  function FrameCommand(t: Tick): (command: string)
    ensures IsValidCommand(command)
  {
    MovementCommand(Retained(t.contours), t.frameHeight, t.frameWidth)
  }

  /**
   * The (time, command) pairs offered to the rate gate from the tick at
   * position `i` on: a failed read is skipped (`continue`), and the loop ends
   * after the frame on which 'q' is pressed.
   */
  function Candidates(ticks: seq<Tick>, i: nat): (candidates: seq<Attempt>)
    requires i <= |ticks|
    ensures forall a :: a in candidates ==> IsValidCommand(a.command)
    decreases |ticks| - i
  {
    if i == |ticks| then []
    else
      var t := ticks[i];
      if !t.readOk then Candidates(ticks, i + 1)
      else [Attempt(t.now, FrameCommand(t))] + (if t.quitKey then [] else Candidates(ticks, i + 1))
  }

  /** The commands of a session that reach the send routine are more than
      `command_interval` apart, starting from `last_command_time = 0`. */
  lemma SessionAttemptsAreSpaced(ticks: seq<Tick>)
    ensures Spaced(GatedAttempts(Candidates(ticks, 0), 0.0), 0.0)
  {
    GatedAttemptsAreSpaced(Candidates(ticks, 0), 0.0);
  }

  /**
   * The same session read pass by pass from the tick at position `i` on, as
   * the loop runs it: a failed read sends nothing, a frame that was read sends
   * its command when the gate is open and then moves the reference time, and
   * 'q' ends the session.
   */
  function Session(ticks: seq<Tick>, i: nat, lastCommandTime: real): (commands: seq<string>)
    requires i <= |ticks|
    ensures forall c :: c in commands ==> IsValidCommand(c)
    decreases |ticks| - i
  {
    if i == |ticks| then []
    else
      var t := ticks[i];
      if !t.readOk then Session(ticks, i + 1, lastCommandTime)
      else if GateOpen(t.now, lastCommandTime) then
        [FrameCommand(t)] + (if t.quitKey then [] else Session(ticks, i + 1, t.now))
      else if t.quitKey then []
      else Session(ticks, i + 1, lastCommandTime)
  }

  /** One pass of the loop over a frame that was read: its command is sent
      first when the gate is open, and 'q' ends the session after it. */
  lemma SessionStep(ticks: seq<Tick>, i: nat, lastCommandTime: real)
    requires i < |ticks| && ticks[i].readOk
    ensures var t := ticks[i];
            var later := if t.quitKey then [] else Session(ticks, i + 1, if GateOpen(t.now, lastCommandTime) then t.now else lastCommandTime);
            Session(ticks, i, lastCommandTime)
            == if GateOpen(t.now, lastCommandTime) then [FrameCommand(t)] + later else later
  {
    var t := ticks[i];
    if GateOpen(t.now, lastCommandTime) && t.quitKey {
      assert [FrameCommand(t)] + [] == [FrameCommand(t)];
    }
  }

  /** Running the loop pass by pass sends exactly the candidates that pass the
      rate gate. */
  lemma {:induction false} SessionIsGatedCandidates(ticks: seq<Tick>, i: nat, lastCommandTime: real)
    requires i <= |ticks|
    ensures Session(ticks, i, lastCommandTime) == CommandsOf(GatedAttempts(Candidates(ticks, i), lastCommandTime))
    decreases |ticks| - i
  {
    if i < |ticks| {
      var t := ticks[i];
      if !t.readOk {
        SessionIsGatedCandidates(ticks, i + 1, lastCommandTime);
      } else {
        var a := Attempt(t.now, FrameCommand(t));
        var later := if t.quitKey then [] else Candidates(ticks, i + 1);
        assert Candidates(ticks, i) == [a] + later;
        GatedCommandsCons(a, later, lastCommandTime);
        if !t.quitKey {
          SessionIsGatedCandidates(ticks, i + 1, if GateOpen(t.now, lastCommandTime) then t.now else lastCommandTime);
        }
      }
    }
  }

  class WasteDetectionSystem {

    var isRunning: bool
    /** Every command for which a POST to the controller was attempted. */
    ghost var sent: seq<string>

    constructor ()
      ensures !isRunning && sent == []
    {
      isRunning := false;
      sent := [];
    }

    /** `send_command_to_esp32`: one POST attempt; its outcome is the parameter
        `delivered`, and the attempt is recorded whatever it is. */
    method SendCommandToEsp32(command: string, delivered: bool) returns (ok: bool)
      modifies this`sent
      ensures sent == old(sent) + [command]
      ensures ok == delivered
    {
      sent := sent + [command];
      ok := delivered;
    }

    /** `process_video_stream` over the ticks the environment supplies; running
        out of ticks stands for the interrupt that ends the loop from outside. */
    method ProcessVideoStream(ticks: seq<Tick>)
      modifies this`sent
      ensures old(isRunning) ==> sent == old(sent) + GatedCommands(Candidates(ticks, 0), 0.0)
      ensures !old(isRunning) ==> sent == old(sent)
    {
      var lastCommandTime: real := 0.0;
      var commandInterval: real := CommandInterval;
      ghost var total := old(sent) + Session(ticks, 0, 0.0);
      ghost var pending := Session(ticks, 0, 0.0);
      var i := 0;
      while isRunning && i < |ticks|
        invariant 0 <= i <= |ticks|
        invariant !isRunning ==> sent == old(sent) && i == 0
        invariant isRunning ==> pending == Session(ticks, i, lastCommandTime) && sent + pending == total
        decreases |ticks| - i
      {
        var t := ticks[i];
        if !t.readOk {
          i := i + 1;
          continue;
        }
        SessionStep(ticks, i, lastCommandTime);
        var wasteObjects := DetectWasteObjects(t.contours);
        var command := CalculateMovementCommand(wasteObjects, t.frameHeight, t.frameWidth);
        var currentTime := t.now;
        if currentTime - lastCommandTime > commandInterval {
          ghost var rest := if t.quitKey then [] else Session(ticks, i + 1, currentTime);
          assert pending == [command] + rest;
          ghost var before := sent;
          var _ := SendCommandToEsp32(command, t.delivered);
          assert sent + rest == before + pending;
          lastCommandTime := currentTime;
          pending := rest;
        }
        if t.quitKey {
          break;
        }
        i := i + 1;
      }
      assert isRunning ==> pending == [] && sent + pending == sent;
      SessionIsGatedCandidates(ticks, 0, 0.0);
    }

    /** `stop_detection`: clears the flag and sends nothing to the robot. */
    method StopDetection()
      modifies this`isRunning
      ensures !isRunning && sent == old(sent)
    {
      isRunning := false;
    }

    /** `start_detection`: nothing happens when the stream cannot be opened;
        otherwise the loop runs and `stop_detection` follows it. */
    method StartDetection(connected: bool, ticks: seq<Tick>) returns (started: bool)
      modifies this
      ensures started == connected
      ensures !connected ==> isRunning == old(isRunning) && sent == old(sent)
      ensures connected ==> !isRunning && sent == old(sent) + GatedCommands(Candidates(ticks, 0), 0.0)
    {
      if !connected {
        return false;
      }
      isRunning := true;
      ProcessVideoStream(ticks);
      StopDetection();
      return true;
    }
  }
}

