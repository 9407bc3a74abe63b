# Waste-collecting robot: decision engine

This project models the decision engine of a waste-collecting robot's control
server. Each camera frame yields a list of detected objects. The server picks
one of them as the target and maps the target's position in the frame to a
movement command. It then sends that command to the robot's microcontroller
under a small amount of gating state. The repository has three variants of the
server, and each has its own module here:

- `Server` (`server/server.py`, color masks):
  - contours are filtered by area;
  - the target has the highest priority `area * (1 + cy / h)`;
  - commands are FORWARD, LEFT, RIGHT, STOP and COLLECT;
  - the control loop offers a command to the send routine at most once per
    second.
- `ServerIA2` (`server/serverIA2.py`, neural detector):
  - the target has the highest score `area * (1 + (h - cy) / h)`;
  - it uses the same decision tree and the same rate gate;
  - the send routine drops a repeat of the recorded last command, replaces an
    unknown command with STOP, and records the command before posting it;
  - shutdown sends STOP through that same routine.
- `ServerIA` (`server/serverIA.py`, neural detector):
  - the target is the largest bounding box;
  - a dead zone of 50 pixels decides between turning, advancing and stopping;
  - a history of the last five frames' detection lists holds commands back
    until three frames have been seen;
  - after that, only the newest list counts, and an empty list sends
    "search";
  - shutdown always sends "stop".

Shared modules:

- `Commands` holds the five-command set and the decision tree used by `Server`
  and `ServerIA2`.
- `Selection` holds the first-maximum choice. Python's `max` with a key and a
  loop that replaces its candidate only on a strictly greater value both pick it.
- `RateGate` holds the `now - last > 1.0` gate as a fold over (time, command)
  attempts.
- `Options` holds the `Option` type.

Each control loop is a `method` over a finite sequence of ticks. A tick is
what the environment supplies in one pass of the loop:

- whether a frame was read;
- the detections in it;
- the clock reading;
- whether 'q' was pressed;
- the outcome of a POST.

Running out of ticks stands for the keyboard interrupt that ends a session
from outside. Every transmission is recorded in a ghost trace `sent` on the
class. Each method's `ensures` ties that trace to a pure session function of
the ticks. Lemmas then characterise that function independently:

- rate-gated candidates with spacing;
- no repeated transmissions;
- one command per frame from the third on.

Priorities and scores keep the source's formulas in exact real arithmetic.
Lemmas show that they order objects exactly as integer keys do. The pure
selection functions (`Server.Closest`, `ServerIA2.CalculateMovementCommand`)
run on those integer keys. The loop of `Server.CalculateMovementCommand`
compares the real priorities, as the source does, and is proved to pick the
same object.

Behaviour of each variant that is easy to miss, as the code has it:

- Inside the control loops no variant lets STOP bypass the rate gate. The
  shutdown STOP of `server/serverIA2.py` is not rate-gated at all; it passes
  only the duplicate check.
- In `server/server.py`, shutdown (`stop_detection`) sends nothing at all.
- In `server/serverIA2.py`, the shutdown STOP goes through the duplicate check.
  So it is not sent when STOP was the last recorded command.
- In `server/serverIA2.py`, an invalid command is compared with the last
  command before it is replaced by STOP. So a STOP can be transmitted twice in
  a row (`ServerIA2.InvalidCommandRepeatsStop`).
- The score in `server/serverIA2.py` favours detections near the TOP of the
  frame for a fixed area (`ServerIA2.ScoreFallsTowardsBottom`). The comment on
  line 100, "Prioriza área y cercanía al fondo", says it favours closeness to
  the "fondo"; read as the bottom of the frame, as in `server/server.py`, the
  code does the opposite.
- A failed frame read is handled in two ways:
  - `server/server.py` skips the frame (`continue`);
  - the other two variants end the loop (`break`).
- `server/serverIA.py` uses its history buffer only as a gate, whose one test
  is at least three entries. `server/serverIA2.py` creates one and never uses
  it.

## Model

| member | source | states |
|---|---|---|
| Commands.MapCommand | server/server.py:144-160 | the command for a selected target is always one of the five valid commands and never STOP |
| Commands.MapCommandCases | server/server.py:147-160 | COLLECT exactly when `cy > h - 100`; LEFT exactly when not COLLECT and `cx < w//2 - 50`; RIGHT exactly when not COLLECT and `cx > w//2 + 50`; FORWARD exactly in the remaining dead zone |
| Commands.CollectIgnoresX | server/server.py:150-152 | inside the proximity band the result is COLLECT whatever the horizontal position |
| Commands.SteeringIsSymmetric | server/server.py:154-160 | a target d pixels right of centre steers RIGHT exactly when one d pixels left steers LEFT |
| Commands.SteeringIsMonotone | server/server.py:154-160 | outside the proximity band, moving the target right never moves the command back from RIGHT towards LEFT |
| Selection.FirstMax | server/serverIA2.py:101-104 | `max` with a key returns an index whose key is largest, with every earlier key strictly smaller |
| Selection.FirstMaxIsUnique | server/serverIA2.py:101-104 | at most one index is the first maximum, so the selection is deterministic |
| RateGate.GatedAttempts | server/server.py:219-223 | every attempt that passes the gate is one of the candidates, and there are never more of them than candidates (that they keep the candidates' order follows from the definition, a fold from the front) |
| RateGate.GatedCommands | server/server.py:219-223 | the commands that reach the send routine are no more than the candidates, and valid when every candidate is valid |
| RateGate.GatedCommandsCons | server/server.py:220-223 | the definition unfolded one step: a candidate passes exactly when `now - last > 1.0`, and then its time becomes the reference for the later ones |
| RateGate.GatedAttemptsAreSpaced | server/server.py:204-223 | the first attempt passed is more than 1.0 s after the start reference, and each later one more than 1.0 s after the previous attempt, whatever the clock readings |
| RateGate.SpacedAttemptsSpreadOut | server/server.py:220-223 | attempts i < j that passed the gate are more than (j - i) seconds apart |
| Server.Retained | server/server.py:93-97 | every retained object has `500 < area < 50000`, and there are no more objects than contours |
| Server.RetainedExactly | server/server.py:90-110 | an object is retained exactly when some contour with an area inside the bounds and `m00 != 0` produced it |
| Server.DetectWasteObjects | server/server.py:90-112 | the filtering loop returns exactly the retained objects, in contour order |
| Server.Priority | server/server.py:133-135 | the priority as written, `area * (1 + (h - (h - cy)) / h)`, multiplied by the frame height is the integer `area * (h + cy)` |
| Server.PriorityOrder | server/server.py:134-137 | comparing two priorities, or a priority with 0, is comparing their integer keys |
| Server.ScaledPriorityIsMonotone | server/server.py:133-135 | the integer key grows as the centre moves down for a fixed positive area, and grows with the area for a fixed centre in the frame |
| Server.PriorityIsMonotone | server/server.py:133-135 | for the same positive area a lower centre has a higher priority; for the same centre inside the frame a larger area does |
| Server.Closest | server/server.py:126-139 | the loop selects nothing exactly when no key is positive; otherwise it selects the first object with the largest key, and that key is positive |
| Server.ClosestMaximisesPriority | server/server.py:126-142 | nothing is selected exactly when no real priority exceeds 0; otherwise the selected priority is positive and largest, and every earlier one is strictly smaller |
| Server.SomeObjectSelected | server/server.py:127-142 | a non-empty list with an object of positive area and `cy >= 0` always has a selected object |
| Server.MovementCommand | server/server.py:114-160 | the command for any list of objects is one of the five valid commands |
| Server.MovementCommandTargetsFirstMax | server/server.py:114-160 | STOP exactly for an empty list or when no priority is positive; otherwise the decision tree applied to the first object of largest priority |
| Server.CalculateMovementCommand | server/server.py:114-160 | the loop over real priorities with a strict `>` computes that same command |
| Server.RetainedObjectIsAlwaysTargeted | server/server.py:94-142 | when one retained object has its centre inside the frame, a target is selected and the command is not STOP |
| Server.FrameCommand | server/server.py:214-217 | the command computed for a frame that was read is a valid command |
| Server.Candidates | server/server.py:207-237 | every (time, command) pair offered to the gate holds a valid command |
| Server.Session | server/server.py:207-237 | the commands the loop sends pass by pass are valid |
| Server.SessionStep | server/server.py:214-237 | one pass over a frame that was read sends its command first exactly when the gate is open, moving the reference time, and 'q' ends the session after it |
| Server.SessionAttemptsAreSpaced | server/server.py:204-223 | the candidates a session lets through the gate are more than 1.0 s apart, the first more than 1.0 s after time 0 |
| Server.SessionIsGatedCandidates | server/server.py:207-237 | running the loop pass by pass transmits exactly the frames' commands that pass the rate gate from reference time 0; failed reads are skipped and 'q' ends the session |
| Server.WasteDetectionSystem.constructor | server/server.py:23 | the system starts stopped, with nothing sent |
| Server.WasteDetectionSystem.SendCommandToEsp32 | server/server.py:162-177 | one POST attempt is recorded, and the result is its success |
| Server.WasteDetectionSystem.ProcessVideoStream | server/server.py:202-237 | with the running flag set, the trace grows by exactly the session's gated commands; without it, the loop does not run |
| Server.WasteDetectionSystem.StopDetection | server/server.py:257-263 | shutdown clears the flag and sends nothing |
| Server.WasteDetectionSystem.StartDetection | server/server.py:239-255 | with no stream, nothing happens and the result is false; otherwise the session's gated commands are sent, the system ends stopped, and the result is true |
| ServerIA2.Score | server/serverIA2.py:103 | for a detection of non-negative area with its centre in the 480-pixel-high frame, the score lies between the area and twice the area |
| ServerIA2.ScoreOrder | server/serverIA2.py:101-104 | comparing two scores is comparing the integer keys `area * (960 - center_y)` |
| ServerIA2.ScoreFallsTowardsBottom | server/serverIA2.py:100-104 | for the same positive area the score falls as `center_y` grows, which favours the top of the frame, not the bottom that the comment on line 100 ("cercanía al fondo") names if "fondo" is read as the frame's bottom |
| ServerIA2.CalculateMovementCommand | server/serverIA2.py:97-116 | the result is a valid command; it is STOP exactly for no detection; otherwise it is the decision tree for 640x480 applied to the first detection of largest score |
| ServerIA2.TargetMaximisesScore | server/serverIA2.py:101-116 | the detection steered towards has the largest real score, every earlier one a strictly smaller score |
| ServerIA2.TwoDetectionExample | server/serverIA2.py:97-116 | A(500,100, area 2000) beats B(500,440, area 1000), giving RIGHT |
| ServerIA2.Dispatch | server/serverIA2.py:48-53 | nothing is transmitted exactly when the command equals the recorded one; what is transmitted is valid, and it is the command itself exactly when that is valid |
| ServerIA2.InvalidCommandAlwaysSendsStop | server/serverIA2.py:49-53 | with a valid or no recorded command, an invalid command always transmits STOP |
| ServerIA2.Transmissions | server/serverIA2.py:48-53 | a series of calls transmits at most one command per call, all of them valid |
| ServerIA2.LastAfter | server/serverIA2.py:49-53 | after a series of calls the recorded command is the one before or a valid command, and when every call is valid it is the last call |
| ServerIA2.TransmissionsAppend | server/serverIA2.py:49-53 | a series of calls split in two transmits what the first part transmits, then what the second part transmits from the command the first part left recorded |
| ServerIA2.LastAfterIsLastTransmission | server/serverIA2.py:53 | the recorded command after a series of calls is its last transmission, or the earlier one if nothing was transmitted |
| ServerIA2.ValidCallsNeverRepeat | server/serverIA2.py:49-50 | with valid commands only, no transmission repeats the previous one or the recorded command |
| ServerIA2.InvalidCommandRepeatsStop | server/serverIA2.py:49-53 | after STOP, an invalid command transmits a second STOP in a row |
| ServerIA2.Candidates | server/serverIA2.py:139-155 | every pair offered to the gate in a session holds a valid command |
| ServerIA2.SessionAttemptsAreSpaced | server/serverIA2.py:138-150 | the loop's calls of the send routine are more than 1.0 s apart, the first more than 1.0 s after time 0, including calls the duplicate check suppresses |
| ServerIA2.SessionCalls | server/serverIA2.py:136-170 | a session's calls of the send routine are valid and end with the STOP of shutdown |
| ServerIA2.CallsFrom | server/serverIA2.py:139-156 | the calls the loop makes pass by pass are valid, at most one per tick |
| ServerIA2.CallsFromIsGatedCandidates | server/serverIA2.py:139-156 | the loop pass by pass calls the send routine with exactly the commands that pass the rate gate; the first failed read or 'q' ends it |
| ServerIA2.SessionNeverRepeats | server/serverIA2.py:137-170 | a session never transmits the same command twice in a row and leaves STOP recorded |
| ServerIA2.LastAfterStop | server/serverIA2.py:170 | ending the calls with STOP leaves STOP recorded |
| ServerIA2.WasteDetectionSystem.constructor | server/serverIA2.py:30-31 | the system starts stopped, with no recorded command and nothing sent |
| ServerIA2.WasteDetectionSystem.SendCommandToEsp32 | server/serverIA2.py:48-63 | the trace grows by what the duplicate check and validation let through, whatever the POST outcome; the recorded command stays the last transmission |
| ServerIA2.WasteDetectionSystem.Stop | server/serverIA2.py:162-171 | shutdown clears the flag and transmits STOP unless STOP is already recorded |
| ServerIA2.WasteDetectionSystem.ControlLoop | server/serverIA2.py:137-156 | the loop adds to the trace exactly what the gated calls transmit through the duplicate check, and leaves recorded the command those calls leave recorded |
| ServerIA2.WasteDetectionSystem.Run | server/serverIA2.py:130-160 | with no stream nothing happens; otherwise the session's calls, including the final STOP, are transmitted, and STOP ends recorded |
| ServerIA.Size | server/serverIA.py:139 | the key `width * height` is non-negative for non-negative sides |
| ServerIA.DirectionFor | server/serverIA.py:142-166 | the command for a chosen target is one of turn_right, turn_left, move_forward and stop |
| ServerIA.DirectionCases | server/serverIA.py:149-166 | turn_right exactly when `dx > 50`; turn_left exactly when `dx < -50`; in the dead zone move_forward exactly when `width*height < 10000`, and stop otherwise |
| ServerIA.DirectionIgnoresVertical | server/serverIA.py:143-166 | the vertical position never changes the command |
| ServerIA.TurnsIgnoreSize | server/serverIA.py:158-162 | outside the dead zone the command is a turn, whatever the size |
| ServerIA.CalculateMovementDirection | server/serverIA.py:133-171 | no movement exactly for no detection; otherwise the command for the first largest detection, reported with that detection |
| ServerIA.TargetIsLargest | server/serverIA.py:139-171 | for a non-empty list the reported target is one of the detections, none is larger, and the command is the one for that target |
| ServerIA.TiesGoToTheFirst | server/serverIA.py:139 | the target is the first largest detection, and every earlier one is strictly smaller |
| ServerIA.Decision | server/serverIA.py:216-232 | a pass sends something exactly when the history holds at least 3 lists; it sends "search" exactly then and when the newest list is empty |
| ServerIA.FrameCommand | server/serverIA.py:218-232 | a frame's own command is one of the five and is "search" exactly for an empty list |
| ServerIA.DecisionUsesNewestOnly | server/serverIA.py:216-232 | with 3 or more lists, the decision is the newest list's own command, whatever the older lists hold |
| ServerIA.Window | server/serverIA.py:52 | the bounded history of n lists has min(n, 5) of them (which ones is stated by `ServerIA.WindowKeepsNewest`) |
| ServerIA.WindowKeepsNewest | server/serverIA.py:52 | the history holds the newest lists in order and ends with the newest one |
| ServerIA.Pushed | server/serverIA.py:213 | appending to a history of at most 5 lists gives at most 5 lists, ending with the new one |
| ServerIA.PushWindow | server/serverIA.py:213 | appending to the bounded history of all past lists gives the bounded history of all lists, so the deque keeps exactly the last five |
| ServerIA.Frames | server/serverIA.py:203-242 | the lists appended in a session are the detections of consecutive ticks from the first, every one of them read, at most one per tick |
| ServerIA.FramesStopWhereTheLoopStops | server/serverIA.py:203-242 | those lists end where the loop stops: no earlier frame had 'q' pressed, and the next tick is missing, a failed read, or comes after the frame on which 'q' was pressed |
| ServerIA.SendsFrom | server/serverIA.py:213-232 | what a session sends pass by pass is at most one command per tick, each one of the robot's five commands |
| ServerIA.ExpectedSends | server/serverIA.py:216-232 | the reference: one command per frame after the silent ones, each the frame's own command |
| ServerIA.PassSends | server/serverIA.py:213-232 | a pass sends nothing while its frame is silent, and its frame's own command afterwards |
| ServerIA.SendsFromMatchesExpected | server/serverIA.py:203-242 | from any history, what the loop sends pass by pass equals the reference |
| ServerIA.FreshSessionSends | server/serverIA.py:213-232 | from an empty history the first two frames send nothing, and every later frame sends exactly its own command |
| ServerIA.WasteDetectionSystem.constructor | server/serverIA.py:52-56 | the system starts stopped with an empty history |
| ServerIA.WasteDetectionSystem.SendCommandToEsp32 | server/serverIA.py:77-91 | every call is recorded as sent |
| ServerIA.WasteDetectionSystem.Stop | server/serverIA.py:253-262 | shutdown clears the flag and always sends "stop" exactly once |
| ServerIA.WasteDetectionSystem.ProcessFrame | server/serverIA.py:210-232 | a pass appends the list to the bounded history and sends the decision for the new history |
| ServerIA.WasteDetectionSystem.Run | server/serverIA.py:194-251 | with no stream nothing happens; otherwise the session's lists are appended, its decisions are sent, then "stop", and the history stays the last five lists |

## Left out

- Video capture: opening the stream and reading frames are out of the model. A flag says whether the stream opened, and each tick says whether its frame was read.
- Detection is out of the model: YOLO inference, confidence thresholds and the HSV masks, morphology, contours and moments. In `server/serverIA.py` and `server/serverIA2.py` detections are integer records, so the `int()` truncation of their centres and sizes has already happened.
- `server/server.py` contours carry their area, `m00` and the truncated centroid. Only the area filter and the `m00` check are modelled. `cv2.contourArea` returns a float, and the model takes contour areas as integers, so a fractional area at the bounds 500 and 50000 is not modelled.
- Drawing and display are out of the model, and so is `waitKey`. The 'q' key is a flag in each tick.
- HTTP is out of the model: the POST, its JSON payload with a timestamp, and status handling. The POST outcome is a parameter (`delivered`, `PostOutcome`) that changes nothing but the return value of the `server/server.py` send routine.
- In `server/serverIA.py` the request code is commented out, so a send is only recorded.
- `time.time()` and `time.sleep` are out of the model. Clock readings are reals supplied by the ticks.
- A `KeyboardInterrupt` is modelled as the ticks running out. It can only end the loop between passes.
- Printing, logging, `main()`, IP and port configuration, class-name tables and unused fields are out of the model. The unused fields are `current_target`, `waste_detected`, `waste_position`, the `serverIA2.py` history deque and `frame_center_y`/`dy`.
- Server.CalculateMovementCommand: priorities are exact reals. The source's floating-point division could round two different priorities to the same value and change a strict-`>` tie, and that is not modelled.
- ServerIA2.CalculateMovementCommand: scores are exact reals. Floating-point rounding of the score is not modelled, for the same reason.
- Frame size in `server/server.py`: height and width are positive integers. A decoded frame always has a size, and the source divides by the height.
- ServerIA2.WasteDetectionSystem.Run: `last_command_time` starts at integer 0 in the source and at real 0.0 in the model. It is compared with real clock readings either way.
