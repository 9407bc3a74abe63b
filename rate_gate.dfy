/**
 * The rate gate of the control loops in server/server.py and
 * server/serverIA2.py: a command computed for a frame reaches the send routine
 * only when more than `command_interval` (1.0 s) has passed since the previous
 * time the gate opened, and that time then becomes the new reference,
 * whatever the send does.
 */
module RateGate {

  import opened Commands

  const CommandInterval: real := 1.0

  /** A command offered to the gate together with the clock reading of its frame. */
  datatype Attempt = Attempt(time: real, command: string)

  /** `current_time - last_command_time > command_interval` */
  predicate GateOpen(now: real, lastCommandTime: real)
  {
    now - lastCommandTime > CommandInterval
  }

  /** The candidates that pass the gate, in order, starting from the reference
      time `lastCommandTime`; each one passing moves the reference to its own time. */
  function GatedAttempts(candidates: seq<Attempt>, lastCommandTime: real): (passed: seq<Attempt>)
    ensures |passed| <= |candidates|
    ensures forall a :: a in passed ==> a in candidates
  {
    if candidates == [] then []
    else if GateOpen(candidates[0].time, lastCommandTime) then
      [candidates[0]] + GatedAttempts(candidates[1..], candidates[0].time)
    else
      GatedAttempts(candidates[1..], lastCommandTime)
  }

  /** The commands of a sequence of attempts, in order. */
  function CommandsOf(attempts: seq<Attempt>): (commands: seq<string>)
    ensures |commands| == |attempts|
    ensures forall i :: 0 <= i < |attempts| ==> commands[i] == attempts[i].command
  {
    if attempts == [] then [] else [attempts[0].command] + CommandsOf(attempts[1..])
  }

  /** The commands that reach the send routine: those of the candidates that
      pass the gate. When every candidate holds a valid command, so does every
      command sent. */
  function GatedCommands(candidates: seq<Attempt>, lastCommandTime: real): (commands: seq<string>)
    ensures |commands| <= |candidates|
    ensures (forall a :: a in candidates ==> IsValidCommand(a.command)) ==>
              forall c :: c in commands ==> IsValidCommand(c)
  {
    var passed := GatedAttempts(candidates, lastCommandTime);
    assert forall k :: 0 <= k < |passed| ==> passed[k] in candidates;
    CommandsOf(passed)
  }

  /** Offering one more candidate in front: it is transmitted exactly when the
      gate is open for it, and then it becomes the reference time. */
  lemma GatedCommandsCons(a: Attempt, later: seq<Attempt>, lastCommandTime: real)
    ensures CommandsOf(GatedAttempts([a] + later, lastCommandTime))
            == if GateOpen(a.time, lastCommandTime) then [a.command] + CommandsOf(GatedAttempts(later, a.time))
               else CommandsOf(GatedAttempts(later, lastCommandTime))
  {
    assert ([a] + later)[0] == a && ([a] + later)[1..] == later;
    if GateOpen(a.time, lastCommandTime) {
      var rest := GatedAttempts(later, a.time);
      assert ([a] + rest)[0] == a && ([a] + rest)[1..] == rest;
    }
  }

  /** The first attempt is more than one interval after the reference time, and
      each later one more than one interval after its predecessor. */
  predicate Spaced(attempts: seq<Attempt>, lastCommandTime: real)
  {
    && (|attempts| > 0 ==> GateOpen(attempts[0].time, lastCommandTime))
    && (forall j :: 0 < j < |attempts| ==> GateOpen(attempts[j].time, attempts[j - 1].time))
  }

  /** Every attempt that passes the gate is more than `command_interval` after
      the previous one, whatever the clock readings are. */
  lemma {:induction false} GatedAttemptsAreSpaced(candidates: seq<Attempt>, lastCommandTime: real)
    ensures Spaced(GatedAttempts(candidates, lastCommandTime), lastCommandTime)
    decreases |candidates|
  {
    if candidates != [] {
      var c := candidates[0];
      if GateOpen(c.time, lastCommandTime) {
        GatedAttemptsAreSpaced(candidates[1..], c.time);
        var rest := GatedAttempts(candidates[1..], c.time);
        var passed := [c] + rest;
        forall j | 0 < j < |passed|
          ensures GateOpen(passed[j].time, passed[j - 1].time)
        {
          assert passed[j] == rest[j - 1];
          if j > 1 {
            assert passed[j - 1] == rest[j - 2];
          }
        }
      } else {
        GatedAttemptsAreSpaced(candidates[1..], lastCommandTime);
      }
    }
  }

  /** Consequently attempts `i` and `j` are more than `(j - i)` intervals apart:
      no window of `n` seconds holds more than `n + 1` attempts. */
  lemma {:induction false} SpacedAttemptsSpreadOut(attempts: seq<Attempt>, lastCommandTime: real, i: int, j: int)
    requires Spaced(attempts, lastCommandTime)
    requires 0 <= i < j < |attempts|
    ensures attempts[j].time - attempts[i].time > (j - i) as real * CommandInterval
    decreases j - i
  {
    assert GateOpen(attempts[j].time, attempts[j - 1].time);
    if i < j - 1 {
      SpacedAttemptsSpreadOut(attempts, lastCommandTime, i, j - 1);
    }
  }
}
