/**
 * voice_control_fixed.py: the open/close variant of the voice controller.
 * A transcript is classified as open (0), close (180) or nothing; the
 * dispatch loop sends `str(angle)` and `send_command` waits for the
 * Arduino's reply line, updating `current_angle` only once that reply has
 * been read.
 *
 * The serial peer is abstract: for each write it is told after how many
 * 10 ms polls a byte is waiting (if ever) and whether the line it then
 * reads is valid UTF-8. The recogniser thread and the dispatch loop are
 * methods run on their own.
 */
module VoiceControlFixed {
  import opened Wrappers
  import opened Text
  import opened Dispatch

  /** `OPEN_COMMANDS`, tested first. */
  const OpenCommands: seq<string> := ["open", "on", "start", "zero"]

  /** `CLOSE_COMMANDS`, tested only when no open keyword is present. */
  const CloseCommands: seq<string> := ["close", "shut", "off", "one eighty", "180"]

  const OpenAngle := 0
  const CloseAngle := 180

  /** Some keyword of `cmds` is a substring of `t` (the `for cmd in ...: if cmd in text` search). */
  predicate AnyIn(t: string, cmds: seq<string>)
  {
    exists j | 0 <= j < |cmds| :: Contains(t, cmds[j])
  }

  /** `process_command`: lower-case, strip, then open keywords before close keywords. */
  function ProcessCommand(text: string): (r: Option<int>)
    ensures r == None || r == Some(OpenAngle) || r == Some(CloseAngle)
  {
    var t := Strip(Lower(text));
    if AnyIn(t, OpenCommands) then Some(OpenAngle)
    else if AnyIn(t, CloseCommands) then Some(CloseAngle)
    else None
  }

  // ------------------------------------------------------------ classification

  /** No keyword begins or ends with white space, so stripping cannot create or destroy a match. */
  predicate SpaceFreeEnds(cmds: seq<string>)
  {
    forall j :: 0 <= j < |cmds| ==>
      |cmds[j]| > 0 && !IsSpace(cmds[j][0]) && !IsSpace(cmds[j][|cmds[j]| - 1])
  }

  lemma TablesHaveSpaceFreeEnds()
    ensures SpaceFreeEnds(OpenCommands) && SpaceFreeEnds(CloseCommands)
  {
  }

  lemma StripAnyIn(s: string, cmds: seq<string>)
    requires SpaceFreeEnds(cmds)
    ensures AnyIn(Strip(s), cmds) <==> AnyIn(s, cmds)
  {
    forall j | 0 <= j < |cmds| ensures Contains(Strip(s), cmds[j]) <==> Contains(s, cmds[j]) {
      StripKeepsContains(s, cmds[j]);
    }
  }

  /**
   * The classification on the lower-cased text, stripping aside: 0 exactly
   * when an open keyword occurs, 180 exactly when none does and a close
   * keyword does, and nothing otherwise.
   */
  lemma ProcessCommandIff(text: string)
    ensures ProcessCommand(text) == Some(OpenAngle) <==> AnyIn(Lower(text), OpenCommands)
    ensures ProcessCommand(text) == Some(CloseAngle) <==>
      !AnyIn(Lower(text), OpenCommands) && AnyIn(Lower(text), CloseCommands)
    ensures ProcessCommand(text).None? <==>
      !AnyIn(Lower(text), OpenCommands) && !AnyIn(Lower(text), CloseCommands)
  {
    TablesHaveSpaceFreeEnds();
    StripAnyIn(Lower(text), OpenCommands);
    StripAnyIn(Lower(text), CloseCommands);
  }

  /** Any text containing the open keyword "on" opens, whatever close keyword it holds. */
  lemma OnOpens(text: string)
    requires Contains(Lower(text), "on")
    ensures ProcessCommand(text) == Some(OpenAngle)
  {
    assert OpenCommands[1] == "on";
    ProcessCommandIff(text);
  }

  /**
   * The close entry "one eighty" never decides anything: a text containing
   * it also contains "on" and so opens.
   */
  lemma OneEightyEntryUnreachable(text: string)
    requires Contains(Lower(text), CloseCommands[3])
    ensures ProcessCommand(text) == Some(OpenAngle)
  {
    OnInOneEighty();
    ContainsTransitive(Lower(text), CloseCommands[3], "on");
    OnOpens(text);
  }

  lemma LowerOneEighty() ensures Lower("one eighty") == "one eighty" { LowerNoUpper("one eighty"); }
  lemma LowerDontClose() ensures Lower("don't close") == "don't close" { LowerNoUpper("don't close"); }

  lemma OnInOneEighty() ensures Contains("one eighty", "on") {
    assert OccursAt("one eighty", "on", 0);
    ContainsIff("one eighty", "on");
  }
  lemma OnInDontClose() ensures Contains("don't close", "on") {
    assert OccursAt("don't close", "on", 1);
    ContainsIff("don't close", "on");
  }

  /** "one eighty" opens the claw rather than closing it. */
  lemma ExampleOneEighty()
    ensures ProcessCommand("one eighty") == Some(OpenAngle)
  {
    LowerOneEighty();
    OnInOneEighty();
    OnOpens("one eighty");
  }

  /** "don't close" opens too: its "don't" holds "on". */
  lemma ExampleDontClose()
    ensures ProcessCommand("don't close") == Some(OpenAngle)
  {
    LowerDontClose();
    OnInDontClose();
    OnOpens("don't close");
  }

  /** A text avoiding p, t and z and never showing "on" holds no open keyword. */
  lemma NoOpenKeyword(t: string)
    requires Avoids(t, "ptz") && NoPair(t, 'o', 'n')
    ensures !AnyIn(t, OpenCommands)
  {
    AbsentByMark(t, "open", "ptz", 'p');
    AbsentByPair(t, "on", 0);
    AbsentByMark(t, "start", "ptz", 't');
    AbsentByMark(t, "zero", "ptz", 'z');
  }

  lemma LowerClose() ensures Lower("Close") == "close" {}
  lemma CloseAvoids() ensures Avoids("close", "ptz") && NoPair("close", 'o', 'n') {}

  /** "Close", in any case, closes: no open keyword is present. */
  lemma ExampleClose()
    ensures ProcessCommand("Close") == Some(CloseAngle)
  {
    LowerClose();
    CloseAvoids();
    NoOpenKeyword("close");
    assert OccursAt("close", "close", 0);
    ContainsIff("close", "close");
    assert Contains("close", CloseCommands[0]);
    ProcessCommandIff("Close");
  }

  // ------------------------------------------------------------ final transcripts

  /**
   * The decision on a final transcript in `process_audio`: blank, then
   * exit/quit on the stripped text as heard, then `process_command`.
   */
  function FixedReaction(raw: string): (r: Reaction)
    ensures r.Ignore? <==> forall k :: 0 <= k < |raw| ==> IsSpace(raw[k])
    ensures r.Enqueue? ==> r.angle == OpenAngle || r.angle == CloseAngle
    ensures r.Reject? ==> ProcessCommand(Strip(raw)).None?
  {
    var text := Strip(raw);
    if text == [] then Ignore
    else if Contains(text, "exit") || Contains(text, "quit") then Stop
    else
      match ProcessCommand(text)
      case None => Reject
      case Some(a) => Enqueue(a)
  }

  /** "exit" or "quit" stops the thread before any open or close keyword is looked at. */
  lemma FixedExitFirst(raw: string)
    requires Contains(raw, "exit") || Contains(raw, "quit")
    ensures FixedReaction(raw) == Stop
  {
    StripKeepsContains(raw, "exit");
    StripKeepsContains(raw, "quit");
  }

  /** Without exit/quit a non-blank transcript queues exactly what `process_command` returns. */
  lemma FixedClassifierDecides(raw: string)
    requires Strip(raw) != []
    requires !Contains(raw, "exit") && !Contains(raw, "quit")
    ensures ProcessCommand(Strip(raw)).None? ==> FixedReaction(raw) == Reject
    ensures ProcessCommand(Strip(raw)).Some? ==> FixedReaction(raw) == Enqueue(ProcessCommand(Strip(raw)).value)
  {
    StripKeepsContains(raw, "exit");
    StripKeepsContains(raw, "quit");
  }

  // ------------------------------------------------------------ acknowledged send

  /** `current_angle`: the integer 90 at start, then the string `listen` passed to a send that was answered. */
  datatype AngleValue = IntValue(i: int) | StrValue(s: string)

  const InitialAngle := IntValue(90)

  /** Milliseconds slept between two looks at `in_waiting`, and the reply timeout. */
  const PollMs := 10
  const TimeoutMs := 1000

  /**
   * The Arduino's side of one exchange: after how many polls a byte is
   * waiting (`None`: never), and the line `readline` then returns (`None`:
   * its bytes are not valid UTF-8, so `decode` raises).
   */
  datatype Peer = Peer(arrival: Option<nat>, line: Option<string>)

  /**
   * The reply is seen: at poll `t` the waiting bytes are looked at before
   * the clock, and the clock stops the wait once `t * PollMs` exceeds the
   * timeout, so a reply waiting at poll `t` counts when every earlier poll
   * was within the timeout.
   */
  predicate AnswersInTime(p: Peer)
  {
    p.arrival.Some? && (p.arrival.value - 1) * PollMs <= TimeoutMs
  }

  /** A send that returns `True`: connected, answered in time, and the answer decodes. */
  predicate Acked(connected: bool, p: Peer)
  {
    connected && AnswersInTime(p) && p.line.Some?
  }

  /** The reply deadline in polls: the last poll at which a waiting byte is still seen is 101. */
  lemma AnswerDeadline(p: Peer)
    ensures AnswersInTime(p) <==> p.arrival.Some? && p.arrival.value <= TimeoutMs / PollMs + 1
  {
  }

  /**
   * `current_angle` after sending `cmds` in order, the `k`-th answered as
   * `peers[k]` says: the last acknowledged command, or `current` if none was.
   */
  function AfterSends(current: AngleValue, cmds: seq<int>, peers: seq<Peer>, connected: bool): AngleValue
    requires |peers| == |cmds|
  {
    if cmds == [] then current
    else
      var n := |cmds| - 1;
      if Acked(connected, peers[n]) then StrValue(IntToString(cmds[n]))
      else AfterSends(current, cmds[..n], peers[..n], connected)
  }

  /** One more send: the prefix through index `i` against the prefix before it. */
  lemma AfterSendsStep(current: AngleValue, cmds: seq<int>, peers: seq<Peer>, connected: bool, i: int)
    requires |peers| == |cmds| && 0 <= i < |cmds|
    ensures AfterSends(current, cmds[..i + 1], peers[..i + 1], connected) ==
      if Acked(connected, peers[i]) then StrValue(IntToString(cmds[i]))
      else AfterSends(current, cmds[..i], peers[..i], connected)
  {
    assert cmds[..i + 1][..i] == cmds[..i] && peers[..i + 1][..i] == peers[..i];
    assert cmds[..i + 1][i] == cmds[i] && peers[..i + 1][i] == peers[i];
  }

  /** Without a connection the angle never changes. */
  lemma {:induction false} AfterSendsDisconnected(current: AngleValue, cmds: seq<int>, peers: seq<Peer>)
    requires |peers| == |cmds|
    ensures AfterSends(current, cmds, peers, false) == current
    decreases |cmds|
  {
    if cmds != [] {
      AfterSendsDisconnected(current, cmds[..|cmds| - 1], peers[..|cmds| - 1]);
    }
  }

  /**
   * The angle after a run of sends is the start value or the text of one
   * of the commands, and it is that command's text when the last send is
   * acknowledged.
   */
  lemma {:induction false} AfterSendsIsAckedCommand(current: AngleValue, cmds: seq<int>, peers: seq<Peer>, connected: bool)
    requires |peers| == |cmds|
    ensures var r := AfterSends(current, cmds, peers, connected);
      r == current || exists k :: 0 <= k < |cmds| && Acked(connected, peers[k]) && r == StrValue(IntToString(cmds[k]))
    ensures cmds != [] && Acked(connected, peers[|cmds| - 1]) ==>
      AfterSends(current, cmds, peers, connected) == StrValue(IntToString(cmds[|cmds| - 1]))
    decreases |cmds|
  {
    if cmds != [] {
      var n := |cmds| - 1;
      if !Acked(connected, peers[n]) {
        AfterSendsIsAckedCommand(current, cmds[..n], peers[..n], connected);
        var r := AfterSends(current, cmds[..n], peers[..n], connected);
        if r != current {
          var k :| 0 <= k < n && Acked(connected, peers[..n][k]) && r == StrValue(IntToString(cmds[..n][k]));
          assert peers[..n][k] == peers[k] && cmds[..n][k] == cmds[k];
        }
      }
    }
  }

  /** Nothing acknowledged leaves the angle where it was. */
  lemma {:induction false} AfterSendsUnacked(current: AngleValue, cmds: seq<int>, peers: seq<Peer>, connected: bool)
    requires |peers| == |cmds|
    requires forall k :: 0 <= k < |peers| ==> !Acked(connected, peers[k])
    ensures AfterSends(current, cmds, peers, connected) == current
    decreases |cmds|
  {
    if cmds != [] {
      var n := |cmds| - 1;
      assert forall k :: 0 <= k < n ==> peers[..n][k] == peers[k];
      AfterSendsUnacked(current, cmds[..n], peers[..n], connected);
    }
  }

  // ------------------------------------------------------------ the controller

  /** The fixed `VoiceControl`'s mutable state; `written` is everything written to the port. */
  class FixedController {
    var running: bool
    var commandQueue: seq<int>
    var currentAngle: AngleValue
    var connected: bool
    var written: seq<string>

    /** Everything queued is an open or close angle. */
    predicate Valid()
      reads this
    {
      forall k :: 0 <= k < |commandQueue| ==> commandQueue[k] == OpenAngle || commandQueue[k] == CloseAngle
    }

    /** `__init__`: not running, empty queue, servo assumed at the centre (90). */
    constructor (connected: bool)
      ensures !running && commandQueue == [] && currentAngle == InitialAngle
      ensures this.connected == connected && written == []
      ensures Valid()
    {
      running := false;
      commandQueue := [];
      currentAngle := InitialAngle;
      this.connected := connected;
      written := [];
    }

    /**
     * `send_command(angle)`: refuse without a connection; otherwise write
     * the line, poll every 10 ms for a reply until the timeout, read and
     * decode one line, and only then record `angle` as the current angle.
     */
    method SendCommand(angle: string, peer: Peer) returns (ok: bool)
      modifies this
      ensures ok == Acked(old(connected), peer)
      ensures written == if connected then old(written) + [angle + "\n"] else old(written)
      ensures currentAngle == if ok then StrValue(angle) else old(currentAngle)
      ensures running == old(running) && commandQueue == old(commandQueue) && connected == old(connected)
    {
      if !connected {
        return false;
      }
      written := written + [angle + "\n"];
      var polls := 0;
      while !(peer.arrival.Some? && peer.arrival.value <= polls)
        invariant 0 <= polls && (polls - 1) * PollMs <= TimeoutMs
        invariant peer.arrival.Some? ==> polls <= peer.arrival.value
        decreases TimeoutMs - (polls - 1) * PollMs
      {
        if polls * PollMs > TimeoutMs {
          return false;
        }
        polls := polls + 1;
      }
      match peer.line {
        case None =>
          ok := false;
        case Some(line) =>
          var response := Strip(line);
          currentAngle := StrValue(angle);
          ok := true;
      }
    }

    /** One final transcript in `process_audio`. */
    method HandleFinalText(raw: string)
      modifies this
      requires Valid()
      ensures Valid()
      ensures running == (old(running) && !FixedReaction(raw).Stop?)
      ensures commandQueue == old(commandQueue) + match FixedReaction(raw) case Enqueue(a) => [a] case _ => []
      ensures currentAngle == old(currentAngle) && connected == old(connected) && written == old(written)
    {
      match FixedReaction(raw) {
        case Stop => running := false;
        case Enqueue(a) => commandQueue := commandQueue + [a];
        case Ignore =>
        case Reject =>
      }
    }

    /** The lines written after one more send of the dispatch loop. */
    static lemma WrittenStep(w: seq<string>, cmds: seq<int>, i: int, connected: bool)
      requires 0 <= i < |cmds|
      ensures (if connected then (w + Lines(cmds[..i])) + [IntToString(cmds[i]) + "\n"] else w)
              == w + (if connected then Lines(cmds[..i + 1]) else [])
    {
      LinesStep(cmds, i);
    }

    /**
     * The dispatch loop of `listen` over the commands queued so far, the
     * `k`-th send answered as `peers[k]` says: each command is written as
     * `str(angle)` in FIFO order, and `current_angle` ends as the last
     * acknowledged one.
     */
    method Drain(peers: seq<Peer>)
      modifies this
      requires |peers| == |commandQueue|
      ensures old(running) ==> commandQueue == []
      ensures old(running) ==> written == old(written) + (if connected then Lines(old(commandQueue)) else [])
      ensures old(running) ==> currentAngle == AfterSends(old(currentAngle), old(commandQueue), peers, connected)
      ensures !old(running) ==> commandQueue == old(commandQueue) && written == old(written)
                                && currentAngle == old(currentAngle)
      ensures running == old(running) && connected == old(connected)
    {
      var i := 0;
      while running && commandQueue != []
        invariant 0 <= i <= |old(commandQueue)|
        invariant running == old(running) && connected == old(connected)
        invariant commandQueue == old(commandQueue)[i..]
        invariant !running ==> i == 0
        invariant written == old(written) + (if connected then Lines(old(commandQueue)[..i]) else [])
        invariant currentAngle == AfterSends(old(currentAngle), old(commandQueue)[..i], peers[..i], connected)
        decreases |commandQueue|
      {
        var angle := commandQueue[0];
        assert angle == old(commandQueue)[i];
        commandQueue := commandQueue[1..];
        var _ := SendCommand(IntToString(angle), peers[i]);
        WrittenStep(old(written), old(commandQueue), i, connected);
        AfterSendsStep(old(currentAngle), old(commandQueue), peers, connected, i);
        i := i + 1;
      }
      if running {
        assert old(commandQueue)[..i] == old(commandQueue);
        assert peers[..i] == peers;
      }
    }
  }
}
