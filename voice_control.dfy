/**
 * The command bookkeeping of voice_control.py around the recogniser and the
 * serial port: what a final transcript does (`process_audio`), how the
 * queue is drained towards the Arduino (`listen`), and the connected check
 * of `send_command`.
 *
 * The recogniser thread and the dispatch loop share `running`,
 * `command_queue` and `current_angle`; here each loop is a method run on
 * its own, so the interleaving of the two threads is not modelled.
 */
module VoiceControl {
  import opened Wrappers
  import opened Text
  import opened AngleExtractor
  import opened Dispatch

  /** Degrees a "left" or "right" command turns the servo. */
  const Step := 15

  predicate InRange(a: int) { 0 <= a <= MaxAngle }

  function Max(a: int, b: int): int { if a >= b then a else b }

  /**
   * The decision on a final transcript, in the order of the source: blank,
   * exit/quit, left, right, then the angle extractor. Only the extractor
   * lower-cases; the keyword tests see the stripped text as heard.
   */
  function FinalTextReaction(raw: string, current: int): (r: Reaction)
    ensures r.Ignore? <==> forall k :: 0 <= k < |raw| ==> IsSpace(raw[k])
    ensures r.Reject? ==> ExtractNumber(Strip(raw)).None?
    ensures r.Enqueue? && InRange(current) ==> InRange(r.angle)
  {
    var text := Strip(raw);
    if text == [] then Ignore
    else if Contains(text, "exit") || Contains(text, "quit") then Stop
    else if Contains(text, "left") then Enqueue(Max(0, current - Step))
    else if Contains(text, "right") then Enqueue(Min(MaxAngle, current + Step))
    else
      match ExtractNumber(text)
      case None => Reject
      case Some(a) => Enqueue(a)
  }

  // ------------------------------------------------------------ decisions

  /** "exit" or "quit" anywhere stops the thread, whatever else was said. */
  lemma ExitFirst(raw: string, current: int)
    requires Contains(raw, "exit") || Contains(raw, "quit")
    ensures FinalTextReaction(raw, current) == Stop
  {
    StripKeepsContains(raw, "exit");
    StripKeepsContains(raw, "quit");
    assert Strip(raw) != [];
  }

  /** Without exit/quit, "left" turns left even when "right" or a number is said too. */
  lemma LeftBeforeRight(raw: string, current: int)
    requires !Contains(raw, "exit") && !Contains(raw, "quit") && Contains(raw, "left")
    ensures FinalTextReaction(raw, current) == Enqueue(Max(0, current - Step))
  {
    StripKeepsContains(raw, "exit");
    StripKeepsContains(raw, "quit");
    StripKeepsContains(raw, "left");
    assert Strip(raw) != [];
  }

  /** Without exit/quit/left, "right" turns right even when a number is said too. */
  lemma RightBeforeExtraction(raw: string, current: int)
    requires !Contains(raw, "exit") && !Contains(raw, "quit") && !Contains(raw, "left")
    requires Contains(raw, "right")
    ensures FinalTextReaction(raw, current) == Enqueue(Min(MaxAngle, current + Step))
  {
    StripKeepsContains(raw, "exit");
    StripKeepsContains(raw, "quit");
    StripKeepsContains(raw, "left");
    StripKeepsContains(raw, "right");
    assert Strip(raw) != [];
  }

  /** A keyword missing from the transcript is missing from its stripped form. */
  lemma AbsentAfterStrip(raw: string, pat: string)
    requires |pat| > 0 && !IsSpace(pat[0]) && !IsSpace(pat[|pat| - 1])
    requires !Contains(raw, pat)
    ensures !Contains(Strip(raw), pat)
  {
    StripKeepsContains(raw, pat);
  }

  /** A transcript that is not blank stays non-empty when stripped. */
  lemma NonBlankStrip(raw: string)
    requires exists k :: 0 <= k < |raw| && !IsSpace(raw[k])
    ensures Strip(raw) != []
  {
  }

  /** Stripping keeps the four keywords out. */
  lemma StrippedWithoutKeywords(raw: string)
    requires !Contains(raw, "exit") && !Contains(raw, "quit")
    requires !Contains(raw, "left") && !Contains(raw, "right")
    ensures !Contains(Strip(raw), "exit") && !Contains(Strip(raw), "quit")
    ensures !Contains(Strip(raw), "left") && !Contains(Strip(raw), "right")
  {
    AbsentAfterStrip(raw, "exit");
    AbsentAfterStrip(raw, "quit");
    AbsentAfterStrip(raw, "left");
    AbsentAfterStrip(raw, "right");
  }

  /**
   * A transcript that is not blank (see `NonBlankStrip`) and holds none of
   * exit, quit, left and right is decided by the extractor alone, run on the
   * stripped text: its angle is queued, or the transcript is rejected.
   */
  lemma ExtractionDecides(raw: string, current: int)
    requires Strip(raw) != []
    requires !Contains(raw, "exit") && !Contains(raw, "quit")
    requires !Contains(raw, "left") && !Contains(raw, "right")
    ensures ExtractNumber(Strip(raw)).None? ==> FinalTextReaction(raw, current) == Reject
    ensures ExtractNumber(Strip(raw)).Some? ==>
      FinalTextReaction(raw, current) == Enqueue(ExtractNumber(Strip(raw)).value)
  {
    StripKeepsContains(raw, "exit");
    StripKeepsContains(raw, "quit");
    StripKeepsContains(raw, "left");
    StripKeepsContains(raw, "right");
  }

  /**
   * When a relative move lands in 0..180: a left move exactly when the
   * current angle is at most 195, a right move exactly when it is at least
   * -15 (the clamp catches every overshoot on the other side).
   */
  lemma RelativeMoveInRangeIff(current: int)
    ensures InRange(Max(0, current - Step)) <==> current <= MaxAngle + Step
    ensures InRange(Min(MaxAngle, current + Step)) <==> current >= -Step
  {
  }

  // ------------------------------------------------------------ transcript stream

  /** The reaction to each transcript of a stream, with the servo at `current`. */
  function Reactions(texts: seq<string>, current: int): (rs: seq<Reaction>)
    ensures |rs| == |texts|
  {
    if texts == [] then [] else [FinalTextReaction(texts[0], current)] + Reactions(texts[1..], current)
  }

  lemma {:induction false} ReactionAt(texts: seq<string>, current: int, k: int)
    requires 0 <= k < |texts|
    ensures Reactions(texts, current)[k] == FinalTextReaction(texts[k], current)
  {
    if k > 0 {
      ReactionAt(texts[1..], current, k - 1);
    }
  }

  /** Every angle a stream of reactions carries is a servo angle when the servo is at one. */
  lemma ReactionsInRange(texts: seq<string>, current: int)
    requires InRange(current)
    ensures forall k :: 0 <= k < |texts| && Reactions(texts, current)[k].Enqueue? ==>
              InRange(Reactions(texts, current)[k].angle)
  {
    forall k | 0 <= k < |texts| && Reactions(texts, current)[k].Enqueue?
      ensures InRange(Reactions(texts, current)[k].angle)
    {
      ReactionAt(texts, current, k);
    }
  }

  /** Reactions of a stream heard in two parts. */
  lemma {:induction false} ReactionsAppend(texts: seq<string>, more: seq<string>, current: int)
    ensures Reactions(texts + more, current) == Reactions(texts, current) + Reactions(more, current)
  {
    if texts == [] {
      assert texts + more == more;
    } else {
      assert (texts + more)[1..] == texts[1..] + more;
      assert (texts + more)[0] == texts[0];
      ReactionsAppend(texts[1..], more, current);
      var r := [FinalTextReaction(texts[0], current)];
      assert Reactions(texts + more, current) == r + Reactions(texts[1..] + more, current);
      assert r + (Reactions(texts[1..], current) + Reactions(more, current))
          == (r + Reactions(texts[1..], current)) + Reactions(more, current);
    }
  }

  /** The angles a sequence of reactions queues, up to the first `Stop`. */
  function Queued(rs: seq<Reaction>): seq<int>
  {
    if rs == [] then []
    else match rs[0]
      case Stop => []
      case Enqueue(a) => [a] + Queued(rs[1..])
      case _ => Queued(rs[1..])
  }

  predicate HasStop(rs: seq<Reaction>)
  {
    exists k :: 0 <= k < |rs| && rs[k].Stop?
  }

  /** The angles queued by a stream of final transcripts, up to the first exit/quit. */
  function Enqueued(texts: seq<string>, current: int): seq<int>
  {
    Queued(Reactions(texts, current))
  }

  /** Some transcript of the stream is an exit/quit. */
  predicate StopsIn(texts: seq<string>, current: int)
  {
    HasStop(Reactions(texts, current))
  }

  /** The reactions from index `i` on: the first one, then the rest. */
  lemma QueuedStep(rs: seq<Reaction>, i: int)
    requires 0 <= i < |rs|
    ensures Queued(rs[i..]) ==
      match rs[i]
      case Stop => []
      case Enqueue(a) => [a] + Queued(rs[i + 1..])
      case _ => Queued(rs[i + 1..])
    ensures HasStop(rs[i..]) <==> rs[i].Stop? || HasStop(rs[i + 1..])
  {
    assert rs[i..][1..] == rs[i + 1..];
    assert rs[i..][0] == rs[i];
    if HasStop(rs[i + 1..]) {
      var k :| 0 <= k < |rs[i + 1..]| && rs[i + 1..][k].Stop?;
      assert rs[i..][k + 1] == rs[i + 1..][k];
    }
    if HasStop(rs[i..]) && !rs[i].Stop? {
      var k :| 0 <= k < |rs[i..]| && rs[i..][k].Stop?;
      assert k > 0 && rs[i + 1..][k - 1] == rs[i..][k];
    }
  }

  /** Only `Enqueue` reactions queue anything, and each its own angle. */
  lemma {:induction false} QueuedFromEnqueues(rs: seq<Reaction>, P: int -> bool)
    requires forall k :: 0 <= k < |rs| && rs[k].Enqueue? ==> P(rs[k].angle)
    ensures forall k :: 0 <= k < |Queued(rs)| ==> P(Queued(rs)[k])
  {
    if rs != [] {
      assert forall k :: 0 <= k < |rs| - 1 ==> rs[1..][k] == rs[k + 1];
      QueuedFromEnqueues(rs[1..], P);
    }
  }

  /** Everything the recogniser queues is a servo angle when the servo is at one. */
  lemma EnqueuedInRange(texts: seq<string>, current: int)
    requires InRange(current)
    ensures forall k :: 0 <= k < |Enqueued(texts, current)| ==> InRange(Enqueued(texts, current)[k])
  {
    ReactionsInRange(texts, current);
    QueuedFromEnqueues(Reactions(texts, current), InRange);
  }

  /** Each transcript queues at most one angle. */
  lemma {:induction false} QueuedAtMostOneEach(rs: seq<Reaction>)
    ensures |Queued(rs)| <= |rs|
  {
    if rs != [] {
      QueuedAtMostOneEach(rs[1..]);
    }
  }

  /** Reactions after a `Stop` queue nothing. */
  lemma {:induction false} NothingAfterStop(rs: seq<Reaction>, more: seq<Reaction>)
    requires HasStop(rs)
    ensures Queued(rs + more) == Queued(rs)
  {
    assert (rs + more)[0] == rs[0];
    if !rs[0].Stop? {
      var k :| 0 <= k < |rs| && rs[k].Stop?;
      assert rs[1..][k - 1] == rs[k];
      assert (rs + more)[1..] == rs[1..] + more;
      NothingAfterStop(rs[1..], more);
    }
  }

  /** Transcripts heard after an exit/quit queue nothing. */
  lemma EnqueuedStopsAtExit(texts: seq<string>, more: seq<string>, current: int)
    requires StopsIn(texts, current)
    ensures Enqueued(texts + more, current) == Enqueued(texts, current)
  {
    ReactionsAppend(texts, more, current);
    NothingAfterStop(Reactions(texts, current), Reactions(more, current));
  }

  // ------------------------------------------------------------ the controller

  /**
   * `VoiceControl`'s mutable state. `written` is everything written to the
   * serial port so far; `connected` is whether `self.arduino` is an open port.
   */
  class Controller {
    var running: bool
    var commandQueue: seq<int>
    var currentAngle: int
    var connected: bool
    var written: seq<string>

    /** The servo and every queued command are at valid angles. */
    predicate Valid()
      reads this
    {
      InRange(currentAngle) && forall k :: 0 <= k < |commandQueue| ==> InRange(commandQueue[k])
    }

    /** `__init__`: not running, empty queue, servo assumed at 0. */
    constructor (connected: bool)
      ensures !running && commandQueue == [] && currentAngle == 0
      ensures this.connected == connected && written == []
      ensures Valid()
    {
      running := false;
      commandQueue := [];
      currentAngle := 0;
      this.connected := connected;
      written := [];
    }

    /** `send_command`: refuses without a connection, otherwise writes one line. */
    method SendCommand(command: int) returns (ok: bool)
      modifies this
      ensures ok == connected
      ensures written == if connected then old(written) + [Line(command)] else old(written)
      ensures running == old(running) && commandQueue == old(commandQueue)
      ensures currentAngle == old(currentAngle) && connected == old(connected)
    {
      if !connected {
        ok := false;
      } else {
        written := written + [Line(command)];
        ok := true;
      }
    }

    /** The effect of one reaction: `Stop` clears `running`, `Enqueue` puts its angle on the queue. */
    method Apply(reaction: Reaction)
      modifies this
      requires Valid() && (reaction.Enqueue? ==> InRange(reaction.angle))
      ensures Valid()
      ensures running == (old(running) && !reaction.Stop?)
      ensures commandQueue == old(commandQueue) + match reaction case Enqueue(a) => [a] case _ => []
      ensures currentAngle == old(currentAngle) && connected == old(connected) && written == old(written)
    {
      match reaction {
        case Stop => running := false;
        case Enqueue(a) => commandQueue := commandQueue + [a];
        case Ignore =>
        case Reject =>
      }
    }

    /** One final transcript in `process_audio`. */
    method HandleFinalText(raw: string)
      modifies this
      requires Valid()
      ensures Valid()
      ensures running == (old(running) && !FinalTextReaction(raw, old(currentAngle)).Stop?)
      ensures commandQueue == old(commandQueue) +
        match FinalTextReaction(raw, old(currentAngle)) case Enqueue(a) => [a] case _ => []
      ensures currentAngle == old(currentAngle) && connected == old(connected) && written == old(written)
    {
      Apply(FinalTextReaction(raw, currentAngle));
    }

    /**
     * The `while self.running` loop of `process_audio` over the reactions to
     * the final transcripts, in order: it ends at the first `Stop` and
     * queues exactly the angles `Queued` gives.
     */
    method ProcessReactions(rs: seq<Reaction>)
      modifies this
      requires Valid()
      requires forall k :: 0 <= k < |rs| && rs[k].Enqueue? ==> InRange(rs[k].angle)
      ensures Valid()
      ensures old(running) ==> commandQueue == old(commandQueue) + Queued(rs)
      ensures old(running) ==> running == !HasStop(rs)
      ensures !old(running) ==> !running && commandQueue == old(commandQueue)
      ensures currentAngle == old(currentAngle) && connected == old(connected) && written == old(written)
    {
      var i := 0;
      assert rs[0..] == rs;
      while running && i < |rs|
        invariant 0 <= i <= |rs|
        invariant Valid() && currentAngle == old(currentAngle)
        invariant connected == old(connected) && written == old(written)
        invariant !old(running) ==> !running && commandQueue == old(commandQueue)
        invariant old(running) && running ==>
          commandQueue + Queued(rs[i..]) == old(commandQueue) + Queued(rs)
        invariant old(running) && !running ==> commandQueue == old(commandQueue) + Queued(rs)
        invariant old(running) ==> (HasStop(rs) <==> !running || HasStop(rs[i..]))
      {
        QueuedStep(rs, i);
        Apply(rs[i]);
        i := i + 1;
      }
      if running {
        assert rs[i..] == [];
      }
    }

    /**
     * `process_audio` over the final transcripts the recogniser produces, in
     * order. The servo angle does not change in this thread, so the reaction
     * to every transcript is the one `Reactions` gives at the current angle.
     */
    method ProcessTranscripts(texts: seq<string>)
      modifies this
      requires Valid()
      ensures Valid()
      ensures old(running) ==> commandQueue == old(commandQueue) + Enqueued(texts, old(currentAngle))
      ensures old(running) ==> running == !StopsIn(texts, old(currentAngle))
      ensures !old(running) ==> !running && commandQueue == old(commandQueue)
      ensures currentAngle == old(currentAngle) && connected == old(connected) && written == old(written)
    {
      ReactionsInRange(texts, currentAngle);
      ProcessReactions(Reactions(texts, currentAngle));
    }

    /**
     * The dispatch loop of `listen` over the commands queued so far: each is
     * taken in FIFO order, sent, and becomes `current_angle` whether or not
     * the send succeeded.
     */
    method Drain()
      modifies this
      requires Valid()
      ensures Valid()
      ensures old(running) ==> commandQueue == []
      ensures old(running) ==> written == old(written) + (if connected then Lines(old(commandQueue)) else [])
      ensures old(running) ==>
        currentAngle == if old(commandQueue) == [] then old(currentAngle)
                        else old(commandQueue)[|old(commandQueue)| - 1]
      ensures !old(running) ==> commandQueue == old(commandQueue) && written == old(written)
                                && currentAngle == old(currentAngle)
      ensures running == old(running) && connected == old(connected)
    {
      var i := 0;
      while running && commandQueue != []
        invariant 0 <= i <= |old(commandQueue)|
        invariant Valid()
        invariant running == old(running) && connected == old(connected)
        invariant commandQueue == old(commandQueue)[i..]
        invariant !running ==> i == 0
        invariant written == old(written) + (if connected then Lines(old(commandQueue)[..i]) else [])
        invariant currentAngle == if i == 0 then old(currentAngle) else old(commandQueue)[i - 1]
        decreases |commandQueue|
      {
        var command := commandQueue[0];
        assert command == old(commandQueue)[i];
        commandQueue := commandQueue[1..];
        var _ := SendCommand(command);
        currentAngle := command;
        LinesStep(old(commandQueue), i);
        i := i + 1;
      }
      if running {
        assert old(commandQueue)[..i] == old(commandQueue);
      }
    }
  }
}
