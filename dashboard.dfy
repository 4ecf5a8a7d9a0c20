/**
 * dashboard.py: the web dashboard for the servo. Voice transcripts are
 * turned into button presses on a queue; each run of the `update_servo`
 * callback takes at most one of them (it overrides the control that fired
 * the callback), maps the button to a line for the Arduino ("open",
 * "close" or "set N"), keeps a newest-first history of the last ten
 * successful sends, and moves the gauge.
 *
 * The serial link is abstract: for each exchange it is disconnected,
 * answers with a line, or raises on the write or on the read. The clock is
 * a parameter (the history entry's time stamp).
 */
module Dashboard {
  import opened Wrappers
  import opened Text

  // ------------------------------------------------------------ microphone choice

  /** What `get_device_info_by_index` reports that the choice looks at. */
  datatype Device = Device(name: string, maxInputChannels: int)

  /** An input device whose lower-cased name mentions a microphone. */
  predicate Suitable(d: Device)
  {
    d.maxInputChannels > 0 && Contains(Lower(d.name), "microphone")
  }

  /**
   * The device loop of `process_audio`: the first suitable device, or
   * `None` (the default input device is then used).
   */
  method SelectInputDevice(devices: seq<Device>) returns (r: Option<nat>)
    ensures r.Some? ==> r.value < |devices| && Suitable(devices[r.value])
    ensures r.Some? ==> forall k :: 0 <= k < r.value ==> !Suitable(devices[k])
    ensures r.None? <==> forall k :: 0 <= k < |devices| ==> !Suitable(devices[k])
  {
    r := None;
    for i := 0 to |devices|
      invariant forall k :: 0 <= k < i ==> !Suitable(devices[k])
    {
      if devices[i].maxInputChannels > 0 && Contains(Lower(devices[i].name), "microphone") {
        return Some(i);
      }
    }
  }

  // ------------------------------------------------------------ voice

  /** An entry of `command_queue`: `(cmd_type, cmd)`. */
  datatype QueueItem = QueueItem(kind: string, name: string)

  const OpenPress := QueueItem("button", "open")
  const ClosePress := QueueItem("button", "close")

  /**
   * A final transcript: a non-empty one mentioning "open" presses open,
   * otherwise one mentioning "close" or "shut" presses close.
   */
  function ClassifyVoice(text: string): (r: Option<QueueItem>)
    ensures r.Some? ==> text != [] && (r.value == OpenPress || r.value == ClosePress)
  {
    if text == [] then None
    else
      var command := Lower(text);
      if Contains(command, "open") then Some(OpenPress)
      else if Contains(command, "close") || Contains(command, "shut") then Some(ClosePress)
      else None
  }

  /** Open wins over close, and the two keywords are looked for in any case. */
  lemma ClassifyVoiceIff(text: string)
    ensures ClassifyVoice(text) == Some(OpenPress) <==> text != [] && Contains(Lower(text), "open")
    ensures ClassifyVoice(text) == Some(ClosePress) <==>
      text != [] && !Contains(Lower(text), "open")
      && (Contains(Lower(text), "close") || Contains(Lower(text), "shut"))
    ensures ClassifyVoice(text).None? <==>
      text == [] || (!Contains(Lower(text), "open") && !Contains(Lower(text), "close")
                     && !Contains(Lower(text), "shut"))
  {
  }

  // ------------------------------------------------------------ buttons and commands

  /**
   * The control that counts: a queued button press (`f"{cmd}-btn"`) over
   * whatever fired the callback; `None` when neither is there.
   */
  function ResolveButton(queue: seq<QueueItem>, trigger: Option<string>): (b: Option<string>)
    ensures queue != [] && queue[0].kind == "button" ==> b == Some(queue[0].name + "-btn")
    ensures (queue == [] || queue[0].kind != "button") ==> b == trigger
  {
    if queue != [] && queue[0].kind == "button" then Some(queue[0].name + "-btn") else trigger
  }

  /** What a queued button press means is the same whichever control fired the callback. */
  lemma QueueOverridesTrigger(queue: seq<QueueItem>, t1: Option<string>, t2: Option<string>)
    requires queue != [] && queue[0].kind == "button"
    ensures ResolveButton(queue, t1) == ResolveButton(queue, t2)
  {
  }

  /** The line for a button; `None` for an id the callback does not know. */
  function CommandFor(button: string, slider: int): (c: Option<string>)
    ensures c.Some? <==> button in {"open-btn", "close-btn", "set-angle-btn"}
  {
    if button == "open-btn" then Some("open")
    else if button == "close-btn" then Some("close")
    else if button == "set-angle-btn" then Some("set " + IntToString(slider))
    else None
  }

  /**
   * The gauge after a command: "open" is 0, "close" is 90, a command
   * starting with "set" is `int(command.split()[1])` (`None` where that
   * raises), anything else leaves the slider value.
   */
  function GaugeAngle(command: string, slider: int): (g: Option<int>)
    ensures command == "open" ==> g == Some(0)
    ensures command == "close" ==> g == Some(90)
    ensures command != "open" && command != "close" && !StartsWith(command, "set") ==> g == Some(slider)
    ensures g.None? ==> StartsWith(command, "set")
  {
    if command == "open" then Some(0)
    else if command == "close" then Some(90)
    else if StartsWith(command, "set") then
      var ws := Words(command);
      if |ws| < 2 then None else ParseInt(ws[1])
    else Some(slider)
  }

  /** A `set N` command, as the set button writes it, draws the gauge at `N`. */
  lemma GaugeOfSet(n: int, slider: int)
    ensures GaugeAngle("set " + IntToString(n), slider) == Some(n)
  {
    var c := "set " + IntToString(n);
    assert c != "open" && c != "close" by { assert c[0] == 's'; }
    assert StartsWith(c, "set") by { StartsWithIff(c, "set"); assert c[..3] == "set"; }
    NoSpaceInIntToString(n);
    WordsOfTwo("set", IntToString(n));
    assert c == "set" + " " + IntToString(n);
    ParseIntToString(n);
  }

  /** The gauge can always be drawn for a known button, at 0, 90 or the slider's angle. */
  lemma GaugeOfButton(button: string, slider: int)
    requires CommandFor(button, slider).Some?
    ensures GaugeAngle(CommandFor(button, slider).value, slider) ==
      Some(if button == "open-btn" then 0 else if button == "close-btn" then 90 else slider)
  {
    if button == "set-angle-btn" {
      GaugeOfSet(slider, slider);
    }
  }

  /** A decimal rendering has no white space. */
  lemma NoSpaceInIntToString(i: int)
    ensures NoSpace(IntToString(i))
  {
    var s := IntToString(i);
    forall k | 0 <= k < |s| ensures !IsSpace(s[k]) {
      assert IsDigit(s[k]) || s[k] == '-';
    }
  }

  /** With the slider in its 0..180 range the gauge stays in that range. */
  lemma GaugeInSliderRange(button: string, slider: int)
    requires 0 <= slider <= 180 && CommandFor(button, slider).Some?
    ensures var g := GaugeAngle(CommandFor(button, slider).value, slider); g.Some? && 0 <= g.value <= 180
  {
    GaugeOfButton(button, slider);
  }

  // ------------------------------------------------------------ serial link

  /** One exchange with the Arduino. */
  datatype Link =
    | Disconnected              // `arduino` is None or not open
    | Answers(reply: string)    // the line read back, empty when `readline` times out
    | WriteFails(error: string) // `write` raises
    | ReadFails(error: string)  // the write went out, `readline` or `decode` raises

  /**
   * `send_command`'s result: success and the trimmed reply once the line
   * went out and a read returned, or failure and the exception's message.
   */
  function SendResult(link: Link): (r: (bool, string))
    ensures r.0 <==> link.Answers?
    ensures link.Answers? ==> r == (true, Strip(link.reply))
    ensures link.WriteFails? || link.ReadFails? ==> r == (false, link.error)
    ensures link.Disconnected? ==> r == (false, "Not connected to Arduino")
  {
    match link
    case Disconnected => (false, "Not connected to Arduino")
    case Answers(reply) => (true, Strip(reply))
    case WriteFails(e) => (false, e)
    case ReadFails(e) => (false, e)
  }

  /**
   * The port is opened with a one-second read time-out, so an Arduino that
   * never answers makes `readline` return nothing: the send still counts as
   * a success, with an empty response, and goes into the history.
   */
  lemma SilentArduinoIsSuccess(stored: seq<Entry>, time: string, command: string)
    ensures SendResult(Answers("")) == (true, "")
    ensures NextHistory(stored, Entry(time, command, SendResult(Answers("")).1))[0]
            == Entry(time, command, "")
  {
    assert Strip("") == "";
  }

  /** The write reaches the port unless there is no connection or the write itself raises. */
  predicate Writes(link: Link)
  {
    link.Answers? || link.ReadFails?
  }

  // ------------------------------------------------------------ history

  /** One entry of `command-store`. */
  datatype Entry = Entry(time: string, command: string, response: string)

  /** `[new_command] + stored_commands[:9]`. */
  function NextHistory(stored: seq<Entry>, e: Entry): (h: seq<Entry>)
    ensures |h| == Min(|stored| + 1, 10)
    ensures h[0] == e
    ensures forall k :: 1 <= k < |h| ==> h[k] == stored[k - 1]
  {
    [e] + stored[..Min(|stored|, 9)]
  }

  /** The history after successful sends `es`, oldest first, starting from `stored`. */
  function HistoryAfter(stored: seq<Entry>, es: seq<Entry>): seq<Entry>
  {
    if es == [] then stored else NextHistory(HistoryAfter(stored, es[..|es| - 1]), es[|es| - 1])
  }

  /**
   * From an empty store, the history is the last (at most) ten successful
   * sends, newest first.
   */
  lemma {:induction false} HistoryIsNewestTen(es: seq<Entry>)
    ensures var h := HistoryAfter([], es);
      |h| == Min(|es|, 10) && forall k :: 0 <= k < |h| ==> h[k] == es[|es| - 1 - k]
  {
    if es != [] {
      var n := |es| - 1;
      HistoryIsNewestTen(es[..n]);
      var h := HistoryAfter([], es);
      var prev := HistoryAfter([], es[..n]);
      assert h == NextHistory(prev, es[n]);
      forall k | 1 <= k < |h| ensures h[k] == es[|es| - 1 - k] {
        assert h[k] == prev[k - 1];
        assert prev[k - 1] == es[..n][n - 1 - (k - 1)];
      }
    }
  }

  // ------------------------------------------------------------ the dashboard state

  /** The module-level state the callbacks share: the queue and what was written to the port. */
  class Dash {
    var commandQueue: seq<QueueItem>
    var written: seq<string>

    constructor ()
      ensures commandQueue == [] && written == []
    {
      commandQueue := [];
      written := [];
    }

    /** One final transcript in `process_audio`. */
    method HandleFinalText(text: string)
      modifies this
      ensures commandQueue == old(commandQueue) + match ClassifyVoice(text) case Some(i) => [i] case None => []
      ensures written == old(written)
    {
      match ClassifyVoice(text) {
        case Some(item) => commandQueue := commandQueue + [item];
        case None =>
      }
    }

    /** `send_command(command)` over one exchange. */
    method SendCommand(command: string, link: Link) returns (ok: bool, response: string)
      modifies this
      ensures (ok, response) == SendResult(link)
      ensures written == old(written) + if Writes(link) then [command + "\n"] else []
      ensures commandQueue == old(commandQueue)
    {
      match link {
        case Disconnected =>
          return false, "Not connected to Arduino";
        case WriteFails(e) =>
          return false, e;
        case ReadFails(e) =>
          written := written + [command + "\n"];
          return false, e;
        case Answers(reply) =>
          written := written + [command + "\n"];
          return true, Strip(reply);
      }
    }

    /**
     * `update_servo`: take at most one queued item, resolve the button,
     * send its line, record a successful send in the history, and return
     * the gauge angle with the new store. An unknown or missing button
     * gives the gauge 90 and leaves the store and the port alone.
     */
    method UpdateServo(trigger: Option<string>, stored: seq<Entry>, slider: int, time: string, link: Link)
      returns (gauge: int, newStored: seq<Entry>)
      modifies this
      ensures commandQueue == if old(commandQueue) == [] then [] else old(commandQueue)[1..]
      ensures var b := ResolveButton(old(commandQueue), trigger);
        var c := if b.Some? then CommandFor(b.value, slider) else None;
        && (c.None? ==> gauge == 90 && newStored == stored && written == old(written))
        && (c.Some? ==>
              && written == old(written) + (if Writes(link) then [c.value + "\n"] else [])
              && GaugeAngle(c.value, slider) == Some(gauge)
              && newStored == if SendResult(link).0 then NextHistory(stored, Entry(time, c.value, SendResult(link).1))
                              else stored)
    {
      ghost var queue := commandQueue;
      var button: Option<string> := None;
      if commandQueue != [] {
        var item := commandQueue[0];
        commandQueue := commandQueue[1..];
        if item.kind == "button" {
          button := Some(item.name + "-btn");
        }
      }
      if button.None? {
        if trigger.None? {
          return 90, stored;
        }
        button := trigger;
      }
      assert button == ResolveButton(queue, trigger);
      var command: string;
      if button.value == "open-btn" {
        command := "open";
      } else if button.value == "close-btn" {
        command := "close";
      } else if button.value == "set-angle-btn" {
        command := "set " + IntToString(slider);
      } else {
        return 90, stored;
      }
      var ok, response := SendCommand(command, link);
      newStored := if ok then NextHistory(stored, Entry(time, command, response)) else stored;
      GaugeOfButton(button.value, slider);
      gauge := GaugeAngle(command, slider).value;
    }

    /**
     * A final transcript heard while the queue is empty, then one run of
     * `update_servo`: a spoken open or close decides the line written, the
     * gauge and the history entry, whatever control fired the callback.
     */
    method HearThenUpdate(text: string, trigger: Option<string>, stored: seq<Entry>, slider: int,
                          time: string, link: Link)
      returns (gauge: int, newStored: seq<Entry>)
      modifies this
      requires commandQueue == []
      ensures commandQueue == []
      ensures ClassifyVoice(text).Some? ==>
        var line := if ClassifyVoice(text) == Some(OpenPress) then "open" else "close";
        && written == old(written) + (if Writes(link) then [line + "\n"] else [])
        && gauge == (if ClassifyVoice(text) == Some(OpenPress) then 0 else 90)
        && newStored == if SendResult(link).0 then NextHistory(stored, Entry(time, line, SendResult(link).1))
                        else stored
      ensures ClassifyVoice(text).None? && trigger.None? ==>
        gauge == 90 && newStored == stored && written == old(written)
    {
      HandleFinalText(text);
      assert "open" + "-btn" == "open-btn" && "close" + "-btn" == "close-btn";
      gauge, newStored := UpdateServo(trigger, stored, slider, time, link);
    }
  }

  /**
   * A non-empty transcript mentioning "open" (in any case) queues the open
   * press; once it is at the head of the queue the callback sends "open" and
   * draws the gauge at 0, whatever control fired it.
   */
  lemma VoiceOpenOpens(text: string, rest: seq<QueueItem>, trigger: Option<string>, slider: int)
    requires text != [] && Contains(Lower(text), "open")
    ensures ClassifyVoice(text) == Some(OpenPress)
    ensures var b := ResolveButton([ClassifyVoice(text).value] + rest, trigger);
      b == Some("open-btn") && CommandFor(b.value, slider) == Some("open")
      && GaugeAngle(CommandFor(b.value, slider).value, slider) == Some(0)
  {
    ClassifyVoiceIff(text);
    assert "open" + "-btn" == "open-btn";
  }

  /**
   * A non-empty transcript mentioning "close" or "shut" but not "open"
   * queues the close press, which sends "close" and draws the gauge at 90.
   */
  lemma VoiceCloseCloses(text: string, rest: seq<QueueItem>, trigger: Option<string>, slider: int)
    requires text != [] && !Contains(Lower(text), "open")
    requires Contains(Lower(text), "close") || Contains(Lower(text), "shut")
    ensures ClassifyVoice(text) == Some(ClosePress)
    ensures var b := ResolveButton([ClassifyVoice(text).value] + rest, trigger);
      b == Some("close-btn") && CommandFor(b.value, slider) == Some("close")
      && GaugeAngle(CommandFor(b.value, slider).value, slider) == Some(90)
  {
    ClassifyVoiceIff(text);
    assert "close" + "-btn" == "close-btn";
  }
}
