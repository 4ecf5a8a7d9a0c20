/**
 * What both voice controllers share: the reaction of the recogniser thread
 * to one final transcript, and the line `f"{command}\n"` the dispatch loop
 * writes to the serial port for an integer angle.
 */
module Dispatch {
  import opened Wrappers
  import opened Text

  /** What one final transcript makes the recogniser thread do. */
  datatype Reaction =
    | Ignore          // blank transcript: `continue`
    | Stop            // "exit" or "quit": `self.running = False`
    | Enqueue(angle: int)
    | Reject          // nothing recognised: a message is printed

  /** The line `send_command` writes for a command: `f"{command}\n"`. */
  function Line(command: int): (l: string)
    ensures |l| >= 2 && l[|l| - 1] == '\n'
  {
    IntToString(command) + "\n"
  }

  /** The Arduino reading one line back recovers the command. */
  lemma LineRoundTrip(command: int)
    ensures '\n' !in Line(command)[..|Line(command)| - 1]
    ensures ParseInt(Line(command)[..|Line(command)| - 1]) == Some(command)
  {
    var l := Line(command);
    assert l[..|l| - 1] == IntToString(command);
    ParseIntToString(command);
  }

  /** The lines for a sequence of commands, in order. */
  function Lines(commands: seq<int>): (ls: seq<string>)
    ensures |ls| == |commands|
    ensures forall k :: 0 <= k < |commands| ==> ls[k] == Line(commands[k])
  {
    seq(|commands|, k requires 0 <= k < |commands| => Line(commands[k]))
  }

  lemma LinesAppend(a: seq<int>, b: seq<int>)
    ensures Lines(a + b) == Lines(a) + Lines(b)
  {
  }

  /** The lines for a queue prefix one command longer. */
  lemma LinesStep(cmds: seq<int>, i: int)
    requires 0 <= i < |cmds|
    ensures Lines(cmds[..i + 1]) == Lines(cmds[..i]) + [Line(cmds[i])]
  {
    assert cmds[..i + 1] == cmds[..i] + [cmds[i]];
    LinesAppend(cmds[..i], [cmds[i]]);
    assert Lines([cmds[i]]) == [Line(cmds[i])];
  }
}
