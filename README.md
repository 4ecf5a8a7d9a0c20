# Voice-controlled hand: a Dafny model

Voice_controlled_hand drives a servo claw on an Arduino from spoken
commands. A Vosk recogniser turns microphone audio into text, and the
text becomes an angle. The angle is written to the Arduino's serial port
as one line per command. This project models the decision logic and the
state that the Python programs keep around the recogniser and the port.
It proves what that logic does for every input.

- `text.dfy` (modules `Wrappers` and `Text`) holds the string operations
  the programs rely on: `str.lower`, `str.strip`, `in` on strings,
  `\b` word boundaries, `str.split`, `\d+` runs, and `int`/`str` on
  decimal integers.
- `angle_extractor.dfy` (`AngleExtractor`) models `extract_number` of
  voice_control.py. Its tables are in dictionary order: the `COMMANDS`
  keys first, then the `NUMBER_PATTERNS` patterns, then the first run of
  digits, capped at 180.
- `extractor_examples.dfy` (`ExtractorExamples`) gives concrete
  transcripts and the angle each one yields.
- `dispatch.dfy` (`Dispatch`) holds what both voice controllers share:
  the reaction to one final transcript and the serial line written for
  an angle.
- `voice_control.dfy` (`VoiceControl`) models what a final transcript
  does in `process_audio`: blank, then exit/quit, then left, then right,
  then the extractor. It models the stream of transcripts up to the first
  exit. Its class `Controller` holds the `running` flag, the
  `command_queue`, `current_angle` and the lines written to the port. The
  dispatch loop of `listen` is a method of it.
- `voice_control_fixed.dfy` (`VoiceControlFixed`) models voice_control_fixed.py:
  - the open/close classifier `process_command`;
  - `send_command`, which waits for the Arduino's answer;
  - the `FixedController`, whose `current_angle` changes only on an
    acknowledged send.
- `dashboard.dfy` (`Dashboard`) models dashboard.py:
  - the choice of microphone;
  - how the voice thread turns transcripts into button presses;
  - the `update_servo` callback: the button, the command line, the gauge
    angle and the newest-first history of ten entries;
  - `send_command` over an abstract serial link.
- `mic_test.dfy` (`MicTest`) models the level meter of test_all_mics.py.
  It decodes little-endian signed 16-bit samples, takes the largest
  absolute value, and stops at a buffer with no complete sample.

The recogniser, the audio streams and the serial port are parameters:
- a sequence of final transcripts;
- a sequence of byte buffers;
- for each exchange, what the Arduino answers: `Peer` in the fixed
  controller, `Link` in the dashboard.

Behaviour of the code worth noting:
- In voice_control.py "set it to 45 degrees" yields 2: in
  `NUMBER_PATTERNS` the pattern for 2 (which holds "to") is tried before
  any digit is read (`ExtractorExamples.ExampleSetItTo45`).
- In voice_control.py "close" and "shut" command 90. The fixed controller
  closes to 180, and the dashboard draws its gauge at 90 for "close".
- The command queues are Python's unbounded `queue.Queue`: nothing is
  ever evicted.
- voice_control.py sets `current_angle` to each dispatched command
  whether or not the send succeeded. Only the fixed controller makes its
  state depend on the Arduino's answer. The dashboard reads one reply
  line, but a read time-out still counts as success.
- No send is retried. A failed send is dropped.
- The dashboard logs a send as successful even when the Arduino stays
  silent: `readline` times out and returns an empty line
  (`Dashboard.SilentArduinoIsSuccess`).

## Model

| member | source | states |
|---|---|---|
| Text.StripKeepsContains | voice_control.py:167-178 | stripping white space neither creates nor removes an occurrence of a keyword that does not begin or end with white space |
| Text.ParseIntToString | dashboard.py:485 | `int(str(i)) == i` for every integer |
| Text.WordsOfTwo | dashboard.py:485 | `split()` of two space-free words joined by one space gives exactly those two words |
| AngleExtractor.ExtractNumber | voice_control.py:126-146 | the extracted angle, when there is one, lies between 0 and 180 |
| AngleExtractor.CommandValuesInRange | voice_control.py:30-40 | every `COMMANDS` angle is a servo angle |
| AngleExtractor.PatternValuesInRange | voice_control.py:43-66 | every `NUMBER_PATTERNS` number is a servo angle |
| AngleExtractor.DigitAngle | voice_control.py:142-146 | the digit fallback yields nothing exactly when the text has no digit, else a value in 0..180 |
| AngleExtractor.ExtractCaseInsensitive | voice_control.py:129 | lower-casing the transcript first does not change the result |
| AngleExtractor.MatchCommandFrom | voice_control.py:132-134 | the `COMMANDS` loop from entry `i` on gives nothing exactly when no later key is contained in the text, and otherwise the angle of the first contained key from `i` on |
| AngleExtractor.MatchPatternFrom | voice_control.py:137-139 | the `NUMBER_PATTERNS` loop from entry `i` on gives nothing exactly when no later pattern matches a whole word, and otherwise the number of the first matching pattern from `i` on |
| AngleExtractor.ExtractCommandWins | voice_control.py:132-134 | when a command key occurs, the first such key in table order decides, whatever patterns or digits are present |
| AngleExtractor.ExtractPatternWins | voice_control.py:137-139 | with no command key present, the first matching number pattern decides |
| AngleExtractor.DigitAngleAt | voice_control.py:142-144 | the digit fallback reads the leftmost maximal digit run and caps it at 180 |
| AngleExtractor.ExtractDigitsFallback | voice_control.py:142-144 | with no key, no pattern and some digit, the result is `min(int(first run), 180)` for the first run of digits of the text as heard |
| AngleExtractor.ExtractIsCaseFreeDigitAngle | voice_control.py:129-144 | when neither table matches, the result is the digit fallback on the text as heard |
| AngleExtractor.DigitAngleIgnoresCase | voice_control.py:129-142 | the digit fallback gives the same result on the text and on its lower-cased form |
| AngleExtractor.SameDigitsSameAngle | voice_control.py:142-144 | two texts with the same digits in the same places give the same digit fallback |
| AngleExtractor.StagesFailIff | voice_control.py:132-146 | for any tables, both table searches fail exactly when no key is contained and no pattern matches |
| AngleExtractor.ExtractNoneIff | voice_control.py:132-146 | the result is `None` exactly when no key occurs, no pattern matches and the text has no digit |
| ExtractorExamples.ExampleOpenDoor | voice_control.py:129-134 | "please open the door" commands 0 |
| ExtractorExamples.ExampleGoNinety | voice_control.py:129-134 | "go ninety" commands 90 through the command table |
| ExtractorExamples.ExampleOneHundred | voice_control.py:137-139 | "one hundred" yields 1: the pattern for 1 matches "one" before the pattern for 100 is tried |
| ExtractorExamples.ExampleSetItTo45 | voice_control.py:137-139 | "set it to 45 degrees" yields 2: the pattern for 2 matches "to" before any digit is read |
| ExtractorExamples.ExampleDigitsCapped | voice_control.py:142-144 | the digit fallback on "go 200 now" is capped at 180 |
| ExtractorExamples.OneHundredPatternShadowed | voice_control.py:63-64 | the "one hundred" pattern is never the first to match: "one" or "hundred" always matches earlier in the table |
| VoiceControl.FinalTextReaction | voice_control.py:167-196 | a transcript is ignored exactly when it is blank; a rejection means the extractor found nothing; a queued angle is a servo angle when the servo is at one |
| VoiceControl.ExitFirst | voice_control.py:175-178 | "exit" or "quit" anywhere stops the thread, whatever else was said |
| VoiceControl.LeftBeforeRight | voice_control.py:181-184 | without exit/quit, "left" queues `max(0, current - 15)` even when "right" or a number is said too |
| VoiceControl.RightBeforeExtraction | voice_control.py:186-189 | without exit/quit/left, "right" queues `min(180, current + 15)` even when a number is said too |
| VoiceControl.NonBlankStrip | voice_control.py:167-170 | a transcript with a non-space character is not blank after stripping |
| VoiceControl.StrippedWithoutKeywords | voice_control.py:167-189 | a transcript without the four keywords has none of them once stripped |
| VoiceControl.ExtractionDecides | voice_control.py:167-196 | a non-blank transcript in which none of exit, quit, left and right occurs queues the extractor's angle for its stripped text, or is rejected when there is none |
| VoiceControl.RelativeMoveInRangeIff | voice_control.py:180-189 | a left move `max(0, current - 15)` lands in 0..180 exactly when `current <= 195`; a right move `min(180, current + 15)` exactly when `current >= -15` |
| VoiceControl.ReactionsInRange | voice_control.py:161-196 | every angle a stream of transcripts would queue is a servo angle when the servo is at one |
| VoiceControl.ReactionsAppend | voice_control.py:161-196 | the reactions to two parts of a stream, one after the other, are the reactions to the whole |
| VoiceControl.QueuedStep | voice_control.py:174-196 | from a given transcript on, the queued angles are that transcript's own angle followed by those of the rest, and nothing from a stop on |
| VoiceControl.EnqueuedInRange | voice_control.py:161-196 | everything the recogniser thread queues is a servo angle |
| VoiceControl.QueuedAtMostOneEach | voice_control.py:174-194 | each transcript queues at most one angle |
| VoiceControl.NothingAfterStop | voice_control.py:174-178 | reactions after a stop queue nothing |
| VoiceControl.EnqueuedStopsAtExit | voice_control.py:161-178 | transcripts heard after an exit/quit queue nothing |
| Dispatch.Line | voice_control.py:119 | the line written for a command is at least two characters long and ends in a newline |
| Dispatch.LineRoundTrip | voice_control.py:119-120 | the line written for a command ends in its only newline, and reading the digits before it gives the command back |
| Dispatch.LinesAppend | voice_control.py:214-218 | the lines for two runs of commands are the lines of the first run followed by those of the second |
| VoiceControl.Controller.constructor | voice_control.py:72-74 | not running, empty queue, angle 0 |
| VoiceControl.Controller.SendCommand | voice_control.py:112-124 | without a connection nothing is written and the result is false; otherwise exactly one line is written and the result is true |
| VoiceControl.Controller.Apply | voice_control.py:175-194 | a stop clears `running`, a queued angle goes on the end of the queue, and the servo range invariant is kept |
| VoiceControl.Controller.HandleFinalText | voice_control.py:165-196 | one final transcript changes `running` and the queue exactly as its reaction says |
| VoiceControl.Controller.ProcessReactions | voice_control.py:161-196 | the loop queues exactly the angles before the first stop, and `running` ends false exactly when a stop was heard |
| VoiceControl.Controller.ProcessTranscripts | voice_control.py:161-196 | over a stream of transcripts the queue grows by `Enqueued` and the thread stops exactly when an exit/quit is heard |
| VoiceControl.Controller.Drain | voice_control.py:214-219 | the queue is emptied in FIFO order, one line per command is written when connected, and `current_angle` ends at the last command whether or not it was sent |
| VoiceControlFixed.ProcessCommand | voice_control_fixed.py:104-118 | the classifier yields only 0, 180 or nothing |
| VoiceControlFixed.StripAnyIn | voice_control_fixed.py:106-116 | stripping does not change whether some keyword of a table occurs |
| VoiceControlFixed.ProcessCommandIff | voice_control_fixed.py:104-118 | 0 exactly when an open keyword occurs; 180 exactly when no open keyword and some close keyword occur; nothing exactly when neither occurs |
| VoiceControlFixed.OnOpens | voice_control_fixed.py:109-111 | any text containing "on" opens, whatever close keyword it holds |
| VoiceControlFixed.OneEightyEntryUnreachable | voice_control_fixed.py:104-118 | a text containing the close entry "one eighty" opens, so that entry never closes |
| VoiceControlFixed.ExampleOneEighty | voice_control_fixed.py:104-111 | "one eighty" yields 0 |
| VoiceControlFixed.ExampleDontClose | voice_control_fixed.py:104-111 | "don't close" yields 0 |
| VoiceControlFixed.ExampleClose | voice_control_fixed.py:104-116 | "Close" yields 180 |
| VoiceControlFixed.FixedReaction | voice_control_fixed.py:136-154 | a transcript is ignored exactly when it is blank; a queued angle is 0 or 180; a rejection means the classifier found nothing |
| VoiceControlFixed.FixedExitFirst | voice_control_fixed.py:144-147 | "exit" or "quit" stops the thread before any open or close keyword is looked at |
| VoiceControlFixed.FixedClassifierDecides | voice_control_fixed.py:150-154 | without exit/quit, a non-blank transcript queues exactly what `process_command` returns, or is rejected |
| VoiceControlFixed.AnswerDeadline | voice_control_fixed.py:88-93 | a reply counts exactly when it is waiting by poll 101 of the 10 ms polling loop |
| VoiceControlFixed.AfterSendsStep | voice_control_fixed.py:182-183 | one more send changes the angle to that command's text exactly when it is acknowledged |
| VoiceControlFixed.AfterSendsDisconnected | voice_control_fixed.py:77-79 | without a connection the angle never changes |
| VoiceControlFixed.AfterSendsIsAckedCommand | voice_control_fixed.py:178-187 | after a run of sends the angle is the start value or the text of an acknowledged command, and it is the last command's text when that one was acknowledged |
| VoiceControlFixed.AfterSendsUnacked | voice_control_fixed.py:89-102 | with nothing acknowledged the angle is where it was |
| VoiceControlFixed.FixedController.constructor | voice_control_fixed.py:38-40 | not running, empty queue, angle the integer 90 |
| VoiceControlFixed.FixedController.SendCommand | voice_control_fixed.py:75-102 | true exactly when connected, answered within the timeout and the answer decodes; the line is written whenever connected; the angle changes only on success |
| VoiceControlFixed.FixedController.HandleFinalText | voice_control_fixed.py:136-154 | one final transcript changes `running` and the queue as its reaction says, and the queue holds only 0 and 180 |
| VoiceControlFixed.FixedController.Drain | voice_control_fixed.py:178-187 | the queue is emptied in FIFO order, each `str(angle)` line is written when connected, and the angle ends as the last acknowledged command |
| Dashboard.SelectInputDevice | dashboard.py:73-79 | the first device with input channels whose name mentions "microphone", or none exactly when there is no such device |
| Dashboard.ClassifyVoice | dashboard.py:109-118 | only a non-empty transcript presses a button, and only open or close |
| Dashboard.ClassifyVoiceIff | dashboard.py:109-118 | open exactly when "open" occurs in any case; close exactly when "open" does not occur and "close" or "shut" does; nothing otherwise |
| Dashboard.ResolveButton | dashboard.py:406-425 | a queued button press decides the button; otherwise the control that fired the callback does |
| Dashboard.QueueOverridesTrigger | dashboard.py:406-425 | with a button press queued, the button does not depend on what fired the callback |
| Dashboard.CommandFor | dashboard.py:428-435 | a command line exists exactly for the three known buttons |
| Dashboard.GaugeAngle | dashboard.py:479-485 | "open" draws 0, "close" draws 90, a command not starting with "set" leaves the slider value; only a `set` command can fail to give an angle |
| Dashboard.GaugeOfSet | dashboard.py:484-485 | the command `set N` draws the gauge at `N` for every integer `N` |
| Dashboard.GaugeOfButton | dashboard.py:428-485 | for a known button the gauge is 0 for open, 90 for close, and the slider value for set; parsing the set line never fails |
| Dashboard.GaugeInSliderRange | dashboard.py:479-485 | with the slider in 0..180 the gauge stays in 0..180 |
| Dashboard.SendResult | dashboard.py:139-150 | success, with the stripped reply, exactly when the line went out and a read returned (an empty reply on a read time-out included); a raising write or read gives failure with the exception's message; without a connection, failure with "Not connected to Arduino" |
| Dashboard.SilentArduinoIsSuccess | dashboard.py:145-147 | an Arduino that never answers, so that `readline` times out, still gives `(True, "")`, and the history records that send with an empty response |
| Dashboard.NextHistory | dashboard.py:453-459 | the new entry is first, followed by the first nine stored entries, and at most ten are kept |
| Dashboard.HistoryIsNewestTen | dashboard.py:452-459 | from an empty store, the history holds the last ten successful sends at most, newest first |
| Dashboard.Dash.HandleFinalText | dashboard.py:107-118 | the queue grows by the button press the transcript makes, if any |
| Dashboard.Dash.SendCommand | dashboard.py:139-150 | the result is `SendResult`; the line reaches the port unless disconnected or the write raises |
| Dashboard.Dash.UpdateServo | dashboard.py:394-487 | at most one queued item is consumed; an unknown or missing button gives gauge 90 and leaves store and port alone; otherwise the line is sent, the history is updated only on success, and the gauge is what the command implies |
| Dashboard.VoiceOpenOpens | dashboard.py:109-429 | a non-empty transcript mentioning "open" in any case queues the open press, which at the head of the queue sends "open" and draws the gauge at 0 whatever fired the callback |
| Dashboard.VoiceCloseCloses | dashboard.py:109-431 | a non-empty transcript mentioning "close" or "shut" but not "open" queues the close press, which sends "close" and draws the gauge at 90 |
| Dashboard.Dash.HearThenUpdate | dashboard.py:107-487 | a transcript heard with an empty queue, then one callback run: a spoken open or close decides the line written, the gauge (0 or 90) and the history entry, whatever control fired the callback |
| MicTest.DecodeSample | test_all_mics.py:31 | a decoded sample lies in -32768..32767 and is negative exactly when the high byte's top bit is set |
| MicTest.DecodeEncode | test_all_mics.py:31 | decoding the two's-complement bytes of a 16-bit value gives the value back |
| MicTest.EncodeDecode | test_all_mics.py:31 | encoding a decoded byte pair gives the pair back |
| MicTest.Samples | test_all_mics.py:31-32 | one sample per complete byte pair, the k-th decoded from bytes 2k and 2k+1 |
| MicTest.SamplesIgnoreOddByte | test_all_mics.py:32 | a trailing odd byte changes nothing |
| MicTest.MaxAbs | test_all_mics.py:31 | the maximum bounds every absolute value and is one of them |
| MicTest.MaxAmplitude | test_all_mics.py:31-32 | no amplitude (the `max` of an empty generator raises) exactly when the buffer has fewer than two bytes; otherwise at most 32768 |
| MicTest.MaxAmplitudeIsMax | test_all_mics.py:31-32 | the amplitude bounds every complete sample's absolute value and is reached by one of them |
| MicTest.FullScale | test_all_mics.py:31 | the most negative sample reads 32768 |
| MicTest.ShownIsLongestPrefix | test_all_mics.py:26-39 | the meter shows one amplitude for each buffer of the longest prefix of buffers holding a complete sample, and stops at the first one without |
| MicTest.TestLoop | test_all_mics.py:26-39 | the loop shows exactly the amplitudes `Shown` describes |

## Left out

- The audio streams, the Vosk model and its recogniser are left out because they are foreign code. The model starts from the final transcripts (and, for the meter, the byte buffers) they produce.
- Partial results and every `print` are left out: they only print.
- Threads are left out: the recogniser thread and the dispatch loop share `running`, `command_queue` and `current_angle`, but each loop is modelled as a method run on its own over a finite input, so their interleaving is not captured.
- Clocks and sleeps are left out. In the fixed `send_command`, time is counted in 10 ms polls. In the mic test, the five-second window is the number of buffers passed in. The dashboard's time stamp is a parameter.
- `queue.Empty` timeouts and `KeyboardInterrupt` are left out. The mic test's `except Exception: break` (test_all_mics.py:37-39) is modelled: `MicTest.Shown` and `MicTest.TestLoop` stop at the first buffer without a complete sample. The other generic `except Exception` branches are left out, because no exception is modelled there. Each of them prints a message. In voice_control_fixed.py:162-164 the handler then sleeps and carries on, in voice_control.py:225-227 it carries on, and in dashboard.py:123-125 it leaves the loop.
- Opening the serial port, `setup_*` and `cleanup` are left out. Whether the port is open is a boolean (`connected`).
- VoiceControl.Controller.SendCommand: a write that raises is not modelled, because the result of a send is never used by `listen`. The written line is recorded as sent.
- VoiceControlFixed.FixedController.SendCommand: an exception from `write` itself is not modelled; a reply that fails to decode is.
- VoiceControlFixed.FixedController.SendCommand: the Arduino's reply only goes to `print`, so it is stripped and then dropped.
- AngleExtractor.ExtractNumber: the `\b` of `NUMBER_PATTERNS` sees only ASCII letters, digits and `_` as word characters, whereas Python's `\w` on a `str` takes every Unicode letter and digit. So for a transcript such as "oné" the model finds the word "one" (1) where Python finds no pattern and returns None. Unicode character classes are beyond this model.
- `str.lower` and `str.isspace` are used as on ASCII text: `Lower` maps only A–Z. `IsSpace` covers the ASCII white space plus the usual Unicode spaces, and `\d` and `int()` cover the digits 0–9.
- `int()` also accepts a sign "+", underscores and surrounding spaces; only what `str(int)` produces is needed here.
- Repeated alternatives inside one `NUMBER_PATTERNS` regular expression are listed once, which does not change what the pattern matches. The duplicated `nora` and `won't` entries are the same.
- In voice_control.py the `try` at line 162 has no `except`, so the file does not parse as written. The model follows the evident intent of lines 163–202, and the `except` branches of `listen` at lines 220–227 are left out as above.
- The dashboard's layout, `create_gauge` and the rendering of history items are left out: they are presentation only. The gauge is modelled by its angle.
- The "Unexpected command type" branch of `update_servo` is left out of the voice path because the voice thread only ever queues `('button', …)`. `ResolveButton` still falls back to the trigger for any other kind.
- The diagnostic scripts (check_mic_access.py, list_audio_devices.py, the other mic tests, download_model.py, arduino/model.py) are not part of this model: they list devices, probe microphones or download the Vosk model.
