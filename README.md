# CD_Copier in Dafny

CD_Copier copies optical discs without anyone at the keyboard. It watches two
drive slots, `I:` and `J:`. When a drive reports a disc, it copies the whole
disc with robocopy into a new folder under `C:\Archivos_Copia\`. If robocopy
exits with a success code (8 or below), nircmd opens the tray so the next disc
can go in. The repository has two variants of the same loop, and this project
models both:

- `cd_copier.js`, the console copier. The operator types a base name once.
  Each copied disc goes to `baseName + counter`. The counter starts at 101 and
  advances only after a successful copy whose eject reported no error.
- `server.js`, the web server. It is started and stopped through
  `/api/start` and `/api/stop`, and reports through `/api/status`. Each copied
  disc goes to `timestamp_label`. The label is the disc's volume name with
  illegal characters replaced. A missing label becomes `CD_SIN_NOMBRE_<ms>`;
  a label query that fails becomes `CD_ERROR_<ms>`.

The modules:

- `Text` (`text.dfy`) holds the JavaScript string semantics the copiers rely
  on: `String(n)`, `padStart`, `trim` with the JavaScript white-space set,
  the last piece of `split('\n')`, and `includes`.
- `Environment` (`environment.dfy`) holds the shared constants, the command
  lines the copiers launch, and the `Effect` datatype. An `Effect` is one
  call out of the process: a child process launched, a directory created, or
  a line appended to the log.
- `Naming` (`naming.dfy`) holds media detection, the timestamp, the
  volume-label parser, sanitizing and both folder-naming schemes. The label
  parser matches `volumename=` with ASCII case-insensitivity and takes the
  rest of the line up to `\n`, `\r`, U+2028 or U+2029. That is exactly what
  `/VolumeName=(.*)/i` does (server.js:76). Without the `u` flag, the `/i`
  matching in ECMAScript never maps a character at or above U+0080 to an
  ASCII letter.
- `ConsoleCopier` (`copier.dfy`) has class `Copier`. Its fields are the base
  name, the counter and the trace of effects. Each method is proved against a
  specification function of the effects it produces. A ghost list of copied
  folders carries the invariant that no two fully successful cycles share a
  folder.
- `WebServer` (`server.dfy`) has class `Server`. Its fields are the run flag,
  the status strings, the trace and the phase of the copy loop: idle, or
  waiting for robocopy on a drive. The callback chain is split into the
  events the JavaScript event loop runs one at a time:
  - a pass beginning;
  - a chunk of robocopy's output;
  - robocopy's close event;
  - nircmd's callback;
  - the three HTTP handlers.

  Requests can arrive between any two of these events.

Both programs talk to the operating system. Each such answer is an input to
the model instead of something computed:

- the output of each `wmic` query, or the fact that it threw;
- robocopy's exit code;
- whether the eject returned an error, and its message;
- whether a folder exists;
- the clock (`new Date()` fields, `Date.now()`, `toLocaleString()`);
- the operator's answers to the prompt.

Three places where the code does something other than its own comments say,
or other than a reader of the folder names would expect:

- Success is decided by `code <= 8` (server.js:167, cd_copier.js:119). The
  comments beside these tests (server.js:166, cd_copier.js:118) name the range
  0 to 8 as success. The code also treats a negative code as success, and the
  model follows the code.
- The comment at server.js:108 says drive A's processing finishes before
  drive B's starts. That holds for the copy, but not for the eject. The web
  variant's pass does not wait for nircmd. Robocopy's close handler
  resolves the drive's promise right after it launches the eject. The eject
  callback is therefore a separate later event. It can overwrite
  `lastCopyInfo` while the pass already checks drive B. The model keeps that
  order (`RobocopyClosed` and `EjectCallback`).
- In the console copier, `counter++` (cd_copier.js:124) runs only when both
  the copy and the eject succeed. A cycle that finds a disc and then fails
  has already created the folder and run robocopy into it
  (cd_copier.js:98-110). After such a failure, when robocopy exits above 8
  (cd_copier.js:128-130) or nircmd throws (cd_copier.js:125-127), the next
  disc found is copied into that same folder, even a different disc in the
  other drive in the same pass. The model follows the code
  (`FailedCycleReusesFolder`). Only the folders of fully successful cycles
  are distinct (`NamesNeverReused`).

## Model

| member | source | states |
|---|---|---|
| Text.NatToString | server.js:55-59 | `String(n)` of a natural number is a non-empty run of decimal digits with no leading zero |
| Text.DecimalRoundTrip | server.js:55-59 | reading the rendered digits back as a decimal number gives the number itself |
| Text.NatToStringInjective | cd_copier.js:92 | distinct numbers render to distinct strings |
| Text.IntToString | server.js:204 | `String(code)` of a non-negative code is decimal digits whose value is the code; of a negative code, a minus sign followed by digits whose value is its magnitude |
| Text.IntToStringInjective | server.js:204 | distinct exit codes render to distinct strings |
| Text.IntRoundTrip | server.js:204 | reading the rendered code back as a signed decimal gives the code |
| Text.TwoDigitsValue | server.js:55-59 | `String(n).padStart(2, '0')` of a number below 100 is exactly two digits whose value is n |
| Text.TrimShape | server.js:79 | `trim` keeps one contiguous piece of the input with only white space before and after it, and neither end of that piece is white space |
| Text.TrimEmptyIff | cd_copier.js:28-29 | `trim` yields the empty string exactly when the input is all white space |
| Text.TrimIdempotent | server.js:79 | trimming an already trimmed string changes nothing |
| Text.LastLineShape | server.js:162 | `split('\n').pop()` is a suffix with no line feed that is either the whole text or preceded by a line feed |
| Text.LastLineOfOneLine | server.js:162 | a text without line feeds is its own last line |
| Text.ContainsIff | server.js:40 | `includes` is true exactly when the pattern occurs at some position |
| Environment.CommandLineNamesDrive | server.js:154 | every command line launched (media query, label query, robocopy, eject) contains the drive it acts on |
| Naming.IsMediaLoaded | server.js:35-45 | a drive holds a disc exactly when the wmic query returned output containing `TRUE`; a query that threw means no disc |
| Naming.TimestampLayout | server.js:51-62 | the timestamp is the year digits, month and day as two-digit fields, `_`, then hours, minutes and seconds as two-digit fields, each field reading back as its value |
| Naming.TimestampLength | server.js:61 | with a four-digit year the timestamp is exactly 15 characters with `_` at position 8 |
| Naming.TimestampLegal | server.js:51-62 | the timestamp contains no character the folder sanitizer replaces |
| Naming.Capture | server.js:76 | there is no capture exactly when `volumename=` (any letter case) occurs nowhere; otherwise the capture is the rest of the line after the first occurrence |
| Naming.Sanitize | server.js:82 | same length; each of `\ / : * ? " < > \|` becomes `_` and every other character is kept; the result has none of them |
| Naming.VolumeLabel | server.js:69-94 | the label is never empty and never contains an illegal character, whatever the query returned |
| Naming.VolumeLabelCases | server.js:69-94 | a present label is the sanitized, trimmed capture; a blank or missing one is `CD_SIN_NOMBRE_` followed by digits reading back as the milliseconds; a query that threw gives `CD_ERROR_` followed by them |
| Naming.FallbackLabelsDiffer | server.js:86-93 | fallback labels read at different milliseconds differ, and an error label never equals a missing-label label |
| Naming.LabelFolderSafe | server.js:133-137 | the web folder name is longer than the timestamp plus `_` and contains no illegal character |
| Naming.CounterFolderNameParts | cd_copier.js:92 | the console folder name is the base name followed by digits that read back as the counter |
| Naming.CounterNamesDistinct | cd_copier.js:92 | different counters give different folder names for the same base name |
| ConsoleCopier.CycleEffectsMeaning | cd_copier.js:86-132 | an empty drive is only queried; with a disc robocopy targets the counter's folder, and the tray is opened exactly when the exit code is at most 8 |
| ConsoleCopier.Copier.constructor | cd_copier.js:14-15 | the base name starts empty, the counter at 101 and nothing has been done |
| ConsoleCopier.Copier.Start | cd_copier.js:26-47 | every blank answer is rejected and the first non-blank one, trimmed, becomes the base name; then the target directory is created if missing, the session header is logged and monitoring begins; if every answer is blank nothing starts |
| ConsoleCopier.Copier.OpenSession | cd_copier.js:33-45 | after a non-blank answer: base name set, target directory created if missing, header logged, monitoring begun |
| ConsoleCopier.Copier.CheckAndCopy | cd_copier.js:86-134 | one drive's cycle makes exactly the calls the cycle specification lists; the counter and the list of copied folders advance by one exactly when the copy succeeded and the eject reported no error |
| ConsoleCopier.Copier.CopyDisc | cd_copier.js:92-131 | a found disc is copied to the current counter's folder; eject after success; counter advanced only when the eject reported no error |
| ConsoleCopier.Copier.MonitorLoop | cd_copier.js:52-62 | a pass checks drive A then drive B; drive B's cycle uses the counter as drive A's cycle left it; the next pass is always scheduled |
| ConsoleCopier.NamesNeverReused | cd_copier.js:15-124 | no two fully successful cycles used the same folder, and the folder the next disc gets is not the folder of any fully successful cycle |
| ConsoleCopier.FailedCycleReusesFolder | cd_copier.js:92-131 | after a cycle that found a disc but did not fully succeed, the counter stays, so the next disc (drive B in the same pass) is copied into the same folder as the failed one |
| WebServer.SevereInfoShowsCode | server.js:204 | a severe copy failure's status shows the exit code and the folder |
| WebServer.SevereInfoDeterminesCode | server.js:204 | two equal severe texts name the same exit code, so the severe text identifies the code |
| WebServer.CloseInfoSevereIff | server.js:165-207 | the close handler's status starts with the severe-error prefix exactly when the exit code is above 8 |
| WebServer.EjectTextNeverSevere | server.js:175-191 | no eject outcome is reported as a severe copy failure |
| WebServer.EjectTextFatalIff | server.js:176-190 | the fatal nircmd text is written exactly when the eject failed with a message containing `not found` |
| WebServer.ProgressStatusShape | server.js:160-163 | the progress status names the folder and ends with the last line of the trimmed chunk; it does not start like the stop notice or a severe failure |
| WebServer.CheckEffectsShape | server.js:127-157 | a drive's check starts with its own media query and queries no other drive; with a disc it launches robocopy for the probe's folder, and without one it does nothing more |
| WebServer.PassEffectsMeaning | server.js:99-120 | up to the point where a pass first waits for robocopy or ends, it always queries drive A first; it queries drive B in that part exactly when A had no disc (otherwise B comes after A's close event); when it waits, robocopy runs for the drive and folder it waits on |
| WebServer.Server.constructor | server.js:17-20 | not running, the initial status, no recent copy, CD name `N/A`, nothing done |
| WebServer.Server.CheckAndCopy | server.js:127-157 | the trace grows by the drive's check; copying starts exactly when media is loaded, and then the status reports the label, folder and drive |
| WebServer.Server.ReadLabelAndCopy | server.js:133-139 | the label query is made, and the copy starts into the folder named from the timestamp and the label |
| WebServer.Server.BeginCopy | server.js:139-157 | the disc is reported; the folder is created if missing; the log line is written; robocopy is launched; the loop waits on this drive and folder |
| WebServer.Server.FinishPass | server.js:114-119 | the end of a pass reschedules exactly when the run flag is still set, and reports either the waiting text or the finished text |
| WebServer.Server.ContinueWithB | server.js:112-119 | drive B is checked after A's cycle; a disc in B starts its copy; an empty B ends the pass |
| WebServer.Server.MonitorLoop | server.js:99-120 | with the flag clear a pass only reports the stop; otherwise its calls are the pass specification and it waits on the first drive holding a disc or reschedules |
| WebServer.Server.Scan | server.js:105-119 | a pass with the flag set: drive A, then drive B if A was empty; the phase, status texts and trace the pass specification gives |
| WebServer.Server.RobocopyClosed | server.js:165-209 | the close event reports the outcome, launches the eject only after success, then continues with drive B after A or ends the pass after B |
| WebServer.Server.RobocopyOutput | server.js:160-163 | a progress chunk while copying sets only the current status, to the progress text for the folder being copied |
| WebServer.Server.CloseCopy | server.js:165-207 | success texts or the severe text from the exit code; the eject is launched exactly when the code is at most 8 and the launch does not throw |
| WebServer.Server.EjectCallback | server.js:175-191 | nircmd's callback changes only the two status texts, to the text for the eject's outcome |
| WebServer.Server.StartCopyProcess | server.js:213-225 | a second start is a no-op; a first start sets the flag and logs the session header; from idle it runs a pass, and both status texts are the ones the pass leaves; with a copy in flight both texts are unchanged |
| WebServer.Server.ApiStart | server.js:232-239 | the reply is a failure and nothing changes when already running; otherwise the reply is a success, with the trace, phase and both status texts of starting |
| WebServer.Server.ApiStop | server.js:242-249 | the flag is always clear afterwards; a stop while running reports that the process stops after the current copy |
| WebServer.Server.ApiStatus | server.js:252-258 | reports the run flag and the current status; the CD name is always `N/A` |

## Left out

- Process execution, Express, readline and console output are not modelled. Each command's answer is an input, and each call out is an `Effect` in the trace.
- The five-second `setTimeout` is not modelled. A pass returns whether it scheduled the next one, and the next pass is a new call.
- `new Date()`, `Date.now()` and `toLocaleString()` are inputs (`Clock`, the milliseconds, the header time). Years of any length are allowed, and `TimestampLength` assumes a four-digit year.
- The console copier's echo of robocopy's output (cd_copier.js:113-115) is not modelled, because it only prints.
- The startup in `app.listen` is not modelled, including its creation of the target directory (server.js:261-268), because it is I/O outside the loop.
- WebServer.Server.StartCopyProcess: a stop followed by a start can leave two loops running in the source. This happens when the start arrives while a copy is in flight, or during the five-second wait while the timer at server.js:116 is still pending. The model has one loop and one phase, and `MonitorLoop` requires the idle phase. So a start during a copy only sets the flag and logs the header. A pending timer's pass and a new pass are modelled only as separate `MonitorLoop` calls that do not overlap. Two loops interleaving their drive checks are not modelled.
- Robocopy's exit code is an `int`. The null code Node reports for a killed process is not modelled.
- Errors thrown by `mkdirSync` or by the log appends (`writeFileSync` with the `a` flag, server.js:151 and 221, cd_copier.js:41 and 103) are not modelled. The copiers have no handling for them either.
- Promise resolution once per cycle is modelled as a method returning. The second `resolve()` on the severe path has no effect in JavaScript, so it is not modelled.
- HTTP status codes are not modelled; only the JSON bodies are.
- The console copier's `start` reads answers from a finite list. When every answer is blank, the model stops with the prompt still waiting.
