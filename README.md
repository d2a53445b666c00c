# Klipper WeCom push: the printer state monitor in Dafny

This project models the printer state monitor of Klipper-WeCom-Push. It is
the background process that polls a Moonraker printer and sends an
enterprise-chat message when a print starts, completes, is cancelled or fails.
The model also covers the integer formatting and validation helpers around
the monitor.

- `monitor_spec.dfy` (module `MonitorSpec`): the monitor as a pure state
  machine. The state is the two fields `last_state` and `current_print_info`.
  A poll is an `Option<Status>`. One loop iteration (`Step`) gives the new
  fields and the messages sent. On top of `Step` sit the transition table
  (`Dispatch`), the handlers' messages and job records (`Notify`, `JobAfter`),
  runs over finite sequences of polls (`Run`), and start-up seeding (`Seed`).
- `monitor.dfy` (module `Monitor`): the `PrinterMonitor` class. Its fields
  are updated in place by `CheckStateChange`, the four handlers and one loop
  iteration, and every method is proved equal to `MonitorSpec`.
  `MonitorLoop` runs the loop over a finite sequence of polls. `Start` is
  `main` in `Klipper_monitor.py`.
- `formatting.dfy` (module `Formatting`):
  - the `divmod` split of a duration and its `"{h}h {m}m {s}s"` text;
  - `format_time`;
  - filament in metres;
  - the `state_map` labels.
- `status_reply.dfy` (module `StatusReply`): the first lines of the status
  reply (see Findings).
- `light.dfy` (module `Light`): `controlLight`'s validation and its G-code
  line.
- `token_cache.dfy` (module `TokenCache`): the access-token expiry
  arithmetic.
- `cpu_cores.dfy` (module `CpuCores`): the `cpu{i}` scan in
  `getSystemStatus`.
- `text.dfy` (module `Text`): decimal numerals, their parsing and ASCII
  lower-casing.
- `wrappers.dfy` (module `Wrappers`): `Option` and `Result`.

The start guard at `Klipper_server.py:600` is
`new == 'printing' and old != 'printing'`, so resuming a paused print
(`paused -> printing`) sends a second "print started" message and replaces
the job record (`ResumeAnnouncesStart`). Only `printing -> paused` and the
other moves the table does not list are silent.

Inputs from the outside world are parameters:
- the status fetch is an `Option<Status>`;
- the clock reading written into messages is an opaque string (`Env.now`);
- the camera snapshot is an `Option<Image>` (`Env.image`);
- the outcome of the light's HTTP POST is a `PostOutcome`.

Sent messages are recorded as `Notification(recipient, message, image)` in
the monitor's `sent` sequence. Each message holds structured content: file
name, elapsed `Duration`, filament in millimetres, error text and time stamp.

## Model

| member | source | states |
|---|---|---|
| `Monitor.PrinterMonitor.constructor` | Klipper_server.py:473-476 | a new monitor has no stored state, no job record and has sent nothing |
| `Monitor.PrinterMonitor.CheckStateChange` | Klipper_server.py:491-503 | always stores the polled state; reports a change, with old and new state, exactly when a different state was stored before |
| `Monitor.PrinterMonitor.HandlePrintStart` | Klipper_server.py:505-526 | appends the text-only start message to `@all` and sets the job record to file name, start time and starting filament |
| `Monitor.PrinterMonitor.HandlePrintComplete` | Klipper_server.py:528-548 | appends the completion message with elapsed time, filament and snapshot, and clears the job record |
| `Monitor.PrinterMonitor.HandlePrintCancelled` | Klipper_server.py:550-566 | appends the text-only cancellation message and clears the job record |
| `Monitor.PrinterMonitor.HandlePrintError` | Klipper_server.py:568-579 | appends the error message with the printer's error text and snapshot, and clears the job record |
| `Monitor.PrinterMonitor.MonitorOnce` | Klipper_server.py:585-613 | one loop iteration changes the fields and the sent log exactly as `MonitorSpec.Step` says |
| `Monitor.PrinterMonitor.MonitorLoop` | Klipper_server.py:581-617 | the loop over a finite sequence of polls ends in `Run`'s state and appends `Run`'s messages |
| `Monitor.Start` | Klipper_monitor.py:6-14 | start-up yields a fresh monitor seeded as `Seed` says, or stops when the status lacks a print_stats state |
| `MonitorSpec.Seed` | Klipper_monitor.py:8-11 | a failed first fetch leaves `last_state` None; a successful one stores its state; a status without print_stats state stops start-up; the job record is always None |
| `MonitorSpec.SeededFirstPoll` | Klipper_monitor.py:9-11 | after seeding with S, a first poll reporting S sends nothing and a first poll reporting T != S is a change dispatched by the table |
| `MonitorSpec.UnseededFirstSuccessIsSilent` | Klipper_monitor.py:9-14 | when the first fetch failed, the first successful poll after any number of failed ones only records the baseline and sends nothing |
| `MonitorSpec.Dispatch` | Klipper_server.py:600-610 | the if/elif chain selects event e exactly when e's table rule holds, and none when no rule does, so the guards are mutually exclusive |
| `MonitorSpec.Notify` | Klipper_server.py:505-579 | every message goes to `@all`, is of the handled event and names the file (default 未知文件); completion and error carry the camera's image and start and cancellation none; completion and cancellation carry the divmod split of `print_duration` (default 0) and the filament used (default 0) |
| `MonitorSpec.JobAfter` | Klipper_server.py:522-526 | start creates a job record with the file name (default 未知文件) and starting filament (default 0); the other handlers leave none |
| `MonitorSpec.Step` | Klipper_server.py:585-613 | at most one message per iteration; an unavailable poll changes nothing; a successful one stores its state; without a message the job record is unchanged |
| `MonitorSpec.FirstObservationIsBaseline` | Klipper_server.py:496-503 | `StateChange` models `check_state_change`: with no stored state the first observed state is stored, no change is reported and nothing is sent |
| `MonitorSpec.SameStateIsSilent` | Klipper_server.py:496-503 | by `StateChange`, a poll reporting the stored state reports no change, leaves both fields and sends nothing |
| `MonitorSpec.ChangeIsDispatched` | Klipper_server.py:594-610 | a poll reporting a different state than a stored one is a change from old to new; the new state is stored and exactly the handler the table selects runs |
| `MonitorSpec.UnavailablePollChangesNothing` | Klipper_server.py:588-591 | a failed, empty or malformed poll leaves both fields and sends nothing |
| `MonitorSpec.ResumeAnnouncesStart` | Klipper_server.py:600-601 | `paused -> printing` and `standby -> printing` both fire the start handler |
| `MonitorSpec.PauseIsSilent` | Klipper_server.py:600-610 | `printing -> paused` and endings that do not come from printing fire no handler |
| `MonitorSpec.EndingsNeedPrinting` | Klipper_server.py:603-610 | completion, cancellation and error fire only from `printing` |
| `MonitorSpec.StartRecordsJob` | Klipper_server.py:505-526 | a change into printing stores the state, sets the job record and sends exactly the start message |
| `MonitorSpec.EndClearsJob` | Klipper_server.py:528-579 | completion, cancellation and error from printing clear the job record and send exactly one message: the completion message with elapsed time, filament and image, the text-only cancellation message with elapsed time and filament, or the error message with the error text and image |
| `MonitorSpec.ErrorMessageText` | Klipper_server.py:568-578 | the error message carries the printer's message, or 未知错误 when there is none, with the snapshot |
| `MonitorSpec.Run` | Klipper_server.py:585-613 | a run over n polls sends at most n messages |
| `MonitorSpec.FailedPollsAreSkipped` | Klipper_server.py:588-591 | a run equals the run of its successful polls alone |
| `MonitorSpec.MessagesPerSuccessfulPoll` | Klipper_server.py:594-610 | at most one message is sent per successful poll |
| `MonitorSpec.FailuresChangeNothing` | Klipper_server.py:588-591 | any run of failed polls leaves the monitor as it was and sends nothing |
| `MonitorSpec.RetriesCollapse` | Klipper_server.py:588-591 | three failed polls before a poll act exactly as one failed poll |
| `MonitorSpec.SteadyStateIsSilent` | Klipper_server.py:496-503 | while every successful poll reports one state, nothing is sent after the first observation and the job record stays |
| `MonitorSpec.EndsAreAnnouncedOnce` | Klipper_server.py:600-610 | between two end-of-job messages there is always a start message, and after an end message the stored state is not printing |
| `MonitorSpec.JobRecordMatchesLastStart` | Klipper_server.py:522-579 | from no job, a job record exists exactly when the last message sent is a start, and it names that message's file and time |
| `MonitorSpec.PrintLifecycleScenario` | Klipper_server.py:585-613 | standby, printing a.gcode twice, then complete gives exactly a start and a completion message (1h 0m 0s, 12000 mm), and ends with no job |
| `Formatting.Split` | Klipper_server.py:536-537 | h*3600 + m*60 + s equals the duration, with m and s below 60 |
| `Formatting.SplitUnique` | Klipper_server.py:259-260 | any split with minutes and seconds below 60 is the divmod split |
| `Formatting.MinutesFirstSplitAgrees` | Klipper_server.py:460-461 | format_time's divmod-by-60-first order gives the same hours, minutes and seconds |
| `Formatting.DurationTextRoundTrip` | Klipper_server.py:541 | the handlers' "{h}h {m}m {s}s" text, `DurationText`, reads back as the duration it was made from |
| `Formatting.DurationTextExamples` | Klipper_server.py:562 | 3600 renders as "1h 0m 0s" and 3661 as "1h 1m 1s" |
| `Formatting.FormatTimeShape` | Klipper_server.py:455-466 | `FormatTime` models `format_time`: a non-positive count gives "prefix: 0秒"; otherwise "prefix: " followed by a text that reads back as the same count |
| `Formatting.TimeBodyRoundTrip` | Klipper_server.py:460-466 | format_time's text after the prefix reads back as the number of seconds, with or without the hour field |
| `Formatting.FormatTimeHourField` | Klipper_server.py:463-466 | the hour field appears exactly when the duration is at least an hour |
| `Formatting.FormatTimeExamples` | Klipper_server.py:457-466 | 45 seconds renders without an hour field as "0m 45s"; zero renders as "0秒" |
| `Formatting.MetersTextValue` | Klipper_server.py:542 | `MetersText` models `filament_used / 1000:.2f`: for whole millimetres that are multiples of ten, the text has exactly two decimals and denotes mm / 1000 |
| `Formatting.MetersTextExample` | Klipper_server.py:563 | 12000 mm renders as "12.00" |
| `Formatting.StateLabel` | Klipper_server.py:238-251 | an unknown state is shown raw; a known one is shown by one of the labels |
| `Formatting.StateLabelsDistinct` | Klipper_server.py:244-245 | two different known states share a label exactly when they are ready and standby |
| `StatusReply.AsWrittenDropsStateLine` | Klipper_server.py:250-255 | as written, the reply for a printing printer lacks the title and the state label |
| `StatusReply.StatusHead` | Klipper_server.py:250-255 | the corrected reply starts with the title and the state label for every state and ends with the file line when printing |
| `StatusReply.StatusHeadShowsLabel` | Klipper_server.py:238-255 | the corrected reply shows 打印中 for printing and 待机 for ready and standby |
| `Light.ControlLight` | Klipper_server.py:366-378 | a command is built exactly when the lower-cased action is on, off, toggle or status; otherwise the reply is the invalid-action text |
| `Light.ControlLightIgnoresCase` | Klipper_server.py:368 | the action is matched without regard to letter case |
| `Light.OnlyOnSwitchesOn` | Klipper_server.py:371-373 | `LightCommand` builds the G-code line: only on gives VALUE=1 and 开启; off, toggle and status give VALUE=0 and 关闭 |
| `Light.FailedPostReply` | Klipper_server.py:375-378 | a timed-out or failed request is reported with the timeout or exception text |
| `TokenCache.SavedTokenLifetime` | Klipper_server.py:88-113 | with `ExpiresAt` (the stored `expires_at`) and `CachedTokenFor` (the cache test), a token saved with lifetime e is reused exactly while fewer than e - 200 seconds have passed, and a fresh one is fetched from then on |
| `TokenCache.CachedTokenOutlivesUse` | Klipper_server.py:88-113 | a reused cached token always has more than 200 seconds of the issuer's lifetime left; with no cached token a new one is fetched |
| `CpuCores.CpuKeysCount` | Klipper_server.py:330 | the keys cpu0 ... cpu(n-1) are n distinct strings |
| `CpuCores.CoreUsages` | Klipper_server.py:328-332 | the result lists cpu0, cpu1, ... in order, up to and not including the first missing key |
| `Text.NatTextRoundTrip` | Klipper_server.py:261 | the decimal text of an int reads back as that number |
| `Text.NatTextNoLeadingZero` | Klipper_server.py:464 | the decimal text has no leading zero |
| `Text.Lower` | Klipper_server.py:368 | lower-casing keeps the length, leaves no ASCII capital and changes only A-Z |

## Findings

| source | as written | input that shows it | evidently intended | confidence | as-written member | corrected member |
|---|---|---|---|---|---|---|
| Klipper_server.py:250-255 | in the printing branch, `status_msg = f"文件名: ..."` replaces the title and the "打印机状态: 打印中" line built just above | state `printing`: the reply starts with "文件名: " | `+=`, as on every later line of the branch, so that the reply keeps its title and state | high; not executed | `StatusReply.StatusHeadAsWritten` (shown by `StatusReply.AsWrittenDropsStateLine`) | `StatusReply.StatusHead` |

## Left out

- Network I/O is not modelled: the status fetch, the WebSocket query, file metadata, job totals, system information, the camera download and the light's POST. Their results are parameters.
- The chat sender and credentials are not modelled: `sendWxMSg`, `getAccessToken`'s HTTP request, the SQLite token table, the JS-SDK signature (SHA-1, random nonce). A send is recorded as a `Notification`. Whether it was delivered, and its image-upload fallback text, are not modelled.
- Loop timing is not modelled: `time.sleep`, the unbounded `while True` and `check_interval` (kept as a field, never read). `MonitorLoop` and `Run` cover any finite prefix of the loop.
- Time stamps are opaque text. One reading per iteration stands for both `datetime.now()` calls of the start handler (message and `start_time`).
- Floating point is not modelled: progress, remaining time, memory percentages, core usages (kept as opaque values) and `filament_used / 1000:.2f`.
- Formatting.MetersText: renders only whole millimetres that are multiples of ten, where the two-decimal text is exact; other amounts are carried in messages as raw millimetres.
- `print_duration` is a whole number of seconds. Python's `int()` of the float `divmod` equals the `divmod` of its floor for non-negative values.
- A JSON `null` in `print_stats.state` is not modelled; states are strings. A missing key is modelled: the `KeyError` is swallowed by the loop, and stops `main` at start-up.
- Exceptions raised by a handler after `last_state` is updated are not modelled. The sender and the camera helper catch every exception, so the handlers do not raise on the inputs modelled here.
- Formatting.FormatTime: takes a whole number of seconds, where `format_time` receives Moonraker's float job totals. For 0 < x < 1 Python prints "prefix: 0m 0s", while the integer model gives "prefix: 0秒" for the floor 0. For x >= 1 the text equals that of the floor of x, since `int()` of the float `divmod` parts equals the `divmod` of the floor.
- MonitorSpec.PrintStats: `filament_used` is a float in the source and is carried here as whole millimetres (`filamentUsed`, and `PrintInfo.startFilament`); fractions of a millimetre are not modelled.
- The `print` logging of the loop, the handlers and `main` is not modelled; it changes no state and sends nothing.
- Light.ControlLight: the default argument `action="on"` is not modelled; every caller in `Klipper_app.py` passes an action.
- Text.Lower: lower-cases ASCII letters only, where Python's `str.lower` is Unicode-wide. No non-ASCII character lower-cases to on, off, toggle or status, so the accepted actions are the same.
- `Klipper_app.py` (Flask routes, XML parsing, message decryption) and `made/qidi.py` (vendor login and device lookup) are not part of this model.
- The rest of `getPrintStatus`, `getPrintJobList` and `getSystemStatus` is not modelled: floats and network data. Their modelled pieces are `StateLabel`, `FormatTime` and `CoreUsages`.
