# esp.ra.dio controller loop, modelled in Dafny

esp.ra.dio is firmware for an ESP32 that turns a six-button arcade stick into a
Bluetooth LE gamepad. Each call of `loop()` does one of two things:

- When no host is connected, it watches the idle timer. Once more than one
  minute has passed since the last connected cycle, it enters deep sleep.
- When a host is connected, it turns debounced button edges into press and
  release calls. It turns the four direction switches into a hat value, set
  only when the direction changed. It sends at most one report, and only when
  something changed.

The model treats the gamepad library and the ESP-IDF sleep primitives as a
sink. One cycle produces a sequence of `Sink.Action` values: the calls
`loop()` makes, in order.

Files:

- `config.dfy` (module `Config`): the integer widths, `SLEEP_AFTER_MS`, `O_SPECIAL`, the logical button table `physicalButtons`, the `Direction` enumeration and the pin tables of `config.h`.
- `sink.dfy` (module `Sink`): the hat values, pin levels and the calls made to the gamepad and to the sleep primitives.
- `direction.dfy` (module `Direction`): `direction()`, the two axes, and the selection of a hat from an axis pair. Also holds an inverse of that selection.
- `buttons.dfy` (module `Buttons`): the per-button loop of `loop()` as the method `MapButtons`. It is proved against the function `ButtonActions`.
- `sleep.dfy` (module `Sleep`): the wrapping idle-time subtraction and `deepSleep()`. Its three pin loops are the method `RevertPins`, proved against `Reverts`.
- `controller.dfy` (module `Controller`): `loop()`'s static variables become the fields of the class `Controller`, and one call of `loop()` is `Controller.Step`. `Step` is proved against the spec functions `NextState` and `Emitted`, and the lemmas state the properties of one cycle.
- `lifecycle.dfy` (module `Lifecycle`): runs of cycles. `Run` ends at the first cycle that enters deep sleep, because `esp_deep_sleep_start()` does not return. The lemmas cover the idle timeout over a run.

Inputs of one cycle (`Controller.Cycle`):

- whether the gamepad is connected;
- the time `millis()` returns;
- each debouncer's `fell()` and `rose()`;
- the four direction pin levels;
- whether the two sleep-arming calls returned `ESP_OK`.

Integer widths are explicit. Times are `unsigned long` (32 bits on the ESP32) and wrap at 2^32. The stored copies `lastX` and `lastY` are `int8_t`; the freshly computed axes are unbounded integers, proved to lie in -1..1. Button ids and pins are `uint8_t`.

The idle time is counted from the last connected cycle (main.cpp:119). Sleep needs strictly more than `SLEEP_AFTER_MS` of it (`idleFor > SLEEP_AFTER_MS`, main.cpp:112), so exactly 60000 ms idle does not sleep.

## Model

| member | source | states |
|---|---|---|
| Config.ConfigurationConsistent | firmware/esp.ra.dio/src/main.cpp:15-21 | the six logical ids of `physicalButtons` match the six debounced button pins, there is one direction pin per `Direction`, and the ids are distinct and below `O_SPECIAL` |
| Direction.Axis | firmware/esp.ra.dio/src/main.cpp:75-77 | `direction(pos) - direction(neg)` lies in -1..1; it is 0 iff both pins read the same; it is 1 iff only the positive switch is closed and -1 iff only the negative one is |
| Direction.Stick | firmware/esp.ra.dio/src/main.cpp:149-150 | x and y lie in {-1,0,1}; x is 0 iff LEFT and RIGHT read alike and y is 0 iff UP and DOWN read alike (opposing presses cancel); x < 0 iff only LEFT is pressed and y < 0 iff only UP is pressed |
| Direction.HatVector | firmware/esp.ra.dio/src/main.cpp:157-164 | each hat value has a direction pair in {-1,0,1}² (the reference table for the selection) |
| Direction.HatOf | firmware/esp.ra.dio/src/main.cpp:157-164 | total over all x and y: the selected hat's pair is the signs of (x, y) |
| Direction.HatOfVector | firmware/esp.ra.dio/src/main.cpp:157-164 | the selection inverts the reference table: every hat is selected by its own pair |
| Direction.HatOfInjective | firmware/esp.ra.dio/src/main.cpp:157-164 | on in-range pairs, two pairs select the same hat iff they are equal |
| Direction.HatTable | firmware/esp.ra.dio/src/main.cpp:157-164 | the nine pairs select CENTERED, UP, UP_RIGHT, RIGHT, DOWN_RIGHT, DOWN, DOWN_LEFT, LEFT, UP_LEFT as the branches say |
| Direction.StickScenarios | firmware/esp.ra.dio/src/main.cpp:149-164 | LEFT and UP held give (-1,-1) and UP_LEFT; all four held give (0,0) and CENTERED |
| Buttons.PressOf | firmware/esp.ra.dio/src/main.cpp:125-133 | a fell id at or above `O_SPECIAL` is pressed on the special bank as `id - O_SPECIAL`; a lower id is pressed on the standard bank |
| Buttons.ReleaseOf | firmware/esp.ra.dio/src/main.cpp:136-142 | the same bank rule for a released id |
| Buttons.EdgeActions | firmware/esp.ra.dio/src/main.cpp:124-144 | one button makes at most one call, and makes one iff it fell or rose |
| Buttons.MapButtons | firmware/esp.ra.dio/src/main.cpp:120-145 | the loop makes the calls of `ButtonActions`, in button order, and raises `sendReport` iff some button fell or rose |
| Buttons.ButtonActionsIds | firmware/esp.ra.dio/src/main.cpp:122-145 | every call of the loop is a button call for one of the configured ids |
| Buttons.ButtonActionsEmpty | firmware/esp.ra.dio/src/main.cpp:122-145 | the loop makes no call iff no button has an edge |
| Buttons.ButtonActionsCount | firmware/esp.ra.dio/src/main.cpp:122-145 | with distinct ids, button i is pressed once iff it fell and released once iff it rose without falling (fell wins) |
| Buttons.ButtonActionsCountIn | firmware/esp.ra.dio/src/main.cpp:122-145 | the same counts hold when calls that are not button calls follow the loop's calls |
| Sleep.Elapsed | firmware/esp.ra.dio/src/main.cpp:111 | the `unsigned long` difference added to the start time gives the current time modulo 2^32; it is the plain difference without wrap-around and `now + 2^32 - since` across it |
| Sleep.IdleBoundary | firmware/esp.ra.dio/src/main.cpp:111-112 | 59999 and 60000 ms idle do not sleep and 60001 ms does; the same boundary holds across the 2^32 wrap of `millis()` |
| Sleep.RevertPins | firmware/esp.ra.dio/src/main.cpp:84-92 | one pin loop appends an INPUT call for each pin of its table, in table order |
| Sleep.RevertsAt | firmware/esp.ra.dio/src/main.cpp:84-92 | call k of the reverts is the INPUT call for pin k |
| Sleep.RevertsOnly | firmware/esp.ra.dio/src/main.cpp:84-92 | the reverts make INPUT calls and nothing else |
| Sleep.RevertsAppend | firmware/esp.ra.dio/src/main.cpp:84-92 | reverting two tables one after the other is reverting their concatenation |
| Sleep.DeepSleep | firmware/esp.ra.dio/src/main.cpp:79-106 | `deepSleep()` makes the calls of `SleepActions`: end, every pin reverted, pull-up, wake arming with their failure logs, sleep |
| Sleep.ArmEnds | firmware/esp.ra.dio/src/main.cpp:96-105 | arming starts with the pull-up on the wake pin, attempts the low-level wake, and ends with the sleep call, made exactly once |
| Sleep.ArmLogs | firmware/esp.ra.dio/src/main.cpp:96-102 | each failure is logged iff its call failed |
| Sleep.SleepCallsOnly | firmware/esp.ra.dio/src/main.cpp:79-106 | `deepSleep()` makes only sleep calls and touches no button, hat or report |
| Sleep.SleepHeadShape | firmware/esp.ra.dio/src/main.cpp:80-92 | `gamepad.end()` comes first, followed by the INPUT calls for the extra grounds, the button pins and the direction pins in table order |
| Sleep.SleepOrder | firmware/esp.ra.dio/src/main.cpp:79-100 | end first, every configured pin reverted in order before the wake pin is touched, then the pull-up, then the wake arming |
| Sleep.SleepLogs | firmware/esp.ra.dio/src/main.cpp:96-102 | the whole sleep entry logs a failure iff that call failed |
| Sleep.SleepLast | firmware/esp.ra.dio/src/main.cpp:105 | `esp_deep_sleep_start()` is the last call and is made exactly once, whatever the arming calls returned |
| Sleep.WithoutLogsAppend | firmware/esp.ra.dio/src/main.cpp:96-102 | removing the log calls distributes over concatenation |
| Sleep.RevertsHaveNoLogs | firmware/esp.ra.dio/src/main.cpp:84-92 | the reverts contain no log call |
| Sleep.ArmWithoutLogs | firmware/esp.ra.dio/src/main.cpp:96-105 | without its logs, arming is the same whatever the two calls returned |
| Sleep.SleepOutcomesOnlyLog | firmware/esp.ra.dio/src/main.cpp:96-105 | the failures are only logged: with the logs removed, the sleep entry equals the all-success one |
| Sink.SleepIsNotReport | firmware/esp.ra.dio/src/main.cpp:79-106 | no call of the sleep entry is a button, hat or report call |
| Controller.Initial | firmware/esp.ra.dio/src/main.cpp:109 | the statics start valid, with the stored pair that of a centred hat |
| Controller.NextState | firmware/esp.ra.dio/src/main.cpp:119-154 | after a connected cycle the stored pair is in range, and a valid state stays valid |
| Controller.Controller.constructor | firmware/esp.ra.dio/src/main.cpp:109 | the statics hold the clock of the first call and a zero pair |
| Controller.Controller.Step | firmware/esp.ra.dio/src/main.cpp:108-173 | one `loop()` call makes the calls `Emitted` gives and leaves the statics as `NextState` gives, keeping them in range |
| Controller.TailCalls | firmware/esp.ra.dio/src/main.cpp:152-170 | after the button loop a connected cycle makes only hat and report calls |
| Controller.DisconnectedCycle | firmware/esp.ra.dio/src/main.cpp:110-117 | a disconnected cycle leaves the statics unchanged; it makes the sleep calls if the timeout has passed and no call otherwise |
| Controller.DisconnectedNoReport | firmware/esp.ra.dio/src/main.cpp:110-117 | a disconnected cycle makes no button, hat or report call |
| Controller.DisconnectedIgnoresInputs | firmware/esp.ra.dio/src/main.cpp:110-117 | a disconnected cycle's outcome does not depend on the debouncers or the direction pins |
| Controller.ConnectedNeverSleeps | firmware/esp.ra.dio/src/main.cpp:119-173 | a connected cycle never calls `esp_deep_sleep_start()` |
| Controller.SleepIff | firmware/esp.ra.dio/src/main.cpp:110-115 | a cycle enters deep sleep iff it is disconnected and more than `SLEEP_AFTER_MS` have passed, modulo 2^32, since the last connected cycle |
| Controller.ConnectedCycleState | firmware/esp.ra.dio/src/main.cpp:119-154 | a connected cycle restarts the idle timer, stores the new pair, and changes nothing else when the stick did not move |
| Controller.HatUpdate | firmware/esp.ra.dio/src/main.cpp:148-166 | `setHat1` is called once, with the hat of the new pair, iff (x, y) changed, and never otherwise; from a valid state (x, y) changed iff the selected hat changed |
| Controller.ReportCoalescing | firmware/esp.ra.dio/src/main.cpp:120-170 | at most one `sendReport()` per cycle, always the last call, made iff connected and some button fell or rose or the pair changed |
| Controller.ButtonsInCycle | firmware/esp.ra.dio/src/main.cpp:122-145 | in a whole cycle, button i is pressed once iff it fell and released once iff it rose without falling, otherwise never |
| Controller.SteadyStick | firmware/esp.ra.dio/src/main.cpp:152-166 | a connected cycle reading the same direction pins as the previous connected one calls no `setHat1` |
| Controller.FirstCycleCentered | firmware/esp.ra.dio/src/main.cpp:148-170 | a centred stick on the first cycle calls no `setHat1`; with no button edge either, the cycle makes no call |
| Lifecycle.FirstExpired | firmware/esp.ra.dio/src/main.cpp:111-112 | the first cycle past the timeout: no earlier cycle is past it, and the one found is |
| Lifecycle.RunDisconnected | firmware/esp.ra.dio/src/main.cpp:110-117 | a run opening with a disconnected cycle either sleeps there or goes on from the same statics |
| Lifecycle.IdleRunQuiet | firmware/esp.ra.dio/src/main.cpp:110-117 | a disconnected run with no cycle past the timeout makes no call |
| Lifecycle.IdleRunSleeps | firmware/esp.ra.dio/src/main.cpp:110-117 | a disconnected run makes exactly the sleep calls of its first cycle past the timeout and nothing before |
| Lifecycle.IdleRun | firmware/esp.ra.dio/src/main.cpp:110-117 | a disconnected run sleeps once, at the first cycle past the timeout, and makes no call if no cycle is past it |
| Lifecycle.ReconnectRestartsTimer | firmware/esp.ra.dio/src/main.cpp:109-119 | after a connected cycle, the sleep comes at the first later cycle more than `SLEEP_AFTER_MS` after that cycle, whatever the timer held before |
| Lifecycle.IdleTimeoutScenario | firmware/esp.ra.dio/src/main.cpp:108-117 | connected at 0 ms, then disconnected at 59999, 60000 and 60001 ms: sleep happens once, at 60001 ms |
| Lifecycle.RestDisconnected | firmware/esp.ra.dio/src/main.cpp:110-117 | the tail of a disconnected run is disconnected |

## Left out

- The gamepad library (`BleGamepad`) is left out: BLE advertising, report encoding and connection handling. Its calls are recorded as `Sink.Action` values, and `isConnected()` is an input of each cycle.
- The debouncer library (`Bounce2`) is left out. The timing filter is not modelled; each cycle's `fell()` and `rose()` are inputs.
- `setup()` is not modelled: pin modes at start, debouncer attachment, gamepad configuration and the wake-cause query. The same goes for the LED, `Serial`, `delay(1000 / FPS)`, and the `LOGI`/`LOGV` info and verbose lines.
- `log.h` is not part of this model. A failure log is one `LogError` call. The "Shutdown" info line and `Serial.flush()` are left out because they do not change what the firmware does.
- `gpio_pullup_en` and `esp_deep_sleep_enable_gpio_wakeup` are modelled only by whether they returned `ESP_OK`, which is an input of the cycle. The wake mask `1 << wakeGpio` is not modelled.
- `wakeGpio` is not defined in the files modelled. It is a constant of `Controller.Controller`, set by the constructor.
- The source calls `millis()` up to twice in one call of `loop()`. The model reads the clock once per cycle.
- `BUTTON_1`…`BUTTON_8` are taken to be 1…8 and the `HAT_*` values are an enumeration. Both come from the gamepad library, which is not part of this model.
- Controller.Controller.Step: does not model the static `lastConnectedTime` being initialised lazily on the first `loop()` call. The constructor takes that call's clock instead.
- Lifecycle.Run: ends at the sleeping cycle, because `esp_deep_sleep_start()` does not return. The restart through `setup()` after wake-up is not modelled.
