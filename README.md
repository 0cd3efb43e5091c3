# Light OS control panel — a Dafny model of its client logic

The panel is a single-page web app for an ESP8266 RGB light on the local network.
The programme polls the device's state, shows it, and sends text commands back.
This project models the five self-contained pieces of logic inside it and proves what
each one promises:

- **Formatters** (`formatters.dfy`): the `#rrggbb` colour codec (`rgbToHex`, `hexToRgb`,
  whose regular expression becomes the predicate `IsHexColor`), and `formatUptime`.
  The JavaScript number printing they rely on is in `text.dfy`: `toString(10)` and
  `toString(16)` for integers, a decimal reader used to state round trips, and
  `String.prototype.trim`.
- **Device client** (`device_api.dfy`):
  - the IP and token settings, as a class over an in-memory `localStorage` map;
  - the base URL, the headers, the slash strip and the two requests;
  - the acceptance rules for `GET /state` and `POST /command`;
  - the six command encoders, as `DeviceCommand` and `Encode`.
- **State sync** (`app.dfy`): how each settled fetch replaces the app's `{deviceState,
  isOnline, isLoading}` record, and a class `App` whose fields follow that transition.
- **Command console** (`command_console.dfy`): the append-only log, the input buffer and
  the `isProcessing` guard. `handleSubmit` is split at its `await` into `Submit`
  (before it) and `Complete` (after it).
- **Colour controls** (`rgb_controls.dfy`): the partial-RGB merge, the three handlers and
  the two prop-sync effects.

Some things the model takes as parameters:

- `fetch` together with `response.json()` is a `Fetched<T>` value: a rejection, or a
  response with its `ok` flag, status and decoded or undecodable body.
- A promise's settlement is an `Outcome<T>`. A thrown value is an `Error` with a
  message, or something else, which the console prints as "Unknown error".
- The device's answer to a command is a function `send` from the command text to its
  outcome.

JavaScript numbers are modelled as mathematical integers. `Math.floor(x / n)` with a
positive `n` is Dafny's `/`, negative `x` included. `formatUptime` uses `%` only in the
branches where its operand is positive, and there JavaScript's `%` and Dafny's agree.

Some facts about the code that the model keeps as they are:

- `setDeviceIP` stores any string as given. It does not trim it and does not refuse an
  empty one (`DeviceApi.DeviceStorage.SetDeviceIP`). An empty stored IP then counts as no
  IP (`DeviceApi.BaseUrl`).
- `setScene` does not lower-case the scene name (`DeviceApi.EncoderExamples`). The
  caller, `SceneButtons`, lower-cases it, and that caller is not part of this model.
- With no IP stored, the base URL is the empty string. Requests then go to the relative
  paths `/state` and `/command`; they are not refused.
- A failed send does not call `onUpdate`, so no refresh follows it. Only a send that
  resolved reaches `onUpdate` (`CommandConsole.Console.Complete` and the three
  `RgbControls.Controls` handlers).

## Model

| member | source | states |
|---|---|---|
| Text.DecimalString | src/utils/deviceAPI.ts:139 | an integer printed as a template literal prints it: a '-' for a negative number, then its decimal digits |
| Text.HexString | src/utils/formatters.ts:27 | `x.toString(16)` for an integer: a '-' for a negative number, then its lower-case hexadecimal digits |
| Text.TrimStart | src/components/CommandConsole.tsx:39-41 | a suffix of the input whose dropped prefix is all whitespace, and which does not start with whitespace |
| Text.TrimEnd | src/components/CommandConsole.tsx:39-41 | a prefix of the input whose dropped suffix is all whitespace, and which does not end with whitespace |
| Text.Trim | src/components/CommandConsole.tsx:39-41 | `String.prototype.trim`: the leading and then the trailing ECMAScript whitespace removed |
| Text.NatDigitsValue | src/utils/formatters.ts:27 | the digits `toString` prints for a natural number read back to that number, in any base from 2 to 16 |
| Text.NatDigitsLeading | src/utils/formatters.ts:27 | `toString` prints no leading zero: only zero itself starts with '0' |
| Text.DecimalRoundTrip | src/utils/deviceAPI.ts:139 | the decimal text a template literal prints for an integer reads back to that integer, negatives included |
| Text.DecimalStringInjective | src/utils/deviceAPI.ts:75 | two different integers never print as the same decimal text |
| Text.TrimShape | src/components/CommandConsole.tsx:39-41 | `trim` returns one contiguous slice of the input, and everything it drops on either side is whitespace |
| Text.TrimEnds | src/components/CommandConsole.tsx:41 | a non-empty trimmed text starts and ends with a non-whitespace character |
| Text.TrimEmpty | src/components/CommandConsole.tsx:39 | the trimmed text is empty exactly when every character is whitespace |
| Text.TrimIdempotent | src/components/CommandConsole.tsx:41 | trimming twice gives the same text as trimming once |
| Formatters.ChannelHex | src/utils/formatters.ts:26-29 | one channel as `toString(16)`, with a '0' put in front when that text is a single character |
| Formatters.RgbToHex | src/utils/formatters.ts:25-30 | `rgbToHex`: '#' followed by the three channel texts in the order r, g, b |
| Formatters.IsHexColor | src/utils/formatters.ts:34 | the language of the regular expression: six hexadecimal digits of either case, or '#' followed by six |
| Formatters.FormatUptime | src/utils/formatters.ts:2-17 | `formatUptime`: whole seconds, minutes, hours and days by floor division, then the days, hours, minutes or seconds shape by the first unit above zero |
| Formatters.GroupValue | src/utils/formatters.ts:36-38 | a two-digit group's value is 16 times its first digit plus its second |
| Formatters.HexToRgb | src/utils/formatters.ts:33-40 | a colour comes back exactly for texts of the form optional '#' then six hex digits of either case; each channel is in 0..255 and is its two-digit group's base-16 value |
| Formatters.ChannelHexTwoDigits | src/utils/formatters.ts:26-29 | a channel in 0..255 prints as exactly two zero-padded lower-case hex digits |
| Formatters.RgbToHexShape | src/utils/formatters.ts:25-30 | for channels in 0..255 the text has 7 characters: '#' and then two lower-case hex digits per channel, in the order r, g, b |
| Formatters.HexRoundTrip | src/utils/formatters.ts:25-40 | decoding an encoded colour with channels in 0..255 gives that colour back |
| Formatters.HexCanonical | src/utils/formatters.ts:25-40 | re-encoding any accepted text gives '#' and its six digits lower-cased |
| Formatters.HexExamples | src/utils/formatters.ts:25-40 | `rgbToHex(5,0,255)` is "#0500ff"; "#ffffff" and "abcdef" decode; "#zzzzzz" and "#fff" are refused |
| Formatters.UptimeSeconds | src/utils/formatters.ts:3-15 | under 60000 ms, negative input included, the text is floor(ms/1000) followed by "s" |
| Formatters.UptimeMinutes | src/utils/formatters.ts:3-13 | from one minute to one hour the text is "Mm Ss", where S < 60 and M*60+S is the whole number of seconds |
| Formatters.UptimeHours | src/utils/formatters.ts:3-11 | from one hour to one day the text is "Hh Mm Ss", with M and S below 60 |
| Formatters.UptimeDays | src/utils/formatters.ts:3-9 | from one day on the text is "Dd Hh Mm", with H below 24 and M below 60 |
| Formatters.UptimeDaysIgnoreSeconds | src/utils/formatters.ts:8-9 | past one day, the seconds are dropped: two uptimes in the same minute print alike |
| Formatters.UptimeExamples | src/utils/formatters.ts:2-17 | 0 gives "0s", 90000 gives "1m 30s", 3600000 gives "1h 0m 0s", 90000000 gives "1d 1h 0m" and -1500 gives "-2s" |
| DeviceApi.GetItem | src/utils/deviceAPI.ts:15 | `localStorage.getItem(key)`: the stored value under the key, or none when the key is absent |
| DeviceApi.BaseUrl | src/utils/deviceAPI.ts:14-17 | the base URL is non-empty exactly when a non-empty IP is stored |
| DeviceApi.Headers | src/utils/deviceAPI.ts:60-67 | the headers always hold `Content-Type: application/json`; they hold `Authorization: Bearer <token>` exactly when the token is non-null and non-empty; nothing else is set |
| DeviceApi.StripLeadingSlash | src/utils/deviceAPI.ts:113 | the command without its first character when that is '/', and unchanged otherwise |
| DeviceApi.StateRequest | src/utils/deviceAPI.ts:60-72 | the GET request to base URL + "/state" with the headers for the stored token and no body |
| DeviceApi.CommandRequest | src/utils/deviceAPI.ts:103-119 | the POST request to base URL + "/command" with the headers for the stored token and the body `{cmd}` of the stripped command |
| DeviceApi.HttpErrorMessage | src/utils/deviceAPI.ts:75 | the error text for a non-ok response: "HTTP error! status: " followed by the status in decimal |
| DeviceApi.StripOneSlash | src/utils/deviceAPI.ts:113 | exactly one leading '/' is removed, so "//x" becomes "/x"; text without one is kept |
| DeviceApi.SlashedCommandSameRequest | src/utils/deviceAPI.ts:112-119 | "/cmd" and "cmd" produce the same command request |
| DeviceApi.StateRequestShape | src/utils/deviceAPI.ts:60-72 | the state request is a GET to base + "/state" with no body and the token header rule |
| DeviceApi.CommandRequestShape | src/utils/deviceAPI.ts:103-119 | the command request is a POST to base + "/command" whose `cmd` is the command less its first character when that is '/', and the command itself otherwise |
| DeviceApi.AcceptState | src/utils/deviceAPI.ts:69-88 | the state is returned unchanged exactly when the response is ok, the body decodes and `success` is true; a rejection or a decoding error is passed on as thrown; a non-ok status becomes "HTTP error! status: N"; `success: false` becomes "API returned success: false" |
| DeviceApi.AcceptCommand | src/utils/deviceAPI.ts:115-130 | the decoded body is returned exactly when the response is ok and the body decodes, whatever `success` says; the error cases are the same as for state |
| DeviceApi.StateRuleStricter | src/utils/deviceAPI.ts:74-126 | for the same envelope, an accepted state response implies an accepted command response; an ok `success: false` answer fails for state and is returned for a command |
| DeviceApi.HttpErrorMessageInjective | src/utils/deviceAPI.ts:75 | the HTTP error message determines the status |
| DeviceApi.Encode | src/utils/deviceAPI.ts:134-156 | the text each of the six encoders hands to `sendCommand`: "power on"/"power off", "rgb r g b", "brightness n", "effect id", "scene name" and "restart", numbers in decimal |
| DeviceApi.EncoderExamples | src/utils/deviceAPI.ts:134-156 | the encoders print "power on", "power off", "rgb 300 -1 0", "brightness 200", "effect 3", "scene Party" and "restart", with no clamping and no lower-casing |
| DeviceApi.SplitAtSpaceOf | src/utils/deviceAPI.ts:139 | a word without spaces followed by a space and more text splits back into those two parts |
| DeviceApi.EncodeRoundTrip | src/utils/deviceAPI.ts:134-156 | every encoded command reads back as that same command |
| DeviceApi.EncodeInjective | src/utils/deviceAPI.ts:134-156 | two different commands never encode to the same text |
| DeviceApi.EncodedCommandSentVerbatim | src/utils/deviceAPI.ts:113-118 | no encoded command starts with '/', so its text is the body's `cmd` unchanged |
| DeviceApi.BaseUrlAfterStore | src/utils/deviceAPI.ts:14-32 | after storing an IP the base URL is "http://" + ip, or "" when ip is empty; after clearing it the URL is ""; the token is untouched either way |
| DeviceApi.TokenLeavesIp | src/utils/deviceAPI.ts:43-67 | storing or clearing the token leaves the IP alone; a stored token is sent as `Bearer <token>` unless it is empty |
| DeviceApi.DeviceStorage.constructor | src/utils/deviceAPI.ts:22-49 | the storage starts with the given items |
| DeviceApi.DeviceStorage.GetDeviceIP | src/utils/deviceAPI.ts:22-24 | returns what is stored under "esp8266_ip", or none |
| DeviceApi.DeviceStorage.SetDeviceIP | src/utils/deviceAPI.ts:26-28 | stores the IP as given under "esp8266_ip"; the token is unchanged |
| DeviceApi.DeviceStorage.ClearDeviceIP | src/utils/deviceAPI.ts:30-32 | removes the IP; the token is unchanged |
| DeviceApi.DeviceStorage.GetAccessToken | src/utils/deviceAPI.ts:39-41 | returns what is stored under "deviceAccessToken", or none |
| DeviceApi.DeviceStorage.SetAccessToken | src/utils/deviceAPI.ts:43-45 | stores the token as given; the IP is unchanged |
| DeviceApi.DeviceStorage.ClearAccessToken | src/utils/deviceAPI.ts:47-49 | removes the token; the IP is unchanged |
| DeviceApi.DeviceStorage.GetDeviceState | src/utils/deviceAPI.ts:52-89 | settles as the state rule says for whatever `fetch` produced for the state request with the stored IP and token |
| DeviceApi.DeviceStorage.SendCommand | src/utils/deviceAPI.ts:92-131 | settles as the command rule says for whatever `fetch` produced for the command request with the stored IP and token |
| DeviceApi.DeviceStorage.SendDeviceCommand | src/utils/deviceAPI.ts:134-156 | each encoder sends its text unchanged as `cmd` and settles as `sendCommand` |
| App.AfterFetch | src/App.tsx:19-32 | a success shows its snapshot and goes online; any failure shows exactly the stub and goes offline; loading is over after either |
| App.AfterFetches | src/App.tsx:34-41 | the state after a run of fetches: each outcome's transition applied in the order they settle |
| App.AfterFetchIgnoresPrevious | src/App.tsx:19-32 | a fetch's result does not depend on the state before it |
| App.LastWriteWins | src/App.tsx:19-32 | after any non-empty run of fetches the state is what the last outcome alone gives |
| App.NoMerge | src/App.tsx:21-28 | after any non-empty run the state is the last snapshot online, or the stub offline, never a mix |
| App.LoadingStaysOff | src/App.tsx:17-31 | once loading is over, no later fetch turns it on again |
| App.AfterFetchesAppend | src/App.tsx:34-41 | one more fetch applies one more transition after the earlier ones |
| App.RecoveryAfterFailure | src/App.tsx:20-28 | a failure shows the stub; a later success shows only the new snapshot |
| App.App.constructor | src/App.tsx:15-17 | the app starts with the stub, offline and loading |
| App.App.FetchState | src/App.tsx:19-32 | the app state becomes one transition of the old state by the outcome, and the outcome is recorded |
| App.App.HandleUpdate | src/App.tsx:43-46 | each call runs exactly one more fetch transition, without deduplication |
| App.App.Poll | src/App.tsx:34-41 | a run of polls applies each outcome in order, so the state stays what the recorded outcomes make of the initial state |
| CommandConsole.AcceptedInput | src/components/CommandConsole.tsx:39-41 | nothing goes ahead exactly when a command is in flight or the input is all whitespace; otherwise the trimmed input goes ahead |
| CommandConsole.ErrorText | src/components/CommandConsole.tsx:51 | an `Error` prints as "Error: " + its message; anything else prints as "Error: Unknown error" |
| CommandConsole.SettledEntry | src/components/CommandConsole.tsx:47-51 | a success logs a response entry with the reply's message; a failure logs an error entry with the error text |
| CommandConsole.ErrorEntryPrefix | src/components/CommandConsole.tsx:51 | every error entry starts with "Error: " |
| CommandConsole.Console.constructor | src/components/CommandConsole.tsx:11-19 | the log starts with the one response entry "RGB Lighting OS Console v1.0 - Ready", an empty input and no command in flight |
| CommandConsole.Console.AddEntry | src/components/CommandConsole.tsx:26-35 | exactly one entry is appended and the earlier ones are unchanged |
| CommandConsole.Console.SetInput | src/components/CommandConsole.tsx:113 | the input becomes the typed text and nothing else changes |
| CommandConsole.Console.Submit | src/components/CommandConsole.tsx:37-47 | a refused submit changes nothing and sends nothing; an accepted one logs the trimmed command, clears the input, raises the guard and sends the trimmed command |
| CommandConsole.Console.Complete | src/components/CommandConsole.tsx:46-54 | the settled entry is appended; `onUpdate` runs exactly on success; the guard is lowered in both cases |
| CommandConsole.Console.ClearConsole | src/components/CommandConsole.tsx:57-65 | the log becomes exactly the one response entry "Console cleared" |
| RgbControls.Merge | src/components/RGBControls.tsx:27 | a supplied channel takes the new value; every other channel keeps its local value |
| RgbControls.RgbCommand | src/components/RGBControls.tsx:32 | the text `setRGB` sends for a colour: "rgb r g b" of its three channels |
| RgbControls.MergeIdempotent | src/components/RGBControls.tsx:27 | applying a patch twice is applying it once |
| RgbControls.MergeCompose | src/components/RGBControls.tsx:26-28 | two patches in a row equal one patch in which the later channels win |
| RgbControls.Controls.constructor | src/components/RGBControls.tsx:13-15 | the local colour and brightness start from the props, and the hex box shows the colour |
| RgbControls.Controls.SyncRgbProp | src/components/RGBControls.tsx:17-20 | a new `rgb` prop replaces the local colour and the hex text; the brightness is untouched |
| RgbControls.Controls.SyncBrightnessProp | src/components/RGBControls.tsx:22-24 | a new `brightness` prop replaces the local brightness only |
| RgbControls.Controls.HandleRgbChange | src/components/RGBControls.tsx:26-37 | the local colour is the merge; the hex box shows it (and decodes back to it when in range); "rgb r g b" of the merge is sent; `onUpdate` runs exactly when the send succeeds; a failure keeps the new local state |
| RgbControls.Controls.HandleHexChange | src/components/RGBControls.tsx:39-51 | the hex box always takes the raw text; text that does not parse changes no colour and sends nothing; text that parses becomes the local colour and is sent, with `onUpdate` exactly on success |
| RgbControls.Controls.HandleBrightnessChange | src/components/RGBControls.tsx:53-61 | the local brightness becomes the value, "brightness v" is sent, and `onUpdate` runs exactly when the send succeeds |

## Left out

- Browser and network I/O: the model has no real `fetch`, `response.json()` or
  `localStorage`. Each is a parameter or an in-memory map.
- `console.error` logging is left out. It has no effect on state.
- The `USE_STUB_DATA` branches are left out. They sit behind a constant `false`.
- Timers are left out: the 2000 ms `setInterval`, its `clearInterval`, the settings
  panel's `confirm` dialog and its 5000 ms restart delay. Polling is a sequence of fetch
  outcomes.
- Overlapping requests are left out. Each fetch or send settles before the next one
  starts.
- App.App.HandleUpdate: the fetch it starts is modelled as already settled.
- RgbControls.Controls.HandleRgbChange, HandleHexChange and HandleBrightnessChange: the
  send is modelled as already settled.
- `formatMemory` and `formatTimestamp` are left out. They use floating point, `Date`
  and the locale. Console entry timestamps are dropped for the same reason.
- JavaScript numbers are integers here. Fractions, NaN, infinities and exponent
  notation are not modelled. This includes `parseInt` on a slider's text and a
  fractional `ms` given to `formatUptime`.
- The request body is kept as its single `cmd` field. The JSON text that
  `JSON.stringify` produces, with its escaping, is not modelled.
- DeviceApi.ParseCommand is a reading of the command vocabulary, used only to prove
  that the encoders never confuse two commands. The device's real interpreter is not
  part of this model.
- Several components are not part of this model: `PowerToggle`, `EffectSelector` and
  `SceneButtons` (thin calls to the encoders), the static tables in `src/data/effects.ts`
  and `src/data/scenes.ts`, and all rendering.
- React's re-render scheduling is not modelled. Neither are effects keyed on object
  identity: the prop-sync effects are methods the caller invokes when a prop changes.
