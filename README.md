# Button panel: a verified model

This project models the core of a button panel for a robotics visualisation
host. The widget shows one on-screen button that sends a boolean to the
host in one of two ways: a message published on a topic, or a service call.
The model has three parts:

- **Settings.** There are seven persisted fields: `outputMode`, `name`, `buttonMode`, two colours and two texts.
  - At mount the saved state is spread over `DEFAULT_SETTINGS`.
  - The settings editor's action handler updates one field at a time. Each update is saved to the host.
- **Interaction.** An in-memory flag `isActive`, driven by the button's pointer events:
  - toggle mode: a click flips the flag;
  - push mode: press activates and release deactivates; mouse-leave and touch-end count as releases.
  - Each change of the flag made by a pointer handler goes through `triggerOutput`. A `buttonMode` edit clears the flag without it. That function advertises and publishes in publisher mode, or calls the service in service mode. It does nothing when the name is empty.
- **Appearance.** The displayed text and colour follow `isActive`. A darker second gradient stop is computed by integer arithmetic on the 24-bit RGB value of the colour.

## Structure

- `wrappers.dfy` (`Wrappers`): `Option`.
- `settings.dfy` (`PanelSettings`): the `Settings` record.
  - The settings object is a JavaScript object, and neither the spread nor the computed-key write checks key names. So the record keeps a map `extra` for any property that is not a declared field.
  - `Get` is property lookup. `ToBlob` is the object as `saveState` stores it.
  - `Merge`, `Load` and `Set` are the spread over the defaults, the mount-time load and the computed-key update.
- `color.dfy` (`Color`): the colour arithmetic.
  - Reading a colour: `parseInt(c.replace("#", ""), 16)`.
  - The channels and their recombination.
  - `darken`.
  - Writing a colour: `toString(16).padStart(6, "0")`.
- `widget.dfy` (`ButtonWidget`): the widget as a value (`Widget`: settings, `isActive`, effect log).
  - It contains the emission rule, one pure step function per handler, the event wiring, and the lemmas about runs of events.
  - The host's functions become log entries: `Save`, `Advertise`, `Publish`, `CallService` and `Unadvertise`.
  - The host's optional functions (`context.advertise?.(…)`) are a `Capabilities` record. A call to a function that is absent leaves no entry.
- `button.dfy` (`ButtonComponent`): class `Button`.
  - Its fields `settings`, `isActive` and `log` hold the hook state. The `caps` constant holds the host's optional functions.
  - Each handler is a method. Its `ensures` says that the new state equals the matching step function applied to the old state.

The two modes stay strings, because the source compares strings. An
`outputMode` other than `"publisher"` takes the service branch. A `buttonMode`
that is neither `"toggle"` nor `"push"` makes the click, press and release
handlers no-ops.

An edit whose path is empty writes the key `"undefined"`. This is what
`{...prev, [path[path.length - 1]]: value}` does in JavaScript.

`Math.round(v * 0.15)` is modelled as `(15 * v + 50) / 100` on channel values
0..255. `Math.round` rounds half up. On this range the double product differs
from `15v/100` by less than half a unit in the last place. So the product
lands exactly on each half (v = 10, 30, 50, …) and on the same side of every
other rounding boundary, and the two forms round to the same integer.

JavaScript's shifts and masks on these values are written as the integer
operations they equal below 2^24:
- `num >> 16` is `num / 2^16`;
- `(num >> 8) & 0xff` is `(num / 2^8) % 2^8`;
- `num & 0xff` is `num % 2^8`;
- `(r << 16) | (g << 8) | b` is `r * 2^16 + g * 2^8 + b`.

### Behaviour worth noting

- Release, pointer-leave and touch-end act only in push mode. In toggle mode they do nothing (`ReleaseStep`).
- Every edit that sets `outputMode` to `"service"` unadvertises the previous name (`EditStep`):
  - also when the mode already was `"service"`;
  - also when the name is empty;
  - also when nothing was ever advertised.
- Only the name in force at the switch is unadvertised. A topic advertised under an earlier name stays advertised (`RenamedTopicStaysAdvertised`).
- A `buttonMode` edit while active clears `isActive` and emits nothing, so the receiver's last value stays `true`. This is why `RunKeepsSync` is stated for runs of pointer events only.

## Model

| member | source | states |
|---|---|---|
| PanelSettings.Merge | button/src/ButtonPanel.tsx:40 | the spread `{...prev, ...saved}`: every property present in the saved object takes the saved value, and every other property keeps its previous value |
| PanelSettings.Load | button/src/ButtonPanel.tsx:15-23 | at mount, every property is the saved value when the saved state has it, and the `DEFAULT_SETTINGS` value otherwise; with no saved state, exactly the defaults; all seven declared fields are always present |
| PanelSettings.Set | button/src/ButtonPanel.tsx:75 | the computed-key update: the edited key reads the new value, and every other key reads what it read before |
| PanelSettings.ToBlob | button/src/ButtonPanel.tsx:76 | the object handed to `saveState` has exactly the seven fields plus the stray properties, and agrees with property lookup on every key |
| PanelSettings.SaveThenLoad | button/src/ButtonPanel.tsx:38-41 | loading the state that `saveState` was given reproduces the same settings (save/load round trip) |
| PanelSettings.SetIsBlobUpdate | button/src/ButtonPanel.tsx:74-76 | as persisted, an edit is a single-key update of the saved map |
| PanelSettings.GetDetermines | button/src/ButtonPanel.tsx:5-13 | two settings objects that agree on every property lookup are equal |
| Color.ParseColor | button/src/ButtonPanel.tsx:191 | `parseInt(c.replace("#", ""), 16)` on a colour of one to six hex digits is a 24-bit value. `Digits` is the `replace("#", "")` it reads, and `HexValue` is the base-16 reading |
| Color.HexValue | button/src/ButtonPanel.tsx:191 | a string of k hex digits denotes a value below 16^k |
| Color.Darken | button/src/ButtonPanel.tsx:192 | for a channel v in 0..255, the darkened value d satisfies 0 <= d <= v and -50 <= 100·d - 85·v < 50, which fixes d for every v: it is 0.85·v rounded, with a tie going to the smaller d (`Math.round` rounds the subtracted 0.15·v half up); d < v exactly when v >= 4. `RoundFifteenPercent` is the `Math.round(val * 0.15)` this covers |
| Color.Combine | button/src/ButtonPanel.tsx:196 | the bitwise or of `r << 16`, `g << 8` and `b`, for three channels, is below 0x1000000, and its channels are exactly r, g and b. `Red`, `Green` and `Blue` are `num >> 16`, `(num >> 8) & 0xff` and `num & 0xff` (:193-195, :199-201) |
| Color.ChannelsRecombine | button/src/ButtonPanel.tsx:193-201 | every 24-bit value splits into three channels in 0..255 that recombine to the same value |
| Color.ToHex | button/src/ButtonPanel.tsx:196 | `toString(16)` gives a non-empty lower-case hex string that reads back as the same number |
| Color.ToHexFits | button/src/ButtonPanel.tsx:196 | a value below 16^k has a hex rendering of at most k digits |
| Color.PadStart | button/src/ButtonPanel.tsx:196 | `padStart`: the result is as long as the width or as the input, whichever is longer, and ends with the input after fill characters only |
| Color.LeadingZeros | button/src/ButtonPanel.tsx:196 | leading zeros do not change the value of a hex string |
| Color.Hex6 | button/src/ButtonPanel.tsx:196 | the padded rendering of a 24-bit value has exactly six lower-case hex digits and reads back as the same value |
| Color.ShadowChannels | button/src/ButtonPanel.tsx:199-201 | the shadow's `sr, sg, sb` are channels in 0..255 that recombine to the parsed colour, through `Red`, `Green` and `Blue` |
| Color.DarkerColor | button/src/ButtonPanel.tsx:191-196 | the darker colour is `#` plus exactly six lower-case hex digits, is itself a well-formed colour, and its channels are the darkened channels of the input |
| ButtonWidget.Emission | button/src/ButtonPanel.tsx:139-153 | with an empty name, nothing; `Advertise(name, "std_msgs/Bool")` is emitted exactly when the name is non-empty, the mode is publisher and `advertise` is present; `Publish(name, state)` exactly when the name is non-empty, the mode is publisher and `publish` is present; `CallService(name, state)` exactly when the name is non-empty, the mode is not publisher and `callService` is present; nothing else, no entry twice, and the advertisement before the publish; with both publisher functions present exactly `Advertise` then `Publish` |
| ButtonWidget.EmissionSignals | button/src/ButtonPanel.tsx:139-153 | the receiver gets `[state]` from one emission exactly when the name is non-empty and the mode's publish or service function is present, and nothing otherwise |
| ButtonWidget.EditStep | button/src/ButtonPanel.tsx:68-83 | a non-update action changes nothing; an update sets exactly the key named by the last path element (the key "undefined" for an empty path, which is `KeyOf`) and leaves every other property alone, saves exactly the resulting settings, clears `isActive` exactly when the key is `buttonMode`, and appends `Unadvertise(previous name)` exactly when `outputMode` is set to `"service"` |
| ButtonWidget.EditSavesReloadable | button/src/ButtonPanel.tsx:74-76 | the entry an edit saves is the new settings, and reloading it at the next mount gives those settings back |
| ButtonWidget.ClickStep | button/src/ButtonPanel.tsx:155-161 | in toggle mode a click flips `isActive` and emits the new value; in any other mode it changes nothing; settings never change |
| ButtonWidget.PressStep | button/src/ButtonPanel.tsx:163-168 | afterwards the button is active exactly when it was active or the mode is push; `true` is emitted only when the mode is push and the button was inactive; otherwise nothing is logged |
| ButtonWidget.ReleaseStep | button/src/ButtonPanel.tsx:170-175 | afterwards the button is active exactly when it was active and the mode is not push; `false` is emitted only when the mode is push and the button was active; otherwise nothing is logged |
| ButtonWidget.PointerStep | button/src/ButtonPanel.tsx:235-251 | click runs the click handler; mouse-down and touch-start run press; mouse-up, mouse-leave and touch-end run release; mouse-enter changes nothing; a pointer event logs something only when it changes `isActive`, and then it emits the new value |
| ButtonWidget.Run | button/src/ButtonPanel.tsx:235-251 | any run of pointer events leaves the settings unchanged and only appends to the log |
| ButtonWidget.Step | button/src/ButtonPanel.tsx:68-83 | one edit or pointer event keeps the settings well-formed and only appends to the log |
| ButtonWidget.Session | button/src/ButtonPanel.tsx:68-175 | any mix of edits and pointer events keeps the settings well-formed and only appends to the log |
| ButtonWidget.ClickTwiceRestores | button/src/ButtonPanel.tsx:155-161 | in toggle mode, two clicks restore `isActive` and the settings and emit the two opposite values, `!a` then `a` |
| ButtonWidget.PressThenRelease | button/src/ButtonPanel.tsx:163-175 | in push mode, from inactive, a press (mouse-down or touch-start) followed by a release (mouse-up, touch-end or mouse-leave) ends inactive and emits `true` then `false` |
| ButtonWidget.SilentWithoutName | button/src/ButtonPanel.tsx:142-147 | with an empty name, no sequence of pointer events appends anything to the log |
| ButtonWidget.PointerStepKeepsSync | button/src/ButtonPanel.tsx:155-175 | when emissions are delivered, one pointer event keeps the receiver in step with the button |
| ButtonWidget.RunKeepsSync | button/src/ButtonPanel.tsx:155-175 | when emissions are delivered, every run of pointer events keeps the delivered values as true, false, true, …, with the button active exactly when an odd number of values has been delivered |
| ButtonWidget.MountedRunInSync | button/src/ButtonPanel.tsx:26 | from mount (inactive, nothing sent), whatever the pointer does, the receiver sees true, false, true, … in step with the button |
| ButtonWidget.InSyncLast | button/src/ButtonPanel.tsx:155-175 | in step, `isActive` equals the last delivered value, or false before any value |
| ButtonWidget.SessionDisciplined | button/src/ButtonPanel.tsx:139-153 | whatever is edited or clicked, no advertise, publish or service call is ever addressed to an empty name; every advertisement uses `std_msgs/Bool`; when advertising is available, every publish directly follows the advertisement of its topic |
| ButtonWidget.StyleOf | button/src/ButtonPanel.tsx:186-221 | the shown text and colour are the active pair or the inactive pair according to `isActive` (`DisplayText` is `displayText` at :221, `CurrentColor` is `currentColor` at :188); the gradient's darker stop is a valid colour whose channels are the darkened shadow channels |
| ButtonWidget.ShownStateMatchesReceiver | button/src/ButtonPanel.tsx:188 | after any pointer run from mount, the text and colour shown are the active ones exactly when the last value the receiver got was `true` |
| ButtonWidget.ToggleClickExample | button/src/ButtonPanel.tsx:141-145 | publisher mode on "/btn", toggle mode, one click: active, with log `Advertise("/btn", "std_msgs/Bool")`, `Publish("/btn", true)` |
| ButtonWidget.PushServiceExample | button/src/ButtonPanel.tsx:146-149 | service mode on "/svc", push mode, press then release: inactive, with log `CallService("/svc", true)`, `CallService("/svc", false)` and no advertisement |
| ButtonWidget.RenamedTopicStaysAdvertised | button/src/ButtonPanel.tsx:78-80 | click under publisher "/a", rename to "/b", switch to service: "/a" was advertised and is never unadvertised, while "/b" is |
| ButtonComponent.Button.constructor | button/src/ButtonPanel.tsx:26-41 | at mount the component holds the loaded settings, is inactive, and has asked nothing of the host: its state is `Mount(saved)` (the `useState` defaults at :26 and :28, and the spread at :38-41) |
| ButtonComponent.PressLeaveThenSwitchMode | button/src/ButtonPanel.tsx:68-175 | a session on the component, with saved state naming service "/svc" in push mode: mouse-down then mouse-leave calls the service with `true` then `false`; switching `buttonMode` to toggle then saves settings in toggle mode that still name "/svc"; the component ends inactive with exactly these three log entries |
| ButtonComponent.Button.TriggerOutput | button/src/ButtonPanel.tsx:139-153 | appends exactly the emission for the current settings and capabilities, and changes nothing else |
| ButtonComponent.Button.HandleSettingsAction | button/src/ButtonPanel.tsx:68-83 | the new state is `EditStep` of the old state, and the settings stay well-formed |
| ButtonComponent.Button.HandleButtonClick | button/src/ButtonPanel.tsx:155-161 | the new state is `ClickStep` of the old state; settings are untouched |
| ButtonComponent.Button.HandleButtonPress | button/src/ButtonPanel.tsx:163-168 | the new state is `PressStep` of the old state; settings are untouched |
| ButtonComponent.Button.HandleButtonRelease | button/src/ButtonPanel.tsx:170-175 | the new state is `ReleaseStep` of the old state; settings are untouched |
| ButtonComponent.Button.HandlePointerEvent | button/src/ButtonPanel.tsx:235-251 | the new state is `PointerStep` of the old state: the JSX event wiring |

## Left out

- React's machinery is not modelled: hooks, rendering, `createRoot`, `initButtonPanel` and unmounting. Hook state updates are sequential field assignments, and each event sees the state left by the one before. Stale closures between renders, and strict-mode double calls of the state updater, are not represented.
- The render acknowledgement is not modelled: `onRender`, `watch("currentFrame")` and the `renderDone` callback. This is host lifecycle with no effect on the button's state.
- Container measurement is not modelled: `ResizeObserver` and `containerSize`. These are DOM measurements.
- `buttonDimensions`, `borderRadius` and `fontSize` are not modelled. They are floating-point layout arithmetic.
- The direct `style.transform` changes on hover, press and release are not modelled. They are cosmetic mutations of the DOM element.
- The settings-tree nodes, labels and options sent to `updatePanelSettingsEditor` are not modelled. They are declarative UI data for the host.
- The completion of `callService` and its `.catch(console.error)` are not modelled. The promise is fire-and-forget; the model records only that the call was issued.
- Color.ParseColor: requires a colour made of an optional leading `#` and one to six hex digits. The NaN and partial-parse behaviour of `parseInt` on other strings is not modelled. DarkerColor, ShadowChannels and StyleOf carry the same precondition.
- Color.Darken: stated for channel values 0..255 only. Those are the only values a 24-bit colour produces, and the integer form of the rounding is justified on that range.
- Edit values and saved values are modelled as strings. Payloads of other types (`undefined`, numbers, booleans) are not represented.
- `button/src/index.ts` is not part of this model. It only registers the panel with the host.
