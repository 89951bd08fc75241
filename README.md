# ColorWrap undo/redo picker — a verified model

`ColorWrap(Picker)` wraps a presentational colour picker in a `ColorPicker`
component. The component does four things:

- It derives a canonical colour state from the `color` prop.
- It drops every edit and every swatch hover whose description fails
  `simpleCheckForValidColor`.
- It keeps an undo/redo history of accepted states (`colorHistory`, with the
  cursor `historyIndex`). The history is capped at 50 entries.
- It notifies the caller's optional listeners: `onChange`, `onChangeComplete`
  (debounced by 100 ms on edits) and `onSwatchHover`.

The model has three modules:

- `Color` (`color.dfy`) holds the colour vocabulary:
  - `ColorState` exposes only its retained hue `oldHue`. Everything else in it is an
    opaque `ColorFields`.
  - A `Description` exposes only its optional hue attribute `h`.
  - The helpers `toState` and `simpleCheckForValidColor` are a `Helpers` record of
    function values. Nothing is assumed about what they compute.
  - `HueHint` is the fallback hue `data.h || state.oldHue`.
- `History` (`history.dfy`) is the undo/redo history as a value, a `Timeline`:
  - `Push`, `Undo` and `Redo` are its three operations.
  - The lemmas about them state the invariants, the inverse laws, eviction at the
    cap, and a scenario of edits interleaved with undos.
- `ColorWrap` (`colorwrap.dfy`) holds the `ColorPicker` class:
  - The fields `state`, `colorHistory` and `historyIndex` are updated in place, as
    in the component.
  - A ghost log `calls` records every listener invocation, and says whether it
    went directly or through the debounce.
  - `UpdateHistory`, `HandleChange`, `Undo` and `Redo` are proved against the
    `History` functions `Push`, `Undo` and `Redo`. The constructor, `ReceiveProps`
    and `HandleSwatchHover` state their effect on the fields directly.
  - `Deliver` is the `props.x && props.x(...)` guard: an absent listener yields no
    call.
  - Listeners and events are opaque types. A listener prop is an `Option`, and an
    absent listener is skipped.

Two behaviours of the code are worth stating outright:

- **Eviction.** When a commit pushes the history past 50 entries, the code shifts
  out the oldest entry and leaves `historyIndex` unassigned (`ColorWrap.js:64-65`).
  The cursor is still right: it was 49 before the push, and 49 is the index of the
  new last entry after the shift. `ColorPicker.UpdateHistory` proves
  `historyIndex == |colorHistory| - 1` in both branches.
- **Undo down to the initial state.** After three edits on the initial state and
  two undos, the cursor is 1. A third undo therefore still succeeds: it returns
  `true` (`ColorWrap.js:79`) and makes the initial entry live through `setState`
  (`ColorWrap.js:76`). `History.EditUndoEditScenario` proves that this undo is
  possible and lands on the initial entry. It also proves that an edit made after
  the two undos leaves `[initial, e1, e4]` with nothing to redo.

## Model

| member | source | states |
|---|---|---|
| `Color.HueHint` | src/components/common/ColorWrap.js:34 | the fallback hue for an edit or a hover is the description's `h` when it is truthy, and the live `oldHue` otherwise; an `h` of 0 falls back |
| `History.Push` | src/components/common/ColorWrap.js:53-69 | after a commit the history stays within its bounds and at most 50 entries; the cursor is on the last entry, and that entry is the new colour; nothing is left to redo; the length is min(old cursor + 2, 50) |
| `History.PushKeepsPast` | src/components/common/ColorWrap.js:55-65 | the entries before the new one are the old entries up to the old cursor, in order, less the oldest one when the cap forces a shift; nothing after the old cursor survives |
| `History.Undo` | src/components/common/ColorWrap.js:72-82 | undo keeps the cursor in bounds and never changes the entries; it moves the cursor down by exactly one when the cursor is above 0, and otherwise changes nothing |
| `History.Redo` | src/components/common/ColorWrap.js:85-95 | redo keeps the cursor in bounds and never changes the entries; it moves the cursor up by exactly one when the cursor is below the last entry, and otherwise changes nothing |
| `History.PushAll` | src/components/common/ColorWrap.js:53-69 | any run of commits keeps the history's bounds invariant |
| `History.UndoTimes` | src/components/common/ColorWrap.js:72-82 | repeated undos never change the entries, and the cursor stops at 0 |
| `History.RedoTimes` | src/components/common/ColorWrap.js:85-95 | repeated redos never change the entries, and the cursor stops at the last entry |
| `History.InitialIsValid` | src/components/common/ColorWrap.js:17-18 | the initial one-entry history with cursor 0 meets the invariant, with nothing to undo and nothing to redo |
| `History.RedoAfterUndo` | src/components/common/ColorWrap.js:72-95 | after a successful undo, redo is possible and restores the history exactly |
| `History.UndoAfterRedo` | src/components/common/ColorWrap.js:72-95 | after a successful redo, undo is possible and restores the history exactly |
| `History.RedoTimesAfterUndoTimes` | src/components/common/ColorWrap.js:72-95 | n undos followed by n redos restore the history, when n is at most the cursor |
| `History.PushAllNewest` | src/components/common/ColorWrap.js:53-69 | a run of commits leaves exactly the newest 50 of (the entries up to the old cursor followed by the run), with the cursor on the newest entry |
| `History.PushAllLast` | src/components/common/ColorWrap.js:53-69 | after a run of commits the length is min(cursor + 1 + run length, 50), the current entry is the last commit, and there is nothing to redo |
| `History.PushAtCapacity` | src/components/common/ColorWrap.js:60-68 | a commit on a full history whose cursor is at 49 drops the oldest entry, appends the new one, and leaves the cursor at 49 |
| `History.InitialEvicted` | src/components/common/ColorWrap.js:53-69 | fifty commits on the one-entry initial history evict the initial entry and leave exactly those fifty, with the cursor on the last |
| `History.EditUndoEditScenario` | src/components/common/ColorWrap.js:53-95 | three edits and two undos reach the first edit, and a third undo would still succeed and land on the initial state; an edit after the two undos leaves `[initial, e1, e4]` with nothing to redo |
| `ColorWrap.Deliver` | src/components/common/ColorWrap.js:36-37 | a listener guard yields exactly one call when the listener is configured and none otherwise; the call carries that listener, the channel, the state, the event and how it is delivered |
| `ColorWrap.DerivedStateDependsOnColorAndHue` | src/components/common/ColorWrap.js:25-29 | models `getDerivedStateFromProps` through `DerivedStateFromProps`: its result is fixed by `nextProps.color` and `state.oldHue` alone; the listeners and the rest of the previous state play no part |
| `ColorWrap.ColorPicker.constructor` | src/components/common/ColorWrap.js:9-18 | the live state is derived from the `color` prop with fallback hue 0; the history is that state alone, with cursor 0; no listener has been called |
| `ColorWrap.ColorPicker.ReceiveProps` | src/components/common/ColorWrap.js:25-29 | new props replace the live state by `toState(color, oldHue)`, using the current retained hue; the history, the cursor and the call log do not change |
| `ColorWrap.ColorPicker.HandleChange` | src/components/common/ColorWrap.js:31-42 | a rejected description changes nothing and calls no listener; an accepted one becomes the live state, with the `HueHint` fallback, and is committed by `History.Push`; it first schedules `onChangeComplete` through the debounce and then calls `onChange`, each only when configured, with the event; afterwards nothing is left to redo |
| `ColorWrap.ColorPicker.HandleSwatchHover` | src/components/common/ColorWrap.js:44-50 | the live state and the history never change; for a valid description, only `onSwatchHover` is called, when configured, with the derived state and the event |
| `ColorWrap.ColorPicker.UpdateHistory` | src/components/common/ColorWrap.js:53-69 | the in-place truncate, push and shift give exactly `History.Push`, in both the shifting and the non-shifting branch; the cursor ends on the new last entry, and the length stays at most 50 |
| `ColorWrap.ColorPicker.Undo` | src/components/common/ColorWrap.js:72-82 | returns true exactly when the cursor was above 0; on success the cursor drops by one and the live state becomes the entry now at the cursor; `onChange` and then `onChangeComplete` are called directly with that entry and no event, each only when configured; the history never changes; on failure nothing changes |
| `ColorWrap.ColorPicker.Redo` | src/components/common/ColorWrap.js:85-95 | returns true exactly when the cursor was below the last entry; on success the cursor rises by one and the rest is as for `Undo`; on failure nothing changes |
| `ColorWrap.EditThenRedo` | src/components/common/ColorWrap.js:31-95 | a redo straight after an accepted edit returns false; the props are not touched, and the state, the history and the log are exactly those the edit left |

## Left out

- Rendering is not modelled: `render` spreading props and state into `Picker`,
  with `onSwatchHover` passed only when configured. The `PureComponent` choice is
  not modelled either. Both are UI composition.
- `propTypes` and `defaultProps` are not modelled. The default colour (h 250,
  s 0.5, l 0.2, a 1) is floating-point data that the history logic never inspects.
  It would simply be one `Description` among others.
- The colour helpers `toState` and `simpleCheckForValidColor` are not part of this
  model. They are passed in as arbitrary function values, so no property of colour
  conversion or validation is assumed or proved.
- The timing of the lodash debounce is not modelled. That includes the 100 ms
  window, coalescing a burst into one trailing delivery, and dropping superseded
  calls. The log records only that an accepted edit hands `onChangeComplete` to the
  debounce, while `undo` and `redo` call it directly (`ColorWrap.js:78`, `91`).
  An edit's debounced call (`ColorWrap.js:36`) may therefore still be pending when
  an `undo` or `redo` calls `onChangeComplete` directly. In that case the undone
  edit's colour can arrive last as the "completed" change. The order of the log
  (a `Debounced` entry before a `Direct` one) is the order in which calls were made
  or scheduled, not the order in which listeners received them.
- React's lifecycle is not modelled. React calls `getDerivedStateFromProps` before
  every render, including renders caused by the component's own `setState`. The
  model exposes it as `ReceiveProps`, and the caller decides when it runs.
  `setState` batching and asynchrony are replaced by immediate assignment.
- Listeners are assumed to return without calling back into the picker and
  without mutating the colour object they receive. In the code, `onChange` runs
  before `updateHistory` (`ColorWrap.js:37`, `40`) and inside `undo` and `redo`
  (`ColorWrap.js:77-78`, `90-91`). A listener that called `undo` back would make the
  commit start from a moved cursor. The objects stored in `colorHistory` are the
  same objects handed to the listeners, so a listener that mutated its argument
  would change the stored history. The model's log entries have no effect, and
  `ColorState` is a value, so neither re-entry nor this aliasing is captured.
- `HueHint` does not model every JavaScript falsy value. `h` is either absent or a
  real number, so NaN and non-numeric `h` values are not covered.
