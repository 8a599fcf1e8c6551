# Student companion app: study timer and study tips, in Dafny

This project models two of the student companion app's components, the study
timer and the study-tips browser, and proves properties of the model.

- **The Pomodoro study timer** (`components/StudyTimer.tsx`). Its state is
  `timeLeft` (seconds), `isRunning` and `isBreak`. The user can start, pause and
  reset it. While it runs, a one-second interval counts `timeLeft` down. When
  the count is zero, the effect calls `handleTimerComplete`: the timer stops,
  switches between the 25-minute focus interval and the 5-minute break, loads
  the new interval's length and shows an alert naming the interval that ended.
  `formatTime` shows the count as minutes and seconds, each padded to two digits.
- **The study-tips browser** (`components/StudyTips.tsx`). It holds a fixed list
  of six tips in four categories. A row of buttons selects a category, and the
  id `"all"` shows every tip. Pressing a tip expands it to show its description;
  pressing it again collapses it.

Module `StudyTimer` gives each timer event's effect on a `TimerState` value as
a pure function: `Started`, `Paused`, `Ticked`, `Completed`, `AfterEffect`,
`Step`. `Run` folds a sequence of events and collects the alerts shown.
Class `StudyTimer.Timer` has the component's three fields. Its methods update
them the way the component's handlers do, and each method's `ensures` ties the
new state to the matching function. The invariant `Inv` keeps `timeLeft` between
0 and 1500, and at most 300 in break mode.

Real time is not modelled. The interval callback (`IntervalFired`) and the
effect re-running after a render (`EffectRan`) are discrete events. The effect
arms the interval only while `isRunning && timeLeft > 0`. Any change of
`isRunning` or `timeLeft` clears the interval and runs the effect again. The
model assumes that this cleanup always comes before the next firing. So `Ticked`
re-checks the guard, and a firing while the interval is not armed is a no-op.
The callback in the source (`setTimeLeft(prev => prev - 1)`) has no guard of its
own. The effect's other branch completes the interval whenever `timeLeft` is 0,
whether or not the timer is running.

Module `JsText` models the JavaScript library calls `formatTime` uses:
`Math.floor`, the truncating `%`, `Number.prototype.toString` and
`String.prototype.padStart`. It also gives the decimal value of a digit string,
which `StudyTimer.ParseTime` uses to read a display back.

Module `StudyTips` holds the `StudyTip` record, the seed list `Tips`, the filter
buttons, the pure filter `FilterTips` and the class `TipsBrowser`. That class
has the component's two state fields, `selectedCategory` and `expandedTip`. As
in the source, `selectedCategory` is a string: `"all"` or a category id.

The effect at `components/StudyTimer.tsx:17-18` completes the interval whenever
it sees `timeLeft === 0`, whatever `isRunning` is
(`StudyTimer.AfterEffect`, `StudyTimer.CompletionIgnoresRunning`).

## Model

| member | source | states |
|---|---|---|
| `StudyTimer.Timer.constructor` | components/StudyTimer.tsx:6-8 | The timer starts stopped, in focus mode, with `timeLeft` 1500. |
| `StudyTimer.Ticked` | components/StudyTimer.tsx:13-16 | An interval firing lowers `timeLeft` by exactly one when running with time left, and changes nothing otherwise. Mode and running flag are unchanged, and a non-negative count stays non-negative. |
| `StudyTimer.Timer.Tick` | components/StudyTimer.tsx:14-16 | The interval callback updates the fields as `Ticked` says and keeps the invariant. |
| `StudyTimer.AfterEffect` | components/StudyTimer.tsx:17-18 | After the effect, the state is `Completed` exactly when `timeLeft` is 0; otherwise nothing changes. |
| `StudyTimer.Timer.RunEffect` | components/StudyTimer.tsx:10-22 | The effect arms the interval exactly when running with time left. Otherwise, at a zero count, it completes the interval and returns its alert. |
| `StudyTimer.Completed` | components/StudyTimer.tsx:24-35 | Completion stops the timer and flips the mode. It loads 300 seconds when entering a break and 1500 when entering focus. The result satisfies the invariant. |
| `StudyTimer.CompletionAlert` | components/StudyTimer.tsx:26-34 | The alert's title is "Break Complete!" exactly when a break ended, and "Study Session Complete!" exactly when a focus interval ended. |
| `StudyTimer.Timer.HandleTimerComplete` | components/StudyTimer.tsx:24-35 | `handleTimerComplete` updates the three fields as `Completed` says and returns the alert `CompletionAlert` names, from any state. |
| `StudyTimer.Emitted` | components/StudyTimer.tsx:17-34 | An event shows at most one alert, and shows one exactly when the effect runs at a zero count. That alert is the one `CompletionAlert` names for the state. |
| `StudyTimer.CompletionIgnoresRunning` | components/StudyTimer.tsx:17-18 | At a zero count the effect's result and alert do not depend on the running flag. |
| `StudyTimer.Started` | components/StudyTimer.tsx:37 | Start sets the running flag and leaves `timeLeft` and the mode unchanged. |
| `StudyTimer.Paused` | components/StudyTimer.tsx:38 | Pause clears the running flag and leaves `timeLeft` and the mode unchanged. |
| `StudyTimer.StartPauseIdempotent` | components/StudyTimer.tsx:37-38 | Start while running and pause while stopped change nothing, and each is idempotent. |
| `StudyTimer.Timer.Start` | components/StudyTimer.tsx:37 | `startTimer` updates the fields as `Started` says. |
| `StudyTimer.Timer.Pause` | components/StudyTimer.tsx:38 | `pauseTimer` updates the fields as `Paused` says. |
| `StudyTimer.Timer.Reset` | components/StudyTimer.tsx:39-43 | `resetTimer` gives the initial state from any state. |
| `StudyTimer.ResetFromAnyState` | components/StudyTimer.tsx:39-43 | Reset gives stopped, focus mode, 1500 seconds, whatever the state before. |
| `StudyTimer.Step` | components/StudyTimer.tsx:10-43 | Every event keeps `0 <= timeLeft <= 1500`, and keeps `timeLeft <= 300` in break mode. |
| `StudyTimer.RunPreservesInv` | components/StudyTimer.tsx:10-43 | Every sequence of events keeps that invariant. |
| `StudyTimer.ReachableStatesAreValid` | components/StudyTimer.tsx:6-43 | Every state reachable from the initial one satisfies the invariant, so the count is never negative. |
| `StudyTimer.CountDown` | components/StudyTimer.tsx:13-18 | While fewer seconds pass than are left, a running timer counts down one per second, keeps running and shows no alert. |
| `StudyTimer.RunOut` | components/StudyTimer.tsx:13-35 | Letting a running interval run out ends in `Completed` of the starting state, with exactly one alert, the one `CompletionAlert` names. |
| `StudyTimer.FullFocusSession` | components/StudyTimer.tsx:6-35 | Start from the initial state, then 1500 seconds. The timer ends stopped in break mode with 300 seconds, after exactly the "Study Session Complete!" alert. |
| `StudyTimer.TicksStopAtZero` | components/StudyTimer.tsx:13-16 | Under the assumption that a firing while not armed is a no-op, n firings take a running count to the larger of 0 and count − n. They leave a stopped count alone and show no alert. |
| `StudyTimer.TwoDigits` | components/StudyTimer.tsx:48 | `n.toString().padStart(2, '0')` has at least two characters, and exactly two for 0 to 99. A non-negative n gives a digit string denoting n. A negative n gives '-' followed by the digits of its absolute value. |
| `StudyTimer.FormatTime` | components/StudyTimer.tsx:45-48 | The display has at least five characters, and starts with '-' exactly when the count is negative. |
| `StudyTimer.FormatTimeSplits` | components/StudyTimer.tsx:45-48 | For a non-negative count, the display is the padded whole minutes, ':' and the padded remaining seconds. |
| `StudyTimer.FormatTimeRoundTrip` | components/StudyTimer.tsx:45-48 | Parsing the display of any non-negative count gives the count back. |
| `StudyTimer.FormatTimeShape` | components/StudyTimer.tsx:45-48 | Below 6000 seconds the display has length 5, with ':' at index 2 and digits elsewhere. Its tens of seconds are at most 5. |
| `StudyTimer.FormatTimeNegative` | components/StudyTimer.tsx:45-48 | A count of -1 would show "-1:-1", from JavaScript's signed remainder. |
| `JsText.FloorDiv` | components/StudyTimer.tsx:46 | `Math.floor(a / b)` is the largest q with q * b <= a. |
| `JsText.Remainder` | components/StudyTimer.tsx:47 | `a % b` lies in [0, b) for non-negative a and in (-b, 0] for negative a; for non-negative a it is the mathematical remainder. |
| `JsText.RemainderOfNegation` | components/StudyTimer.tsx:47 | JavaScript's remainder changes sign with its first operand. |
| `JsText.NatToString` | components/StudyTimer.tsx:48 | `toString` of a non-negative integer is a digit string without leading zeros that denotes it. It has one digit below 10 and two below 100. |
| `JsText.IntToString` | components/StudyTimer.tsx:48 | A negative integer's text starts with '-', followed by the digits of its absolute value. |
| `JsText.PadStart` | components/StudyTimer.tsx:48 | `padStart` yields the requested width, or the string's own length if that is larger. |
| `JsText.PadStartParts` | components/StudyTimer.tsx:48 | `padStart` only prefixes copies of the fill character to the unchanged string. |
| `JsText.ZeroPaddedValue` | components/StudyTimer.tsx:48 | Padding a digit string with '0' keeps it a digit string denoting the same number. |
| `StudyTips.Tips` | components/StudyTips.tsx:13-56 | The six seed tips, with ids, titles, descriptions, icons and categories as in the source. |
| `StudyTips.Buttons` | components/StudyTips.tsx:62-68 | The five filter buttons, "all" first, with their names and icons. |
| `StudyTips.ButtonsSelectKnownFilters` | components/StudyTips.tsx:62-68 | The first button's id is "all", and each later button's id is the id of a distinct category. Every category has a button. |
| `StudyTips.EveryTipHasAButton` | components/StudyTips.tsx:62-72 | Every seed tip is shown under some category button other than "all". |
| `StudyTips.SeedIdsDistinct` | components/StudyTips.tsx:13-56 | The seed tips have pairwise distinct ids. |
| `StudyTips.TipsBrowser.constructor` | components/StudyTips.tsx:59-60 | The browser starts with `selectedCategory` "all" and no expanded tip, showing every tip. |
| `StudyTips.FilterByCategory` | components/StudyTips.tsx:72 | The filter is sound and complete. Every returned tip comes from the list and has the category, and every tip of the list with the category is returned. |
| `StudyTips.FilterIsSubsequence` | components/StudyTips.tsx:72 | The filter keeps the returned tips in their original relative order: the result is a subsequence of the list. |
| `StudyTips.FilterTips` | components/StudyTips.tsx:70-72 | With "all" the result is the whole list. Otherwise a tip is returned exactly when it is in the list and its category is the selected id. Either way the result is a subsequence of the list. |
| `StudyTips.TipsBrowser.ShownTips` | components/StudyTips.tsx:70-72 | The shown tips are all seed tips for "all", and otherwise exactly the seed tips of the selected category, in seed order. |
| `StudyTips.UnknownSelectionShowsNothing` | components/StudyTips.tsx:70-72 | A selected id that is neither "all" nor a category id shows no tips. |
| `StudyTips.CategoriesPartitionTips` | components/StudyTips.tsx:72 | The four category filters together hold exactly the list's tips, as a multiset: every tip lands in exactly one of them. |
| `StudyTips.CategoryCountsAddUp` | components/StudyTips.tsx:72 | The lengths of the four category filters add up to the length of the list. |
| `StudyTips.CategoryFiltersDisjoint` | components/StudyTips.tsx:72 | No tip is returned by the filters of two different categories. |
| `StudyTips.FilterKeepsDistinctIds` | components/StudyTips.tsx:72 | Filtering a list with distinct ids gives a list with distinct ids. |
| `StudyTips.Toggled` | components/StudyTips.tsx:74-76 | `toggleTip(t)` gives null exactly when `t` was expanded, and `t` otherwise. |
| `StudyTips.ToggleTwice` | components/StudyTips.tsx:74-76 | Toggling the same tip twice restores the expansion exactly when nothing or that tip was expanded. |
| `StudyTips.ToggleReplaces` | components/StudyTips.tsx:74-76 | Toggling a tip while a different one is expanded replaces it. |
| `StudyTips.TipsBrowser.ToggleTip` | components/StudyTips.tsx:74-76 | `toggleTip` sets `expandedTip` as `Toggled` says, flips whether that tip is expanded, and keeps the selected category. |
| `StudyTips.TipsBrowser.IsExpanded` | components/StudyTips.tsx:124-130 | A tip is drawn expanded (chevron and description) when `expandedTip` holds its id. That no other id is then expanded holds by construction, since `expandedTip` holds at most one id. `AtMostOneDescriptionShown` states the property about the shown list. |
| `StudyTips.TipsBrowser.SelectCategory` | components/StudyTips.tsx:94 | Pressing a category button stores its id. It leaves `expandedTip` untouched. |
| `StudyTips.AtMostOneDescriptionShown` | components/StudyTips.tsx:113-132 | For any selection, at most one shown tip displays its description. |
| `StudyTips.HiddenTipShowsNoDescription` | components/StudyTips.tsx:94-132 | After selecting a category, a tip outside it is not shown, and no shown tip has its id. So a kept `expandedTip` displays nothing. |

## Left out

- Scheduling with `setInterval`/`clearInterval` and effect cleanup: real time and the host's event loop are not modelled. Ticks and effect runs are the events `IntervalFired` and `EffectRan`, and the interval's lifetime is the guard in `Ticked`.
- `Alert.alert` display: the model records which alert (title and message) would be shown, not its presentation.
- All JSX rendering, the `StyleSheet` objects, labels, icons and colours. `TipsBrowser.IsExpanded` and `ShownTips` stand for what the list renders.
- `components/ParallaxScrollView.tsx`, `components/ThemedText.tsx` and `components/ThemedView.tsx`: presentation and floating-point animation, with no state logic.
- `components/Collapsible.tsx`: it holds one boolean expand flag (`isExpanded`, :12), which `toggleExpanded` negates (:15-25) and which drives a floating-point height animation. The flag is too trivial to model, and floating-point animation is not modelled.
- `components/StudyResource.tsx` and `components/ExternalLink.tsx`: calls to the operating system to open links, which is foreign I/O.
- `components/searchBar.tsx`: it only forwards the query text to its parent. No filtering by query happens in the code, so there is nothing to model.
- The class and assignment lists of the home screen at `app/(tabs)/index.tsx:57-100` (`toggleClass`, `toggleAssignment`, `addAssignment`, `upcomingAssignments`): they are outside the two components this model covers.
- `JsText.PadStart`: the model handles a single fill character only, which is the only form `formatTime` uses. JavaScript's `padStart` also accepts longer fill strings and truncates the last copy.
- `StudyTimer.FormatTime`, `JsText.NatToString`, `JsText.IntToString`: JavaScript numbers are doubles, and the model uses unbounded integers. From 1e21 on, `toString` switches to exponential notation, which the model does not capture. The counts the timer produces (0 to 1500) are exact and print as plain digits in both.
- `StudyTimer.Ticked`: it assumes that the effect's cleanup (`clearInterval`, `components/StudyTimer.tsx:21`) always runs before the interval can fire again. So a firing while not running or at zero is a no-op. In the source, a stale firing would decrement unconditionally and could take the count below zero. `StudyTimer.TicksStopAtZero` and the invariant `Inv` rest on this assumption.
