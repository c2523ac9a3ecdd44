# Metabase double-click legend toggle — a Dafny model

The userscript adds one gesture to Metabase chart legends. Double-clicking a
legend entry either shows every series again ("restore all"), or hides every
other series so that the double-clicked one stands alone ("solo"). Charts with
too many series collapse the rest behind a dropdown summary reading
"And <N> more". The script opens that popover and merges its buttons into the
working set before it decides what to do.

The model covers four parts of `script.js`:

- **Button collection** (`collector.dfy`, module `Collector`). `collectButtons`
  works on a JavaScript array in place. It removes disconnected buttons with a
  backwards `splice` loop, then appends each queried button the array does not
  already hold. The array is the class `ButtonList`, and the two loops are its
  method `Collect`. That method is proved against the function `Collected`.
  `Collected` is the survivors (`Pruned`) followed by the buttons not already
  present (`Unseen`).
- **The overflow test** (`overflow.dfy`, module `Overflow`). `/And \d+ more/.test`
  is a left-to-right search, proved equivalent to the pattern stated
  declaratively.
- **The double-click handler** (`double_click.dfy`, module `DoubleClick`). The
  handler's outcome is the ordered list of clicks it issues. `Action.Click(b)`
  is a click on legend button `b`. `Action.ClickSummary` is the synthetic
  mousedown and click on the dropdown summary. `Reconcile` is that list as a
  function of a `Gesture`, which gathers everything the outcome depends on.
  `HandleDoubleClick` runs the handler step by step, with each `forEach` a
  loop (`ClickMatching`), and is proved to produce `Reconcile`.
- **Wiring** (`wiring.dfy`, module `Wiring`). The class `Page` holds the
  `data-*` markers as sets of element ids and the listeners added so far as a
  log. `Page.Valid` says a marker is set exactly on the elements that got a
  listener, and that no element got two. Every wiring method keeps that
  invariant. `Rescanner` is the debounced rescan that page mutations trigger.

`dom.dfy` (module `Dom`) holds the shared vocabulary. A DOM element is a
`NodeId`. Whether it is attached is membership in a `set<NodeId>`. Its
`aria-label` is a `map<NodeId, string>` entry, and a missing entry means
`getAttribute` returns `null`. `scenarios.dfy` computes three example
double-clicks through the model: a restore-all, a solo of a hidden series, and
an overflow merge.

The closing `clickElement(dialogDiv)` calls (script.js:112-114, 129-131 and
142-144) run whenever the card has a summary and the handler was not wired
from the dropdown. They do not check that the summary's text matched
"And <N> more", so a summary that was never opened still gets clicked. The
model follows the code: `CloseClick` depends only on the summary being
present, while `OpenClick` also needs the text to match.

## Model

| member | source | states |
|---|---|---|
| Collector.PrunedSpec | script.js:32-37 | After the backwards splice loop, the buttons left are exactly those that were present and connected. They stay in their original relative order, and a list without duplicates stays without duplicates. |
| Collector.UnseenSpec | script.js:39-44 | The `includes`-guarded push adds exactly the found buttons not already present. It adds each only once and keeps query order. |
| Collector.CollectedSpec | script.js:31-45 | After `collectButtons`, a button is in the list iff it was there and is connected, or the popover query found it. The survivors come first, in their old order, and the new buttons follow in query order without repeating a survivor. Duplicate-freedom is preserved. |
| Collector.CollectIdempotent | script.js:31-45 | Collecting the same popover a second time, with connectivity unchanged, leaves the list as the first call left it, provided the popover's buttons are connected. |
| Collector.ButtonList.Collect | script.js:31-45 | The in-place splice and push loops leave exactly `Collected(old items, connected, found)` in the list. |
| Overflow.OverflowTextSpec | script.js:86 | The search succeeds iff the text contains "And ", one or more digits, then " more". |
| Scenarios.OverflowExamples | script.js:86 | "And 3 more" and "And 12 more series" match. "And more" and "Legend" do not. |
| DoubleClick.OthersSpec | script.js:100 | The other buttons are exactly the working set without the double-clicked button. |
| DoubleClick.ClicksForSpec | script.js:139-146 | One `forEach` clicks exactly the buttons whose label reads the given text, in order, and issues the per-click follow-up once per click. The first action, if any, is a button click. |
| DoubleClick.ClicksForThenSummary | script.js:139-146 | When the per-click follow-up is the summary click, each button click is followed at once by a summary click, and no summary click stands alone. |
| DoubleClick.ClicksForOnlyButtons | script.js:107-111 | A `forEach` without a follow-up issues button clicks only. |
| DoubleClick.ClickMatching | script.js:107-111 | The `forEach` loop over the other buttons issues exactly the clicks `ClicksFor` describes. |
| DoubleClick.HandleDoubleClick | script.js:79-148 | The handler, run step by step, issues exactly the clicks of `Reconcile`. That means opening the popover and merging its buttons (when the summary reads "And <N> more"), then restore-all or solo. |
| DoubleClick.RestoreAll | script.js:100-114 | When every other button reads "Show series", exactly the other buttons are clicked, in order, and never the double-clicked one. The opening summary click (if the popover is opened) comes first. Only button clicks follow, and the closing summary click (if a summary is present) comes last. |
| DoubleClick.SoloVisible | script.js:138-147 | Double-clicking a visible series when some other series is hidden clicks exactly the other buttons reading "Hide series", in order. After the opening click, each of those button clicks is followed at once by a summary click, and every summary click follows a button click (when a summary is present). Without a summary, only button clicks follow. |
| DoubleClick.SoloHidden | script.js:116-137 | Double-clicking a hidden series: once a poll reads "Show series", the button itself is clicked right after the opening summary click. Then exactly the other buttons reading "Hide series" 100 ms later are clicked, in order, and the closing summary click comes last. With no such poll, nothing follows the opening click. |
| DoubleClick.NoSummaryClickFromDropdown | script.js:85-147 | A handler wired from the dropdown never clicks the summary. |
| DoubleClick.OpenClickFirst | script.js:85-98 | The summary is clicked first iff its text reads "And <N> more" and the handler was not wired from the dropdown. Otherwise the first click, if any, is on a legend button. |
| Scenarios.RestoreAllScenario | script.js:100-114 | One visible series and two hidden ones, double-clicking the visible one: the two hidden ones are clicked, in order. |
| Scenarios.SoloScenario | script.js:116-137 | One hidden series and two visible ones, double-clicking the hidden one: it is clicked, then the other two are hidden. |
| Scenarios.OverflowMergeScenario | script.js:85-114 | One visible series plus "And 3 more": the summary is clicked, the three popover buttons are merged and clicked, then the summary is clicked again. |
| Wiring.Page.WireButton | script.js:70-73 | One `forEach` step: an unmarked button is marked and gets one `dblclick` listener. A marked button is skipped. |
| Wiring.Page.AddDoubleClickHandlers | script.js:69-74 | Exactly the not-yet-marked buttons get a `dblclick` listener, once each, in order. Afterwards every given button is marked, and the invariant holds. |
| Wiring.Page.AttachDropdownHandler | script.js:154-159 | A card without a summary, or with an already marked one, gets nothing. Otherwise the summary is marked and gets one `click` listener. |
| Wiring.Page.WireCard | script.js:181-189 | One card of the scan: a card without buttons is skipped. Otherwise its buttons and then its summary are wired. |
| Wiring.Page.ScanCards | script.js:178-190 | The listeners a scan adds are `ScanListeners` of the cards and the old markers. Every scanned button and wired summary ends up marked, and no element gets two listeners. |
| Wiring.RescanAddsNothing | script.js:178-190 | Scanning the same cards again, with the markers the first scan left, adds no listener. |
| Wiring.Page.OnDropdownClick | script.js:160-174 | A trusted click that finds no popover open, and whose wait succeeds, merges the popover's buttons into the card's list. It then wires the unmarked ones as dropdown handlers. An untrusted click, an open popover or a timed-out wait change nothing. |
| Wiring.Rescanner.constructor | script.js:209 | The first scan runs with no timeout pending. |
| Wiring.Rescanner.ScheduleScan | script.js:212-218 | While a timeout is pending a mutation changes nothing. Otherwise exactly one timeout is armed. At most one is ever pending. |
| Wiring.Rescanner.TimeoutFires | script.js:214-217 | The firing timeout clears the pending handle, then rescans with the scan's effect on listeners and markers. |

## Left out

- `waitForElement` (script.js:48-66) polls the document on a timer. The model reduces it to its outcome, an `Option`: the popover's buttons, or `None` when the wait timed out.
- The 200 ms `setInterval` poll and its 2 s cutoff (script.js:118-137) become two inputs. `pollReadsShow` says whether some poll read "Show series" in time. `lateLabels` gives the labels 100 ms after that poll clicked the button.
- `clickElement` (script.js:24-28) is the single action `ClickSummary`. The separate mousedown and click events are not modelled.
- How the host page reacts to a click is not modelled. The labels are inputs, as snapshots: `labels` when the decision is taken and `lateLabels` 100 ms after the poll's click.
- Labels are assumed not to change while one synchronous loop runs. Each `forEach` (script.js:107-111, 124-128 and 139-146) reads the labels after its own earlier `b.click()` and `clickElement` calls, but `ClicksFor` reads all of them from one snapshot. In restore-all, the `every` check (script.js:101-104) and the loop also share that snapshot. The model therefore captures the host page's reaction to a click only after the handler yields, not between the clicks of one loop.
- `e.stopPropagation()` and `e.preventDefault()` have no observable effect in the model.
- `console.warn` on a failed wait is not modelled.
- Two double-clicks whose asynchronous parts overlap are not interleaved. Each gesture is modelled on its own.
- Page-path routing and the initial 30 s wait for the visualization root (script.js:193-207) are not modelled. `Rescanner.constructor` starts from a root already found.
- The `MutationObserver` setup (script.js:220-227) is not modelled; `ScheduleScan` stands for each of its callbacks.
- `collectButtons`' `fromDropdown` parameter is not modelled, because the function never reads it.
- `Wiring.Page.OnDropdownClick`'s caller supplies the `ButtonList` that the listener captured. The model does not track which array each listener closed over.
