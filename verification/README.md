# Fernhill smart-bin dashboard: telemetry reconciliation in Dafny

This project models the in-memory state of the Fernhill IoT dashboard
(`App.tsx`). That state is the roster of waste-bin devices, the list of
operator alerts, and the view history behind the back button. The model
covers the handlers that change this state:

- **Telemetry.** A message on `fernhill/bins/<id>/telemetry` merges the optional
  `fillLevel`/`batteryLevel` into every device with that id. It then re-derives
  the device's status from the device's own warning and critical thresholds,
  and reconciles the alerts of the last device the update reached.
- **Alerts.** Each device has at most one `<id>-critical-fill` and one
  `<id>-low-battery` alert. An alert is appended when its condition holds and
  its key is absent. It is removed when the condition fails, or when the
  operator dismisses it.
- **Operator handlers.** Device delete, update and add; `navigate` and
  `goBack`; the device-log append and clear.
- **Derived views.** The battery colour band and the list of devices not yet
  placed on a floor plan.

Modules, by concept:

- `Sequences`: two facts about sequence concatenation that the order proofs of the filters use.
- `Topics`: splits a topic on `/` with JavaScript `split` semantics and parses telemetry topics.
- `Devices`: device records, the status rule, merging one reading, and applying it to the roster.
- `Alerts`: alert keys and messages, and one reconciliation step per condition.
- `Reconciler`: the whole message handler as a function on a roster/alerts snapshot.
- `Roster`: the device-management handlers and the battery colour.
- `FloorMaps`: the unplaced-device filter.
- `Navigation`: the view history.
- `LogViewer`: the bounded telemetry log and its state class.
- `App`: the `AppState` class. It holds view, history, roster and alerts, and each handler is a method on it.

Each `AppState` method is proved against the pure function of the same handler.
The properties are proved as lemmas about those functions:

- Each alert key is present exactly when its condition holds.
- Alert keys stay distinct.
- Alerts of other devices keep their places and order.
- Receiving a message twice is the same as receiving it once.
- Unknown topics and unknown ids change nothing.
- With distinct device ids, every message keeps all alerts in step with the roster.
- Consecutive history entries always differ.

## Model

| member | source | states |
|---|---|---|
| Topics.Split | App.tsx:1344 | `topic.split('/')` always yields at least one piece, and no piece contains the separator |
| Topics.JoinSplit | App.tsx:1344 | joining the pieces of a split with the separator gives back the original topic |
| Topics.SplitJoin | App.tsx:1344 | splitting the join of separator-free pieces gives back exactly those pieces |
| Topics.ParseTopic | App.tsx:1344-1347 | a topic is accepted only if it splits into exactly four pieces `fernhill`, `bins`, `<id>`, `telemetry`; the id then contains no `/` |
| Topics.ParseTopicIff | App.tsx:1344-1347 | a topic yields id `x` if and only if it is `fernhill/bins/x/telemetry` and `x` has no `/` |
| Devices.DerivedStatus | App.tsx:1357-1359 | Critical iff fill >= critical level; Warning iff warning level <= fill < critical level; Operational iff fill is below both |
| Devices.DerivedStatusMonotone | App.tsx:1357-1359 | a higher fill level never yields a less urgent status, whatever the thresholds |
| Devices.WarningUnreachableWhenInverted | App.tsx:1357-1359 | when the warning level is above the critical level, Warning is never derived |
| Devices.Merge | App.tsx:1354-1361 | an absent field keeps the old level and a present one replaces it; the status is re-derived from the device's own thresholds; every other field is copied |
| Devices.MergeIdempotent | App.tsx:1354-1361 | merging the same reading twice equals merging it once |
| Devices.MergeEmptyRederives | App.tsx:1354-1361 | a reading with neither field leaves a device whose status already follows the rule unchanged |
| Devices.ApplyToRoster | App.tsx:1351-1363 | the roster keeps its length, order and ids; every device with the topic's id gets the merged reading and every other device is unchanged |
| Devices.ApplyToRosterUnknownId | App.tsx:1351-1352 | a reading for an id not on the roster leaves the roster unchanged |
| Devices.ApplyToRosterIdempotent | App.tsx:1351-1363 | applying the same reading twice gives the same roster as once |
| Devices.LastIndex | App.tsx:1350-1362 | the device the update reached last: it has the id and no later device does; -1 when no device matches |
| Devices.LastIndexUnique | App.tsx:1350-1362 | with distinct ids, the last match is the one device with that id |
| Devices.InitialDevices | App.tsx:92-97 | the four seed bins have distinct ids, and each stored status follows the fill-level rule |
| Alerts.CriticalFillKey | App.tsx:1295 | `${deviceId}-critical-fill`: the device id followed by the suffix `-critical-fill`; `Alerts.KeysInjective` proves the key names its device |
| Alerts.LowBatteryKey | App.tsx:1309 | `${deviceId}-low-battery`: the device id followed by the suffix `-low-battery`; `Alerts.KeysInjective` proves the key names its device and never equals a critical-fill key |
| Alerts.KeysInjective | App.tsx:1295-1309 | a critical-fill key determines its device, a low-battery key determines its device, and the two kinds never share a key |
| Alerts.CriticalFillAlert | App.tsx:1300-1303 | the critical alert carries the key `<id>-critical-fill` and the device id |
| Alerts.LowBatteryAlert | App.tsx:1315-1318 | the low-battery alert carries the key `<id>-low-battery` and the device id |
| Alerts.NatToString | App.tsx:1317 | the printed level is a non-empty string of decimal digits with no leading zero |
| Alerts.NatToStringValue | App.tsx:1317 | reading the printed digits back as a decimal number gives the level |
| Alerts.IntToString | App.tsx:1317 | `${batteryLevel}`: a minus sign exactly when the level is negative, followed by at least one digit |
| Alerts.IntToStringValue | App.tsx:1317 | the printed digits denote the magnitude of the level |
| Alerts.HasIdIff | App.tsx:1297 | `.some(n => n.id === key)` (here and at line 1312) holds iff some alert in the list has that key |
| Alerts.Without | App.tsx:1305 | `filter` by key: keeps exactly the alerts whose key is not removed, and never grows the list |
| Alerts.Step | App.tsx:1297-1321 | one condition's branch (critical fill, then low battery with its own key, condition and alert): when the new alert carries the step's key, every alert with another key is present afterwards iff it was before; the list grows by at most one |
| Alerts.StepPresentIff | App.tsx:1297-1306 | after one condition's step, its key is present iff the condition holds |
| Alerts.StepShape | App.tsx:1297-1306 | one step removes at most its own key, keeps the rest in order, and appends the new alert at the end |
| Alerts.Reconcile | App.tsx:1289-1325 | `updateNotifications` for one device: alerts with keys other than the device's two are present afterwards iff they were before, and at most two alerts are added |
| Alerts.ReconcilePresentIff | App.tsx:1295-1321 | after reconciliation, `<id>-critical-fill` is present iff the status is Critical, and `<id>-low-battery` is present iff battery <= 20 |
| Alerts.ReconcileKeepsUnique | App.tsx:1297-1321 | if alert keys were distinct before reconciliation, they still are afterwards: no key is inserted twice |
| Alerts.ReconcileShape | App.tsx:1291-1323 | the result is the old list without the device's stale keys, in order, followed by the missing alerts: critical first, then low battery |
| Alerts.ReconcileFrame | App.tsx:1291-1323 | alerts whose key is not one of the device's two keys are unchanged and stay in their relative order |
| Alerts.ReconcileOtherKey | App.tsx:1291-1323 | the presence of any key other than the device's two is not changed |
| Alerts.ReconcileIdempotent | App.tsx:1289-1325 | reconciling the same device twice equals reconciling it once |
| Alerts.Dismiss | App.tsx:1399-1401 | dismissal removes exactly the alerts with the given key, keeps the others in order, and leaves every other key's presence unchanged |
| Alerts.DismissedAlertReturns | App.tsx:1297-1303 | a dismissed critical alert reappears at the next reconciliation while the device is still Critical |
| Reconciler.Receive | App.tsx:1340-1371 | unknown topics and unparsable payloads change nothing; the roster keeps its length and ids; only the devices with the topic's id change, each by the merge |
| Reconciler.ReceiveUnknownId | App.tsx:1351-1352 | a message whose id is not on the roster leaves both roster and alerts unchanged |
| Reconciler.ReceiveReconcilesReached | App.tsx:1349-1370 | for a parsed topic and payload: if no device has the id the alerts are unchanged; otherwise the last device reached has its critical-fill key present iff its merged status is Critical and its low-battery key present iff its merged battery is <= 20; all other alerts keep their values and order |
| Reconciler.ReceiveIdempotent | App.tsx:1349-1370 | receiving the same message twice gives the same roster and alert list as receiving it once |
| Reconciler.ReceiveKeepsUniqueAlerts | App.tsx:1365-1366 | alert keys stay distinct across any message |
| Reconciler.ReceiveKeepsStatusesDerived | App.tsx:1357-1361 | if every stored status follows the rule before a message, it still does after it |
| Reconciler.OtherDeviceUnaffected | App.tsx:1295-1321 | reconciling one device leaves both alert keys of any other device id as they were |
| Reconciler.ReceiveKeepsInSync | App.tsx:1349-1370 | with distinct device ids, if every device's two alerts match its conditions before a message, they still do after it |
| Reconciler.ScenarioCriticalLowBattery | App.tsx:1340-1371 | a bin reporting fill 96 and battery 10 on its topic becomes Critical, and exactly its two alerts appear, critical first |
| Reconciler.ScenarioRecovered | App.tsx:1340-1371 | the same bin then reporting fill 40 and battery 60 loses both alerts |
| Reconciler.CriticalThenRecoveredScenario | App.tsx:1340-1371 | a bin with thresholds 80/95: after (96, 10) it is Critical with both alerts; after (40, 60) it is Operational with none |
| Roster.Deleted | App.tsx:409-414 | deletion keeps exactly the devices with another id; with no device of that id the roster is unchanged |
| Roster.DeletedKeepsUnique | App.tsx:411 | deleting keeps device ids distinct |
| Roster.DeletedAppend | App.tsx:411 | `filter` works entry by entry: deleting from a concatenation is the concatenation of the deletions, so the kept devices stay in roster order |
| Roster.Updated | App.tsx:418 | saving an edit keeps length and ids, replaces every device with the saved id, and leaves the others unchanged |
| Roster.UpdatedUnknownId | App.tsx:418 | saving a record whose id is not on the roster changes nothing |
| Roster.UpdatedKeepsUnique | App.tsx:418 | saving an edit keeps device ids distinct |
| Roster.Added | App.tsx:420 | adding appends the record after the unchanged roster |
| Roster.AddedKeepsUniqueIff | App.tsx:420 | adding keeps device ids distinct iff the new id is not already on the roster; the handler does not check this |
| Roster.BatteryStyle | App.tsx:384-388 | red iff level < 20; orange iff 20 <= level < 50; green iff level >= 50 |
| Roster.BatteryStyleMonotone | App.tsx:384-388 | a higher battery level never shows a more alarming colour |
| Roster.RedBatteryIsLowBattery | App.tsx:384-388 | a red battery always meets the low-battery alert condition (<= 20); at exactly 20 the alert fires but the colour is orange |
| FloorMaps.PlacedIds | App.tsx:932 | the ids of all pins on all floors, and nothing else |
| FloorMaps.Unplaced | App.tsx:933 | a device is offered iff it is on the roster and no floor has a pin with its id; the offered devices keep roster order (`FloorMaps.WithoutIdsAppend`) |
| FloorMaps.WithoutIds | App.tsx:933 | the `filter`: keeps exactly the devices whose id is not placed, and never grows the list; order is pinned by `FloorMaps.WithoutIdsAppend` |
| FloorMaps.WithoutIdsAppend | App.tsx:933 | the filter works device by device: filtering a concatenation is the concatenation of the filtered parts, so the kept devices stay in roster order |
| FloorMaps.NothingPlacedWithoutFloors | App.tsx:932-933 | with no floor plans, every device is unplaced, in roster order |
| Navigation.Navigated | App.tsx:1382-1387 | the new view becomes the last entry; it is appended only when it differs from the current view; the old history is kept as a prefix; consecutive entries stay distinct |
| Navigation.WentBack | App.tsx:1389-1397 | going back removes only the last entry and never empties a non-empty history; it acts iff the history has more than one entry (the back button's `history.length > 1`, App.tsx:1435); consecutive entries stay distinct |
| Navigation.NavigateThenBack | App.tsx:1382-1397 | going back right after moving to a new view restores the previous history |
| Navigation.BackChangesView | App.tsx:1389-1397 | when consecutive entries differ, going back always changes the current view |
| LogViewer.AppendLogAsWritten | App.tsx:1194 | the code as written: exactly the last 200 old entries (all of them when fewer), then the new entry |
| LogViewer.LastN | App.tsx:1194 | `slice(-200)`: the last 200 entries, or all of them when there are fewer, as a suffix of the log |
| LogViewer.AsWrittenExceedsLimit | App.tsx:1194 | once 200 entries are held, the append as written holds 201 |
| LogViewer.AppendLog | App.tsx:1194 | corrected append: at most 200 entries, the new entry last, and a suffix of the old log plus the new entry |
| LogViewer.AppendLogWindow | App.tsx:1194 | the corrected log is always exactly the last 200 messages received |
| LogViewer.TelemetryLog.constructor | App.tsx:1151 | the page's log starts empty |
| LogViewer.TelemetryLog.Append | App.tsx:1186-1194 | the page's log becomes the corrected append of the new entry and stays within 200 entries |
| LogViewer.TelemetryLog.Clear | App.tsx:1222-1223 | clearing empties the log |
| App.AppState.constructor | App.tsx:1284-1287 | starts on the dashboard view with history `[dashboard]`, the seed roster and no alerts |
| App.AppState.UpdateNotifications | App.tsx:1289-1325 | the imperative update equals `Reconcile`; both keys follow their conditions; other alerts are unchanged and in order; keys stay distinct |
| App.AppState.HandleMessage | App.tsx:1340-1371 | roster and alerts become exactly what `Receive` gives for the message |
| App.AppState.DismissNotification | App.tsx:1399-1401 | the alert list becomes `Dismiss` of the old one; keys stay distinct |
| App.AppState.Navigate | App.tsx:1382-1387 | the view becomes the new view and the history `Navigated`; the view stays the last history entry |
| App.AppState.GoBack | App.tsx:1389-1397 | the history becomes `WentBack` of the old one; the view stays the last history entry |
| App.AppState.DeleteDevice | App.tsx:409-414 | the roster becomes `Deleted` of the old one |
| App.AppState.SaveDevice | App.tsx:416-424 | the roster becomes `Updated` of the old one when editing and `Added` otherwise |

## Findings

| source | as written | input that shows it | evidently intended | confidence | as-written member | corrected member |
|---|---|---|---|---|---|---|
| App.tsx:1194 | `[...prevLogs.slice(-200), newLog]` keeps the last 200 old entries and then adds one more | any append to a log that already holds 200 entries leaves 201 | the comment on that line says "Keep last 200 logs": the log should hold at most 200 entries, the newest last | medium, not executed | LogViewer.AsWrittenExceedsLimit | LogViewer.AppendLogWindow |

`LogViewer.AppendLogAsWritten` models the line as written. The
`TelemetryLog` class uses the corrected `LogViewer.AppendLog`.

## Left out

- MQTT connection, subscription, error and close handlers and `client.end()` (App.tsx:1327-1380, 1165-1233) are network I/O. The model starts from the delivered `(topic, payload)` event.
- UTF-8 decoding and `JSON.parse` of payloads (App.tsx:1342-1343) are left out. A payload that fails to parse is `None`, and such a message changes nothing.
- Payload fields are integers. JSON numbers that are fractional, or that are not numbers at all (strings, `NaN`), are not modelled.
- A payload that parses to JSON `null` makes `telemetry.fillLevel` throw inside the state updater. That path is not modelled.
- Timestamps (`new Date().toISOString()`) are a clock. The log entry is passed in whole.
- Random ids of new devices and users (App.tsx:245, 515) are nondeterministic. A saved device arrives complete.
- The form that builds the saved device record (App.tsx:236-262) is not modelled. That includes its `||` defaults: an edited device with battery 0 is saved with battery 100, and its status is kept even when the thresholds change.
- Floor-plan pin coordinates, dragging and clamping (App.tsx:767-796, 867-874) are floating-point geometry. Pin coordinates are carried as reals and never computed on.
- Floor-plan upload through `FileReader` (App.tsx:907-930) is browser I/O.
- All rendering, modals and style maps are left out. So is the user-management page.
- components/ArchitectureDiagram.tsx is left out. It renders static mock data, and its "Mark as Emptied" button has no handler, so there is no emptied transition to model.
- React scheduling is left out. Each handler runs to completion before the next, as in one event loop. The stale `history` closure in `goBack` (it reads the rendered `history`, not a functional update) therefore does not arise.
- Devices.DerivedStatus: the source compares JavaScript numbers; here fill levels and thresholds are unbounded integers.
- Reconciler.ReceiveKeepsInSync: requires distinct device ids. The add handler does not enforce them (`Roster.AddedKeepsUniqueIff`). With duplicates, the source reconciles alerts only for the last matching device, as `LastIndex` models.
- The seed roster starts with no alerts, although SB-103 is Critical at 15% battery. Alerts appear only after that bin's first telemetry message, so `Reconciler.InSync` does not hold initially.
- LogViewer.TelemetryLog.Append: keeps the log within 200 entries by the corrected append (`LogViewer.AppendLog`). The page as written (App.tsx:1194) holds 201 entries once the log is full; that behaviour is modelled only by `LogViewer.AppendLogAsWritten` and `LogViewer.AsWrittenExceedsLimit`, not by the state class.
- Alerts.IntToString: prints every integer in plain decimal. JavaScript switches to exponent form at magnitude 10^21 and above (`${-1e21}` is `-1e+21`), which could only reach the low-battery message for a level of -10^21 or below.
