/**
 * The dashboard's single state container: the current view and its history,
 * the device roster and the alert list. Each handler replaces these
 * collections as the React state setters do.
 */
module App {
  import opened Options
  import opened Topics
  import opened Devices
  import opened Alerts
  import opened Reconciler
  import opened Roster
  import opened Navigation

  class AppState {
    var view: View
    var history: seq<View>
    var devices: seq<Device>
    var notifications: seq<Notification>

    /** The current view is the last history entry and alert keys are distinct. */
    ghost predicate Valid()
      reads this
    {
      && |history| >= 1
      && view == Last(history)
      && NoAdjacentRepeats(history)
      && Alerts.UniqueIds(notifications)
    }

    constructor ()
      ensures Valid()
      ensures view == Dashboard && history == [Dashboard]
      ensures devices == InitialDevices() && notifications == []
    {
      view := Dashboard;
      history := [Dashboard];
      devices := InitialDevices();
      notifications := [];
    }

    /**
     * `updateNotifications`: brings the two alerts of `d` in line with its
     * status and battery level, leaving every other alert where it was.
     */
    method UpdateNotifications(d: Device)
      requires Valid()
      modifies this`notifications
      ensures Valid()
      ensures notifications == Reconcile(old(notifications), d)
      ensures HasId(notifications, CriticalFillKey(d.id)) <==> d.status == Critical
      ensures HasId(notifications, LowBatteryKey(d.id)) <==> d.batteryLevel <= LowBatteryThreshold
      ensures Without(notifications, DeviceKeys(d.id)) == Without(old(notifications), DeviceKeys(d.id))
    {
      var current := notifications;

      var criticalFillId := CriticalFillKey(d.id);
      var isCritical := d.status == Critical;
      var hasCriticalFill := HasId(current, criticalFillId);
      if isCritical && !hasCriticalFill {
        current := current + [CriticalFillAlert(d.id)];
      } else if !isCritical && hasCriticalFill {
        current := Without(current, {criticalFillId});
      }
      assert current == Step(notifications, criticalFillId, isCritical, CriticalFillAlert(d.id));

      var lowBatteryId := LowBatteryKey(d.id);
      var isLowBattery := d.batteryLevel <= LowBatteryThreshold;
      var hasLowBattery := HasId(current, lowBatteryId);
      if isLowBattery && !hasLowBattery {
        current := current + [LowBatteryAlert(d.id, d.batteryLevel)];
      } else if !isLowBattery && hasLowBattery {
        current := Without(current, {lowBatteryId});
      }

      assert current == Reconcile(notifications, d);
      ReconcilePresentIff(notifications, d);
      ReconcileKeepsUnique(notifications, d);
      ReconcileFrame(notifications, d);
      notifications := current;
    }

    /** The MQTT `message` callback, once the payload has been decoded and parsed. */
    method HandleMessage(topic: string, payload: Option<Telemetry>)
      requires Valid()
      modifies this`devices, this`notifications
      ensures Valid()
      ensures Snapshot(devices, notifications)
              == Receive(Snapshot(old(devices), old(notifications)), Message(topic, payload))
    {
      var parsed := ParseTopic(topic);
      if parsed.Some? && payload.Some? {
        var deviceId, t := parsed.value, payload.value;
        var newDevices := ApplyToRoster(devices, deviceId, t);
        var target := LastIndex(devices, deviceId);
        if target >= 0 {
          UpdateNotifications(Merge(devices[target], t));
        }
        devices := newDevices;
      }
    }

    /** `handleDismissNotification`. */
    method DismissNotification(id: string)
      requires Valid()
      modifies this`notifications
      ensures Valid()
      ensures notifications == Dismiss(old(notifications), id)
    {
      WithoutKeepsUnique(notifications, {id});
      notifications := Dismiss(notifications, id);
    }

    /** `navigate`. */
    method Navigate(newView: View)
      requires Valid()
      modifies this`view, this`history
      ensures Valid()
      ensures view == newView && history == Navigated(old(history), newView)
    {
      if newView != view {
        view := newView;
        history := history + [newView];
      }
    }

    /** `goBack`. */
    method GoBack()
      requires Valid()
      modifies this`view, this`history
      ensures Valid()
      ensures history == WentBack(old(history))
    {
      var newHistory := history;
      if |newHistory| > 0 {
        newHistory := newHistory[..|newHistory| - 1];
      }
      if |newHistory| > 0 {
        view := newHistory[|newHistory| - 1];
        history := newHistory;
      }
    }

    /** `handleDeleteConfirm`. */
    method DeleteDevice(deviceId: string)
      requires Valid()
      modifies this`devices
      ensures Valid()
      ensures devices == Deleted(old(devices), deviceId)
    {
      devices := Deleted(devices, deviceId);
    }

    /** `handleSaveDevice`: an edit replaces by id, a new record is appended. */
    method SaveDevice(data: Device, editing: bool)
      requires Valid()
      modifies this`devices
      ensures Valid()
      ensures devices == if editing then Updated(old(devices), data) else Added(old(devices), data)
    {
      if editing {
        devices := Updated(devices, data);
      } else {
        devices := devices + [data];
      }
    }
  }
}
