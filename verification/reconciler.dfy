/**
 * The telemetry message handler of the dashboard: a message on a telemetry
 * topic with a parsed payload updates the roster and then reconciles the
 * alerts of the device it reached.
 */
module Reconciler {
  import opened Options
  import opened Topics
  import opened Devices
  import opened Alerts

  /** A delivered MQTT message; `payload` is None when the JSON could not be parsed. */
  datatype Message = Message(topic: string, payload: Option<Telemetry>)

  /** The two collections the handler replaces. */
  datatype Snapshot = Snapshot(roster: seq<Device>, alerts: seq<Notification>)

  /** The handler: unknown topics, unparsable payloads and unknown ids change nothing. */
  function Receive(s: Snapshot, m: Message): (r: Snapshot)
    ensures |r.roster| == |s.roster| && Devices.Ids(r.roster) == Devices.Ids(s.roster)
    ensures ParseTopic(m.topic).None? || m.payload.None? ==> r == s
    ensures ParseTopic(m.topic).Some? && m.payload.Some? ==>
              forall i :: 0 <= i < |s.roster| ==>
                r.roster[i] == if s.roster[i].id == ParseTopic(m.topic).value
                               then Merge(s.roster[i], m.payload.value) else s.roster[i]
  {
    match ParseTopic(m.topic)
    case None => s
    case Some(deviceId) =>
      match m.payload
      case None => s
      case Some(t) =>
        var k := LastIndex(s.roster, deviceId);
        Snapshot(ApplyToRoster(s.roster, deviceId, t),
                 if k < 0 then s.alerts else Reconcile(s.alerts, Merge(s.roster[k], t)))
  }

  /** A message for a device that is not on the roster leaves roster and alerts unchanged. */
  lemma ReceiveUnknownId(s: Snapshot, m: Message)
    requires ParseTopic(m.topic).Some? && ParseTopic(m.topic).value !in Devices.Ids(s.roster)
    ensures Receive(s, m) == s
  {
    var deviceId := ParseTopic(m.topic).value;
    if m.payload.Some? {
      ApplyToRosterUnknownId(s.roster, deviceId, m.payload.value);
    }
  }

  /**
   * An accepted message reconciles the alerts of the last device it reached:
   * that device's two keys then follow its merged status and battery, and
   * every other alert keeps its place and order. With no device reached the
   * alerts are untouched.
   */
  lemma ReceiveReconcilesReached(s: Snapshot, m: Message)
    requires ParseTopic(m.topic).Some? && m.payload.Some?
    ensures LastIndex(s.roster, ParseTopic(m.topic).value) < 0 ==> Receive(s, m).alerts == s.alerts
    ensures var id, k, r := ParseTopic(m.topic).value, LastIndex(s.roster, ParseTopic(m.topic).value), Receive(s, m);
            k >= 0 ==> (HasId(r.alerts, CriticalFillKey(id)) <==> r.roster[k].status == Critical)
    ensures var id, k, r := ParseTopic(m.topic).value, LastIndex(s.roster, ParseTopic(m.topic).value), Receive(s, m);
            k >= 0 ==> (HasId(r.alerts, LowBatteryKey(id)) <==> r.roster[k].batteryLevel <= LowBatteryThreshold)
    ensures var id := ParseTopic(m.topic).value;
            Without(Receive(s, m).alerts, DeviceKeys(id)) == Without(s.alerts, DeviceKeys(id))
  {
    var id, t := ParseTopic(m.topic).value, m.payload.value;
    var k := LastIndex(s.roster, id);
    if k >= 0 {
      var d := Merge(s.roster[k], t);
      assert d.id == id;
      ReconcilePresentIff(s.alerts, d);
      ReconcileFrame(s.alerts, d);
    }
  }

  /** Receiving the same message twice gives the same roster and alerts as receiving it once. */
  lemma ReceiveIdempotent(s: Snapshot, m: Message)
    ensures Receive(Receive(s, m), m) == Receive(s, m)
  {
    var once := Receive(s, m);
    if ParseTopic(m.topic).Some? && m.payload.Some? {
      var deviceId, t := ParseTopic(m.topic).value, m.payload.value;
      ApplyToRosterIdempotent(s.roster, deviceId, t);
      var k := LastIndex(s.roster, deviceId);
      var k' := LastIndex(once.roster, deviceId);
      assert k' == k by {
        assert forall j :: 0 <= j < |s.roster| ==> once.roster[j].id == s.roster[j].id by {
          forall j | 0 <= j < |s.roster| ensures once.roster[j].id == s.roster[j].id {
            assert Devices.Ids(once.roster)[j] == Devices.Ids(s.roster)[j];
          }
        }
      }
      if k >= 0 {
        MergeIdempotent(s.roster[k], t);
        ReconcileIdempotent(s.alerts, Merge(s.roster[k], t));
      }
    }
  }

  /** Alert keys stay distinct through every message. */
  lemma ReceiveKeepsUniqueAlerts(s: Snapshot, m: Message)
    requires Alerts.UniqueIds(s.alerts)
    ensures Alerts.UniqueIds(Receive(s, m).alerts)
  {
    if ParseTopic(m.topic).Some? && m.payload.Some? {
      var k := LastIndex(s.roster, ParseTopic(m.topic).value);
      if k >= 0 {
        ReconcileKeepsUnique(s.alerts, Merge(s.roster[k], m.payload.value));
      }
    }
  }

  lemma ReceiveKeepsStatusesDerived(s: Snapshot, m: Message)
    requires AllStatusesDerived(s.roster)
    ensures AllStatusesDerived(Receive(s, m).roster)
  {
  }

  /** For every device on the roster, each of its alert keys is present exactly when its condition holds. */
  predicate InSync(s: Snapshot) {
    forall i :: 0 <= i < |s.roster| ==>
      && (HasId(s.alerts, CriticalFillKey(s.roster[i].id)) <==> s.roster[i].status == Critical)
      && (HasId(s.alerts, LowBatteryKey(s.roster[i].id)) <==> s.roster[i].batteryLevel <= LowBatteryThreshold)
  }

  /** Reconciling one device leaves the alert keys of a device with another id as they were. */
  lemma OtherDeviceUnaffected(alerts: seq<Notification>, d: Device, otherId: string)
    requires otherId != d.id
    ensures HasId(Reconcile(alerts, d), CriticalFillKey(otherId)) == HasId(alerts, CriticalFillKey(otherId))
    ensures HasId(Reconcile(alerts, d), LowBatteryKey(otherId)) == HasId(alerts, LowBatteryKey(otherId))
  {
    KeysInjective(otherId, d.id);
    KeysInjective(d.id, otherId);
    ReconcileOtherKey(alerts, d, CriticalFillKey(otherId));
    ReconcileOtherKey(alerts, d, LowBatteryKey(otherId));
  }

  /** The sync condition for one device after a message that reached device `roster[k]`. */
  lemma InSyncAt(roster: seq<Device>, alerts: seq<Notification>, deviceId: string, t: Telemetry, k: int, i: int)
    requires Devices.UniqueIds(roster)
    requires 0 <= k < |roster| && roster[k].id == deviceId && 0 <= i < |roster|
    requires HasId(alerts, CriticalFillKey(roster[i].id)) <==> roster[i].status == Critical
    requires HasId(alerts, LowBatteryKey(roster[i].id)) <==> roster[i].batteryLevel <= LowBatteryThreshold
    ensures var e := ApplyToRoster(roster, deviceId, t)[i];
            var after := Reconcile(alerts, Merge(roster[k], t));
            && (HasId(after, CriticalFillKey(e.id)) <==> e.status == Critical)
            && (HasId(after, LowBatteryKey(e.id)) <==> e.batteryLevel <= LowBatteryThreshold)
  {
    var d := Merge(roster[k], t);
    if roster[i].id == deviceId {
      assert i == k;
      ReconcilePresentIff(alerts, d);
    } else {
      OtherDeviceUnaffected(alerts, d, roster[i].id);
    }
  }

  /** The roster and alert updates of a message that reached the device at `roster[k]` keep them in sync. */
  lemma ReachedKeepsInSync(roster: seq<Device>, alerts: seq<Notification>, deviceId: string, t: Telemetry, k: int)
    requires Devices.UniqueIds(roster) && InSync(Snapshot(roster, alerts))
    requires 0 <= k < |roster| && roster[k].id == deviceId
    ensures InSync(Snapshot(ApplyToRoster(roster, deviceId, t), Reconcile(alerts, Merge(roster[k], t))))
  {
    var after := Reconcile(alerts, Merge(roster[k], t));
    var updated := ApplyToRoster(roster, deviceId, t);
    forall i | 0 <= i < |updated|
      ensures HasId(after, CriticalFillKey(updated[i].id)) <==> updated[i].status == Critical
      ensures HasId(after, LowBatteryKey(updated[i].id)) <==> updated[i].batteryLevel <= LowBatteryThreshold
    {
      InSyncAt(roster, alerts, deviceId, t, k, i);
    }
  }

  /**
   * With distinct device ids, a message keeps the alerts in step with the
   * roster: the reached device's alerts follow its new levels and the other
   * devices' alerts are untouched.
   */
  lemma ReceiveKeepsInSync(s: Snapshot, m: Message)
    requires Devices.UniqueIds(s.roster) && InSync(s)
    ensures InSync(Receive(s, m))
  {
    if ParseTopic(m.topic).Some? && m.payload.Some? {
      var deviceId := ParseTopic(m.topic).value;
      var k := LastIndex(s.roster, deviceId);
      if k >= 0 {
        ReachedKeepsInSync(s.roster, s.alerts, deviceId, m.payload.value, k);
      } else {
        ApplyToRosterUnknownId(s.roster, deviceId, m.payload.value);
      }
    }
  }

  /** The first message of the scenario below: the bin turns Critical and both of its alerts appear. */
  lemma ScenarioCriticalLowBattery(d: Device, topic: string)
    requires '/' !in d.id && d.criticalLevel <= 96 && topic == TelemetryTopic(d.id)
    ensures Receive(Snapshot([d], []), Message(topic, Some(Telemetry(Some(96), Some(10)))))
            == Snapshot([Merge(d, Telemetry(Some(96), Some(10)))], [CriticalFillAlert(d.id), LowBatteryAlert(d.id, 10)])
  {
    ParseTopicIff(topic, d.id);
    var d1 := Merge(d, Telemetry(Some(96), Some(10)));
    assert LastIndex([d], d.id) == 0;
    ReconcileShape([], d1);
  }

  /** The second message of the scenario below: the bin recovers and both alerts are removed. */
  lemma ScenarioRecovered(d: Device, topic: string)
    requires '/' !in d.id && 40 < d.warningLevel && 40 < d.criticalLevel && topic == TelemetryTopic(d.id)
    ensures Receive(Snapshot([d], [CriticalFillAlert(d.id), LowBatteryAlert(d.id, 10)]),
                    Message(topic, Some(Telemetry(Some(40), Some(60)))))
            == Snapshot([Merge(d, Telemetry(Some(40), Some(60)))], [])
  {
    ParseTopicIff(topic, d.id);
    var d2 := Merge(d, Telemetry(Some(40), Some(60)));
    assert LastIndex([d], d.id) == 0;
    var alerts := [CriticalFillAlert(d.id), LowBatteryAlert(d.id, 10)];
    ReconcileShape(alerts, d2);
    assert StaleKeys(d2) == DeviceKeys(d.id);
    WithoutAppend([CriticalFillAlert(d.id)], [LowBatteryAlert(d.id, 10)], StaleKeys(d2));
  }

  /**
   * A bin such as SB-103 (warning 80, critical 95) reports fill 96 and battery
   * 10 on its telemetry topic: it turns Critical and both of its alerts appear;
   * it then reports fill 40 and battery 60: it turns Operational and both
   * alerts are gone.
   */
  lemma CriticalThenRecoveredScenario(d: Device)
    requires '/' !in d.id && d.warningLevel == 80 && d.criticalLevel == 95
    ensures var topic := TelemetryTopic(d.id);
            var s1 := Receive(Snapshot([d], []), Message(topic, Some(Telemetry(Some(96), Some(10)))));
            var s2 := Receive(s1, Message(topic, Some(Telemetry(Some(40), Some(60)))));
            && s1.roster[0].status == Critical
            && HasId(s1.alerts, CriticalFillKey(d.id)) && HasId(s1.alerts, LowBatteryKey(d.id))
            && s2.roster[0].status == Operational && s2.alerts == []
  {
    var topic := TelemetryTopic(d.id);
    ScenarioCriticalLowBattery(d, topic);
    var d1 := Merge(d, Telemetry(Some(96), Some(10)));
    ScenarioRecovered(d1, topic);
    var s1 := Receive(Snapshot([d], []), Message(topic, Some(Telemetry(Some(96), Some(10)))));
    assert s1.alerts[0].id == CriticalFillKey(d.id);
    assert s1.alerts[1].id == LowBatteryKey(d.id);
  }
}
