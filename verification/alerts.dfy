/**
 * The dashboard's alert list. Each alert has a key `<deviceId>-critical-fill`
 * or `<deviceId>-low-battery`; reconciling a device inserts the alert of a
 * condition that holds when its key is absent and removes it when the
 * condition no longer holds. Dismissal removes by key.
 */
module Alerts {
  import opened Devices

  datatype Kind = CriticalFill | LowBattery

  datatype Notification = Notification(id: string, kind: Kind, deviceId: string, message: string)

  /** Battery levels at or below this percentage raise a low-battery alert. */
  const LowBatteryThreshold: int := 20

  const CriticalFillSuffix: string := "-critical-fill"
  const LowBatterySuffix: string := "-low-battery"

  /** `${deviceId}-critical-fill`: the device id, then the kind's suffix. */
  function CriticalFillKey(deviceId: string): (k: string)
    ensures |k| == |deviceId| + |CriticalFillSuffix|
    ensures k[..|deviceId|] == deviceId && k[|deviceId|..] == CriticalFillSuffix
  {
    deviceId + CriticalFillSuffix
  }

  /** `${deviceId}-low-battery`: the device id, then the kind's suffix. */
  function LowBatteryKey(deviceId: string): (k: string)
    ensures |k| == |deviceId| + |LowBatterySuffix|
    ensures k[..|deviceId|] == deviceId && k[|deviceId|..] == LowBatterySuffix
  {
    deviceId + LowBatterySuffix
  }

  /** Keys identify their device and kind: different devices or kinds never share a key. */
  lemma KeysInjective(a: string, b: string)
    ensures CriticalFillKey(a) == CriticalFillKey(b) ==> a == b
    ensures LowBatteryKey(a) == LowBatteryKey(b) ==> a == b
    ensures CriticalFillKey(a) != LowBatteryKey(b)
  {
    if CriticalFillKey(a) == CriticalFillKey(b) {
      assert |a| == |b|;
      assert a == CriticalFillKey(a)[..|a|];
    }
    if LowBatteryKey(a) == LowBatteryKey(b) {
      assert |a| == |b|;
      assert a == LowBatteryKey(a)[..|a|];
    }
    var c, l := CriticalFillKey(a), LowBatteryKey(b);
    assert c[|c| - 1] == 'l' && l[|l| - 1] == 'y';
  }

  predicate IsDigit(c: char) {
    '0' <= c <= '9'
  }

  /** Decimal text of a natural number below 10^21, as JavaScript prints an integral number: digits only, no leading zero. */
  function NatToString(n: nat): (r: string)
    ensures |r| >= 1 && forall i :: 0 <= i < |r| ==> IsDigit(r[i])
    ensures r[0] == '0' ==> n == 0
    decreases n
  {
    var digit := ['0' + (n % 10) as char];
    if n < 10 then digit else NatToString(n / 10) + digit
  }

  /** The number a string of decimal digits denotes. */
  function DecimalValue(s: string): (v: int)
    requires forall i :: 0 <= i < |s| ==> IsDigit(s[i])
    decreases |s|
  {
    if |s| == 0 then 0 else DecimalValue(s[..|s| - 1]) * 10 + (s[|s| - 1] as int - '0' as int)
  }

  /** Printing a number and reading it back gives the number. */
  lemma {:induction false} NatToStringValue(n: nat)
    ensures DecimalValue(NatToString(n)) == n
    decreases n
  {
    var s := NatToString(n);
    if n >= 10 {
      NatToStringValue(n / 10);
      assert s[..|s| - 1] == NatToString(n / 10);
    }
  }

  /** Decimal text of an integer: a minus sign exactly for negative numbers, then the digits. */
  function IntToString(n: int): (r: string)
    ensures |r| >= 1 && (r[0] == '-' <==> n < 0)
    ensures var digits := if n < 0 then r[1..] else r;
            |digits| >= 1 && forall i :: 0 <= i < |digits| ==> IsDigit(digits[i])
  {
    if n < 0 then "-" + NatToString(-n) else NatToString(n)
  }

  /** The digits of a printed integer denote its magnitude. */
  lemma IntToStringValue(n: int)
    ensures var r := IntToString(n);
            DecimalValue(if n < 0 then r[1..] else r) == if n < 0 then -n else n
  {
    var m: nat := if n < 0 then -n else n;
    NatToStringValue(m);
    if n < 0 {
      assert IntToString(n)[1..] == NatToString(m);
    }
  }

  function CriticalFillAlert(deviceId: string): (n: Notification)
    ensures n.id == CriticalFillKey(deviceId) && n.deviceId == deviceId
  {
    Notification(CriticalFillKey(deviceId), CriticalFill, deviceId,
      "Bin " + deviceId + " has reached a critical fill level and needs to be emptied.")
  }

  function LowBatteryAlert(deviceId: string, batteryLevel: int): (n: Notification)
    ensures n.id == LowBatteryKey(deviceId) && n.deviceId == deviceId
  {
    Notification(LowBatteryKey(deviceId), LowBattery, deviceId,
      "Bin " + deviceId + "'s battery is very low at " + IntToString(batteryLevel) + "%. Please take action.")
  }

  /** `ns.some(n => n.id === key)` */
  predicate HasId(ns: seq<Notification>, key: string) {
    exists i :: 0 <= i < |ns| && ns[i].id == key
  }

  /** `some` holds exactly when an alert in the list carries the key. */
  lemma HasIdIff(ns: seq<Notification>, key: string)
    ensures HasId(ns, key) <==> exists n :: n in ns && n.id == key
  {
    if HasId(ns, key) {
      var i :| 0 <= i < |ns| && ns[i].id == key;
      assert ns[i] in ns;
    }
  }

  /** No two alerts share a key. */
  predicate UniqueIds(ns: seq<Notification>) {
    forall i, j :: 0 <= i < j < |ns| ==> ns[i].id != ns[j].id
  }

  /** The alerts whose keys are not in `keys`, in their original order (`filter`). */
  function Without(ns: seq<Notification>, keys: set<string>): (r: seq<Notification>)
    ensures forall n :: n in r <==> n in ns && n.id !in keys
    ensures |r| <= |ns|
    decreases |ns|
  {
    if |ns| == 0 then []
    else (if ns[0].id in keys then [] else [ns[0]]) + Without(ns[1..], keys)
  }

  lemma {:induction false} WithoutAppend(a: seq<Notification>, b: seq<Notification>, keys: set<string>)
    ensures Without(a + b, keys) == Without(a, keys) + Without(b, keys)
    decreases |a|
  {
    if |a| == 0 {
      assert a + b == b;
    } else {
      assert (a + b)[0] == a[0] && (a + b)[1..] == a[1..] + b;
      WithoutAppend(a[1..], b, keys);
    }
  }

  lemma {:induction false} WithoutTwice(ns: seq<Notification>, a: set<string>, b: set<string>)
    ensures Without(Without(ns, a), b) == Without(ns, a + b)
    decreases |ns|
  {
    if |ns| > 0 {
      WithoutTwice(ns[1..], a, b);
      var head := if ns[0].id in a then [] else [ns[0]];
      WithoutAppend(head, Without(ns[1..], a), b);
    }
  }

  lemma {:induction false} WithoutNothing(ns: seq<Notification>, keys: set<string>)
    requires forall i :: 0 <= i < |ns| ==> ns[i].id !in keys
    ensures Without(ns, keys) == ns
    decreases |ns|
  {
    if |ns| > 0 {
      WithoutNothing(ns[1..], keys);
    }
  }

  lemma {:induction false} WithoutKeepsUnique(ns: seq<Notification>, keys: set<string>)
    requires UniqueIds(ns)
    ensures UniqueIds(Without(ns, keys))
    decreases |ns|
  {
    if |ns| > 0 {
      WithoutKeepsUnique(ns[1..], keys);
      var rest := Without(ns[1..], keys);
      forall j | 0 <= j < |rest| ensures rest[j].id != ns[0].id {
        assert rest[j] in ns[1..];
      }
    }
  }

  /**
   * One condition of `updateNotifications`: insert `alert` (whose id is `key`)
   * when `due` holds and no alert has that key; remove every alert with that
   * key when `due` fails; otherwise leave the list.
   */
  function Step(ns: seq<Notification>, key: string, due: bool, alert: Notification): (r: seq<Notification>)
    ensures alert.id == key ==> forall n: Notification :: n.id != key ==> (n in r <==> n in ns)
    ensures |r| <= |ns| + 1
  {
    var has := HasId(ns, key);
    if due && !has then ns + [alert]
    else if !due && has then Without(ns, {key})
    else ns
  }

  lemma StepPresentIff(ns: seq<Notification>, key: string, due: bool, alert: Notification)
    requires alert.id == key
    ensures HasId(Step(ns, key, due, alert), key) <==> due
  {
    var r := Step(ns, key, due, alert);
    if due && !HasId(ns, key) {
      assert r[|ns|].id == key;
    }
  }

  lemma StepOtherKey(ns: seq<Notification>, key: string, due: bool, alert: Notification, other: string)
    requires alert.id == key && other != key
    ensures HasId(Step(ns, key, due, alert), other) == HasId(ns, other)
  {
    var r := Step(ns, key, due, alert);
    if due && !HasId(ns, key) {
      assert r[..|ns|] == ns && r[|ns|] == alert;
      if HasId(ns, other) {
        var i :| 0 <= i < |ns| && ns[i].id == other;
        assert r[i].id == other;
      }
    } else if !due && HasId(ns, key) {
      if HasId(ns, other) {
        var i :| 0 <= i < |ns| && ns[i].id == other;
        assert ns[i] in r;
      }
      if HasId(r, other) {
        var i :| 0 <= i < |r| && r[i].id == other;
        assert r[i] in ns;
      }
    }
  }

  lemma StepKeepsUnique(ns: seq<Notification>, key: string, due: bool, alert: Notification)
    requires alert.id == key && UniqueIds(ns)
    ensures UniqueIds(Step(ns, key, due, alert))
  {
    if !due && HasId(ns, key) {
      WithoutKeepsUnique(ns, {key});
    }
  }

  /** When the list already agrees with the condition, the step changes nothing. */
  lemma StepAgreeing(ns: seq<Notification>, key: string, due: bool, alert: Notification)
    requires HasId(ns, key) == due
    ensures Step(ns, key, due, alert) == ns
  {
  }

  /** The step keeps the surviving alerts in order and appends the new one at the end. */
  lemma StepShape(ns: seq<Notification>, key: string, due: bool, alert: Notification)
    ensures Step(ns, key, due, alert)
            == Without(ns, if due then {} else {key}) + (if due && !HasId(ns, key) then [alert] else [])
  {
    if due || !HasId(ns, key) {
      WithoutNothing(ns, if due then {} else {key});
    }
  }

  /** `updateNotifications` for one device: the critical-fill step, then the low-battery step. */
  function Reconcile(ns: seq<Notification>, d: Device): (r: seq<Notification>)
    ensures forall n: Notification :: n.id != CriticalFillKey(d.id) && n.id != LowBatteryKey(d.id) ==> (n in r <==> n in ns)
    ensures |r| <= |ns| + 2
  {
    var afterCritical := Step(ns, CriticalFillKey(d.id), d.status == Critical, CriticalFillAlert(d.id));
    Step(afterCritical, LowBatteryKey(d.id), d.batteryLevel <= LowBatteryThreshold,
         LowBatteryAlert(d.id, d.batteryLevel))
  }

  /** The two keys of a device. */
  function DeviceKeys(deviceId: string): set<string> {
    {CriticalFillKey(deviceId), LowBatteryKey(deviceId)}
  }

  /** The keys of the device whose condition does not hold. */
  function StaleKeys(d: Device): set<string> {
    (if d.status == Critical then {} else {CriticalFillKey(d.id)})
    + (if d.batteryLevel <= LowBatteryThreshold then {} else {LowBatteryKey(d.id)})
  }

  /** The alerts of the device whose condition holds but whose key is absent, critical first. */
  function MissingAlerts(ns: seq<Notification>, d: Device): seq<Notification> {
    (if d.status == Critical && !HasId(ns, CriticalFillKey(d.id)) then [CriticalFillAlert(d.id)] else [])
    + (if d.batteryLevel <= LowBatteryThreshold && !HasId(ns, LowBatteryKey(d.id))
       then [LowBatteryAlert(d.id, d.batteryLevel)] else [])
  }

  /** After reconciliation each key of the device is present exactly when its condition holds. */
  lemma ReconcilePresentIff(ns: seq<Notification>, d: Device)
    ensures HasId(Reconcile(ns, d), CriticalFillKey(d.id)) <==> d.status == Critical
    ensures HasId(Reconcile(ns, d), LowBatteryKey(d.id)) <==> d.batteryLevel <= LowBatteryThreshold
  {
    var ck, lk := CriticalFillKey(d.id), LowBatteryKey(d.id);
    KeysInjective(d.id, d.id);
    var afterCritical := Step(ns, ck, d.status == Critical, CriticalFillAlert(d.id));
    StepPresentIff(ns, ck, d.status == Critical, CriticalFillAlert(d.id));
    StepOtherKey(afterCritical, lk, d.batteryLevel <= LowBatteryThreshold, LowBatteryAlert(d.id, d.batteryLevel), ck);
    StepPresentIff(afterCritical, lk, d.batteryLevel <= LowBatteryThreshold, LowBatteryAlert(d.id, d.batteryLevel));
  }

  /** Reconciliation never inserts a key twice: a list of distinct keys stays one. */
  lemma ReconcileKeepsUnique(ns: seq<Notification>, d: Device)
    requires UniqueIds(ns)
    ensures UniqueIds(Reconcile(ns, d))
  {
    var afterCritical := Step(ns, CriticalFillKey(d.id), d.status == Critical, CriticalFillAlert(d.id));
    StepKeepsUnique(ns, CriticalFillKey(d.id), d.status == Critical, CriticalFillAlert(d.id));
    StepKeepsUnique(afterCritical, LowBatteryKey(d.id), d.batteryLevel <= LowBatteryThreshold,
                    LowBatteryAlert(d.id, d.batteryLevel));
  }

  /** A step on a list whose tail holds none of the step's key acts on the head part only. */
  lemma StepBeforeTail(a: seq<Notification>, tail: seq<Notification>, key: string, due: bool, alert: Notification)
    requires forall i :: 0 <= i < |tail| ==> tail[i].id != key
    ensures Step(a + tail, key, due, alert)
            == Without(a, if due then {} else {key}) + tail + (if due && !HasId(a + tail, key) then [alert] else [])
  {
    var stale: set<string> := if due then {} else {key};
    StepShape(a + tail, key, due, alert);
    WithoutAppend(a, tail, stale);
    WithoutNothing(tail, stale);
  }

  /**
   * Reconciliation drops only the device's stale keys, keeps every other alert
   * in its place and order, and appends the missing ones at the end.
   */
  lemma ReconcileShape(ns: seq<Notification>, d: Device)
    ensures Reconcile(ns, d) == Without(ns, StaleKeys(d)) + MissingAlerts(ns, d)
  {
    var ck, lk := CriticalFillKey(d.id), LowBatteryKey(d.id);
    KeysInjective(d.id, d.id);
    var critDue, lowDue := d.status == Critical, d.batteryLevel <= LowBatteryThreshold;
    var ca, la := CriticalFillAlert(d.id), LowBatteryAlert(d.id, d.batteryLevel);
    var critStale: set<string> := if critDue then {} else {ck};
    var lowStale: set<string> := if lowDue then {} else {lk};
    var critAdded := if critDue && !HasId(ns, ck) then [ca] else [];
    var lowAdded := if lowDue && !HasId(ns, lk) then [la] else [];
    var afterCritical := Step(ns, ck, critDue, ca);
    assert afterCritical == Without(ns, critStale) + critAdded by {
      StepShape(ns, ck, critDue, ca);
    }
    assert HasId(afterCritical, lk) == HasId(ns, lk) by {
      StepOtherKey(ns, ck, critDue, ca, lk);
    }
    calc {
      Reconcile(ns, d);
      Step(Without(ns, critStale) + critAdded, lk, lowDue, la);
      { StepBeforeTail(Without(ns, critStale), critAdded, lk, lowDue, la); }
      Without(Without(ns, critStale), lowStale) + critAdded + lowAdded;
      { WithoutTwice(ns, critStale, lowStale);
        assert StaleKeys(d) == critStale + lowStale; }
      Without(ns, StaleKeys(d)) + critAdded + lowAdded;
      Without(ns, StaleKeys(d)) + (critAdded + lowAdded);
    }
  }

  /** Alerts whose key is not one of the device's keys are untouched and stay in order. */
  lemma ReconcileFrame(ns: seq<Notification>, d: Device)
    ensures Without(Reconcile(ns, d), DeviceKeys(d.id)) == Without(ns, DeviceKeys(d.id))
  {
    var keys := DeviceKeys(d.id);
    ReconcileShape(ns, d);
    WithoutAppend(Without(ns, StaleKeys(d)), MissingAlerts(ns, d), keys);
    WithoutTwice(ns, StaleKeys(d), keys);
    assert StaleKeys(d) + keys == keys;
    var missing := MissingAlerts(ns, d);
    assert forall n :: n in missing ==> n.id in keys;
    assert Without(missing, keys) == [];
  }

  /** Whether another key is present is not changed by reconciling a device. */
  lemma ReconcileOtherKey(ns: seq<Notification>, d: Device, key: string)
    requires key !in DeviceKeys(d.id)
    ensures HasId(Reconcile(ns, d), key) == HasId(ns, key)
  {
    var afterCritical := Step(ns, CriticalFillKey(d.id), d.status == Critical, CriticalFillAlert(d.id));
    StepOtherKey(ns, CriticalFillKey(d.id), d.status == Critical, CriticalFillAlert(d.id), key);
    StepOtherKey(afterCritical, LowBatteryKey(d.id), d.batteryLevel <= LowBatteryThreshold,
                 LowBatteryAlert(d.id, d.batteryLevel), key);
  }

  /** Reconciling the same device twice gives the same list as reconciling it once. */
  lemma ReconcileIdempotent(ns: seq<Notification>, d: Device)
    ensures Reconcile(Reconcile(ns, d), d) == Reconcile(ns, d)
  {
    var r := Reconcile(ns, d);
    var ck, lk := CriticalFillKey(d.id), LowBatteryKey(d.id);
    ReconcilePresentIff(ns, d);
    KeysInjective(d.id, d.id);
    StepAgreeing(r, ck, d.status == Critical, CriticalFillAlert(d.id));
    StepAgreeing(r, lk, d.batteryLevel <= LowBatteryThreshold, LowBatteryAlert(d.id, d.batteryLevel));
  }

  /** Dismissal: removes exactly the alerts with the given key, keeping the rest in order. */
  function Dismiss(ns: seq<Notification>, key: string): (r: seq<Notification>)
    ensures r == Without(ns, {key})
    ensures !HasId(r, key)
    ensures forall other :: other != key ==> HasId(r, other) == HasId(ns, other)
  {
    var r := Without(ns, {key});
    assert forall other :: other != key && HasId(ns, other) ==> HasId(r, other) by {
      forall other | other != key && HasId(ns, other) ensures HasId(r, other) {
        var i :| 0 <= i < |ns| && ns[i].id == other;
        assert ns[i] in r;
      }
    }
    assert forall other :: HasId(r, other) ==> HasId(ns, other) by {
      forall other | HasId(r, other) ensures HasId(ns, other) {
        var i :| 0 <= i < |r| && r[i].id == other;
        assert r[i] in ns;
      }
    }
    r
  }

  /** A dismissed alert comes back at the next reconciliation while its condition still holds. */
  lemma DismissedAlertReturns(ns: seq<Notification>, d: Device)
    requires d.status == Critical
    ensures !HasId(Dismiss(ns, CriticalFillKey(d.id)), CriticalFillKey(d.id))
    ensures HasId(Reconcile(Dismiss(ns, CriticalFillKey(d.id)), d), CriticalFillKey(d.id))
  {
    ReconcilePresentIff(Dismiss(ns, CriticalFillKey(d.id)), d);
  }
}
