/**
 * Device records of the dashboard's roster, the fill-level status rule, and
 * how one telemetry reading is merged into the roster.
 */
module Devices {
  import opened Options

  datatype Status = Operational | Warning | Critical
  datatype ConnectionType = Wifi | Ethernet | Cellular
  datatype WasteType = Wet | Dry

  /** One bin. Levels are percentages; `status` is derived from `fillLevel` and the bin's own thresholds. */
  datatype Device = Device(
    id: string,
    model: string,
    firmwareVersion: string,
    locationName: string,
    building: string,
    floor: string,
    zone: string,
    connectionType: ConnectionType,
    networkName: string,
    warningLevel: int,
    criticalLevel: int,
    batteryLevel: int,
    status: Status,
    wasteType: WasteType,
    fillLevel: int,
    lastEmptied: string,
    coords: Option<(real, real)>)

  /** An already-parsed telemetry payload: each field may be missing. */
  datatype Telemetry = Telemetry(fillLevel: Option<int>, batteryLevel: Option<int>)

  /** Orders the statuses by urgency. */
  function Severity(s: Status): nat {
    match s
    case Operational => 0
    case Warning => 1
    case Critical => 2
  }

  /** The status rule: the critical threshold is tested first, then the warning threshold. */
  function DerivedStatus(fill: int, warningLevel: int, criticalLevel: int): (s: Status)
    ensures s == Critical <==> fill >= criticalLevel
    ensures s == Warning <==> warningLevel <= fill < criticalLevel
    ensures s == Operational <==> fill < warningLevel && fill < criticalLevel
  {
    if fill >= criticalLevel then Critical
    else if fill >= warningLevel then Warning
    else Operational
  }

  /** A fuller bin is never in a less urgent status, whatever the thresholds. */
  lemma DerivedStatusMonotone(fill1: int, fill2: int, warningLevel: int, criticalLevel: int)
    requires fill1 <= fill2
    ensures Severity(DerivedStatus(fill1, warningLevel, criticalLevel))
            <= Severity(DerivedStatus(fill2, warningLevel, criticalLevel))
  {
  }

  /** With inverted thresholds the Warning status can never be derived. */
  lemma WarningUnreachableWhenInverted(fill: int, warningLevel: int, criticalLevel: int)
    requires warningLevel > criticalLevel
    ensures DerivedStatus(fill, warningLevel, criticalLevel) != Warning
  {
  }

  /** The stored status agrees with the rule. */
  predicate StatusIsDerived(d: Device) {
    d.status == DerivedStatus(d.fillLevel, d.warningLevel, d.criticalLevel)
  }

  /**
   * One telemetry reading applied to one device: present fields replace the
   * levels, absent ones keep them, the status is recomputed from the device's
   * own thresholds and every other field is copied.
   */
  function Merge(d: Device, t: Telemetry): (r: Device)
    ensures t.fillLevel.None? ==> r.fillLevel == d.fillLevel
    ensures t.fillLevel.Some? ==> r.fillLevel == t.fillLevel.value
    ensures t.batteryLevel.None? ==> r.batteryLevel == d.batteryLevel
    ensures t.batteryLevel.Some? ==> r.batteryLevel == t.batteryLevel.value
    ensures StatusIsDerived(r)
    ensures r.(fillLevel := d.fillLevel, batteryLevel := d.batteryLevel, status := d.status) == d
  {
    var fill := t.fillLevel.GetOr(d.fillLevel);
    var battery := t.batteryLevel.GetOr(d.batteryLevel);
    d.(fillLevel := fill, batteryLevel := battery, status := DerivedStatus(fill, d.warningLevel, d.criticalLevel))
  }

  /** Merging the same reading twice is merging it once. */
  lemma MergeIdempotent(d: Device, t: Telemetry)
    ensures Merge(Merge(d, t), t) == Merge(d, t)
  {
  }

  /** A reading with no fields only re-derives the status. */
  lemma MergeEmptyRederives(d: Device)
    requires StatusIsDerived(d)
    ensures Merge(d, Telemetry(None, None)) == d
  {
  }

  function Ids(roster: seq<Device>): (ids: seq<string>)
    ensures |ids| == |roster|
    ensures forall i :: 0 <= i < |roster| ==> ids[i] == roster[i].id
  {
    seq(|roster|, i requires 0 <= i < |roster| => roster[i].id)
  }

  predicate UniqueIds(roster: seq<Device>) {
    forall i, j :: 0 <= i < j < |roster| ==> roster[i].id != roster[j].id
  }

  /**
   * The roster `map` of the telemetry handler: every device whose id is
   * `deviceId` receives the reading; every other device is left as it was.
   */
  function ApplyToRoster(roster: seq<Device>, deviceId: string, t: Telemetry): (r: seq<Device>)
    ensures |r| == |roster|
    ensures forall i :: 0 <= i < |roster| && roster[i].id == deviceId ==> r[i] == Merge(roster[i], t)
    ensures forall i :: 0 <= i < |roster| && roster[i].id != deviceId ==> r[i] == roster[i]
    ensures Ids(r) == Ids(roster)
    decreases |roster|
  {
    if |roster| == 0 then []
    else
      var head := if roster[0].id == deviceId then Merge(roster[0], t) else roster[0];
      [head] + ApplyToRoster(roster[1..], deviceId, t)
  }

  /** A reading for an id that is not on the roster changes nothing. */
  lemma ApplyToRosterUnknownId(roster: seq<Device>, deviceId: string, t: Telemetry)
    requires deviceId !in Ids(roster)
    ensures ApplyToRoster(roster, deviceId, t) == roster
  {
    var r := ApplyToRoster(roster, deviceId, t);
    forall i | 0 <= i < |roster| ensures r[i] == roster[i] {
      assert Ids(roster)[i] == roster[i].id;
    }
  }

  /** Applying the same reading twice gives the same roster as applying it once. */
  lemma ApplyToRosterIdempotent(roster: seq<Device>, deviceId: string, t: Telemetry)
    ensures ApplyToRoster(ApplyToRoster(roster, deviceId, t), deviceId, t) == ApplyToRoster(roster, deviceId, t)
  {
    var once := ApplyToRoster(roster, deviceId, t);
    var twice := ApplyToRoster(once, deviceId, t);
    forall i | 0 <= i < |roster| ensures twice[i] == once[i] {
      if roster[i].id == deviceId {
        MergeIdempotent(roster[i], t);
      }
    }
  }

  /**
   * The index of the last device with id `deviceId`, or -1 when there is none:
   * the device the handler's map callback assigned last.
   */
  function LastIndex(roster: seq<Device>, deviceId: string): (k: int)
    ensures -1 <= k < |roster|
    ensures k >= 0 ==> roster[k].id == deviceId
    ensures forall j :: k < j < |roster| ==> roster[j].id != deviceId
    decreases |roster|
  {
    if |roster| == 0 then -1
    else if roster[|roster| - 1].id == deviceId then |roster| - 1
    else LastIndex(roster[..|roster| - 1], deviceId)
  }

  /** With unique ids, the last match is the only match. */
  lemma LastIndexUnique(roster: seq<Device>, deviceId: string, i: int)
    requires UniqueIds(roster)
    requires 0 <= i < |roster| && roster[i].id == deviceId
    ensures LastIndex(roster, deviceId) == i
  {
  }

  /** Every stored status agrees with the fill-level rule. */
  predicate AllStatusesDerived(roster: seq<Device>) {
    forall i :: 0 <= i < |roster| ==> StatusIsDerived(roster[i])
  }

  /** The roster the dashboard starts with. */
  function InitialDevices(): (roster: seq<Device>)
    ensures |roster| == 4 && UniqueIds(roster) && AllStatusesDerived(roster)
  {
    [ Device("SB-101", "EcoBin-100", "v1.2.3", "Cafeteria", "Building A", "1", "A", Wifi, "Office_WiFi",
             70, 85, 95, Operational, Wet, 42, "4 hours ago", Some((51.51, -0.1))),
      Device("SB-102", "SmartBin-200", "v2.0.1", "Main Entrance", "Building A", "G", "Lobby", Cellular, "IoT_Network",
             75, 90, 45, Warning, Dry, 78, "1 day ago", Some((51.505, -0.09))),
      Device("SB-103", "IoT-Waste-300", "v3.1.0", "Floor 2, West Wing", "Building B", "2", "C", Ethernet, "CorpNet",
             80, 95, 15, Critical, Dry, 95, "2 days ago", Some((51.515, -0.12))),
      Device("SB-104", "EcoBin-100", "v1.2.5", "Parking P1", "Building A", "P1", "A", Wifi, "Office_WiFi",
             70, 85, 88, Operational, Dry, 35, "8 hours ago", Some((51.52, -0.11))) ]
  }
}
