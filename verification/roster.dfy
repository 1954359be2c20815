/**
 * The device-management page: deleting, updating and adding roster entries,
 * and the colour band of the battery column.
 */
module Roster {
  import opened Devices
  import opened Sequences
  import Alerts

  /** Delete: every device with the id goes, the others stay in order. */
  function Deleted(roster: seq<Device>, deviceId: string): (r: seq<Device>)
    ensures forall d :: d in r <==> d in roster && d.id != deviceId
    ensures (forall i :: 0 <= i < |roster| ==> roster[i].id != deviceId) ==> r == roster
    decreases |roster|
  {
    if |roster| == 0 then []
    else (if roster[0].id == deviceId then [] else [roster[0]]) + Deleted(roster[1..], deviceId)
  }

  /** Deletion works entry by entry, so the kept devices stay in roster order. */
  lemma {:induction false} DeletedAppend(a: seq<Device>, b: seq<Device>, deviceId: string)
    ensures Deleted(a + b, deviceId) == Deleted(a, deviceId) + Deleted(b, deviceId)
    decreases |a|
  {
    if |a| == 0 {
      assert a + b == b;
    } else {
      DeletedFirst(a + b, deviceId);
      AppendTail(a, b);
      DeletedAppend(a[1..], b, deviceId);
      DeletedFirst(a, deviceId);
      AppendAssoc(if a[0].id == deviceId then [] else [a[0]], Deleted(a[1..], deviceId), Deleted(b, deviceId));
    }
  }

  /** One unfolding of `Deleted`: the first device is kept or dropped, then the rest. */
  lemma DeletedFirst(roster: seq<Device>, deviceId: string)
    requires |roster| > 0
    ensures Deleted(roster, deviceId)
            == (if roster[0].id == deviceId then [] else [roster[0]]) + Deleted(roster[1..], deviceId)
  {
  }

  lemma {:induction false} DeletedKeepsUnique(roster: seq<Device>, deviceId: string)
    requires UniqueIds(roster)
    ensures UniqueIds(Deleted(roster, deviceId))
    decreases |roster|
  {
    if |roster| > 0 {
      DeletedKeepsUnique(roster[1..], deviceId);
      var rest := Deleted(roster[1..], deviceId);
      forall j | 0 <= j < |rest| ensures rest[j].id != roster[0].id {
        assert rest[j] in roster[1..];
      }
    }
  }

  /** Update: every device with the saved record's id is replaced by it; ids and length are kept. */
  function Updated(roster: seq<Device>, data: Device): (r: seq<Device>)
    ensures |r| == |roster| && Ids(r) == Ids(roster)
    ensures forall i :: 0 <= i < |roster| && roster[i].id == data.id ==> r[i] == data
    ensures forall i :: 0 <= i < |roster| && roster[i].id != data.id ==> r[i] == roster[i]
  {
    seq(|roster|, i requires 0 <= i < |roster| => if roster[i].id == data.id then data else roster[i])
  }

  /** Saving an edit for an id that is no longer on the roster changes nothing. */
  lemma UpdatedUnknownId(roster: seq<Device>, data: Device)
    requires data.id !in Ids(roster)
    ensures Updated(roster, data) == roster
  {
    var r := Updated(roster, data);
    forall i | 0 <= i < |roster| ensures r[i] == roster[i] {
      assert Ids(roster)[i] == roster[i].id;
    }
  }

  lemma UpdatedKeepsUnique(roster: seq<Device>, data: Device)
    requires UniqueIds(roster)
    ensures UniqueIds(Updated(roster, data))
  {
    var r := Updated(roster, data);
    forall i, j | 0 <= i < j < |r| ensures r[i].id != r[j].id {
      assert Ids(r)[i] == Ids(roster)[i] && Ids(r)[j] == Ids(roster)[j];
    }
  }

  /** Add: the new record goes at the end; the id is not checked against the roster. */
  function Added(roster: seq<Device>, data: Device): (r: seq<Device>)
    ensures |r| == |roster| + 1 && r[..|roster|] == roster && r[|roster|] == data
  {
    roster + [data]
  }

  /** Adding keeps the ids distinct exactly when the new id is not already on the roster. */
  lemma AddedKeepsUniqueIff(roster: seq<Device>, data: Device)
    requires UniqueIds(roster)
    ensures UniqueIds(Added(roster, data)) <==> data.id !in Ids(roster)
  {
    var r := Added(roster, data);
    if data.id in Ids(roster) {
      var i :| 0 <= i < |roster| && Ids(roster)[i] == data.id;
      assert r[i].id == r[|roster|].id;
    }
  }

  datatype BatteryColour = Red | Orange | Green

  /** Orders the colours from most to least alarming. */
  function ColourRank(c: BatteryColour): nat {
    match c
    case Red => 0
    case Orange => 1
    case Green => 2
  }

  /** The battery column's colour: red below 20, orange below 50, green otherwise. */
  function BatteryStyle(level: int): (c: BatteryColour)
    ensures c == Red <==> level < 20
    ensures c == Orange <==> 20 <= level < 50
    ensures c == Green <==> level >= 50
  {
    if level < 20 then Red
    else if level < 50 then Orange
    else Green
  }

  /** A fuller battery never shows a more alarming colour. */
  lemma BatteryStyleMonotone(level1: int, level2: int)
    requires level1 <= level2
    ensures ColourRank(BatteryStyle(level1)) <= ColourRank(BatteryStyle(level2))
  {
  }

  /**
   * A red battery always has a low-battery alert condition, but not the other
   * way round: at exactly the alert threshold the column is orange.
   */
  lemma RedBatteryIsLowBattery(level: int)
    ensures BatteryStyle(level) == Red ==> level <= Alerts.LowBatteryThreshold
    ensures BatteryStyle(Alerts.LowBatteryThreshold) == Orange
  {
  }
}
