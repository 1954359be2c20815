/** The floor-map page: which roster devices have not been placed on any floor yet. */
module FloorMaps {
  import opened Devices
  import opened Sequences

  /** A bin pin on a floor plan; the coordinates are percentages of the plan. */
  datatype FloorBin = FloorBin(id: string, x: real, y: real)

  datatype Floor = Floor(name: string, imageUrl: string, bins: seq<FloorBin>)

  /** The ids of all pins on all floors. */
  function PlacedIds(floors: seq<Floor>): (ids: set<string>)
    ensures forall i, j :: 0 <= i < |floors| && 0 <= j < |floors[i].bins| ==> floors[i].bins[j].id in ids
    ensures forall id :: id in ids ==>
              exists i, j :: 0 <= i < |floors| && 0 <= j < |floors[i].bins| && floors[i].bins[j].id == id
  {
    set i, j | 0 <= i < |floors| && 0 <= j < |floors[i].bins| :: floors[i].bins[j].id
  }

  function WithoutIds(devices: seq<Device>, placed: set<string>): (r: seq<Device>)
    ensures forall d :: d in r <==> d in devices && d.id !in placed
    ensures |r| <= |devices|
    decreases |devices|
  {
    if |devices| == 0 then []
    else (if devices[0].id in placed then [] else [devices[0]]) + WithoutIds(devices[1..], placed)
  }

  /** The filter works device by device, so the kept devices stay in roster order. */
  lemma {:induction false} WithoutIdsAppend(a: seq<Device>, b: seq<Device>, placed: set<string>)
    ensures WithoutIds(a + b, placed) == WithoutIds(a, placed) + WithoutIds(b, placed)
    decreases |a|
  {
    if |a| == 0 {
      assert a + b == b;
    } else {
      WithoutIdsFirst(a + b, placed);
      AppendTail(a, b);
      WithoutIdsAppend(a[1..], b, placed);
      WithoutIdsFirst(a, placed);
      AppendAssoc(if a[0].id in placed then [] else [a[0]], WithoutIds(a[1..], placed), WithoutIds(b, placed));
    }
  }

  /** One unfolding of `WithoutIds`: the first device is kept or dropped, then the rest. */
  lemma WithoutIdsFirst(devices: seq<Device>, placed: set<string>)
    requires |devices| > 0
    ensures WithoutIds(devices, placed)
            == (if devices[0].id in placed then [] else [devices[0]]) + WithoutIds(devices[1..], placed)
  {
  }

  /** The devices offered when adding a pin: exactly the roster devices with no pin, in roster order. */
  function Unplaced(devices: seq<Device>, floors: seq<Floor>): (r: seq<Device>)
    ensures forall d :: d in r <==> d in devices && d.id !in PlacedIds(floors)
  {
    WithoutIds(devices, PlacedIds(floors))
  }

  /** With no floor plans nothing is placed. */
  lemma NothingPlacedWithoutFloors(devices: seq<Device>)
    ensures Unplaced(devices, []) == devices
  {
    assert PlacedIds([]) == {};
    WithoutNothingPlaced(devices);
  }

  lemma {:induction false} WithoutNothingPlaced(devices: seq<Device>)
    ensures WithoutIds(devices, {}) == devices
    decreases |devices|
  {
    if |devices| > 0 {
      WithoutNothingPlaced(devices[1..]);
    }
  }
}
