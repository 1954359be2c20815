/** The view history behind the breadcrumb's back button. */
module Navigation {

  datatype View =
    | Dashboard | DeviceManagement | Users | Settings | Maps
    | Analytics | Help | RuleEngine | Mqtt | DeviceLog

  function Last(h: seq<View>): View
    requires |h| >= 1
  {
    h[|h| - 1]
  }

  /** Consecutive history entries always differ. */
  predicate NoAdjacentRepeats(h: seq<View>) {
    forall i :: 0 < i < |h| ==> h[i - 1] != h[i]
  }

  /** `navigate`: a different view is pushed; the current view is not pushed again. */
  function Navigated(h: seq<View>, v: View): (r: seq<View>)
    requires |h| >= 1
    ensures |r| >= 1 && Last(r) == v
    ensures v == Last(h) ==> r == h
    ensures v != Last(h) ==> |r| == |h| + 1 && r[..|h|] == h
    ensures NoAdjacentRepeats(h) ==> NoAdjacentRepeats(r)
  {
    if v != Last(h) then h + [v] else h
  }

  /** `goBack`: the last entry is popped unless it is the only one (or there is none). */
  function WentBack(h: seq<View>): (r: seq<View>)
    ensures |r| <= |h| && r == h[..|r|]
    ensures |h| >= 1 ==> |r| >= 1
    ensures r != h <==> |h| > 1
    ensures |h| >= 2 ==> r == h[..|h| - 1]
    ensures |h| < 2 ==> r == h
    ensures NoAdjacentRepeats(h) ==> NoAdjacentRepeats(r)
  {
    if |h| >= 2 then h[..|h| - 1] else h
  }

  /** Going back right after moving to a new view restores the history. */
  lemma NavigateThenBack(h: seq<View>, v: View)
    requires |h| >= 1 && v != Last(h)
    ensures WentBack(Navigated(h, v)) == h
  {
  }

  /** In a history without adjacent repeats, going back always changes the current view. */
  lemma BackChangesView(h: seq<View>)
    requires |h| >= 2 && NoAdjacentRepeats(h)
    ensures Last(WentBack(h)) != Last(h)
  {
  }
}
