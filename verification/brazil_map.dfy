/** The map component (src/components/BrazilMap.tsx): per-state viewer counts, the
    colour buckets and the hover colours. */
module BrazilMap {
  import opened Wrappers
  import opened Text
  import opened Domain
  import StateNames
  import ViewersRoute

  /** The six fill colours, from no viewers to many. */
  const Palette: seq<string> := ["#E5E7EB", "#DBEAFE", "#93C5FD", "#60A5FA", "#3B82F6", "#2563EB"]

  /** The counts at which the fill moves to the next colour. */
  const Thresholds: seq<int> := [1, 3, 6, 10, 15]

  /** How many of the thresholds `count` reaches. */
  function Reached(ts: seq<int>, count: int): (n: nat)
    ensures n <= |ts|
  {
    if |ts| == 0 then 0 else (if ts[0] <= count then 1 else 0) + Reached(ts[1..], count)
  }

  /** `getStateColor`: 0 is grey, 1-2, 3-5, 6-9, 10-14 and 15 or more are successively
      darker blues, i.e. the palette entry indexed by the number of thresholds reached. */
  function StateColor(count: int): (color: string)
    ensures color in Palette
    ensures count >= 0 ==> color == Palette[Reached(Thresholds, count)]
  {
    ReachedThresholds(count);
    if count == 0 then "#E5E7EB"
    else if count < 3 then "#DBEAFE"
    else if count < 6 then "#93C5FD"
    else if count < 10 then "#60A5FA"
    else if count < 15 then "#3B82F6"
    else "#2563EB"
  }

  lemma ReachedThresholds(count: int)
    ensures Reached(Thresholds, count) == if count < 1 then 0 else if count < 3 then 1 else if count < 6 then 2
                                          else if count < 10 then 3 else if count < 15 then 4 else 5
  {
    var c := count;
    assert [15][1..] == [];
    assert Reached([15], c) == if 15 <= c then 1 else 0;
    assert [10, 15][1..] == [15];
    assert Reached([10, 15], c) == (if 10 <= c then 1 else 0) + Reached([15], c);
    assert [6, 10, 15][1..] == [10, 15];
    assert Reached([6, 10, 15], c) == (if 6 <= c then 1 else 0) + Reached([10, 15], c);
    assert [3, 6, 10, 15][1..] == [6, 10, 15];
    assert Reached([3, 6, 10, 15], c) == (if 3 <= c then 1 else 0) + Reached([6, 10, 15], c);
    assert Thresholds[1..] == [3, 6, 10, 15];
  }

  lemma PaletteDistinct()
    ensures forall i, j :: 0 <= i < j < |Palette| ==> Palette[i] != Palette[j]
  {
  }

  lemma {:induction false} ReachedMonotone(ts: seq<int>, a: int, b: int)
    requires a <= b
    ensures Reached(ts, a) <= Reached(ts, b)
  {
    if |ts| > 0 {
      ReachedMonotone(ts[1..], a, b);
    }
  }

  /** A larger count never gets an earlier colour. */
  lemma StateColorMonotone(a: int, b: int)
    requires 0 <= a <= b
    ensures forall i, j :: (0 <= i < |Palette| && 0 <= j < |Palette|
                            && StateColor(a) == Palette[i] && StateColor(b) == Palette[j]) ==> i <= j
  {
    ReachedMonotone(Thresholds, a, b);
    PaletteDistinct();
  }

  /** `getHoverColor`: a darker shade for each fill colour, and the strong blue for
      anything else. */
  function HoverColor(base: string): (hover: string)
    ensures base !in Palette ==> hover == Palette[5]
    ensures base in Palette ==> hover != base
  {
    match base
    case "#E5E7EB" => "#D1D5DB"
    case "#DBEAFE" => "#BFDBFE"
    case "#93C5FD" => "#60A5FA"
    case "#60A5FA" => "#3B82F6"
    case "#3B82F6" => "#2563EB"
    case "#2563EB" => "#1D4ED8"
    case _ => "#2563EB"
  }

  /** Distinct fill colours hover to distinct colours; the middle three buckets hover to
      the next bucket's fill. */
  lemma HoverColorShape()
    ensures forall i, j :: 0 <= i < j < |Palette| ==> HoverColor(Palette[i]) != HoverColor(Palette[j])
    ensures forall i :: 2 <= i <= 4 ==> HoverColor(Palette[i]) == Palette[i + 1]
  {
  }

  /** `states.find(s => s.stateCode === id)?.viewers.length || 0`. */
  function RegionCount(states: seq<StateGroup>, id: string): (n: nat)
    ensures (forall i :: 0 <= i < |states| ==> states[i].stateCode != id) ==> n == 0
    ensures forall i :: (0 <= i < |states| && states[i].stateCode == id
                         && (forall j :: 0 <= j < i ==> states[j].stateCode != id)) ==> n == |states[i].viewers|
  {
    match FindGroup(states, id)
    case None => 0
    case Some(g) => |g.viewers|
  }

  /** On the read model, a region's count is the number of viewer rows whose code is
      exactly the region's id. */
  lemma RegionCountCountsRows(rows: seq<ViewerRow>, groups: seq<StateGroup>, id: string)
    requires ViewersRoute.GroupedByFirstSeen(rows, groups)
    ensures RegionCount(groups, id) == |ViewersRoute.EntriesFor(rows, id)|
  {
    var codes := ViewersRoute.FirstSeenCodes(rows);
    if id in codes {
      var k :| 0 <= k < |codes| && codes[k] == id;
      ViewersRoute.FirstSeenDistinct(rows);
      assert forall j :: 0 <= j < k ==> groups[j].stateCode != id;
    } else {
      ViewersRoute.EntriesForAbsent(rows, id);
    }
  }

  /** The fill of a region: the hover colour while the mouse is over it. */
  function RegionFill(states: seq<StateGroup>, id: string, hovered: Option<string>): (fill: string)
    ensures hovered != Some(id) ==> fill in Palette
  {
    var base := StateColor(RegionCount(states, id));
    if hovered == Some(id) then HoverColor(base) else base
  }

  /** Hovering always changes a region's fill. */
  lemma HoverChangesFill(states: seq<StateGroup>, id: string)
    ensures RegionFill(states, id, Some(id)) != RegionFill(states, id, None)
  {
  }

  /** The tooltip of `handleMouseMove`: the upper-cased code, the state's name and the count. */
  datatype Tooltip = Tooltip(badge: string, stateName: string, count: nat)

  function TooltipFor(states: seq<StateGroup>, id: string): (t: Tooltip)
    ensures t.badge == Upper(id)
    ensures t.stateName == StateNames.StateName(id)
    ensures |t.badge| == |id|
    ensures forall k :: 0 <= k < |t.badge| ==> !('a' <= t.badge[k] <= 'z')
    ensures t.stateName == id
            || exists i :: 0 <= i < |StateNames.Table| && StateNames.Table[i] == (t.badge, t.stateName)
    ensures (forall i :: 0 <= i < |states| ==> states[i].stateCode != id) ==> t.count == 0
    ensures forall i :: (0 <= i < |states| && states[i].stateCode == id
                         && (forall j :: 0 <= j < i ==> states[j].stateCode != id)) ==> t.count == |states[i].viewers|
  {
    Tooltip(Upper(id), StateNames.StateName(id), RegionCount(states, id))
  }

  /** On the read model, the tooltip's count is the number of stored rows whose code is
      exactly the hovered id, and its badge is the id upper-cased. */
  lemma TooltipCountsRows(rows: seq<ViewerRow>, groups: seq<StateGroup>, id: string)
    requires ViewersRoute.GroupedByFirstSeen(rows, groups)
    ensures TooltipFor(groups, id).count == |ViewersRoute.EntriesFor(rows, id)|
    ensures TooltipFor(groups, id).badge == Upper(id)
  {
    RegionCountCountsRows(rows, groups, id);
  }

  /** On the read model, an unhovered region is filled with the colour of the number of
      stored rows whose code is exactly its id, and a hovered one with that colour's hover
      colour. */
  lemma RegionFillFollowsRows(rows: seq<ViewerRow>, groups: seq<StateGroup>, id: string)
    requires ViewersRoute.GroupedByFirstSeen(rows, groups)
    ensures RegionFill(groups, id, None) == Palette[Reached(Thresholds, |ViewersRoute.EntriesFor(rows, id)|)]
    ensures RegionFill(groups, id, Some(id))
            == HoverColor(Palette[Reached(Thresholds, |ViewersRoute.EntriesFor(rows, id)|)])
  {
    RegionCountCountsRows(rows, groups, id);
  }
}
