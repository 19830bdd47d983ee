/**
  The item lists behind the table views of `tv/lib/frontends/widgets/itemlist.py`.

  An `ItemList` holds the rows its tracker produced, per-item attributes set
  by the widgets, and lazily computed group information: adjacent rows whose
  grouping function returns the same key form one group. The
  `ItemListPool` shares one list per tab and counts its references.
 */
module ItemLists {
  import opened Wrappers
  import opened Text

  // ---------------------------------------------------------------------
  // Grouping functions

  /** The fields of an item info the grouping functions look at. */
  datatype ItemInfo = ItemInfo(
    id: nat,
    albumArtistSortKey: seq<string>,
    albumSortKey: seq<string>,
    feedId: Option<nat>,
    show: Option<string>,
    parentTitle: Option<string>,
    parentTitleForSort: string)

  /** The values the grouping functions return; rows with equal keys that are adjacent share a group. */
  datatype GroupKey =
    | AlbumKey(artist: seq<string>, album: seq<string>)
    | FeedKey(feed: nat)
    | TitleKey(title: string)

  /** A grouping function; `None` puts the row in a group of its own. */
  type GroupFunc = ItemInfo -> Option<GroupKey>

  /** The sort key of an unknown album or album artist: the one-tuple `(u'',)`. */
  const NO_SORT_KEY: seq<string> := [""]

  /** `album_grouping`: by album artist and album, unless both sort keys are unknown. */
  function AlbumGrouping(info: ItemInfo): (r: Option<GroupKey>)
    ensures r.None? <==> info.albumArtistSortKey == NO_SORT_KEY && info.albumSortKey == NO_SORT_KEY
  {
    if info.albumArtistSortKey != NO_SORT_KEY || info.albumSortKey != NO_SORT_KEY then
      Some(AlbumKey(info.albumArtistSortKey, info.albumSortKey))
    else None
  }

  /** Two infos with a known album share an album group exactly when both sort keys agree. */
  lemma AlbumGroupingSame(a: ItemInfo, b: ItemInfo)
    requires AlbumGrouping(a).Some?
    ensures AlbumGrouping(a) == AlbumGrouping(b) <==>
      a.albumArtistSortKey == b.albumArtistSortKey && a.albumSortKey == b.albumSortKey
  {
  }

  /** `feed_grouping`: by feed; an item without a feed is a group of its own. */
  function FeedGrouping(info: ItemInfo): (r: Option<GroupKey>)
    ensures r.None? <==> info.feedId.None?
  {
    if info.feedId.Some? then Some(FeedKey(info.feedId.value)) else None
  }

  /** Two infos with a feed share a feed group exactly when their feeds are the same. */
  lemma FeedGroupingSame(a: ItemInfo, b: ItemInfo)
    requires a.feedId.Some?
    ensures FeedGrouping(a) == FeedGrouping(b) <==> a.feedId == b.feedId
  {
  }

  /** `video_grouping`: by show if the user set one, else by the podcast's sort title. */
  function VideoGrouping(info: ItemInfo): (r: Option<GroupKey>)
    ensures r.None? <==> info.show.None? && info.parentTitle.None?
    ensures info.show.Some? ==> r == Some(TitleKey(info.show.value))
    ensures info.show.None? && info.parentTitle.Some? ==> r == Some(TitleKey(info.parentTitleForSort))
  {
    if info.show.Some? then Some(TitleKey(info.show.value))
    else if info.parentTitle.Some? then Some(TitleKey(info.parentTitleForSort))
    else None
  }

  /**
    An item with a show shares a video group with another item exactly when
    that one has the same show, or has no show and a podcast whose sort
    title is that show's name.
   */
  lemma VideoGroupingSame(a: ItemInfo, b: ItemInfo)
    requires a.show.Some?
    ensures VideoGrouping(a) == VideoGrouping(b) <==>
      b.show == a.show || (b.show.None? && b.parentTitle.Some? && b.parentTitleForSort == a.show.value)
  {
  }

  // ---------------------------------------------------------------------
  // Groups of adjacent rows

  /** A `group_info` slot: not yet calculated, or `(index, count, first_info)`. */
  datatype GroupEntry = NotCalculated | Calculated(index: nat, count: nat, first: ItemInfo)

  /** The first row of the run of rows keyed `key` that reaches `row` from the left. */
  function RunStart(f: GroupFunc, rows: seq<ItemInfo>, row: nat, key: GroupKey): (start: nat)
    requires row < |rows|
    ensures start <= row
    ensures forall i :: start <= i < row ==> f(rows[i]) == Some(key)
    ensures start > 0 ==> f(rows[start - 1]) != Some(key)
    decreases row
  {
    if row > 0 && f(rows[row - 1]) == Some(key) then RunStart(f, rows, row - 1, key) else row
  }

  /** The last row of the run of rows keyed `key` that reaches `row` from the right. */
  function RunEnd(f: GroupFunc, rows: seq<ItemInfo>, row: nat, key: GroupKey): (end: nat)
    requires row < |rows|
    ensures row <= end < |rows|
    ensures forall i :: row < i <= end ==> f(rows[i]) == Some(key)
    ensures end + 1 < |rows| ==> f(rows[end + 1]) != Some(key)
    decreases |rows| - row
  {
    if row + 1 < |rows| && f(rows[row + 1]) == Some(key) then RunEnd(f, rows, row + 1, key) else row
  }

  /** A run boundary is determined by the run: any row of it finds the same first row. */
  lemma {:induction false} RunStartUnique(f: GroupFunc, rows: seq<ItemInfo>, row: nat, key: GroupKey, start: nat)
    requires row < |rows| && start <= row
    requires forall i :: start <= i < row ==> f(rows[i]) == Some(key)
    requires start > 0 ==> f(rows[start - 1]) != Some(key)
    ensures RunStart(f, rows, row, key) == start
    decreases row
  {
    if row > start {
      RunStartUnique(f, rows, row - 1, key, start);
    }
  }

  /** ... and the same last row. */
  lemma {:induction false} RunEndUnique(f: GroupFunc, rows: seq<ItemInfo>, row: nat, key: GroupKey, end: nat)
    requires row <= end < |rows|
    requires forall i :: row < i <= end ==> f(rows[i]) == Some(key)
    requires end + 1 < |rows| ==> f(rows[end + 1]) != Some(key)
    ensures RunEnd(f, rows, row, key) == end
    decreases end - row
  {
    if row < end {
      RunEndUnique(f, rows, row + 1, key, end);
    }
  }

  /**
    The group information of `row`: a row without key is a group of one;
    otherwise the group is the maximal run of adjacent rows with its key.
   */
  function Expected(f: GroupFunc, rows: seq<ItemInfo>, row: nat): (r: GroupEntry)
    requires row < |rows|
    ensures r.Calculated? && r.index < r.count && r.index <= row && r.first == rows[row - r.index]
    ensures f(rows[row]).None? ==> r == Calculated(0, 1, rows[row])
  {
    match f(rows[row])
    case None => Calculated(0, 1, rows[row])
    case Some(key) =>
      var start := RunStart(f, rows, row, key);
      var end := RunEnd(f, rows, row, key);
      Calculated(row - start, end - start + 1, rows[start])
  }

  /**
    A run is determined by its rows: every row of a stretch of rows keyed
    `key`, bounded on each side by a row with another key or by the end of
    the list, finds the same first and last row.
   */
  lemma RunShared(f: GroupFunc, rows: seq<ItemInfo>, j: nat, key: GroupKey, start: nat, end: nat)
    requires start <= j <= end < |rows|
    requires forall i :: start <= i <= end ==> f(rows[i]) == Some(key)
    requires start > 0 ==> f(rows[start - 1]) != Some(key)
    requires end + 1 < |rows| ==> f(rows[end + 1]) != Some(key)
    ensures RunStart(f, rows, j, key) == start
    ensures RunEnd(f, rows, j, key) == end
  {
    RunStartUnique(f, rows, j, key, start);
    RunEndUnique(f, rows, j, key, end);
  }

  /** Every row of a run is told its place in the run, the run's length and its first row. */
  lemma ExpectedInRun(f: GroupFunc, rows: seq<ItemInfo>, key: GroupKey, start: nat, end: nat)
    requires start <= end < |rows|
    requires forall i :: start <= i <= end ==> f(rows[i]) == Some(key)
    requires start > 0 ==> f(rows[start - 1]) != Some(key)
    requires end + 1 < |rows| ==> f(rows[end + 1]) != Some(key)
    ensures forall j :: start <= j <= end ==> Expected(f, rows, j) == Calculated(j - start, end - start + 1, rows[start])
  {
    forall j | start <= j <= end ensures Expected(f, rows, j) == Calculated(j - start, end - start + 1, rows[start]) {
      RunShared(f, rows, j, key, start, end);
    }
  }

  /** Every row from the first to the last of the run has its key. */
  lemma RunKeyed(f: GroupFunc, rows: seq<ItemInfo>, row: nat, key: GroupKey, start: nat, end: nat)
    requires row < |rows| && f(rows[row]) == Some(key)
    requires start == RunStart(f, rows, row, key) && end == RunEnd(f, rows, row, key)
    ensures forall i :: start <= i <= end ==> f(rows[i]) == Some(key)
  {
    forall i | start <= i <= end ensures f(rows[i]) == Some(key) {
      if i < row {
        assert start <= i < row;
      } else if i > row {
        assert row < i <= end;
      }
    }
  }

  /** What `_calc_group_info(row)` leaves in `group_info`. */
  function Grouped(info: seq<GroupEntry>, f: GroupFunc, rows: seq<ItemInfo>, row: nat): (r: seq<GroupEntry>)
    requires |info| == |rows| && row < |rows|
    ensures |r| == |info|
  {
    match f(rows[row])
    case None => info[row := Calculated(0, 1, rows[row])]
    case Some(key) =>
      var start := RunStart(f, rows, row, key);
      var end := RunEnd(f, rows, row, key);
      seq(|info|, i requires 0 <= i < |info| =>
        if start <= i <= end then Calculated(i - start, end - start + 1, rows[start]) else info[i])
  }

  /**
    `_calc_group_info` fills in the group of `row` and every other row of
    that group, each with its own correct entry, and leaves every row
    outside the group untouched.
   */
  lemma GroupedIsExpected(info: seq<GroupEntry>, f: GroupFunc, rows: seq<ItemInfo>, row: nat)
    requires |info| == |rows| && row < |rows|
    ensures Grouped(info, f, rows, row)[row] == Expected(f, rows, row)
    ensures forall i :: 0 <= i < |info| ==>
      Grouped(info, f, rows, row)[i] == info[i] || Grouped(info, f, rows, row)[i] == Expected(f, rows, i)
    ensures forall i :: 0 <= i < |info| && f(rows[row]).Some? && f(rows[i]) != f(rows[row]) ==>
      Grouped(info, f, rows, row)[i] == info[i]
    ensures f(rows[row]).Some? ==>
      var start, end := RunStart(f, rows, row, f(rows[row]).value), RunEnd(f, rows, row, f(rows[row]).value);
      && (forall i :: start <= i <= end ==> Grouped(info, f, rows, row)[i] == Expected(f, rows, i))
      && (forall i :: 0 <= i < |info| && !(start <= i <= end) ==> Grouped(info, f, rows, row)[i] == info[i])
    ensures f(rows[row]).None? ==> forall i :: 0 <= i < |info| && i != row ==> Grouped(info, f, rows, row)[i] == info[i]
  {
    var g := Grouped(info, f, rows, row);
    if f(rows[row]).Some? {
      var key := f(rows[row]).value;
      var start, end := RunStart(f, rows, row, key), RunEnd(f, rows, row, key);
      GroupedRun(info, f, rows, row, key, start, end);
      assert forall i :: 0 <= i < |info| && f(rows[i]) != f(rows[row]) ==> !(start <= i <= end);
    }
  }

  /** With a key, the rows of the maximal run get their expected entries and the rest keep theirs. */
  lemma GroupedRun(info: seq<GroupEntry>, f: GroupFunc, rows: seq<ItemInfo>, row: nat, key: GroupKey, start: nat, end: nat)
    requires |info| == |rows| && row < |rows| && f(rows[row]) == Some(key)
    requires start == RunStart(f, rows, row, key) && end == RunEnd(f, rows, row, key)
    ensures forall i :: start <= i <= end ==> f(rows[i]) == Some(key)
    ensures forall i :: start <= i <= end ==> Grouped(info, f, rows, row)[i] == Expected(f, rows, i)
    ensures forall i :: 0 <= i < |info| && !(start <= i <= end) ==> Grouped(info, f, rows, row)[i] == info[i]
  {
    RunKeyed(f, rows, row, key, start, end);
    ExpectedInRun(f, rows, key, start, end);
    GroupedInside(info, f, rows, row, key, start, end);
    GroupedOutside(info, f, rows, row, key, start, end);
  }

  /** Each row of the run gets its place in the run, the run's length and its first row. */
  lemma GroupedInside(info: seq<GroupEntry>, f: GroupFunc, rows: seq<ItemInfo>, row: nat, key: GroupKey, start: nat, end: nat)
    requires |info| == |rows| && row < |rows| && f(rows[row]) == Some(key)
    requires start == RunStart(f, rows, row, key) && end == RunEnd(f, rows, row, key)
    ensures forall i :: start <= i <= end ==> Grouped(info, f, rows, row)[i] == Calculated(i - start, end - start + 1, rows[start])
  {
    var g := Grouped(info, f, rows, row);
    forall i | start <= i <= end ensures g[i] == Calculated(i - start, end - start + 1, rows[start]) {
    }
  }

  /** Each row outside the run keeps its entry. */
  lemma GroupedOutside(info: seq<GroupEntry>, f: GroupFunc, rows: seq<ItemInfo>, row: nat, key: GroupKey, start: nat, end: nat)
    requires |info| == |rows| && row < |rows| && f(rows[row]) == Some(key)
    requires start == RunStart(f, rows, row, key) && end == RunEnd(f, rows, row, key)
    ensures forall i :: 0 <= i < |info| && !(start <= i <= end) ==> Grouped(info, f, rows, row)[i] == info[i]
  {
    var g := Grouped(info, f, rows, row);
    forall i | 0 <= i < |info| && !(start <= i <= end) ensures g[i] == info[i] {
    }
  }

  // ---------------------------------------------------------------------
  // Tab ids

  /** `is_for_device`: device tabs have types `device-video` and `device-audio`. */
  function IsForDevice(tabType: string): (r: bool)
    ensures r <==> |tabType| >= 7 && tabType[..7] == "device-"
  {
    StartsWith(tabType, "device-")
  }

  /** `device_id`: `tab_id.rsplit('-', 1)[0]`, the tab id without its `-video` or `-audio` suffix. */
  function DeviceId(tabId: string): (r: string)
    ensures '-' !in tabId ==> r == tabId
    ensures '-' in tabId ==> exists k :: 0 <= k < |tabId| && r == tabId[..k] && tabId[k] == '-' && '-' !in tabId[k + 1..]
  {
    match LastIndexOf(tabId, '-')
    case None => tabId
    case Some(k) => tabId[..k]
  }

  /** The device id comes back from a tab id built as device id, `-` and a suffix without `-`. */
  lemma DeviceIdOf(device: string, suffix: string)
    requires '-' !in suffix
    ensures DeviceId(device + "-" + suffix) == device
  {
    var t := device + "-" + suffix;
    assert t[|device|] == '-';
    assert forall j :: |device| < j < |t| ==> t[j] == suffix[j - |device| - 1];
    var k := LastIndexOf(t, '-').value;
    assert forall j :: k < j < |t| ==> t[j] != '-' by {
      forall j | k < j < |t| ensures t[j] != '-' {
        assert t[j] == t[k + 1..][j - k - 1];
      }
    }
    assert k == |device|;
    assert t[..|device|] == device;
  }

  /** The share id comes back from both tab id shapes, `sharing-<n>` and `sharing-<n>-<playlist>`. */
  lemma ShareIdOf(n: nat, playlist: Option<string>)
    ensures ShareId("sharing-" + NatToString(n) + (if playlist.Some? then "-" + playlist.value else "")) == Ok(n)
  {
    var digits := NatToString(n);
    var rest := if playlist.Some? then "-" + playlist.value else "";
    assert '-' !in digits by {
      assert forall i :: 0 <= i < |digits| ==> IsDigit(digits[i]);
    }
    assert "sharing-" + digits + rest == "sharing" + ['-'] + (digits + rest);
    SplitAfterFree("sharing", '-', digits + rest);
    SplitHead(digits, '-', rest);
    ParseIntToString(n);
  }

  /**
    `share_id`: the integer between the first and second `-` of
    `sharing-<share>` or `sharing-<share>-<playlist>`. `Err` where Python
    raises: no second component (IndexError) or not an integer (ValueError).
   */
  function ShareId(tabId: string): (r: Result<int, string>)
    ensures r.Ok? <==> |Split(tabId, '-')| >= 2 && ParseInt(Split(tabId, '-')[1]).Some?
    ensures r.Ok? ==> Some(r.value) == ParseInt(Split(tabId, '-')[1])
  {
    var parts := Split(tabId, '-');
    if |parts| < 2 then Err("IndexError: list index out of range")
    else match ParseInt(parts[1])
      case None => Err("ValueError: invalid literal for int()")
      case Some(n) => Ok(n)
  }

  // ---------------------------------------------------------------------
  // ItemList

  /** A value stored with `set_attr`. */
  datatype AttrValue = BoolAttr(b: bool) | IntAttr(n: int) | StrAttr(s: string)

  class ItemList {
    const tabType: string
    const tabId: string
    /** The rows the tracker currently shows, in order (`get_row(i)` is `rows[i]`). */
    var rows: seq<ItemInfo>
    var groupFunc: Option<GroupFunc>
    var groupInfo: seq<GroupEntry>
    /** `item_attributes`: per item id, a dictionary of named attributes. */
    var attrs: map<nat, map<string, AttrValue>>

    /** One slot per row, and every calculated slot is that row's group. */
    ghost predicate Valid()
      reads this
    {
      && |groupInfo| == |rows|
      && forall i :: 0 <= i < |groupInfo| && groupInfo[i].Calculated? ==>
           groupFunc.Some? && groupInfo[i] == Expected(groupFunc.value, rows, i)
    }

    /** A new list; the tracker's first fetch of its rows resets the group information. */
    constructor (tabType: string, tabId: string, groupFunc: Option<GroupFunc>, rows: seq<ItemInfo>)
      ensures Valid()
      ensures this.tabType == tabType && this.tabId == tabId && this.groupFunc == groupFunc && this.rows == rows
      ensures groupInfo == seq(|rows|, _ => NotCalculated) && attrs == map[]
    {
      this.tabType := tabType;
      this.tabId := tabId;
      this.groupFunc := groupFunc;
      this.rows := rows;
      groupInfo := seq(|rows|, _ => NotCalculated);
      attrs := map[];
    }

    // attributes

    /** `get_attrs`: the item's attributes; an item never touched has none. */
    function Attrs(itemId: nat): (r: map<string, AttrValue>)
      reads this
      ensures itemId !in attrs ==> r == map[]
    {
      if itemId in attrs then attrs[itemId] else map[]
    }

    /** `get_attr`: the stored value, or `default` (`None` when omitted) when the item has no attribute `name`. */
    function GetAttr(itemId: nat, name: string, default: Option<AttrValue> := None): (r: Option<AttrValue>)
      reads this
      ensures name in Attrs(itemId) ==> r == Some(Attrs(itemId)[name])
      ensures name !in Attrs(itemId) ==> r == default
    {
      if name in Attrs(itemId) then Some(Attrs(itemId)[name]) else default
    }

    /** `set_attr`: afterwards `get_attr` returns `value`; every other attribute is unchanged. */
    method SetAttr(itemId: nat, name: string, value: AttrValue)
      modifies this
      ensures Attrs(itemId) == old(Attrs(itemId))[name := value]
      ensures forall d :: GetAttr(itemId, name, d) == Some(value)
      ensures forall other :: other != itemId ==> Attrs(other) == old(Attrs(other))
      ensures rows == old(rows) && groupFunc == old(groupFunc) && groupInfo == old(groupInfo)
    {
      attrs := attrs[itemId := Attrs(itemId)[name := value]];
    }

    /** `unset_attr`: removes only that attribute of that item; a no-op when it is absent. */
    method UnsetAttr(itemId: nat, name: string)
      modifies this
      ensures Attrs(itemId) == old(Attrs(itemId)) - {name}
      ensures name !in old(Attrs(itemId)) ==> Attrs(itemId) == old(Attrs(itemId))
      ensures forall d :: GetAttr(itemId, name, d) == d
      ensures forall other :: other != itemId ==> Attrs(other) == old(Attrs(other))
      ensures rows == old(rows) && groupFunc == old(groupFunc) && groupInfo == old(groupInfo)
    {
      if name in Attrs(itemId) {
        attrs := attrs[itemId := Attrs(itemId) - {name}];
      }
    }

    // grouping

    /** `_reset_group_info`: every row's group is to be calculated again. */
    method ResetGroupInfo()
      modifies this
      ensures groupInfo == seq(|rows|, _ => NotCalculated) && Valid()
      ensures rows == old(rows) && groupFunc == old(groupFunc) && attrs == old(attrs)
    {
      groupInfo := seq(|rows|, _ => NotCalculated);
    }

    /** `set_grouping`: a new grouping function invalidates every group. */
    method SetGrouping(f: Option<GroupFunc>)
      modifies this
      ensures groupFunc == f && groupInfo == seq(|rows|, _ => NotCalculated) && Valid()
      ensures rows == old(rows) && attrs == old(attrs)
    {
      groupFunc := f;
      ResetGroupInfo();
    }

    /** `_fetch_id_list` and `_uncache_row_data`: the tracker's rows changed, so every group is stale. */
    method RowsChanged(newRows: seq<ItemInfo>)
      modifies this
      ensures rows == newRows && groupInfo == seq(|rows|, _ => NotCalculated) && Valid()
      ensures groupFunc == old(groupFunc) && attrs == old(attrs)
    {
      rows := newRows;
      ResetGroupInfo();
    }

    /** `_calc_group_info`: walks left and right from `row` while the key stays the same, then fills the run. */
    method CalcGroupInfo(row: nat)
      requires groupFunc.Some? && row < |rows| && |groupInfo| == |rows|
      modifies this
      ensures rows == old(rows) && groupFunc == old(groupFunc) && attrs == old(attrs)
      ensures groupInfo == Grouped(old(groupInfo), groupFunc.value, rows, row)
    {
      var f := groupFunc.value;
      var items := rows;
      var key := f(items[row]);
      if key.None? {
        groupInfo := groupInfo[row := Calculated(0, 1, items[row])];
        return;
      }
      var k := key.value;
      var start, end := row, row;
      while start > 0 && f(items[start - 1]) == key
        invariant start <= row
        invariant RunStart(f, items, start, k) == RunStart(f, items, row, k)
      {
        start := start - 1;
      }
      while end < |items| - 1 && f(items[end + 1]) == key
        invariant row <= end < |items|
        invariant RunEnd(f, items, end, k) == RunEnd(f, items, row, k)
      {
        end := end + 1;
      }
      assert start == RunStart(f, items, row, k) && end == RunEnd(f, items, row, k);
      var total := end - start + 1;
      var before := groupInfo;
      var info := before;
      for r := start to end + 1
        invariant |info| == |items|
        invariant forall i :: 0 <= i < |info| ==>
          info[i] == if start <= i < r then Calculated(i - start, total, items[start]) else before[i]
      {
        info := info[r := Calculated(r - start, total, items[start])];
      }
      ghost var expected := Grouped(before, f, items, row);
      assert forall i :: 0 <= i < |info| ==> info[i] == expected[i];
      groupInfo := info;
    }

    /**
      `get_group_info`: `(index, count, first_info)` of the group holding
      `row`, computed only when not cached; `Err` (ValueError) when no
      grouping is set.
     */
    method GetGroupInfo(row: nat) returns (r: Result<GroupEntry, string>)
      requires Valid() && row < |rows|
      modifies this
      ensures Valid() && rows == old(rows) && groupFunc == old(groupFunc) && attrs == old(attrs)
      ensures groupFunc.None? ==> r == Err("no grouping set") && groupInfo == old(groupInfo)
      ensures groupFunc.Some? ==> r == Ok(Expected(groupFunc.value, rows, row))
      ensures old(groupInfo[row]).Calculated? ==> groupInfo == old(groupInfo)
    {
      if groupFunc.None? {
        return Err("no grouping set");
      }
      if groupInfo[row].NotCalculated? {
        ghost var before := groupInfo;
        CalcGroupInfo(row);
        GroupedIsExpected(before, groupFunc.value, rows, row);
      }
      return Ok(groupInfo[row]);
    }
  }

  // ---------------------------------------------------------------------
  // ItemListPool

  /** The tab type whose lists are never shared. */
  const MANUAL := "manual"

  /** Lists for the same tab are shared, except manual ones. */
  predicate SameTab(l: ItemList, tabType: string, tabId: string) {
    l.tabType == tabType && l.tabId == tabId
  }

  class ItemListPool {
    var allItemLists: set<ItemList>
    var refcounts: map<ItemList, int>

    /**
      The reference counts cover exactly the pooled lists and are positive,
      and no two pooled lists other than manual ones are for the same tab.
     */
    ghost predicate Valid()
      reads this
    {
      && refcounts.Keys == allItemLists
      && (forall l :: l in refcounts ==> refcounts[l] >= 1)
      && (forall a, b :: a in allItemLists && b in allItemLists && a.tabType != MANUAL && SameTab(b, a.tabType, a.tabId) ==> a == b)
    }

    constructor ()
      ensures Valid() && allItemLists == {} && refcounts == map[]
    {
      allItemLists := {};
      refcounts := map[];
    }

    /**
      `get`: the pooled list for the tab, with one more reference, unless the
      tab is manual or has none; then a new list with one reference.
     */
    method Get(tabType: string, tabId: string, groupFunc: Option<GroupFunc>, rows: seq<ItemInfo>) returns (l: ItemList)
      requires Valid()
      modifies this
      ensures Valid() && l in allItemLists && SameTab(l, tabType, tabId)
      ensures tabType != MANUAL && (exists m :: m in old(allItemLists) && SameTab(m, tabType, tabId)) ==>
        && l in old(allItemLists)
        && allItemLists == old(allItemLists) && refcounts == old(refcounts)[l := old(refcounts)[l] + 1]
      ensures tabType == MANUAL || (forall m :: m in old(allItemLists) ==> !SameTab(m, tabType, tabId)) ==>
        && fresh(l) && l.groupFunc == groupFunc && l.rows == rows && l.Valid()
        && allItemLists == old(allItemLists) + {l} && refcounts == old(refcounts)[l := 1]
    {
      if tabType != MANUAL {
        var unseen := allItemLists;
        while unseen != {}
          invariant unseen <= allItemLists
          invariant forall m :: m in allItemLists - unseen ==> !SameTab(m, tabType, tabId)
          decreases unseen
        {
          var obj :| obj in unseen;
          if SameTab(obj, tabType, tabId) {
            refcounts := refcounts[obj := refcounts[obj] + 1];
            return obj;
          }
          unseen := unseen - {obj};
        }
      }
      assert tabType != MANUAL ==> forall m :: m in allItemLists ==> !SameTab(m, tabType, tabId);
      l := new ItemList(tabType, tabId, groupFunc, rows);
      allItemLists := allItemLists + {l};
      refcounts := refcounts[l := 1];
    }

    /** `add_ref`: one more reference to a pooled list; `Err` (ValueError) for a released one. */
    method AddRef(l: ItemList) returns (r: Result<(), string>)
      requires Valid()
      modifies this
      ensures Valid() && allItemLists == old(allItemLists)
      ensures r.Ok? <==> l in old(refcounts)
      ensures l in old(refcounts) ==> refcounts == old(refcounts)[l := old(refcounts)[l] + 1]
      ensures l !in old(refcounts) ==> refcounts == old(refcounts)
    {
      if l in refcounts {
        refcounts := refcounts[l := refcounts[l] + 1];
        return Ok(());
      }
      return Err("has already been released");
    }

    /**
      `release`: one reference fewer; the last one takes the list out of the
      pool. `Err` (KeyError) for a list that is not pooled.
     */
    method Release(l: ItemList) returns (r: Result<(), string>)
      requires Valid()
      modifies this
      ensures Valid()
      ensures r.Ok? <==> l in old(refcounts)
      ensures l !in old(refcounts) ==> refcounts == old(refcounts) && allItemLists == old(allItemLists)
      ensures l in old(refcounts) && old(refcounts)[l] > 1 ==>
        refcounts == old(refcounts)[l := old(refcounts)[l] - 1] && allItemLists == old(allItemLists)
      ensures l in old(refcounts) && old(refcounts)[l] <= 1 ==>
        refcounts == old(refcounts) - {l} && allItemLists == old(allItemLists) - {l}
    {
      if l !in refcounts {
        return Err("KeyError");
      }
      refcounts := refcounts[l := refcounts[l] - 1];
      if refcounts[l] <= 0 {
        allItemLists := allItemLists - {l};
        refcounts := refcounts - {l};
      }
      return Ok(());
    }
  }
}
