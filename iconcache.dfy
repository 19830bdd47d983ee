/**
  The icon cache of `tv/portable/iconcache.py`.

  `IconCacheUpdater` admits at most `RUNNING_MAX` icon requests and downloads
  at a time and queues the rest in a `vital` and an `idle` tier. Each
  `IconCache` entry is a small state machine that checks whether its cached
  file is fresh, downloads the owner's thumbnail URL, stores the body under a
  new name with a random token, and hands its slot back with `UpdateFinished`.

  Everything outside the process is a recorded effect: the event loop's
  pending callbacks and downloads (`EventLoop.tasks`), the files on disk
  (`Disk.files`) and the notifications sent to owners (`Inbox.notices`).
 */
module IconCaching {
  import opened Wrappers
  import opened Text
  import Util

  /** At most this many icon requests and downloads are in progress. */
  const RUNNING_MAX := 3
  /** Delay, in seconds, of the retry scheduled after a failed download. */
  const RETRY_DELAY := 3600
  /** The random token lies in `[0, TOKEN_LIMIT)`: `random.randint(0, 99999999)`. */
  const TOKEN_LIMIT := 100000000

  /** Python truthiness of an optional string: present and non-empty. */
  predicate Truthy(s: Option<string>) {
    s.Some? && s.value != []
  }

  /** A URL the entry never downloads: none, an absolute path or a `file://` URL. */
  predicate IsLocal(url: Option<string>) {
    url.None? || StartsWith(url.value, "/") || StartsWith(url.value, "file://")
  }

  // ---------------------------------------------------------------------
  // The cache file name

  /** The components of `name` with the eight-digit token inserted before the last one, or appended when there is one. */
  function WithToken(parts: seq<string>, uid: string): (r: seq<string>)
    requires |parts| >= 1
    ensures |r| == |parts| + 1
  {
    if |parts| == 1 then parts + [uid] else parts[..|parts| - 1] + [uid] + [parts[|parts| - 1]]
  }

  /** The new cache name for a downloaded file `name` and a random `token`. */
  function TokenName(name: string, token: nat): string
    requires token < TOKEN_LIMIT
  {
    Join(WithToken(Split(name, '.'), ZeroPad(token, 8)), '.')
  }

  /** The dot component that holds the token: the last of two, otherwise the last but one. */
  function TokenIndex(n: nat): nat
    requires n >= 2
  {
    if n == 2 then 1 else n - 2
  }

  /** Drops the token component again. */
  function StripToken(r: string): string {
    var ps := Split(r, '.');
    if |ps| <= 2 then ps[0] else Join(ps[..|ps| - 2] + [ps[|ps| - 1]], '.')
  }

  /** Reads the token back from a cache name. */
  function TokenOf(r: string): Option<nat> {
    var ps := Split(r, '.');
    if |ps| >= 2 && AllDigits(ps[TokenIndex(|ps|)]) then Some(ParseNat(ps[TokenIndex(|ps|)])) else None
  }

  lemma TokenNameParts(name: string, token: nat)
    requires token < TOKEN_LIMIT
    ensures Split(TokenName(name, token), '.') == WithToken(Split(name, '.'), ZeroPad(token, 8))
  {
    var parts := Split(name, '.');
    var uid := ZeroPad(token, 8);
    var w := WithToken(parts, uid);
    assert '.' !in uid by {
      assert forall i :: 0 <= i < |uid| ==> IsDigit(uid[i]);
    }
    assert forall i :: 0 <= i < |w| ==> '.' !in w[i] by {
      forall i | 0 <= i < |w| ensures '.' !in w[i] {
        if |parts| == 1 {
          assert w[i] == (if i == 0 then parts[0] else uid);
        } else if i < |parts| - 1 {
          assert w[i] == parts[i];
        } else if i == |parts| - 1 {
          assert w[i] == uid;
        } else {
          assert w[i] == parts[|parts| - 1];
        }
      }
    }
    SplitJoin(w, '.');
  }

  /**
    The new name has one more dot component than the downloaded name: the
    eight digits of the token, which read back as the token, and removing
    that component gives back the downloaded name.
   */
  lemma TokenNameRoundTrip(name: string, token: nat)
    requires token < TOKEN_LIMIT
    ensures |Split(TokenName(name, token), '.')| == |Split(name, '.')| + 1
    ensures var ps := Split(TokenName(name, token), '.');
      ps[TokenIndex(|ps|)] == ZeroPad(token, 8) && |ZeroPad(token, 8)| == 8
    ensures TokenOf(TokenName(name, token)) == Some(token)
    ensures StripToken(TokenName(name, token)) == name
  {
    TokenNameParts(name, token);
    WithTokenParts(Split(name, '.'), ZeroPad(token, 8));
    assert Pow10(8) == TOKEN_LIMIT;
    ZeroPadExact(token, 8);
    TokenOfTokenName(name, token);
    StripTokenName(name, token);
  }

  lemma TokenOfTokenName(name: string, token: nat)
    requires token < TOKEN_LIMIT
    ensures TokenOf(TokenName(name, token)) == Some(token)
  {
    TokenNameParts(name, token);
    WithTokenParts(Split(name, '.'), ZeroPad(token, 8));
    assert Pow10(8) == TOKEN_LIMIT;
    ZeroPadExact(token, 8);
  }

  lemma StripTokenName(name: string, token: nat)
    requires token < TOKEN_LIMIT
    ensures StripToken(TokenName(name, token)) == name
  {
    var parts := Split(name, '.');
    var w := WithToken(parts, ZeroPad(token, 8));
    TokenNameParts(name, token);
    WithTokenParts(parts, ZeroPad(token, 8));
    JoinSplit(name, '.');
    if |w| <= 2 {
      assert StripToken(TokenName(name, token)) == w[0];
      assert Join(parts, '.') == parts[0];
    } else {
      assert StripToken(TokenName(name, token)) == Join(w[..|w| - 2] + [w[|w| - 1]], '.');
    }
  }

  /** The token sits at `TokenIndex`, and dropping it gives back the components. */
  lemma WithTokenParts(parts: seq<string>, uid: string)
    requires |parts| >= 1
    ensures var w := WithToken(parts, uid);
      && w[TokenIndex(|w|)] == uid
      && (|w| <= 2 ==> w[0] == parts[0] && parts == [parts[0]])
      && (|w| > 2 ==> w[..|w| - 2] + [w[|w| - 1]] == parts)
  {
    var w := WithToken(parts, uid);
    if |parts| > 1 {
      assert w[..|w| - 2] == parts[..|parts| - 1];
    }
  }

  // ---------------------------------------------------------------------
  // The world outside the process

  /** The response `httpclient.grabURL` hands to `update_icon_cache`. */
  datatype Response = Response(status: int, filename: string, body: seq<Util.byte>, etag: Option<string>, modified: Option<string>)

  /**
    A file on disk with the permissions `fileutil.access` checks, and whether
    `fileutil.remove` can delete it (otherwise it raises `OSError`).
   */
  datatype FileInfo = FileInfo(data: seq<Util.byte>, readable: bool, writable: bool, removable: bool)

  /** The disk after `remove_file(name)`: a removal that raises leaves everything in place. */
  function Removed(files: map<string, FileInfo>, name: string): (r: map<string, FileInfo>)
    ensures name in r <==> name in files && !files[name].removable
    ensures forall p :: p != name ==> (p in r <==> p in files)
    ensures forall p :: p in r ==> r[p] == files[p]
  {
    if name in files && !files[name].removable then files else files - {name}
  }

  /** A pending callback of the event loop, or a download in flight. */
  datatype Task =
    | IconRequest(entry: IconCache)                  // eventloop.addIdle(item.request_icon)
    | UpdateRequest(entry: IconCache, vital: bool)   // iconCacheUpdater.request_update, deferred by asIdle
    | Retry(entry: IconCache, delay: nat)            // eventloop.addTimeout(delay, self.request_update)
    | Fetch(entry: IconCache, url: string)           // httpclient.grabURL in flight

  /** What an owner is told. */
  datatype Notice =
    | IconChanged(owner: IconCacheOwner, needsSave: bool)  // dbItem.icon_changed(needsSave=...)
    | OwnerChanged(owner: IconCacheOwner)                  // signal_change() after a new icon cache id

  /** Icon requests and downloads each hold one of the `RUNNING_MAX` slots. */
  predicate HoldsSlot(t: Task) {
    t.IconRequest? || t.Fetch?
  }

  function Slots(tasks: seq<Task>): nat {
    if tasks == [] then 0 else Slots(tasks[..|tasks| - 1]) + (if HoldsSlot(tasks[|tasks| - 1]) then 1 else 0)
  }

  /** Number of downloads in flight for entry `e`. */
  function FetchCount(e: IconCache, tasks: seq<Task>): nat {
    if tasks == [] then 0
    else FetchCount(e, tasks[..|tasks| - 1]) + (if tasks[|tasks| - 1].Fetch? && tasks[|tasks| - 1].entry == e then 1 else 0)
  }

  lemma {:induction false} SlotsAppend(a: seq<Task>, b: seq<Task>)
    ensures Slots(a + b) == Slots(a) + Slots(b)
    decreases |b|
  {
    if b == [] {
      assert a + b == a;
    } else {
      assert (a + b)[..|a + b| - 1] == a + b[..|b| - 1];
      SlotsAppend(a, b[..|b| - 1]);
    }
  }

  lemma {:induction false} FetchCountAppend(e: IconCache, a: seq<Task>, b: seq<Task>)
    ensures FetchCount(e, a + b) == FetchCount(e, a) + FetchCount(e, b)
    decreases |b|
  {
    if b == [] {
      assert a + b == a;
    } else {
      assert (a + b)[..|a + b| - 1] == a + b[..|b| - 1];
      FetchCountAppend(e, a, b[..|b| - 1]);
    }
  }

  lemma {:induction false} FetchCountAbsent(e: IconCache, tasks: seq<Task>)
    requires forall k :: 0 <= k < |tasks| ==> tasks[k].entry != e
    ensures FetchCount(e, tasks) == 0
    decreases |tasks|
  {
    if tasks != [] {
      FetchCountAbsent(e, tasks[..|tasks| - 1]);
    }
  }

  /** `tasks` without the one at index `i`: the event loop has started running it. */
  function Without(tasks: seq<Task>, i: nat): seq<Task>
    requires i < |tasks|
  {
    tasks[..i] + tasks[i + 1..]
  }

  lemma TakeTask(tasks: seq<Task>, i: nat, e: IconCache)
    requires i < |tasks|
    ensures Slots(tasks) == Slots(Without(tasks, i)) + (if HoldsSlot(tasks[i]) then 1 else 0)
    ensures FetchCount(e, tasks) == FetchCount(e, Without(tasks, i)) + (if tasks[i].Fetch? && tasks[i].entry == e then 1 else 0)
  {
    assert tasks == tasks[..i] + [tasks[i]] + tasks[i + 1..];
    SlotsAppend(tasks[..i] + [tasks[i]], tasks[i + 1..]);
    SlotsAppend(tasks[..i], [tasks[i]]);
    SlotsAppend(tasks[..i], tasks[i + 1..]);
    assert [tasks[i]][..0] == [];
    FetchCountAppend(e, tasks[..i] + [tasks[i]], tasks[i + 1..]);
    FetchCountAppend(e, tasks[..i], [tasks[i]]);
    FetchCountAppend(e, tasks[..i], tasks[i + 1..]);
  }

  /** `after` is `before` with tasks appended, none of them a download. */
  predicate Extends(before: seq<Task>, after: seq<Task>) {
    before <= after && forall k :: |before| <= k < |after| ==> !after[k].Fetch?
  }

  lemma {:induction false} ExtendsFetchCount(before: seq<Task>, after: seq<Task>, e: IconCache)
    requires Extends(before, after)
    ensures FetchCount(e, after) == FetchCount(e, before)
    decreases |after|
  {
    if |after| > |before| {
      var init := after[..|after| - 1];
      assert Extends(before, init) by {
        assert forall k :: |before| <= k < |init| ==> init[k] == after[k];
      }
      ExtendsFetchCount(before, init, e);
    } else {
      assert after == before;
    }
  }

  predicate Readable(files: map<string, FileInfo>, path: string) {
    path in files && files[path].readable
  }

  predicate ReadWritable(files: map<string, FileInfo>, path: string) {
    path in files && files[path].readable && files[path].writable
  }

  /** The event loop: idle callbacks, timeouts and downloads in flight, in the order they were added. */
  class EventLoop {
    var tasks: seq<Task>

    constructor ()
      ensures tasks == []
    {
      tasks := [];
    }
  }

  /** The files `fileutil` sees. */
  class Disk {
    var files: map<string, FileInfo>

    constructor (files: map<string, FileInfo>)
      ensures this.files == files
    {
      this.files := files;
    }
  }

  /** The notifications owners have received, in order. */
  class Inbox {
    var notices: seq<Notice>

    constructor ()
      ensures notices == []
    {
      notices := [];
    }
  }

  // ---------------------------------------------------------------------
  // IconCacheUpdater

  class IconCacheUpdater {
    const loop: EventLoop
    const disk: Disk
    const inbox: Inbox
    var idle: seq<IconCache>
    var vital: seq<IconCache>
    var runningCount: int
    var inShutdown: bool

    constructor (loop: EventLoop, disk: Disk, inbox: Inbox)
      ensures this.loop == loop && this.disk == disk && this.inbox == inbox
      ensures idle == [] && vital == [] && runningCount == 0 && !inShutdown
    {
      this.loop := loop;
      this.disk := disk;
      this.inbox := inbox;
      idle := [];
      vital := [];
      runningCount := 0;
      inShutdown := false;
    }

    /** Slots taken by callers that have not yet handed theirs back with `UpdateFinished`. */
    ghost function Held(): int
      reads this, loop
    {
      runningCount - Slots(loop.tasks)
    }

    /** The icon request `UpdateFinished` starts now: the next vital entry, else the next idle one. */
    ghost function HandBack(): seq<Task>
      reads this
    {
      if inShutdown then []
      else if vital != [] then [IconRequest(vital[0])]
      else if idle != [] then [IconRequest(idle[0])]
      else []
    }

    /** Every entry this updater queues or schedules reports back to it. */
    ghost predicate Wired()
      reads this, loop
    {
      && (forall e :: e in vital ==> e.updater == this)
      && (forall e :: e in idle ==> e.updater == this)
      && (forall k :: 0 <= k < |loop.tasks| ==> loop.tasks[k].entry.updater == this)
    }

    /**
      The tier a request joins: a vital request for an entry whose readable
      cached file already comes from the owner's current thumbnail URL is
      downgraded to idle. `None`: the owner has no `get_thumbnail_url`, the
      comparison raises and the request is dropped.
     */
    function Admission(item: IconCache, isVital: bool): (r: Option<bool>)
      reads item, item.dbItem, disk
      ensures r.Some? && r.value ==> isVital
      ensures !isVital ==> r == Some(false)
      ensures isVital && r == Some(false) <==>
        && isVital && Truthy(item.filename) && Readable(disk.files, item.filename.value)
        && item.dbItem.hasThumbnailUrl && item.url == item.dbItem.thumbnailUrl
      ensures r.None? <==>
        isVital && Truthy(item.filename) && Readable(disk.files, item.filename.value) && !item.dbItem.hasThumbnailUrl
    {
      if isVital && Truthy(item.filename) && Readable(disk.files, item.filename.value) then
        if item.dbItem.hasThumbnailUrl then Some(item.url != item.dbItem.thumbnailUrl) else None
      else Some(isVital)
    }

    /** `request_update` as it runs on the idle queue. */
    method RequestUpdate(item: IconCache, isVital: bool)
      requires runningCount <= RUNNING_MAX
      requires Wired() && item.updater == this
      modifies this, loop
      ensures runningCount <= RUNNING_MAX && Wired()
      ensures Held() == old(Held()) && inShutdown == old(inShutdown)
      ensures Extends(old(loop.tasks), loop.tasks)
      ensures old(Admission(item, isVital)).None? ==>
        runningCount == old(runningCount) && vital == old(vital) && idle == old(idle) && loop.tasks == old(loop.tasks)
      ensures old(Admission(item, isVital)).Some? && old(runningCount) < RUNNING_MAX ==>
        && runningCount == old(runningCount) + 1 && loop.tasks == old(loop.tasks) + [IconRequest(item)]
        && vital == old(vital) && idle == old(idle)
      ensures old(Admission(item, isVital)) == Some(true) && old(runningCount) == RUNNING_MAX ==>
        vital == [item] + old(vital) && idle == old(idle) && runningCount == old(runningCount) && loop.tasks == old(loop.tasks)
      ensures old(Admission(item, isVital)) == Some(false) && old(runningCount) == RUNNING_MAX ==>
        idle == [item] + old(idle) && vital == old(vital) && runningCount == old(runningCount) && loop.tasks == old(loop.tasks)
    {
      var isVital := isVital;
      if isVital {
        if Truthy(item.filename) && Readable(disk.files, item.filename.value) {
          if !item.dbItem.hasThumbnailUrl {
            // `get_thumbnail_url` is missing: the AttributeError ends the callback
            return;
          }
          if item.url == item.dbItem.thumbnailUrl {
            isVital := false;
          }
        }
      }
      if runningCount < RUNNING_MAX {
        SlotsAppend(loop.tasks, [IconRequest(item)]);
        loop.tasks := loop.tasks + [IconRequest(item)];
        runningCount := runningCount + 1;
      } else if isVital {
        vital := [item] + vital;
      } else {
        idle := [item] + idle;
      }
    }

    /**
      `update_finished`: the caller hands its slot back, either by passing it
      to the next queued entry (vital before idle) or by lowering the count.
     */
    method UpdateFinished()
      requires Wired()
      modifies this, loop
      ensures Wired() && Held() == old(Held()) - 1 && runningCount <= old(runningCount)
      ensures inShutdown == old(inShutdown)
      ensures loop.tasks == old(loop.tasks) + old(HandBack()) && Extends(old(loop.tasks), loop.tasks)
      ensures old(inShutdown) ==>
        runningCount == old(runningCount) - 1 && vital == old(vital) && idle == old(idle) && loop.tasks == old(loop.tasks)
      ensures !old(inShutdown) && old(vital) != [] ==>
        && vital == old(vital)[1..] && idle == old(idle) && runningCount == old(runningCount)
        && loop.tasks == old(loop.tasks) + [IconRequest(old(vital)[0])]
      ensures !old(inShutdown) && old(vital) == [] && old(idle) != [] ==>
        && idle == old(idle)[1..] && vital == [] && runningCount == old(runningCount)
        && loop.tasks == old(loop.tasks) + [IconRequest(old(idle)[0])]
      ensures !old(inShutdown) && old(vital) == [] && old(idle) == [] ==>
        runningCount == old(runningCount) - 1 && vital == [] && idle == [] && loop.tasks == old(loop.tasks)
    {
      if inShutdown {
        runningCount := runningCount - 1;
        return;
      }
      var item;
      if |vital| > 0 {
        item := vital[0];
        vital := vital[1..];
      } else if |idle| > 0 {
        item := idle[0];
        idle := idle[1..];
      } else {
        runningCount := runningCount - 1;
        return;
      }
      SlotsAppend(loop.tasks, [IconRequest(item)]);
      loop.tasks := loop.tasks + [IconRequest(item)];
    }

    /** Adds a callback that holds no slot to the event loop. */
    method Schedule(t: Task)
      requires Wired() && t.entry.updater == this && !HoldsSlot(t)
      modifies loop
      ensures loop.tasks == old(loop.tasks) + [t] && Extends(old(loop.tasks), loop.tasks)
      ensures Wired() && Held() == old(Held())
    {
      SlotsAppend(loop.tasks, [t]);
      loop.tasks := loop.tasks + [t];
    }

    /** `clear_vital`: drops the vital tier only. */
    method ClearVital()
      modifies this
      ensures vital == [] && idle == old(idle) && runningCount == old(runningCount) && inShutdown == old(inShutdown)
    {
      vital := [];
    }

    /** `shutdown`: from now on finished work only lowers the count. */
    method Shutdown()
      modifies this
      ensures inShutdown && vital == old(vital) && idle == old(idle) && runningCount == old(runningCount)
    {
      inShutdown := true;
    }
  }

  // ---------------------------------------------------------------------
  // IconCacheOwnerMixin

  /** The `_icon_cache` attribute: never set, set to `None`, or holding an entry. */
  datatype CacheSlot = Unset | Cleared | Cached(cache: IconCache)

  /** An object that owns an icon cache entry (a feed, an item or a channel guide). */
  class IconCacheOwner {
    /** `ICON_CACHE_VITAL`. */
    const vital: bool
    /** Whether the owner defines `get_thumbnail_url`. */
    const hasThumbnailUrl: bool
    /** What `get_thumbnail_url()` returns. */
    var thumbnailUrl: Option<string>
    var iconCacheId: Option<nat>
    var slot: CacheSlot

    constructor (vital: bool, hasThumbnailUrl: bool, thumbnailUrl: Option<string>, iconCacheId: Option<nat>)
      ensures this.vital == vital && this.hasThumbnailUrl == hasThumbnailUrl
      ensures this.thumbnailUrl == thumbnailUrl && this.iconCacheId == iconCacheId && slot == Unset
    {
      this.vital := vital;
      this.hasThumbnailUrl := hasThumbnailUrl;
      this.thumbnailUrl := thumbnailUrl;
      this.iconCacheId := iconCacheId;
      slot := Unset;
    }

    /** A loaded entry is the one `iconCacheId` names; a cleared one leaves no id behind. */
    predicate Valid()
      reads this
    {
      && (slot.Cleared? ==> iconCacheId.None?)
      && (slot.Cached? ==> iconCacheId == Some(slot.cache.id))
    }

    /** `setup_new_icon_cache`: a new entry, whose id the owner records. */
    method SetupNewIconCache(updater: IconCacheUpdater, newId: nat)
      requires updater.Wired()
      modifies this, updater.loop
      ensures Valid() && slot.Cached? && fresh(slot.cache) && iconCacheId == Some(newId)
      ensures slot.cache.dbItem == this && slot.cache.updater == updater
      ensures updater.Wired() && updater.Held() == old(updater.Held())
      ensures updater.loop.tasks == old(updater.loop.tasks) + [UpdateRequest(slot.cache, vital)]
    {
      var c := new IconCache(updater, newId, this);
      slot := Cached(c);
      iconCacheId := Some(c.id);
    }

    /**
      `_icon_cache_getter`: the entry is made (or looked up) once, on first
      use; a changed id is recorded and announced with `signal_change`.
      After `RemoveIconCache` the attribute holds `None`, which is returned.
     */
    method IconCacheGetter(updater: IconCacheUpdater, lookup: Option<IconCache>, newId: nat)
      returns (r: Option<IconCache>)
      requires Valid() && updater.Wired()
      requires lookup.Some? ==> iconCacheId == Some(lookup.value.id) && lookup.value.updater == updater
      modifies this, updater.loop, updater.inbox, if lookup.Some? then {lookup.value} else {}
      ensures Valid() && updater.Wired() && updater.Held() == old(updater.Held())
      ensures Extends(old(updater.loop.tasks), updater.loop.tasks)
      ensures old(slot).Cached? ==>
        && r == Some(old(slot).cache) && slot == old(slot) && iconCacheId == old(iconCacheId)
        && updater.loop.tasks == old(updater.loop.tasks) && updater.inbox.notices == old(updater.inbox.notices)
      ensures old(slot).Cleared? ==>
        && r.None? && slot == old(slot) && iconCacheId == old(iconCacheId)
        && updater.loop.tasks == old(updater.loop.tasks) && updater.inbox.notices == old(updater.inbox.notices)
      ensures old(slot).Unset? ==>
        && r.Some? && slot == Cached(r.value) && iconCacheId == Some(r.value.id)
        && r.value.dbItem == this && r.value.updater == updater
        && (old(iconCacheId).Some? && lookup.Some? ==> r == lookup)
        && (old(iconCacheId).None? || lookup.None? ==> fresh(r.value) && r.value.id == newId)
        && updater.inbox.notices == old(updater.inbox.notices) + (if old(iconCacheId) != iconCacheId then [OwnerChanged(this)] else [])
    {
      match slot {
        case Cached(c) => return Some(c);
        case Cleared => return None;
        case Unset =>
      }
      var c := MakeIconCache(this, updater, lookup, newId);
      slot := Cached(c);
      if iconCacheId != Some(c.id) {
        iconCacheId := Some(c.id);
        updater.inbox.notices := updater.inbox.notices + [OwnerChanged(this)];
      }
      return Some(c);
    }

    /**
      `remove_icon_cache`: an owner with an id loads its entry (through the
      getter), removes it, and is left with neither entry nor id.
     */
    method RemoveIconCache(updater: IconCacheUpdater, lookup: Option<IconCache>, newId: nat)
      requires Valid() && updater.Wired()
      requires slot.Cached? ==> slot.cache.updater == updater
      requires lookup.Some? ==> iconCacheId == Some(lookup.value.id) && lookup.value.updater == updater
      modifies this, updater.loop, updater.inbox, updater.disk
      modifies if lookup.Some? then {lookup.value} else {}, if slot.Cached? then {slot.cache} else {}
      ensures Valid() && updater.Wired() && updater.Held() == old(updater.Held())
      ensures Extends(old(updater.loop.tasks), updater.loop.tasks)
      ensures old(iconCacheId).None? ==> slot == old(slot) && iconCacheId.None? && updater.disk.files == old(updater.disk.files)
      ensures old(iconCacheId).Some? ==> slot == Cleared && iconCacheId.None?
      ensures old(iconCacheId).Some? && old(slot).Cached? ==> old(slot).cache.removed
      ensures old(iconCacheId).Some? && old(slot).Unset? && lookup.Some? ==> lookup.value.removed
    {
      if iconCacheId.None? {
        return;
      }
      var c := IconCacheGetter(updater, lookup, newId);
      c.value.Remove();
      slot := Cleared;
      iconCacheId := None;
    }
  }

  // ---------------------------------------------------------------------
  // IconCache

  class IconCache {
    const updater: IconCacheUpdater
    const id: nat
    var dbItem: IconCacheOwner
    var etag: Option<string>
    var modified: Option<string>
    var filename: Option<string>
    var url: Option<string>
    var updating: bool
    var needsUpdate: bool
    var removed: bool

    /** `setup_new`: an empty entry that asks for its icon at once. */
    constructor (updater: IconCacheUpdater, id: nat, dbItem: IconCacheOwner)
      requires updater.Wired()
      modifies updater.loop
      ensures updater.Wired() && updater.Held() == old(updater.Held())
      ensures this.updater == updater && this.id == id && this.dbItem == dbItem
      ensures etag.None? && modified.None? && filename.None? && url.None?
      ensures !updating && !needsUpdate && !removed
      ensures updater.loop.tasks == old(updater.loop.tasks) + [UpdateRequest(this, dbItem.vital)]
    {
      this.updater := updater;
      this.id := id;
      this.dbItem := dbItem;
      etag := None;
      modified := None;
      filename := None;
      url := None;
      updating := false;
      needsUpdate := false;
      removed := false;
      new;
      RequestUpdate(dbItem.vital);
    }

    /** `setup_restored`: an entry loaded from the database, with its flags cleared. */
    constructor Restored(updater: IconCacheUpdater, id: nat, dbItem: IconCacheOwner,
                         etag: Option<string>, modified: Option<string>, filename: Option<string>, url: Option<string>)
      ensures this.updater == updater && this.id == id && this.dbItem == dbItem
      ensures this.etag == etag && this.modified == modified && this.filename == filename && this.url == url
      ensures !updating && !needsUpdate && !removed
    {
      this.updater := updater;
      this.id := id;
      this.dbItem := dbItem;
      this.etag := etag;
      this.modified := modified;
      this.filename := filename;
      this.url := url;
      updating := false;
      needsUpdate := false;
      removed := false;
    }

    /** `request_update`: a removed entry asks for nothing; otherwise the request is deferred to the idle queue. */
    method RequestUpdate(isVital: bool)
      requires updater.Wired()
      modifies updater.loop
      ensures updater.Wired() && updater.Held() == old(updater.Held())
      ensures removed ==> updater.loop.tasks == old(updater.loop.tasks)
      ensures !removed ==> updater.loop.tasks == old(updater.loop.tasks) + [UpdateRequest(this, isVital)]
      ensures Extends(old(updater.loop.tasks), updater.loop.tasks)
    {
      if removed {
        return;
      }
      updater.Schedule(UpdateRequest(this, isVital));
    }

    /** `icon_changed`: the owner is told, with whether it must save itself. */
    method IconChanged(needsSave: bool)
      modifies updater.inbox
      ensures updater.inbox.notices == old(updater.inbox.notices) + [Notice.IconChanged(dbItem, needsSave)]
    {
      updater.inbox.notices := updater.inbox.notices + [Notice.IconChanged(dbItem, needsSave)];
    }

    /** `remove_file`: the file is deleted, unless the removal raises `OSError`, which is swallowed. */
    method RemoveFile(name: string)
      modifies updater.disk
      ensures updater.disk.files == Removed(old(updater.disk.files), name)
    {
      if name in updater.disk.files && !updater.disk.files[name].removable {
        // `fileutil.remove` raises; the error is ignored
        return;
      }
      updater.disk.files := updater.disk.files - {name};
    }

    /** `remove`: marks the entry removed and deletes its cached file, when the removal succeeds. */
    method Remove()
      modifies this, updater.disk
      ensures removed
      ensures filename == old(filename) && url == old(url) && etag == old(etag) && modified == old(modified)
      ensures updating == old(updating) && needsUpdate == old(needsUpdate)
      ensures updater.disk.files == if Truthy(old(filename)) then Removed(old(updater.disk.files), old(filename).value) else old(updater.disk.files)
    {
      removed := true;
      if Truthy(filename) {
        RemoveFile(filename.value);
      }
    }

    /**
      `reset`: deletes the cached file when the removal succeeds, forgets its
      name and every validator, clears all three flags and tells the owner.
     */
    method Reset()
      modifies this, updater.disk, updater.inbox
      ensures filename.None? && url.None? && etag.None? && modified.None?
      ensures !removed && !updating && !needsUpdate
      ensures updater.disk.files == if Truthy(old(filename)) then Removed(old(updater.disk.files), old(filename).value) else old(updater.disk.files)
      ensures updater.inbox.notices == old(updater.inbox.notices) + [Notice.IconChanged(dbItem, true)]
      ensures !IsValid()
    {
      if Truthy(filename) {
        RemoveFile(filename.value);
      }
      filename := None;
      url := None;
      etag := None;
      modified := None;
      removed := false;
      updating := false;
      needsUpdate := false;
      IconChanged(true);
    }

    /** `isValid`: the entry names a cached file and that file exists. */
    predicate IsValid(): (valid: bool)
      reads this, updater.disk
      ensures valid ==> Truthy(filename) && filename.value in updater.disk.files
      ensures !Truthy(filename) ==> !valid
    {
      Truthy(filename) && filename.value in updater.disk.files
    }

    /**
      `get_filename`: a `file://` URL and an absolute path name the icon
      directly; otherwise the icon is the cached file, if any.
     */
    function GetFilename(): (r: Location)
      reads this
      ensures r.FileUrlPath? <==> Truthy(url) && StartsWith(url.value, "file://")
      ensures r.NativePath? <==> Truthy(url) && StartsWith(url.value, "/")
      ensures r.FileUrlPath? || r.NativePath? ==> Some(r.url) == url
      ensures r.CachedFile? ==> r.name == filename
    {
      if Truthy(url) && StartsWith(url.value, "file://") then
        assert url.value[..7][0] == 'f';
        FileUrlPath(url.value)
      else if Truthy(url) && StartsWith(url.value, "/") then NativePath(url.value)
      else CachedFile(filename)
    }

    /** The URL `request_icon` asks for: the owner's thumbnail URL when it has `get_thumbnail_url`, else the entry's own. */
    function RequestedUrl(): Option<string>
      reads this, dbItem
    {
      if dbItem.hasThumbnailUrl then dbItem.thumbnailUrl else url
    }

    /** The entry is checked once per run: same URL as before and a readable cached file. */
    predicate IsFresh(requested: Option<string>, files: map<string, FileInfo>)
      reads this
    {
      requested == url && Truthy(filename) && Readable(files, filename.value)
    }

    /** What the tail of `error_callback` and of `update_icon_cache` schedules before handing the slot back. */
    function Replay(needsUpdate: bool, error: Option<string>): seq<Task> {
      if needsUpdate then [UpdateRequest(this, true)]
      else if error.Some? then [Retry(this, RETRY_DELAY)]
      else []
    }

    /**
      `error_callback`: the cached file is kept; a different URL replaces the
      old one and drops its validators; a pending update is replayed as vital,
      otherwise an error schedules a retry in an hour; the slot is handed back.
     */
    method ErrorCallback(url: Option<string>, error: Option<string>)
      requires updater.Wired()
      modifies this, updater, updater.loop, updater.inbox
      ensures updater.Wired() && updater.Held() == old(updater.Held()) - 1
      ensures updater.runningCount <= old(updater.runningCount)
      ensures filename == old(filename) && removed == old(removed) && dbItem == old(dbItem)
      ensures old(removed) ==>
        && this.url == old(this.url) && etag == old(etag) && modified == old(modified)
        && updating == old(updating) && needsUpdate == old(needsUpdate)
        && updater.inbox.notices == old(updater.inbox.notices)
        && updater.loop.tasks == old(updater.loop.tasks) + old(updater.HandBack())
      ensures !old(removed) ==>
        && this.url == url && !updating && !needsUpdate
        && updater.loop.tasks == old(updater.loop.tasks) + Replay(old(needsUpdate), error) + old(updater.HandBack())
      ensures !old(removed) && old(this.url) != url ==>
        etag.None? && modified.None? && updater.inbox.notices == old(updater.inbox.notices) + [Notice.IconChanged(dbItem, true)]
      ensures !old(removed) && old(this.url) == url ==>
        etag == old(etag) && modified == old(modified) && updater.inbox.notices == old(updater.inbox.notices)
      ensures Extends(old(updater.loop.tasks), updater.loop.tasks)
    {
      if removed {
        updater.UpdateFinished();
        return;
      }
      AdoptUrl(url);
      Finish(error);
    }

    /** An error keeps the cached file but adopts the URL it was for, dropping the old URL's validators. */
    method AdoptUrl(url: Option<string>)
      modifies this, updater.inbox
      ensures this.url == url && filename == old(filename) && dbItem == old(dbItem)
      ensures updating == old(updating) && needsUpdate == old(needsUpdate) && removed == old(removed)
      ensures old(this.url) != url ==>
        etag.None? && modified.None? && updater.inbox.notices == old(updater.inbox.notices) + [Notice.IconChanged(dbItem, true)]
      ensures old(this.url) == url ==>
        etag == old(etag) && modified == old(modified) && updater.inbox.notices == old(updater.inbox.notices)
    {
      if this.url != url {
        this.url := url;
        etag := None;
        modified := None;
        IconChanged(true);
      }
    }

    /**
      The tail `error_callback` and `update_icon_cache` share: clear
      `updating`, replay a pending update as vital (or, after an error,
      schedule a retry), and hand the slot back.
     */
    method Finish(error: Option<string>)
      requires updater.Wired() && !removed
      modifies this, updater, updater.loop
      ensures updater.Wired() && updater.Held() == old(updater.Held()) - 1
      ensures updater.runningCount <= old(updater.runningCount)
      ensures !updating && !needsUpdate
      ensures url == old(url) && etag == old(etag) && modified == old(modified) && filename == old(filename)
      ensures removed == old(removed) && dbItem == old(dbItem)
      ensures updater.loop.tasks == old(updater.loop.tasks) + Replay(old(needsUpdate), error) + old(updater.HandBack())
      ensures Extends(old(updater.loop.tasks), updater.loop.tasks)
    {
      updating := false;
      if needsUpdate {
        needsUpdate := false;
        RequestUpdate(true);
      } else if error.Some? {
        updater.Schedule(Retry(this, RETRY_DELAY));
      }
      updater.UpdateFinished();
    }

    /**
      `request_icon`: a removed, busy or fresh entry hands its slot straight
      back (a busy one remembers to update again); otherwise it marks itself
      updating and either reports a local URL through `ErrorCallback` or
      starts the one download, which keeps the slot.
     */
    method RequestIcon()
      requires updater.Wired()
      modifies this, updater, updater.loop, updater.inbox
      ensures updater.Wired() && updater.runningCount <= old(updater.runningCount)
      ensures filename == old(filename) && removed == old(removed) && dbItem == old(dbItem)
      ensures old(removed || updating || IsFresh(RequestedUrl(), updater.disk.files)) ==>
        && url == old(url) && etag == old(etag) && modified == old(modified) && updating == old(updating)
        && needsUpdate == (old(needsUpdate) || (!old(removed) && old(updating)))
        && updater.Held() == old(updater.Held()) - 1
        && updater.loop.tasks == old(updater.loop.tasks) + old(updater.HandBack())
        && updater.inbox.notices == old(updater.inbox.notices)
      ensures old(!removed && !updating && !IsFresh(RequestedUrl(), updater.disk.files)) && IsLocal(old(RequestedUrl())) ==>
        && url == old(RequestedUrl()) && !updating && !needsUpdate
        && updater.Held() == old(updater.Held()) - 1
        && updater.loop.tasks == old(updater.loop.tasks) + Replay(old(needsUpdate), None) + old(updater.HandBack())
        && (old(url) != url ==> etag.None? && modified.None?)
        && (old(url) == url ==> etag == old(etag) && modified == old(modified))
      ensures old(removed || updating || IsFresh(RequestedUrl(), updater.disk.files) || IsLocal(RequestedUrl())) ==>
        Extends(old(updater.loop.tasks), updater.loop.tasks)
      ensures old(!removed && !updating && !IsFresh(RequestedUrl(), updater.disk.files)) && !IsLocal(old(RequestedUrl())) ==>
        && updating && needsUpdate == old(needsUpdate)
        && url == old(url) && etag == old(etag) && modified == old(modified)
        && updater.runningCount == old(updater.runningCount)
        && updater.loop.tasks == old(updater.loop.tasks) + [Fetch(this, old(RequestedUrl()).value)]
        && updater.Held() == old(updater.Held()) - 1
        && updater.inbox.notices == old(updater.inbox.notices)
    {
      if removed {
        updater.UpdateFinished();
        return;
      }
      if updating {
        needsUpdate := true;
        updater.UpdateFinished();
        return;
      }
      var requested := RequestedUrl();
      if requested == url && Truthy(filename) && Readable(updater.disk.files, filename.value) {
        updater.UpdateFinished();
        return;
      }
      StartUpdate(requested);
    }

    /**
      The rest of `request_icon` for an entry that is due: it marks itself
      updating, then reports a local URL through `ErrorCallback` or starts
      the download, which keeps the slot.
     */
    method StartUpdate(requested: Option<string>)
      requires updater.Wired() && !removed && !updating
      modifies this, updater, updater.loop, updater.inbox
      ensures updater.Wired() && updater.runningCount <= old(updater.runningCount)
      ensures filename == old(filename) && removed == old(removed) && dbItem == old(dbItem)
      ensures updater.Held() == old(updater.Held()) - 1
      ensures IsLocal(requested) ==>
        && url == requested && !updating && !needsUpdate
        && updater.loop.tasks == old(updater.loop.tasks) + Replay(old(needsUpdate), None) + old(updater.HandBack())
        && (old(url) != url ==> etag.None? && modified.None?)
        && (old(url) == url ==> etag == old(etag) && modified == old(modified))
        && Extends(old(updater.loop.tasks), updater.loop.tasks)
      ensures !IsLocal(requested) ==>
        && updating && needsUpdate == old(needsUpdate)
        && url == old(url) && etag == old(etag) && modified == old(modified)
        && updater.runningCount == old(updater.runningCount)
        && updater.loop.tasks == old(updater.loop.tasks) + [Fetch(this, requested.value)]
        && updater.inbox.notices == old(updater.inbox.notices)
    {
      updating := true;
      if requested.None? || StartsWith(requested.value, "/") || StartsWith(requested.value, "file://") {
        ErrorCallback(requested, None);
        return;
      }
      SlotsAppend(updater.loop.tasks, [Fetch(this, requested.value)]);
      updater.loop.tasks := updater.loop.tasks + [Fetch(this, requested.value)];
    }

    /**
      The `try` body of `update_icon_cache` for a fresh body: write it to a
      temporary file, delete the old cached file, and move the temporary file
      to a new name carrying a random token; then adopt the validators and URL.
      Returns `needsSave`.
     */
    method StoreBody(url: string, response: Response, env: StoreEnv) returns (needsSave: bool)
      requires env.token < TOKEN_LIMIT
      modifies this, updater.disk
      ensures needsSave == env.writeOk
      ensures updating == old(updating) && needsUpdate == old(needsUpdate) && removed == old(removed) && dbItem == old(dbItem)
      ensures var kept := KeptName(old(filename), old(updater.disk.files));
        var tmp := TempPath(kept, response, env);
        !env.writeOk ==>
          && filename == kept && this.url == old(this.url) && etag == old(etag) && modified == old(modified)
          && updater.disk.files == Removed(old(updater.disk.files), tmp)
      ensures var kept := KeptName(old(filename), old(updater.disk.files));
        var tmp := TempPath(kept, response, env);
        var cleared := Written(old(updater.disk.files), kept, tmp, response.body);
        env.writeOk ==>
          && etag == response.etag && modified == response.modified && this.url == Some(url)
          && filename == (if RenameSucceeds(cleared, tmp, env) then Some(CachePath(response, env)) else None)
          && updater.disk.files == Stored(cleared, tmp, CachePath(response, env), env)
      ensures var kept := KeptName(old(filename), old(updater.disk.files));
        var tmp := TempPath(kept, response, env);
        (env.writeOk && RenameSucceeds(Written(old(updater.disk.files), kept, tmp, response.body), tmp, env)
         && CachePath(response, env) != []) ==> IsValid()
    {
      ghost var kept := KeptName(filename, updater.disk.files);
      if Truthy(filename) && !ReadWritable(updater.disk.files, filename.value) {
        filename := None;
      }
      assert filename == kept;
      var tmp := TempPath(filename, response, env);
      if !env.writeOk {
        RemoveFile(tmp);
        return false;
      }
      updater.disk.files := updater.disk.files[tmp := FileInfo(response.body, true, true, true)];
      if Truthy(filename) {
        RemoveFile(filename.value);
      }
      ghost var cleared := updater.disk.files;
      assert cleared == Written(old(updater.disk.files), kept, tmp, response.body);
      filename := Some(CachePath(response, env));
      needsSave := true;
      if env.renameOk && tmp in updater.disk.files {
        var moved := updater.disk.files[tmp];
        updater.disk.files := (updater.disk.files - {tmp})[filename.value := moved];
      } else {
        filename := None;
        needsSave := true;
      }
      assert updater.disk.files == Stored(cleared, tmp, CachePath(response, env), env);
      AdoptValidators(url, response);
    }

    /** The tail of a stored download: the response's validators and the URL replace the entry's. */
    method AdoptValidators(url: string, response: Response)
      modifies this
      ensures etag == response.etag && modified == response.modified && this.url == Some(url)
      ensures filename == old(filename) && updating == old(updating) && needsUpdate == old(needsUpdate)
      ensures removed == old(removed) && dbItem == old(dbItem)
    {
      // each change would set `needsSave`, which the rename step has already set
      if etag != response.etag {
        etag := response.etag;
      }
      if modified != response.modified {
        modified := response.modified;
      }
      if this.url != Some(url) {
        this.url := Some(url);
      }
    }

    /**
      `update_icon_cache`: the download of `url` finished with `info`. A
      missing or unusable response is an error; 304 keeps everything; 200
      stores the body. Every path but the error one then clears `updating`,
      replays a pending update as vital and hands the slot back.
     */
    method UpdateIconCache(url: string, info: Option<Response>, env: StoreEnv)
      requires updater.Wired() && env.token < TOKEN_LIMIT
      modifies this, updater, updater.loop, updater.disk, updater.inbox
      ensures updater.Wired() && updater.Held() == old(updater.Held()) - 1
      ensures updater.runningCount <= old(updater.runningCount)
      ensures removed == old(removed) && dbItem == old(dbItem)
      ensures Extends(old(updater.loop.tasks), updater.loop.tasks)
      ensures old(removed) ==>
        && this.url == old(this.url) && etag == old(etag) && modified == old(modified) && filename == old(filename)
        && updating == old(updating) && needsUpdate == old(needsUpdate)
        && updater.disk.files == old(updater.disk.files) && updater.inbox.notices == old(updater.inbox.notices)
        && updater.loop.tasks == old(updater.loop.tasks) + old(updater.HandBack())
      ensures !old(removed) && BadResponse(info) ==>
        && filename == old(filename) && this.url == Some(url) && !updating && !needsUpdate
        && updater.disk.files == old(updater.disk.files)
        && updater.loop.tasks == old(updater.loop.tasks) + Replay(old(needsUpdate), Some("bad response")) + old(updater.HandBack())
        && (old(this.url) != Some(url) ==>
              etag.None? && modified.None? && updater.inbox.notices == old(updater.inbox.notices) + [Notice.IconChanged(dbItem, true)])
        && (old(this.url) == Some(url) ==>
              etag == old(etag) && modified == old(modified) && updater.inbox.notices == old(updater.inbox.notices))
      ensures !old(removed) && !BadResponse(info) ==>
        && !updating && !needsUpdate
        && updater.loop.tasks == old(updater.loop.tasks) + Replay(old(needsUpdate), None) + old(updater.HandBack())
      ensures !old(removed) && !BadResponse(info) && info.value.status == 304 ==>
        && this.url == old(this.url) && etag == old(etag) && modified == old(modified) && filename == old(filename)
        && updater.disk.files == old(updater.disk.files) && updater.inbox.notices == old(updater.inbox.notices)
      ensures !old(removed) && !BadResponse(info) && info.value.status == 200 ==>
        && updater.inbox.notices == old(updater.inbox.notices) + [Notice.IconChanged(dbItem, env.writeOk)]
        && var kept := KeptName(old(filename), old(updater.disk.files));
           var tmp := TempPath(kept, info.value, env);
           var cleared := Written(old(updater.disk.files), kept, tmp, info.value.body);
           && (!env.writeOk ==>
                 && filename == kept && this.url == old(this.url) && etag == old(etag) && modified == old(modified)
                 && updater.disk.files == Removed(old(updater.disk.files), tmp))
           && (env.writeOk ==>
                 && etag == info.value.etag && modified == info.value.modified && this.url == Some(url)
                 && filename == (if RenameSucceeds(cleared, tmp, env) then Some(CachePath(info.value, env)) else None)
                 && updater.disk.files == Stored(cleared, tmp, CachePath(info.value, env), env))
           && (env.writeOk && RenameSucceeds(cleared, tmp, env) && CachePath(info.value, env) != [] ==> IsValid())
    {
      if removed {
        updater.UpdateFinished();
        return;
      }
      var needsSave := false;
      var needsChange := false;
      if BadResponse(info) {
        ErrorCallback(Some(url), Some("bad response"));
        return;
      }
      if info.value.status != 304 {
        needsChange := true;
        needsSave := StoreBody(url, info.value, env);
      }
      // the `finally` clause
      if needsChange {
        IconChanged(needsSave);
      }
      Finish(None);
    }
  }

  // ---------------------------------------------------------------------
  // make_icon_cache and IconCacheOwnerMixin

  /**
    `make_icon_cache`: the owner's stored entry, if its id is set and the
    database has it (`lookup`), is re-attached to the owner and asked to
    update; otherwise a new entry with id `newId` is made for the owner.
   */
  method MakeIconCache(obj: IconCacheOwner, updater: IconCacheUpdater, lookup: Option<IconCache>, newId: nat)
    returns (c: IconCache)
    requires updater.Wired()
    requires lookup.Some? ==> obj.iconCacheId == Some(lookup.value.id) && lookup.value.updater == updater
    modifies updater.loop, if lookup.Some? then {lookup.value} else {}
    ensures updater.Wired() && updater.Held() == old(updater.Held())
    ensures Extends(old(updater.loop.tasks), updater.loop.tasks)
    ensures c.dbItem == obj && c.updater == updater
    ensures obj.iconCacheId.Some? && lookup.Some? ==>
      && c == lookup.value
      && c.removed == old(c.removed) && c.filename == old(c.filename) && c.url == old(c.url)
      && updater.loop.tasks == old(updater.loop.tasks) + (if c.removed then [] else [UpdateRequest(c, false)])
    ensures obj.iconCacheId.None? || lookup.None? ==>
      && fresh(c) && c.id == newId && !c.removed && c.filename.None?
      && updater.loop.tasks == old(updater.loop.tasks) + [UpdateRequest(c, obj.vital)]
  {
    if obj.iconCacheId.Some? && lookup.Some? {
      c := lookup.value;
      c.dbItem := obj;
      c.RequestUpdate(false);
      return;
    }
    // an id the database does not know is logged and a new entry made
    c := new IconCache(updater, newId, obj);
  }

  // ---------------------------------------------------------------------
  // The event loop at work

  /** How a download ends: `grabURL` calls back with a response, or with an error. */
  datatype Outcome = Arrived(info: Option<Response>) | Failed(error: string)

  /**
    No entry has more than one download in flight, and an entry with one is
    marked `updating`.
   */
  ghost predicate OneFetch(tasks: seq<Task>, e: IconCache)
    reads e
  {
    FetchCount(e, tasks) <= 1 && (FetchCount(e, tasks) == 1 ==> e.updating)
  }

  /**
    Runs task `t`, already taken off the event loop. Only an icon request
    starts a download, for an entry that was not updating; otherwise no
    download is added and a task other than a download keeps the entry's
    `updating` mark.
   */
  method Dispatch(updater: IconCacheUpdater, t: Task, outcome: Outcome, env: StoreEnv) returns (ghost started: bool, ghost added: Task)
    requires updater.Wired() && t.entry.updater == updater && updater.runningCount <= RUNNING_MAX
    requires env.token < TOKEN_LIMIT
    modifies updater, updater.loop, updater.disk, updater.inbox, t.entry
    ensures updater.Wired() && updater.runningCount <= RUNNING_MAX
    ensures updater.Held() == old(updater.Held()) - (if HoldsSlot(t) then 1 else 0)
    ensures !started ==> Extends(old(updater.loop.tasks), updater.loop.tasks)
    ensures !started && !t.Fetch? && old(t.entry.updating) ==> t.entry.updating
    ensures started ==>
      && t.IconRequest? && !old(t.entry.updating) && t.entry.updating
      && updater.loop.tasks == old(updater.loop.tasks) + [added] && added.Fetch? && added.entry == t.entry
  {
    var entry := t.entry;
    started, added := false, t;
    match t {
      case IconRequest(_) =>
        entry.RequestIcon();
        started := !Extends(old(updater.loop.tasks), updater.loop.tasks);
        if started {
          added := Fetch(entry, old(entry.RequestedUrl()).value);
        }
      case UpdateRequest(_, isVital) =>
        updater.RequestUpdate(entry, isVital);
      case Retry(_, _) =>
        entry.RequestUpdate(false);
      case Fetch(_, url) =>
        match outcome {
          case Arrived(info) => entry.UpdateIconCache(url, info, env);
          case Failed(error) => entry.ErrorCallback(Some(url), Some(error));
        }
    }
  }

  /**
    The event loop runs pending task `i` (a download finishing with
    `outcome`). Every slot is accounted for before and after: the count
    equals the icon requests and downloads pending, and never exceeds
    `RUNNING_MAX`; and no entry ever has two downloads in flight.
   */
  method RunTask(updater: IconCacheUpdater, i: nat, outcome: Outcome, env: StoreEnv)
    requires updater.Wired() && updater.Held() == 0 && updater.runningCount <= RUNNING_MAX
    requires i < |updater.loop.tasks| && env.token < TOKEN_LIMIT
    requires forall e: IconCache :: OneFetch(updater.loop.tasks, e)
    modifies updater, updater.loop, updater.disk, updater.inbox, updater.loop.tasks[i].entry
    ensures updater.Wired() && updater.Held() == 0 && 0 <= updater.runningCount <= RUNNING_MAX
    ensures forall e: IconCache :: OneFetch(updater.loop.tasks, e)
  {
    var t := updater.loop.tasks[i];
    var entry := t.entry;
    var before := updater.loop.tasks;
    forall e: IconCache
      ensures FetchCount(e, before) == FetchCount(e, Without(before, i)) + (if t.Fetch? && t.entry == e then 1 else 0)
    {
      TakeTask(before, i, e);
    }
    TakeTask(before, i, entry);
    assert OneFetch(before, entry);
    updater.loop.tasks := Without(before, i);
    ghost var rest := updater.loop.tasks;
    assert updater.Wired() by {
      forall k | 0 <= k < |rest| ensures rest[k].entry.updater == updater {
        assert rest[k] == (if k < i then before[k] else before[k + 1]);
      }
    }
    ghost var started: bool, added: Task;
    started, added := Dispatch(updater, t, outcome, env);
    assert t.Fetch? ==> FetchCount(entry, rest) == 0;
    forall e: IconCache ensures OneFetch(updater.loop.tasks, e) {
      if old(allocated(e)) {
        assert old(OneFetch(before, e));
        assert e != entry ==> e.updating == old(e.updating);
      } else {
        assert forall k :: 0 <= k < |before| ==> before[k].entry != e;
        FetchCountAbsent(e, before);
        TakeTask(before, i, e);
      }
      if !started {
        ExtendsFetchCount(rest, updater.loop.tasks, e);
      } else {
        FetchCountAppend(e, rest, [added]);
      }
    }
  }

  /** What `get_filename` resolves to; the path conversions themselves are not part of this model. */
  datatype Location =
    | FileUrlPath(url: string)     // getFileURLPath(url)
    | NativePath(url: string)      // unicodeToFilename(url)
    | CachedFile(name: Option<string>)

  /** Neither 200 nor 304, or no response at all. */
  predicate BadResponse(info: Option<Response>) {
    info.None? || (info.value.status != 304 && info.value.status != 200)
  }

  /**
    The outside choices a download's completion depends on: the cache
    directory, the random token, whether writing the temporary file and
    renaming it succeed, `nextFreeFilename` and `unicodeToFilename`.
   */
  datatype StoreEnv = StoreEnv(cacheDir: string, token: nat, writeOk: bool, renameOk: bool,
                               nextFree: string -> string, toFilename: string -> string)

  /** `os.path.join` of a directory and a relative name. */
  function JoinPath(dir: string, name: string): string {
    dir + "/" + name
  }

  /** The cached file name that survives the access check: an unwritable one is dropped. */
  function KeptName(filename: Option<string>, files: map<string, FileInfo>): (r: Option<string>)
    ensures r == filename || r.None?
    ensures Truthy(r) ==> ReadWritable(files, r.value)
  {
    if Truthy(filename) && !ReadWritable(files, filename.value) then None else filename
  }

  /** The temporary file: next to the cached file, or in the cache directory under the downloaded name. */
  function TempPath(kept: Option<string>, response: Response, env: StoreEnv): string {
    env.nextFree(if Truthy(kept) then kept.value + ".part" else JoinPath(env.cacheDir, response.filename) + ".part")
  }

  /** The new cache file name, carrying the random token. */
  function CachePath(response: Response, env: StoreEnv): string
    requires env.token < TOKEN_LIMIT
  {
    env.nextFree(JoinPath(env.cacheDir, env.toFilename(TokenName(response.filename, env.token))))
  }

  /** The disk after writing the temporary file and deleting the old cached file. */
  function Written(files: map<string, FileInfo>, kept: Option<string>, tmp: string, body: seq<Util.byte>): map<string, FileInfo> {
    var written := files[tmp := FileInfo(body, true, true, true)];
    if Truthy(kept) then Removed(written, kept.value) else written
  }

  /** `fileutil.rename` succeeds when allowed and the temporary file is still there. */
  predicate RenameSucceeds(files: map<string, FileInfo>, tmp: string, env: StoreEnv) {
    env.renameOk && tmp in files
  }

  /** The disk after the rename: the temporary file moves to its final name, or stays where it is. */
  function Stored(files: map<string, FileInfo>, tmp: string, final: string, env: StoreEnv): map<string, FileInfo> {
    if RenameSucceeds(files, tmp, env) then (files - {tmp})[final := files[tmp]] else files
  }

  /**
    After a successful rename the cache file holds the downloaded body and
    the temporary file is gone. An old cached file under another name is gone
    too, unless its removal raised, in which case it is left as it was.
   */
  lemma StoredHoldsBody(files: map<string, FileInfo>, kept: Option<string>, tmp: string, body: seq<Util.byte>, final: string, env: StoreEnv)
    requires RenameSucceeds(Written(files, kept, tmp, body), tmp, env)
    ensures var after := Stored(Written(files, kept, tmp, body), tmp, final, env);
      && final in after && after[final] == FileInfo(body, true, true, true)
      && (tmp != final ==> tmp !in after)
      && (Truthy(kept) && kept.value != final && (kept.value in files ==> files[kept.value].removable) ==>
            kept.value !in after)
      && (Truthy(kept) && kept.value != final && kept.value in files && !files[kept.value].removable ==>
            kept.value in after && after[kept.value] == files[kept.value])
  {
  }

  /**
    When the rename fails the disk stays as written: the temporary file keeps
    its `.part` name and holds the downloaded body, unless it is the old cached
    file itself, whose deletion took it away.
   */
  lemma StoreFailures(files: map<string, FileInfo>, kept: Option<string>, tmp: string, body: seq<Util.byte>, final: string, env: StoreEnv)
    requires !RenameSucceeds(Written(files, kept, tmp, body), tmp, env)
    ensures Stored(Written(files, kept, tmp, body), tmp, final, env) == Written(files, kept, tmp, body)
    ensures var after := Stored(Written(files, kept, tmp, body), tmp, final, env);
      && (!(Truthy(kept) && kept.value == tmp) ==> tmp in after && after[tmp] == FileInfo(body, true, true, true))
      && (Truthy(kept) && kept.value == tmp ==> tmp !in after)
  {
  }
}
