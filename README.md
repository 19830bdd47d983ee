# Miro icon cache, item lists and utilities in Dafny

This project models three parts of the Miro video player and proves properties of them:

- **The icon cache** (`tv/portable/iconcache.py`).
  - `IconCacheUpdater` admits at most `RUNNING_MAX` (3) icon requests at a time. Requests beyond that wait in a vital queue or an idle queue.
  - Each `IconCache` entry remembers the cached file, the URL it came from and the HTTP validators. It downloads a new icon when the owner's thumbnail URL changes or the cached file is missing. It writes the body to a `.part` file, gives the result a name carrying a random eight-digit token, and tells its owner.
  - `IconCacheOwnerMixin` creates an owner's entry lazily and removes it.
- **The item list** (`tv/lib/frontends/widgets/itemlist.py`).
  - Rows are grouped into maximal runs of adjacent rows with the same group key (album, feed, show).
  - Each list keeps a per-item attribute store.
  - A tab id can be parsed for a device id or a share id.
  - `ItemListPool` shares one list per tab and counts references to it.
- **Utilities** (`tv/portable/util.py`):
  - `quoteJS`;
  - the `Key = Value` configuration format, read and written;
  - `partition`;
  - `clampText`;
  - `ExponentialBackoffTracker`;
  - `formatTimeForUser`;
  - `unicodify`.

## How the model is built

- **The event loop** is the `EventLoop` class, whose `tasks` field holds the callbacks that are waiting, in the order they were added:
  - an idle `request_icon` (`IconRequest`);
  - a download in flight (`Fetch`);
  - an idle `request_update` (`UpdateRequest`);
  - a one-hour retry (`Retry`).

  `RunTask` runs any waiting task against an outcome chosen by the caller. The outcome is the HTTP response, a transport error, or the result of a disk write or rename.
- **The file system** is the `Disk` class, a map from path to contents with readable and writable flags.
- **Owner notifications** are appended to the `Inbox` class.
- **Slot accounting.** `Held()` is `runningCount` minus the number of waiting tasks that hold a slot (`IconRequest` and `Fetch`). Every handler of a slot-holding task gives back exactly one slot, through `update_finished`.
- **The scheduler invariant.** `RunTask` proves three things from any state where no handler is mid-flight:
  - the count stays within `0..RUNNING_MAX`;
  - no slot leaks (`Held() == 0`);
  - each entry has at most one download in flight (`OneFetch`).
- **The item list and the pool** are classes whose methods update their fields in place.
  - `_calc_group_info` is a method with the source's two `while` loops and its `for` loop.
  - Its result is proved equal to `Grouped`.
  - `Grouped` is in turn proved to agree with `Expected`, a definition of the group entry by maximal runs.
- **The utilities:**
  - the pure ones are functions;
  - `partition`, `readSimpleConfigFile`, `writeSimpleConfigFile` and `unicodify` are methods with loops, proved against functions;
  - `ExponentialBackoffTracker` is a class.

## Model

| member | source | states |
|---|---|---|
| IconCaching.IconCacheUpdater.constructor | tv/portable/iconcache.py:47-51 | A new updater has empty queues, a zero count and is not shut down |
| IconCaching.IconCacheUpdater.Admission | tv/portable/iconcache.py:55-59 | A vital request is downgraded to idle exactly when the entry's cached file is readable and its URL is the owner's thumbnail URL; an owner without `get_thumbnail_url` makes the request fail; a non-vital request stays idle |
| IconCaching.IconCacheUpdater.RequestUpdate | tv/portable/iconcache.py:53-67 | With a free slot the entry's `request_icon` is scheduled and the count rises by one; when all three slots are busy the entry is prepended to `vital` or `idle` by its tier and nothing else changes; the count never exceeds `RUNNING_MAX` and no slot is lost |
| IconCaching.IconCacheUpdater.UpdateFinished | tv/portable/iconcache.py:69-82 | In shutdown only the count drops; otherwise the slot passes to the head of `vital`, else of `idle`, with the count unchanged, and when both are empty the count drops by one; exactly one slot is handed back |
| IconCaching.IconCacheUpdater.ClearVital | tv/portable/iconcache.py:84-86 | Empties the vital queue and changes nothing else |
| IconCaching.IconCacheUpdater.Shutdown | tv/portable/iconcache.py:88-90 | Sets the shutdown flag and changes nothing else |
| IconCaching.IconCache.constructor | tv/portable/iconcache.py:94-105 | `setup_new`: every field empty, every flag clear, and an update request scheduled with the owner's vital flag |
| IconCaching.IconCache.Restored | tv/portable/iconcache.py:303-306 | `setup_restored`: stored fields kept, the three flags cleared |
| IconCaching.IconCache.RequestUpdate | tv/portable/iconcache.py:296-301 | A removed entry schedules nothing; otherwise exactly one update request with the given tier |
| IconCaching.IconCache.IconChanged | tv/portable/iconcache.py:118-125 | The owner receives one change notice carrying `needsSave` |
| IconCaching.IconCache.RemoveFile | tv/portable/iconcache.py:145-149 | The named file is gone from the disk, unless its removal raises, in which case the disk is unchanged; nothing else changes |
| IconCaching.IconCache.Remove | tv/portable/iconcache.py:127-131 | Marks the entry removed and deletes its cached file when it names one and the removal succeeds; every other field is unchanged |
| IconCaching.IconCache.Reset | tv/portable/iconcache.py:133-143 | Deletes the cached file when the removal succeeds, clears the file name, URL, validators and all three flags, and notifies the owner; afterwards the entry is not valid |
| IconCaching.IconCache.IsValid | tv/portable/iconcache.py:308-310 | An entry is valid only when it names a cached file that exists; an entry without a file name is never valid |
| IconCaching.IconCache.GetFilename | tv/portable/iconcache.py:312-319 | A `file://` URL and an absolute path name the icon directly, each exactly when the URL has that prefix; otherwise the icon is the cached file |
| IconCaching.IconCache.ErrorCallback | tv/portable/iconcache.py:151-170 | Never changes the cached file name; a removed entry only hands its slot back; a new URL is adopted with its validators dropped and the owner notified; `updating` is cleared; a pending update is replayed as vital, else an error schedules a 3600 s retry; exactly one slot is handed back |
| IconCaching.IconCache.AdoptUrl | tv/portable/iconcache.py:159-163 | A different URL replaces the old one, drops the validators and notifies the owner; the same URL changes nothing |
| IconCaching.IconCache.Finish | tv/portable/iconcache.py:164-170 | Clears `updating` and `needsUpdate`, replays a pending update as vital or schedules the retry, and hands exactly one slot back; the cached state is unchanged |
| IconCaching.IconCache.RequestIcon | tv/portable/iconcache.py:263-294 | A removed, updating or fresh entry starts no download and hands its slot back, and an updating one sets `needsUpdate`; a local or missing URL is handled by the error path without a download; otherwise `updating` is set and exactly one download of the requested URL is scheduled, keeping the slot |
| IconCaching.IconCache.StartUpdate | tv/portable/iconcache.py:285-294 | From a non-updating entry: a local URL finishes at once through the error path, any other URL starts one download and keeps the slot |
| IconCaching.IconCache.StoreBody | tv/portable/iconcache.py:190-253 | An unwritable cached file name is dropped; a failed write deletes the temporary file and keeps the old state; a successful write deletes the old file when the removal succeeds, renames the temporary file to the token name, or leaves the name empty when the rename fails, and adopts the URL and validators; `needsSave` is whether the write succeeded; after a successful rename to a non-empty name the entry is valid |
| IconCaching.IconCache.AdoptValidators | tv/portable/iconcache.py:242-253 | The entry takes the response's etag and modified date and the downloaded URL |
| IconCaching.IconCache.UpdateIconCache | tv/portable/iconcache.py:172-261 | A removed entry only hands its slot back; a missing or non-200/304 response takes the error path; a 304 changes no field and notifies nobody; a 200 stores the body as `StoreBody` states and notifies the owner; every path clears `updating`, replays a pending update and hands exactly one slot back |
| IconCaching.MakeIconCache | tv/portable/iconcache.py:321-332 | An owner with a stored id that is found gets that entry back, re-owned and asked to update; otherwise a fresh entry is created |
| IconCaching.IconCacheOwner.SetupNewIconCache | tv/portable/iconcache.py:339-341 | The owner gets a fresh entry and records its id |
| IconCaching.IconCacheOwner.IconCacheGetter | tv/portable/iconcache.py:344-352 | A set attribute is returned as is; an unset one is filled by `make_icon_cache`, and the owner signals a change exactly when its stored id changes |
| IconCaching.IconCacheOwner.RemoveIconCache | tv/portable/iconcache.py:355-359 | With a stored id the entry is removed and both the attribute and the id become `None`; without one nothing changes |
| IconCaching.Dispatch | tv/portable/iconcache.py:263-294 | Running one waiting task hands back the slot it holds; only an icon request on a non-updating entry starts a download, as the only new task and for that entry; nothing else adds a download |
| IconCaching.RunTask | tv/portable/iconcache.py:44-90 | From any settled state, running any waiting task keeps `0 <= runningCount <= RUNNING_MAX`, loses no slot, and keeps at most one download in flight per entry |
| IconCaching.TokenNameRoundTrip | tv/portable/iconcache.py:224-230 | The token name has one more dot component than the downloaded name; the zero-padded eight-digit token is the last-but-one component, or the last when the name has no dot; the token reads back from the name, and removing it gives back the downloaded name |
| IconCaching.StoredHoldsBody | tv/portable/iconcache.py:203-237 | After a successful rename the new cache file holds the downloaded body and the temporary file is gone; a different old cached file is gone exactly when its removal does not raise, and otherwise is left as it was |
| IconCaching.StoreFailures | tv/portable/iconcache.py:236-240 | A failed rename leaves the disk as written: the `.part` file is still there holding the downloaded body, unless it was the old cached file and its deletion removed it |
| IconCaching.KeptName | tv/portable/iconcache.py:194-195 | The cached file name survives only when it is readable and writable |
| IconCaching.ExtendsFetchCount | tv/portable/iconcache.py:263-294 | Adding tasks that are not downloads leaves the number of downloads in flight for every entry unchanged |
| IconCaching.TakeTask | tv/portable/iconcache.py:69-82 | Taking one task from the loop lowers the slot count and the entry's download count by exactly that task's share |
| ItemLists.AlbumGrouping | tv/lib/frontends/widgets/itemlist.py:473-479 | No group exactly when both the album-artist and the album sort keys are missing |
| ItemLists.AlbumGroupingSame | tv/lib/frontends/widgets/itemlist.py:473-479 | Two grouped items share an album group exactly when both sort keys agree |
| ItemLists.FeedGrouping | tv/lib/frontends/widgets/itemlist.py:481-483 | No group exactly when the item has no feed |
| ItemLists.FeedGroupingSame | tv/lib/frontends/widgets/itemlist.py:481-483 | Items share a feed group exactly when they have the same feed id |
| ItemLists.VideoGrouping | tv/lib/frontends/widgets/itemlist.py:485-498 | The show name wins; otherwise the parent title's sort key; no group when neither exists |
| ItemLists.VideoGroupingSame | tv/lib/frontends/widgets/itemlist.py:485-497 | An item with a show shares a group with another exactly when that one has the same show, or has no show and a podcast sort title equal to the show's name |
| ItemLists.RunStart | tv/lib/frontends/widgets/itemlist.py:352-355 | The first row of the maximal run of rows with the key that ends at `row` |
| ItemLists.RunEnd | tv/lib/frontends/widgets/itemlist.py:356-358 | The last row of the maximal run of rows with the key that starts at `row` |
| ItemLists.RunStartUnique | tv/lib/frontends/widgets/itemlist.py:352-355 | Any start that bounds a maximal run is the one `RunStart` finds |
| ItemLists.RunEndUnique | tv/lib/frontends/widgets/itemlist.py:356-358 | Any end that bounds a maximal run is the one `RunEnd` finds |
| ItemLists.RunShared | tv/lib/frontends/widgets/itemlist.py:352-358 | A run is determined by its rows: any row of a keyed stretch bounded by other keys or the list's ends finds that stretch's first and last row |
| ItemLists.ExpectedInRun | tv/lib/frontends/widgets/itemlist.py:352-361 | Every row of such a stretch is expected to hold its offset from the first row, the stretch's length and its first row |
| ItemLists.Expected | tv/lib/frontends/widgets/itemlist.py:337-361 | A row's group entry has `0 <= index < count` and names the first row of its group; an ungrouped row gets `(0, 1, itself)` |
| ItemLists.GroupedIsExpected | tv/lib/frontends/widgets/itemlist.py:337-361 | One calculation gives the row its expected entry and every row of its run theirs; rows outside the run, and rows with another key, are untouched; a row with no key changes only its own entry |
| ItemLists.GroupedRun | tv/lib/frontends/widgets/itemlist.py:352-361 | Every row of the maximal run shares the key and gets its expected entry; every row outside the run keeps its old entry |
| ItemLists.IsForDevice | tv/lib/frontends/widgets/itemlist.py:98-99 | True exactly when the tab type starts with `device-` |
| ItemLists.DeviceId | tv/lib/frontends/widgets/itemlist.py:104-107 | The tab id without its text from the last `-`; the whole id when there is none |
| ItemLists.DeviceIdOf | tv/lib/frontends/widgets/itemlist.py:104-107 | A device tab id `device-suffix` gives back the device |
| ItemLists.ShareId | tv/lib/frontends/widgets/itemlist.py:109-114 | Succeeds exactly when the second `-` field parses as an integer, and yields that integer |
| ItemLists.ShareIdOf | tv/lib/frontends/widgets/itemlist.py:109-114 | A tab id `sharing-<n>` or `sharing-<n>-<playlist>` yields `n` |
| ItemLists.ItemList.constructor | tv/lib/frontends/widgets/itemlist.py:67-96 | A new list has no attributes and every group entry not calculated |
| ItemLists.ItemList.GetAttr | tv/lib/frontends/widgets/itemlist.py:282-283 | The stored value when the name is set for the item, else the default, which is `None` when omitted |
| ItemLists.ItemList.Attrs | tv/lib/frontends/widgets/itemlist.py:285-286 | An item never touched has no attributes |
| ItemLists.ItemList.SetAttr | tv/lib/frontends/widgets/itemlist.py:279-280 | `get_attr` then returns the value; other names and other items are unchanged |
| ItemLists.ItemList.UnsetAttr | tv/lib/frontends/widgets/itemlist.py:288-290 | Removes only that name of that item, and is a no-op when the name is absent; `get_attr` then returns the default |
| ItemLists.ItemList.ResetGroupInfo | tv/lib/frontends/widgets/itemlist.py:334-335 | One not-calculated entry per row |
| ItemLists.ItemList.SetGrouping | tv/lib/frontends/widgets/itemlist.py:321-332 | The new group function is installed and every group entry is reset |
| ItemLists.ItemList.RowsChanged | tv/lib/frontends/widgets/itemlist.py:116-123 | A new id list, or uncached rows, reset every group entry |
| ItemLists.ItemList.CalcGroupInfo | tv/lib/frontends/widgets/itemlist.py:337-361 | The entries after the calculation are `Grouped` of the entries before |
| ItemLists.ItemList.GetGroupInfo | tv/lib/frontends/widgets/itemlist.py:293-306 | Fails when no grouping is set; otherwise returns the row's expected entry, and a calculated entry is never recomputed |
| ItemLists.ItemListPool.constructor | tv/lib/frontends/widgets/itemlist.py:415-417 | An empty pool |
| ItemLists.ItemListPool.Get | tv/lib/frontends/widgets/itemlist.py:419-443 | For a tab other than `manual` the existing list of that tab is returned with one more reference; otherwise a fresh list is pooled with one reference; the reference counts always cover exactly the pooled lists |
| ItemLists.ItemListPool.AddRef | tv/lib/frontends/widgets/itemlist.py:445-455 | Fails exactly for a list that is not pooled; otherwise one more reference |
| ItemLists.ItemListPool.Release | tv/lib/frontends/widgets/itemlist.py:457-470 | Fails exactly for a list that is not pooled; otherwise one reference fewer, and the last release drops the list from both the set and the counts |
| Util.QuoteJSIsEscape | tv/portable/util.py:47-53 | The five replacements in sequence equal escaping each character independently, so a backslash becomes two and is never escaped twice |
| Util.UnescapeQuoteJS | tv/portable/util.py:47-53 | Unescaping quoted text gives back the original |
| Util.QuoteJSNoLineBreaks | tv/portable/util.py:51-52 | No raw line feed or carriage return remains |
| Util.QuoteJSQuotesEscaped | tv/portable/util.py:49-50 | Every quote character in the output directly follows a backslash |
| Util.MatchConfigLine | tv/portable/util.py:89-95 | A matched key is non-empty with no space; a matched value has no line break and no leading space |
| Util.ParseConfigHasKey | tv/portable/util.py:83-100 | A key is in the result exactly when some non-blank, well-formed line sets it |
| Util.ParseConfigFirstWins | tv/portable/util.py:96-100 | A key's value comes from the first line that sets it |
| Util.AbsorbKey | tv/portable/util.py:84-100 | One line adds a key only when it sets that key, and never changes an earlier value |
| Util.ReadSimpleConfig | tv/portable/util.py:79-102 | The loop builds the dictionary `ParseConfig` defines from the file's lines |
| Util.WriteSimpleConfig | tv/portable/util.py:106-112 | The loop writes one `key = value` line per item |
| Util.ConfigRoundTrip | tv/portable/util.py:74-112 | Writing a dictionary whose keys are non-empty, space-free and break-free and whose values have no break and no leading space, then reading it back, gives the same dictionary |
| Util.LinesAppendLine | tv/portable/util.py:83 | Splitting text into lines after appending one complete line adds exactly that line |
| Util.Partition | tv/portable/util.py:727-737 | A zero size fails and a negative one gives no chunks; otherwise the chunks concatenate to the input, each holds one to `size` elements, and all but the last exactly `size` |
| Util.ClampText | tv/portable/util.py:503-507 | Short text is unchanged; longer text with `maxLength >= 3` becomes its first `maxLength - 3` characters and `...`, exactly `maxLength` long |
| Util.ClampTextIdempotent | tv/portable/util.py:503-507 | Clamping twice is clamping once |
| Util.PrefixTo | tv/portable/util.py:505 | Python's `s[:n]` is a prefix, of length `n` when `0 <= n <= len(s)` |
| Util.ExponentialBackoffTracker.constructor | tv/portable/util.py:404-405 | The first delay is the base delay |
| Util.ExponentialBackoffTracker.NextDelay | tv/portable/util.py:406-409 | The k-th call since construction or reset returns `baseDelay * 2^k` |
| Util.ExponentialBackoffTracker.Reset | tv/portable/util.py:410-411 | Restores the base delay and restarts the count |
| Util.FormatTimeReadBack | tv/portable/util.py:481-494 | Reading the display back gives the sign and the seconds modulo one day |
| Util.FormatTimeShortForm | tv/portable/util.py:491-494 | Two fields (`m:ss`) exactly for seconds in `[0, 3600)`, three (`h:mm:ss`) otherwise |
| Util.DecodeAsciiReplace | tv/portable/util.py:643-644 | Same length; ASCII bytes map to their character and every other byte to U+FFFD |
| Util.UnicodifySpec | tv/portable/util.py:634-645 | Lists and dicts keep their shape and dict keys, no byte string remains, and a value without byte strings is unchanged |
| Util.UnicodifyValue | tv/portable/util.py:634-645 | Rewriting list items and dict values position by position gives `Unicodify` of the input |

## Left out

- The pop end of `fasttypes.LinkedList` is not visible. The queues are prepended to and popped from the front, so the most recent request is served first; this end is an unverified choice.
- `Reset` clears `updating` while a download may still be in flight, so the at-most-one-download invariant is proved for `RunTask` and every handler, but not across a `reset` that interrupts a download.
- `addIdle` and `addTimeout`, and `request_update` under `eventloop.asIdle`, are modelled as tasks in the loop; timer delays only label the retry task.
- IconCaching.IconCacheUpdater.ClearVital: `clear_vital` is `@eventloop.asIdle`, so in the source it runs only after the callbacks already queued; the model applies it immediately.
- IconCaching.IconCacheUpdater.Shutdown: `shutdown` is `@eventloop.asIdle` too, and the model likewise sets the flag immediately rather than after the queued callbacks.
- IconCaching.IconCache.RequestUpdate: the source's `hasattr(self, "updating") and hasattr(self, "dbItem")` guard is dropped; the model's entries always have both, so the call the guard skips (a restored entry before `make_icon_cache` gives it its owner) is not modelled.
- IconCaching.IconCache.Restored: `setup_restored` does not set `dbItem`; the constructor takes the owner as a parameter, folding in the assignment `make_icon_cache` performs.
- `httpclient.grabURL` is not modelled; its outcome is a parameter of `RunTask`.
- Database persistence, `get_by_id` lookups (a parameter), `orphaned_view`, `all_filenames`, `confirm_db_thread`, `signal_change` internals and `DDBObject.remove` are not modelled.
- `fileutil.makedirs` is not modelled; `os.path.join` is `dir + "/" + name`.
- Whether `fileutil.remove` raises is a fixed property of each file (`FileInfo.removable`), not a fresh outcome on every call.
- `nextFreeFilename` and `unicodeToFilename` are functions passed in `StoreEnv`; `getFileURLPath` and `unicodeToFilename` in `get_filename` are tags of `Location`.
- `random.randint` is the `token` parameter, in `[0, 99999999]`.
- The source passes no etag or modified date to `grabURL`, so no conditional request is made; the model follows the code.
- When writing the `.part` file fails, the owner is still notified (with `needsSave` false), because `needsChange` was already set; the model follows the code.
- When the rename fails, the `.part` file stays on disk; the model follows the code.
- IconCaching.IconCacheUpdater.RequestUpdate: a vital request for an owner without `get_thumbnail_url` whose cached file is readable raises `AttributeError`; the model drops the request with no change.
- `ItemTrackerUpdater` (`add_tracker`, `remove_tracker`, change messages), query building (`_make_base_query`, `add_in_podcast_to_query`), filters, sorting, search, `get_group_top`, `app.tabs`, `call_on_ui_thread` and `destroy` are not modelled.
- Rows are a sequence of item infos; `ItemTracker.get_row` and `get_index` are not modelled, and rows outside the list are excluded by a precondition.
- ItemLists.ItemList.Attrs: reading an untouched item through Python's `defaultdict` inserts an empty dictionary; the model does not record that insertion.
- Util.ClampText: for `maxLength < 3`, Python slicing with a negative bound is modelled by `PrefixTo`, but no length bound is stated for that case.
- ItemLists.ShareId: Python's `int()` also accepts surrounding whitespace; the model accepts only an optional sign followed by digits.
- Util.FormatTimeForUser: only whole seconds are modelled; float seconds are not.
- Util.UnicodifyValue: the source rewrites lists and dicts in place, which callers holding the same object observe; the model returns a new value.
- The warnings `readSimpleConfigFile` prints and the file I/O of both config functions are left out; the functions work on the file's text.
- `tv/windows/plat/usbutils.py` is foreign calls only and is not part of this model.
