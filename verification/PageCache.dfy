/**
  The page cache object: a map of shared, mutable entries, and a directory behind it.
  Whatever sequence of operations ran, `Valid` holds: both memory budgets, the cap on page
  files, and that every page in memory or on disk is what the history says was last put
  there, with the expiry it got then.
*/
module PageCache {
  import opened Wrappers
  import opened Numbers
  import opened Text
  import opened DiskCache
  import opened PageStore

  class PageCacheEntry {
    const content: string
    const etag: string
    const lastModified: string
    var expires: Time
    /** The URL whose entry this is: no two URLs share one. */
    ghost const owner: string

    constructor (ghost url: string, page: Page)
      ensures Value() == page && owner == url
    {
      content, etag, lastModified, expires := page.content, page.etag, page.lastModified, page.expires;
      owner := url;
    }

    ghost function Value(): Page
      reads this
    {
      Page(content, etag, lastModified, expires)
    }
  }

  class PageCache {
    /** The cache file of a URL: a hash of it, about which nothing is assumed. */
    const fileOf: string -> string
    var ttl: int
    var entries: map<string, PageCacheEntry>
    /** The files of the cache directory, while persistence is on. */
    var disk: Option<Disk>

    /** The entries as values. */
    ghost var pages: Memory
    ghost var objects: set<object>
    /** The directory and the history that explains what is served. */
    ghost var past: Past

    /** The entry objects, each with its URL, hold the pages. */
    ghost predicate Linked()
      reads `entries, `pages, `objects, objects
    {
      && this !in objects
      && entries.Keys == pages.Keys
      && forall url <- entries ::
           entries[url] in objects && entries[url].owner == url && entries[url].Value() == pages[url]
    }

    ghost predicate Valid()
      reads this, objects
    {
      Linked() && past.disk == disk && past.fileOf == fileOf && IsGood(pages, past)
    }

    /** What being linked means for one URL. */
    lemma EntryIsLinked(url: string)
      requires Linked()
      ensures url in entries <==> url in pages
      ensures url in entries ==>
        entries[url] in objects && entries[url].owner == url && entries[url].Value() == pages[url]
    {
    }

    lemma EntriesAreLinked()
      requires Linked()
      ensures entries.Keys == pages.Keys
    {
    }

    constructor (files: string -> string, ttl: int)
      ensures Valid() && fileOf == files && this.ttl == ttl
      ensures pages == map[] && objects == {} && past == Past(files, None, [])
    {
      fileOf, this.ttl, entries, disk := files, ttl, map[], None;
      pages, objects, past := map[], {}, Past(files, None, []);
      FreshIsGood(files);
    }

    // -------------------------------------------------------------------------------
    // The map of entries
    // -------------------------------------------------------------------------------

    method Delete(url: string)
      requires Linked()
      modifies `entries, `pages
      ensures Linked() && pages == old(pages) - {url}
    {
      entries, pages := entries - {url}, pages - {url};
    }

    method Clear()
      requires Linked()
      modifies `entries, `pages
      ensures Linked() && pages == map[]
    {
      entries, pages := map[], map[];
    }

    method Put(url: string, entry: PageCacheEntry)
      requires Linked() && entry !in objects && entry.owner == url
      modifies `entries, `pages, `objects
      ensures Linked() && pages == old(pages)[url := entry.Value()] && objects == old(objects) + {entry}
      ensures url in entries && entries[url] == entry
    {
      entries, pages := entries[url := entry], pages[url := entry.Value()];
      objects := objects + {entry};
    }

    /** The loop of `makeRoom`: drops what has expired, adds up the rest. */
    method DropExpired(ghost url: string, size: nat, now: Time) returns (total: nat)
      requires Linked() && url !in pages
      modifies `entries, `pages
      ensures Linked() && pages == Others(old(pages), url, now)
      ensures total == size + Total(pages) && |entries| == |pages|
    {
      total := size;
      var todo := entries.Keys;
      ghost var before := pages;
      assert pages - todo == map[];
      while todo != {}
        invariant Linked() && Summing(before, pages, todo, size, total, url, now)
        decreases todo
      {
        var key :| key in todo;
        if now > entries[key].expires {
          SummingDrops(before, pages, todo, size, total, url, now, key);
          Delete(key);
        } else {
          SummingKeeps(before, pages, todo, size, total, url, now, key);
          total := total + ByteLen(entries[key].content);
        }
        todo := todo - {key};
      }
      assert pages - todo == pages;
      assert |entries.Keys| == |pages.Keys|;
    }

    /** `makeRoom`. */
    method MakeRoom(url: string, size: nat, now: Time)
      requires Linked()
      modifies `entries, `pages
      ensures Linked() && pages == Room(old(pages), url, size, now)
    {
      ghost var before := pages;
      Delete(url);
      var total := DropExpired(url, size, now);
      OthersWithout(before, url, now);
      RoomDecides(before, url, size, now, pages, total);
      if |entries| >= MAX_PAGE_CACHE_ENTRIES || total > MAX_PAGE_CACHE_BYTES {
        Clear();
      }
    }

    // -------------------------------------------------------------------------------
    // Memory and disk
    // -------------------------------------------------------------------------------

    /** Makes room for a page and puts it in. */
    method Insert(url: string, page: Page, now: Time) returns (entry: PageCacheEntry)
      requires Linked()
      modifies `entries, `pages, `objects
      ensures Linked() && fresh(entry) && objects == old(objects) + {entry}
      ensures pages == Room(old(pages), url, ByteLen(page.content), now)[url := page]
      ensures url in entries && entries[url] == entry && entry.Value() == page
    {
      entry := new PageCacheEntry(url, page);
      MakeRoom(url, ByteLen(page.content), now);
      Put(url, entry);
    }

    /** `loadFromDisk`: the file must name this very URL, whatever URL it was found under. */
    method LoadFromDisk(url: string, now: Time) returns (entry: PageCacheEntry?)
      requires Linked() && url !in pages
      modifies `entries, `pages, `objects
      ensures Linked() && fresh(objects - old(objects)) && old(objects) <= objects
      ensures (pages, if entry == null then None else Some(entry.Value()))
           == Lookup(old(pages), disk, fileOf(url), url, now)
      ensures entry != null ==> url in entries && entries[url] == entry
    {
      var hit := DiskHit(disk, fileOf(url), url);
      if hit.Some? {
        entry := Insert(url, hit.value, now);
      } else {
        entry := null;
      }
    }

    /** `lookup`: what it finds was last put into memory under this very URL, if only just now. */
    method FindEntry(url: string, now: Time) returns (entry: PageCacheEntry?)
      requires Valid()
      modifies `entries, `pages, `objects, `past
      ensures Valid() && fresh(objects - old(objects)) && old(objects) <= objects
      ensures IsFinding(old(pages), old(past), fileOf(url), url, now,
                        pages, past, if entry == null then None else Some(entry.Value()))
      ensures entry != null ==> url in entries && entries[url] == entry && Explained(past, url, entry.Value())
    {
      hide IsGood, Explained, Room;
      LookupIsGood(pages, past, fileOf(url), url, now);
      ghost var after := LookedUp(pages, past, fileOf(url), url, now);
      if url in entries {
        entry := entries[url];
      } else {
        entry := LoadFromDisk(url, now);
      }
      past := after;
    }

    /** `persist`: best effort; `wrote` says whether the file made it to the directory. */
    method Persist(url: string, page: Page, wrote: bool, modTime: Time, now: Time)
      modifies `disk
      ensures IsOutcome(old(disk), disk, wrote, fileOf(url), FileOf(url, page, modTime), now)
    {
      if disk.None? || !wrote {
        return;
      }
      var written := disk.value[fileOf(url) := FileOf(url, page, modTime)];
      if |written| > MAX_DISK_CACHE_ENTRIES {
        written := PruneDiskCache(written, now);
      }
      disk := Some(written);
    }

    // -------------------------------------------------------------------------------
    // Operations
    // -------------------------------------------------------------------------------

    /**
      `getFresh`. What it returns was last put into memory for this URL, by a store, a
      revalidation or a load from its file, and the expiry it got with its last store or
      revalidation has not passed. It is the latest content accepted exactly if memory was
      not reverted to an older page. And it does return the page until then, exactly if
      memory has not dropped it.
    */
    method GetFresh(url: string, loaded: Time, now: Time) returns (content: Option<string>)
      requires Valid() && now > ZERO_TIME
      modifies `entries, `pages, `objects, `past
      ensures Valid() && fresh(objects - old(objects))
      ensures ttl <= 0 ==> content == None && pages == old(pages) && past == old(past)
      ensures ttl > 0 ==>
        var (m, page) := Lookup(old(pages), disk, fileOf(url), url, loaded);
        && pages == m && past == LookedUp(old(pages), old(past), fileOf(url), url, loaded)
        && content == FreshContent(page, now)
      ensures content.Some? ==>
        && IsFresh(InMemory(past.history, url), url, content.value, now)
        && (InMemory(past.history, url) == Latest(past.history, url) <==> !Reverted(past.history, url, fileOf))
        && (!EverOpened(past.history) ==> !Reverted(past.history, url, fileOf))
      ensures ttl > 0 && IsUnexpired(old(past).history, url, now) ==>
        content ==
          if !DroppedSince(old(past).history, url) then Some(InMemory(old(past).history, url).value.body.content)
          else if url in old(pages) then None else FreshContent(DiskHit(disk, fileOf(url), url), now)
    {
      hide IsGood, Linked, Room, Explained, IsFresh, Reverted, EverOpened, IsUnexpired, DroppedSince;
      content := None;
      if ttl > 0 {
        if IsUnexpired(past.history, url, now) {
          ServedUnlessDropped(pages, past, fileOf(url), url, loaded, now);
        }
        var entry := FindEntry(url, loaded);
        if entry != null && now <= entry.expires {
          ExplainedIsFresh(past, url, entry.Value(), now);
          content := Some(entry.content);
        }
      }
    }

    /** `validators`: the stored validators of a page, fresh or stale. */
    method Validators(url: string, loaded: Time) returns (etag: string, lastModified: string)
      requires Valid()
      modifies `entries, `pages, `objects, `past
      ensures Valid() && fresh(objects - old(objects))
      ensures ttl <= 0 ==> etag == "" && lastModified == "" && pages == old(pages) && past == old(past)
      ensures ttl > 0 ==>
        var (m, page) := Lookup(old(pages), disk, fileOf(url), url, loaded);
        && pages == m && past == LookedUp(old(pages), old(past), fileOf(url), url, loaded)
        && (etag, lastModified) == if page.Some? then (page.value.etag, page.value.lastModified) else ("", "")
      ensures ttl > 0 && url in pages ==>
        var s := InMemory(past.history, url);
        s.Some? && (etag, lastModified) == (s.value.body.etag, s.value.body.lastModified)
    {
      hide IsGood, Linked, Room, Explained;
      etag, lastModified := "", "";
      if ttl > 0 {
        var entry := FindEntry(url, loaded);
        if entry != null {
          ExplainedIsAttested(past, url, entry.Value());
          etag, lastModified := entry.etag, entry.lastModified;
        }
      }
    }

    /** Overwrites an entry's expiry through the shared object. */
    method Extend(ghost url: string, entry: PageCacheEntry, expires: Time)
      requires Linked() && url in entries && entries[url] == entry
      modifies entry, `pages
      ensures Linked() && objects == old(objects)
      ensures pages == old(pages)[url := old(entry.Value()).(expires := expires)]
      ensures entry.Value() == old(entry.Value()).(expires := expires)
    {
      entry.expires := expires;
      pages := pages[url := pages[url].(expires := expires)];
    }

    /** `refresh`: a revalidated page is good for another TTL, in memory and on disk. */
    method Refresh(url: string, loaded: Time, now: Time, wrote: bool, modTime: Time, pruned: Time)
      returns (content: Option<string>)
      requires Valid()
      modifies `entries, `pages, `objects, objects, `disk, `past
      ensures Valid() && fresh(objects - old(objects))
      ensures IsRefreshed(old(pages), old(past), ttl, fileOf(url), url, loaded, now, wrote, modTime, pruned,
                          pages, past, content)
    {
      hide IsGood, Linked;
      content := None;
      if ttl > 0 {
        content := RefreshFound(url, loaded, now, wrote, modTime, pruned);
      }
    }

    /** `refresh` while caching is on. */
    method RefreshFound(url: string, loaded: Time, now: Time, wrote: bool, modTime: Time, pruned: Time)
      returns (content: Option<string>)
      requires Valid() && ttl > 0
      modifies `entries, `pages, `objects, objects, `disk, `past
      ensures Valid() && fresh(objects - old(objects))
      ensures IsRefreshed(old(pages), old(past), ttl, fileOf(url), url, loaded, now, wrote, modTime, pruned,
                          pages, past, content)
    {
      hide IsGood, Linked, Room, Explained;
      ghost var m, p := pages, past;
      content := None;
      var entry := FindEntry(url, loaded);
      if entry != null {
        EntryIsLinked(url);
        content := RefreshEntry(m, p, url, entry, loaded, now, wrote, modTime, pruned);
      }
    }

    /** `refresh` of an entry that was found. */
    method RefreshEntry(ghost m: Memory, ghost p: Past, url: string, entry: PageCacheEntry, loaded: Time, now: Time,
                        wrote: bool, modTime: Time, pruned: Time)
      returns (content: Option<string>)
      requires Valid() && ttl > 0 && url in entries && entries[url] == entry
      requires IsFinding(m, p, fileOf(url), url, loaded, pages, past, Some(entry.Value()))
      modifies entry, `pages, `disk, `past
      ensures Valid() && objects == old(objects)
      ensures IsRefreshed(m, p, ttl, fileOf(url), url, loaded, now, wrote, modTime, pruned, pages, past, content)
    {
      hide IsGood, Linked, IsFinding, IsOutcome, IsRefreshed;
      EntryIsLinked(url);
      ghost var found, p', page := pages, past, entry.Value();
      var renewed := Page(entry.content, entry.etag, entry.lastModified, now + ttl);
      Extend(url, entry, now + ttl);
      assert renewed == entry.Value();
      Certify(url, renewed, now, wrote, None, modTime, pruned);
      RenewIsGood(found, p', url, renewed, now, ttl, disk, wrote, fileOf(url), modTime, pruned);
      RefreshedPage(m, p, ttl, fileOf(url), url, loaded, now, wrote, modTime, pruned, found, p', page, renewed, disk);
      content := Some(renewed.content);
    }

    /** The end of `refresh` and `store`: an entry just put into memory goes to disk as well. */
    method Certify(url: string, page: Page, now: Time, wrote: bool, ghost sweep: Option<Sweep>, modTime: Time,
                   pruned: Time)
      requires Linked() && past.disk == disk
      modifies `disk, `past
      ensures Linked()
      ensures IsOutcome(old(disk), disk, wrote, fileOf(url), FileOf(url, page, modTime), pruned)
      ensures past == Later(old(past), fileOf(url), url, page, now, ttl, wrote, sweep, disk)
    {
      hide IsOutcome;
      Persist(url, page, wrote, modTime, pruned);
      past := Later(past, fileOf(url), url, page, now, ttl, wrote, sweep, disk);
    }

    /** `store`: content that could never fit is ignored, and then the old page stays. */
    method Store(url: string, content: string, etag: string, lastModified: string,
                 roomed: Time, now: Time, wrote: bool, modTime: Time, pruned: Time)
      requires Valid()
      modifies `entries, `pages, `objects, `disk, `past
      ensures Valid() && fresh(objects - old(objects))
      ensures ttl <= 0 || ByteLen(content) > MAX_PAGE_CACHE_BYTES ==> pages == old(pages) && past == old(past)
      ensures ttl > 0 && ByteLen(content) <= MAX_PAGE_CACHE_BYTES ==>
        var page := Page(content, etag, lastModified, now + ttl);
        && pages == Room(old(pages), url, ByteLen(content), roomed)[url := page]
        && IsOutcome(old(disk), disk, wrote, fileOf(url), FileOf(url, page, modTime), pruned)
        && past == Later(old(past), fileOf(url), url, page, now, ttl, wrote,
                         Some(SweepOf(old(pages), url, ByteLen(content), roomed)), disk)
    {
      hide IsGood, Linked, Overflows, IsOutcome;
      if ttl > 0 && ByteLen(content) <= MAX_PAGE_CACHE_BYTES {
        var page := Page(content, etag, lastModified, now + ttl);
        ghost var m, before := pages, past;
        var _ := Insert(url, page, roomed);
        ghost var sweep := SweepOf(m, url, ByteLen(content), roomed);
        Certify(url, page, now, wrote, Some(sweep), modTime, pruned);
        StoreIsGood(m, before, url, page, roomed, now, ttl, disk, wrote, fileOf(url), modTime, pruned);
      }
    }

    /** The loop of `expireAll`. */
    method MarkStale()
      requires Linked()
      modifies `pages, objects
      ensures Linked() && pages == AllExpired(old(pages))
    {
      hide Linked;
      EntriesAreLinked();
      var todo := entries.Keys;
      ghost var before := pages;
      assert ExpiredBut(before, todo) == before;
      while todo != {}
        invariant objects == old(objects) && Linked() && todo <= before.Keys && pages == ExpiredBut(before, todo)
        decreases todo
      {
        var url :| url in todo;
        EntryIsLinked(url);
        ExpireOne(before, todo, url);
        Extend(url, entries[url], ZERO_TIME);
        todo := todo - {url};
      }
    }

    /** `expireAll`. */
    method ExpireAll()
      requires Valid()
      modifies `pages, objects, `past
      ensures Valid() && pages == AllExpired(old(pages)) && past == After(old(past), Staled)
    {
      hide IsGood;
      ExpiredIsGood(pages, past);
      MarkStale();
      past := After(past, Staled);
    }

    /** `SetPageCacheTTL`: forgets what is in memory. */
    method SetTTL(newTTL: int)
      requires Valid()
      modifies `ttl, `entries, `pages, `past
      ensures Valid() && ttl == newTTL && pages == map[] && past == After(old(past), Emptied)
    {
      EmptyIsGood(pages, past);
      ttl, entries, pages, past := newTTL, map[], map[], After(past, Emptied);
    }

    /**
      `SetPageCacheDir`: switches persistence off, or on over a directory as it is found,
      pruned. `found` is None when there is no directory or it cannot be made.
    */
    method SetDir(found: Option<Disk>, now: Time)
      requires Valid()
      modifies `disk, `past
      ensures Valid()
      ensures if found.Some? then disk.Some? && Pruned(found.value, disk.value, now) else disk.None?
      ensures past == Switched(old(past), found, disk)
    {
      hide IsGood, Pruned;
      ghost var before := past;
      disk := OpenDir(found, now);
      past := Switched(past, found, disk);
      SwitchedIsGood(pages, before, found, disk, now);
    }

    /** Prunes the directory that was found, if there is one. */
    static method OpenDir(found: Option<Disk>, now: Time) returns (dir: Option<Disk>)
      ensures if found.Some? then dir.Some? && Pruned(found.value, dir.value, now) else dir.None?
    {
      dir := None;
      if found.Some? {
        var pruned := PruneDiskCache(found.value, now);
        dir := Some(pruned);
      }
    }
  }

  /** A page is stored in a fresh cache over an empty directory. */
  method FirstStore(files: string -> string, url: string, content: string, ttl: int, now: Time) returns (c: PageCache)
    requires ttl > 0 && ByteLen(content) <= MAX_PAGE_CACHE_BYTES
    ensures fresh(c) && fresh(c.objects) && c.Valid() && c.ttl == ttl
    ensures c.disk == Some(map[c.fileOf(url) := FileOf(url, Page(content, "", "", now + ttl), now)])
  {
    hide Room, IsGood, Later, Switched, SweepOf;
    c := new PageCache(files, ttl);
    c.SetDir(Some(map[]), now);
    assert c.disk == Some(map[]);
    c.Store(url, content, "", "", now, now, true, now, now);
  }

  /**
    Then a newer page is stored whose write fails, and once memory is emptied by setting
    the TTL the older one comes back, whatever the two pages are.
  */
  method OlderPageComesBack(files: string -> string, url: string, older: string, newer: string, ttl: int, now: Time)
    returns (served: Option<string>)
    requires ttl > 0 && now > ZERO_TIME
    requires ByteLen(older) <= MAX_PAGE_CACHE_BYTES && ByteLen(newer) <= MAX_PAGE_CACHE_BYTES
    ensures served == Some(older)
  {
    hide Room, IsGood, Later, After, LookedUp, SweepOf, Pruned;
    hide IsFresh, IsUnexpired, DroppedSince, Reverted, EverOpened;
    var c := FirstStore(files, url, older, ttl, now);
    c.Store(url, newer, "", "", now, now, false, now, now);
    c.SetTTL(ttl);
    served := c.GetFresh(url, now, now);
  }

  /** A page is stored, and then everything is marked stale. */
  method StoreStale(c: PageCache, url: string, content: string, etag: string, lastModified: string, stored: Time,
                    wrote: bool)
    requires c.Valid() && c.ttl > 0 && ByteLen(content) <= MAX_PAGE_CACHE_BYTES
    modifies c, c.objects
    ensures c.Valid() && fresh(c.objects - old(c.objects)) && c.ttl == old(c.ttl)
    ensures url in c.pages && c.pages[url] == Page(content, etag, lastModified, ZERO_TIME)
  {
    hide Room, IsGood, Later, After, SweepOf, IsOutcome;
    c.Store(url, content, etag, lastModified, stored, stored, wrote, stored, stored);
    c.ExpireAll();
  }

  /** A page in memory is confirmed, and then asked for. */
  method ConfirmAndServe(c: PageCache, url: string, renewed: Time, asked: Time, wrote: bool)
    returns (confirmed: Option<string>, served: Option<string>)
    requires c.Valid() && c.ttl > 0 && url in c.pages && asked > ZERO_TIME
    modifies c, c.objects
    ensures c.Valid() && confirmed == Some(old(c.pages[url].content))
    ensures served == if asked <= renewed + c.ttl then confirmed else None
  {
    hide Room, IsGood, Later, LookedUp, IsOutcome, DiskHit, InMemory, Latest;
    hide IsFresh, IsUnexpired, DroppedSince, Reverted, EverOpened;
    confirmed := c.Refresh(url, renewed, renewed, wrote, renewed, renewed);
    served := c.GetFresh(url, asked, asked);
  }

  /**
    The life of a page that is revalidated, in whatever cache: it is stored, marked stale,
    no longer served, but its validators still are; the server confirms it, and it is
    served until one TTL from then.
  */
  method RevalidationCycle(c: PageCache, url: string, content: string, etag: string, lastModified: string,
                           stored: Time, tried: Time, renewed: Time, asked: Time, wrote: bool)
    returns (stale: Option<string>, e: string, l: string, confirmed: Option<string>, served: Option<string>)
    requires c.Valid() && c.ttl > 0 && ByteLen(content) <= MAX_PAGE_CACHE_BYTES
    requires tried > ZERO_TIME && asked > ZERO_TIME
    modifies c, c.objects
    ensures c.Valid()
    ensures stale == None && (e, l) == (etag, lastModified) && confirmed == Some(content)
    ensures served == if asked <= renewed + c.ttl then Some(content) else None
  {
    hide PageCache.Valid, Room, LookedUp, DiskHit, InMemory, Latest;
    hide IsFresh, IsUnexpired, DroppedSince, Reverted, EverOpened;
    StoreStale(c, url, content, etag, lastModified, stored, wrote);
    stale := c.GetFresh(url, tried, tried);
    e, l := c.Validators(url, tried);
    confirmed, served := ConfirmAndServe(c, url, renewed, asked, wrote);
  }

  lemma OthersWithout(m: Memory, url: string, now: Time)
    ensures Others(m - {url}, url, now) == Others(m, url, now)
  {
  }

  /** What is left once the URL and everything expired are gone decides about room. */
  lemma RoomDecides(m: Memory, url: string, size: nat, now: Time, kept: Memory, total: nat)
    requires kept == Others(m, url, now) && total == size + Total(kept)
    ensures Room(m, url, size, now) ==
      if |kept| >= MAX_PAGE_CACHE_ENTRIES || total > MAX_PAGE_CACHE_BYTES then map[] else kept
  {
  }

  /** The loop of `makeRoom` under way: `todo` is left to look at, the rest is added up. */
  ghost predicate Summing(before: Memory, m: Memory, todo: set<string>, size: nat, total: nat, url: string, now: Time) {
    && todo <= m.Keys && url !in m
    && Others(m, url, now) == Others(before, url, now)
    && (forall u <- m :: u in todo || now <= m[u].expires)
    && total == size + Total(m - todo)
  }

  lemma SummingDrops(before: Memory, m: Memory, todo: set<string>, size: nat, total: nat, url: string, now: Time,
                     key: string)
    requires Summing(before, m, todo, size, total, url, now) && key in todo && now > m[key].expires
    ensures Summing(before, m - {key}, todo - {key}, size, total, url, now)
  {
    assert Others(m - {key}, url, now) == Others(m, url, now);
    assert (m - {key}) - (todo - {key}) == m - todo;
  }

  lemma SummingKeeps(before: Memory, m: Memory, todo: set<string>, size: nat, total: nat, url: string, now: Time,
                     key: string)
    requires Summing(before, m, todo, size, total, url, now) && key in todo && now <= m[key].expires
    ensures Summing(before, m, todo - {key}, size, total + ByteLen(m[key].content), url, now)
  {
    TotalWith(m - todo, key, m[key]);
    assert m - (todo - {key}) == (m - todo)[key := m[key]];
  }
}
