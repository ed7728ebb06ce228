/**
  The page cache as a value: what making room leaves, what a lookup finds in memory or on
  disk, and what makes its contents trustworthy. Class PageCache keeps its fields in step
  with this.
*/
module PageStore {
  import opened Wrappers
  import opened Numbers
  import opened Text
  import opened DiskCache

  const MAX_PAGE_CACHE_ENTRIES := 256
  const MAX_PAGE_CACHE_BYTES := 32 * 1024 * 1024

  /** The zero time, which no clock reads. */
  const ZERO_TIME := -62_135_596_800_000_000_000

  datatype Page = Page(content: string, etag: string, lastModified: string, expires: Time)

  /** What a page says, apart from how long it may be served. */
  datatype Body = Body(content: string, etag: string, lastModified: string)

  function BodyOf(page: Page): Body {
    Body(page.content, page.etag, page.lastModified)
  }

  function RecordBody(r: Record): Body {
    Body(r.content, r.etag, r.lastModified)
  }

  type Memory = map<string, Page>

  /** The bytes of content in memory. */
  ghost function Total(m: Memory): nat {
    if m == map[] then 0 else
      var url :| url in m;
      ByteLen(m[url].content) + Total(m - {url})
  }

  lemma {:induction false} TotalWithout(m: Memory, url: string)
    requires url in m
    ensures Total(m) == ByteLen(m[url].content) + Total(m - {url})
  {
    var first :| first in m && Total(m) == ByteLen(m[first].content) + Total(m - {first});
    if first != url {
      TotalWithout(m - {first}, url);
      TotalWithout(m - {url}, first);
      assert m - {first} - {url} == m - {url} - {first};
    }
  }

  lemma TotalWith(m: Memory, url: string, page: Page)
    requires url !in m
    ensures Total(m[url := page]) == Total(m) + ByteLen(page.content)
  {
    assert m[url := page] - {url} == m;
    TotalWithout(m[url := page], url);
  }

  /** Only the contents matter. */
  lemma {:induction false} TotalOfSameContents(a: Memory, b: Memory)
    requires a.Keys == b.Keys && forall url <- a :: a[url].content == b[url].content
    ensures Total(a) == Total(b)
  {
    if a != map[] {
      var url :| url in a;
      TotalWithout(a, url);
      TotalWithout(b, url);
      TotalOfSameContents(a - {url}, b - {url});
    } else {
      assert b == map[];
    }
  }

  // ---------------------------------------------------------------------------------
  // Room
  // ---------------------------------------------------------------------------------

  /** Everything but the URL itself and what has expired. */
  function Others(m: Memory, url: string, now: Time): Memory {
    map u | u in m && u != url && now <= m[u].expires :: m[u]
  }

  /** The new content does not fit beside the others. */
  ghost predicate Overflows(m: Memory, url: string, size: nat, now: Time) {
    var kept := Others(m, url, now);
    |kept| >= MAX_PAGE_CACHE_ENTRIES || size + Total(kept) > MAX_PAGE_CACHE_BYTES
  }

  /** Room is made by a reset exactly if the page would break a budget beside the others. */
  lemma ResetOnlyIfNeeded(m: Memory, url: string, page: Page, now: Time)
    ensures var beside := Others(m, url, now)[url := page];
      Overflows(m, url, ByteLen(page.content), now) <==> |beside| > 256 || Total(beside) > 32 * 1024 * 1024
  {
    var others := Others(m, url, now);
    TotalWith(others, url, page);
    assert others[url := page].Keys == others.Keys + {url};
    assert |others[url := page]| == |others| + 1;
  }

  /** `makeRoom`: the others stay if the new content fits beside them, else nothing does. */
  ghost function Room(m: Memory, url: string, size: nat, now: Time): Memory {
    if Overflows(m, url, size, now) then map[] else Others(m, url, now)
  }

  /** Both budgets. */
  ghost predicate Fits(m: Memory) {
    |m| <= MAX_PAGE_CACHE_ENTRIES && Total(m) <= MAX_PAGE_CACHE_BYTES
  }

  /** After making room, one insertion keeps both budgets, whatever the cache held before. */
  lemma InsertionFits(m: Memory, url: string, page: Page, now: Time)
    requires ByteLen(page.content) <= MAX_PAGE_CACHE_BYTES
    ensures Fits(Room(m, url, ByteLen(page.content), now)[url := page])
  {
    var room := Room(m, url, ByteLen(page.content), now);
    TotalWith(room, url, page);
    assert room[url := page].Keys == room.Keys + {url};
  }

  // ---------------------------------------------------------------------------------
  // Memory, then disk
  // ---------------------------------------------------------------------------------

  /** What the file for a URL holds for that URL, if it can be used. */
  function DiskHit(disk: Option<Disk>, file: string, url: string): Option<Page> {
    if disk.None? || file !in disk.value then None
    else
      match disk.value[file].record
      case None => None
      case Some(r) =>
        if r.url != url || ByteLen(r.content) > MAX_PAGE_CACHE_BYTES then None
        else Some(Page(r.content, r.etag, r.lastModified, r.expires))
  }

  /** A page that was written is found again, by the URL it was written for and by no other. */
  lemma WrittenIsFound(d: Disk, file: string, url: string, page: Page, modTime: Time, asked: string)
    requires ByteLen(page.content) <= MAX_PAGE_CACHE_BYTES
    ensures DiskHit(Some(d[file := FileOf(url, page, modTime)]), file, asked) ==
      if asked == url then Some(page) else None
  {
  }

  /** Without a directory, a file, or a readable page, nothing is found. */
  lemma NothingIsFound(disk: Option<Disk>, file: string, url: string)
    ensures DiskHit(disk, file, url).Some? <==>
      && disk.Some? && file in disk.value && disk.value[file].record.Some?
      && disk.value[file].record.value.url == url
      && ByteLen(disk.value[file].record.value.content) <= 32 * 1024 * 1024
  {
  }

  /** `lookup`: memory first, then disk; a page found on disk moves into memory. */
  ghost function Lookup(m: Memory, disk: Option<Disk>, file: string, url: string, now: Time): (Memory, Option<Page>) {
    if url in m then (m, Some(m[url]))
    else
      match DiskHit(disk, file, url)
      case None => (m, None)
      case Some(page) => (Room(m, url, ByteLen(page.content), now)[url := page], Some(page))
  }

  /** `persist`: nothing, if the write did not happen; else the new file, and a prune when there are too many. */
  ghost predicate Persisted(before: Disk, after: Disk, wrote: bool, name: string, file: File, now: Time) {
    if !wrote then after == before
    else
      var written := before[name := file];
      if |written| > MAX_DISK_CACHE_ENTRIES then Pruned(written, after, now) else after == written
  }

  // ---------------------------------------------------------------------------------
  // Where content comes from
  // ---------------------------------------------------------------------------------

  /**
    Where a page comes from, and with it for how long it may be served: it was stored or
    revalidated under some TTL, or it was found in the directory when that was opened.
    `place` tells the stores and revalidations of a history apart.
  */
  datatype Stamp =
    | Stored(url: string, body: Body, at: Time, ttl: int, place: nat)
    | Found(url: string, body: Body, until: Time)

  function Expiry(s: Stamp): Time {
    match s
    case Stored(_, _, at, ttl, _) => at + ttl
    case Found(_, _, until) => until
  }

  /** Room being made in memory, at some time, and whether that took resetting it. */
  datatype Sweep = Sweep(at: Time, reset: bool)

  /**
    What happens to a cache: a page is stored or revalidated, and written to its file or
    not; a lookup moves what a file holds into memory; a directory is opened or closed;
    memory is emptied, with a new TTL; every entry is marked stale. Stores and loads make
    room first.
  */
  datatype Event =
    | Accepted(file: string, stamp: Stamp, written: bool, sweep: Option<Sweep>)
    | Loaded(file: string, url: string, room: Sweep)
    | Opened(dir: Option<Disk>)
    | Emptied
    | Staled

  type History = seq<Event>

  /** The last store or revalidation of a URL. */
  ghost function Latest(h: History, url: string): Option<Stamp> {
    if h == [] then None else
      var before, e := h[..|h| - 1], h[|h| - 1];
      if e.Accepted? && e.stamp.url == url then Some(e.stamp) else Latest(before, url)
  }

  /** The stamp is one for this page under this URL, good until `expires`. */
  ghost predicate Attests(s: Option<Stamp>, url: string, body: Body, expires: Time) {
    s.Some? && s.value.url == url && s.value.body == body && expires == Expiry(s.value)
  }

  /** What a directory says about a file, when it is opened. */
  ghost function RecordIn(dir: Option<Disk>, file: string): Option<Record> {
    if dir.Some? && file in dir.value then dir.value[file].record else None
  }

  /** A page found in a directory: the latest page of its URL, if it is just that, else one of unknown origin. */
  ghost function Recognized(h: History, r: Record): Stamp {
    var latest := Latest(h, r.url);
    if Attests(latest, r.url, RecordBody(r), r.expires) then latest.value else Found(r.url, RecordBody(r), r.expires)
  }

  /** What was last put into a file of the open directory. */
  ghost function OnDisk(h: History, file: string): Option<Stamp> {
    if h == [] then None else
      var before, e := h[..|h| - 1], h[|h| - 1];
      match e
      case Accepted(f, stamp, written, _) => if written && f == file then Some(stamp) else OnDisk(before, file)
      case Opened(dir) =>
        var r := RecordIn(dir, file);
        if r.Some? then Some(Recognized(before, r.value)) else None
      case _ => OnDisk(before, file)
  }

  /** What was last put into memory under a URL: a page accepted, or one loaded from its file. */
  ghost function InMemory(h: History, url: string): Option<Stamp> {
    if h == [] then None else
      var before, e := h[..|h| - 1], h[|h| - 1];
      if e.Accepted? && e.stamp.url == url then Some(e.stamp)
      else if e.Loaded? && e.url == url then OnDisk(before, e.file)
      else InMemory(before, url)
  }

  // ---------------------------------------------------------------------------------
  // When it is the latest
  // ---------------------------------------------------------------------------------

  /** Pages go to the files of their own URLs, and come from there. */
  ghost predicate Follows(h: History, fileOf: string -> string) {
    forall e <- h ::
      && (e.Accepted? ==> e.file == fileOf(e.stamp.url))
      && (e.Loaded? ==> e.file == fileOf(e.url))
  }

  /** Every store and revalidation has its place. */
  ghost predicate Numbered(h: History) {
    forall i | 0 <= i < |h| :: h[i].Accepted? ==> h[i].stamp.Stored? && h[i].stamp.place == i
  }

  /** A page is loaded only from a file that names its URL; other URLs may have that file too. */
  ghost predicate LoadsOwn(h: History) {
    h == [] ||
    var before, e := h[..|h| - 1], h[|h| - 1];
    LoadsOwn(before) && (e.Loaded? ==> OnDisk(before, e.file).Some? && OnDisk(before, e.file).value.url == e.url)
  }

  ghost predicate IsRecorded(h: History, fileOf: string -> string) {
    Follows(h, fileOf) && Numbered(h) && LoadsOwn(h)
  }

  /**
    The last page accepted for the URL reached the open directory: it was written, and no
    directory was opened since; or it was still in one that was.
  */
  ghost predicate SafelyWritten(h: History, url: string, fileOf: string -> string) {
    h != [] &&
    var before, e := h[..|h| - 1], h[|h| - 1];
    match e
    case Accepted(_, stamp, written, _) => if stamp.url == url then written else SafelyWritten(before, url, fileOf)
    case Opened(dir) =>
      var r := RecordIn(dir, fileOf(url));
      r.Some? && r.value.url == url && Attests(Latest(before, url), url, RecordBody(r.value), r.value.expires)
    case _ => SafelyWritten(before, url, fileOf)
  }

  /** A load has put a page into memory although the latest one did not reach the directory. */
  ghost predicate Reverted(h: History, url: string, fileOf: string -> string) {
    h != [] &&
    var before, e := h[..|h| - 1], h[|h| - 1];
    if e.Accepted? && e.stamp.url == url then false
    else if e.Loaded? && e.url == url then !SafelyWritten(before, url, fileOf)
    else Reverted(before, url, fileOf)
  }

  lemma BeforeIsRecorded(h: History, fileOf: string -> string)
    requires IsRecorded(h, fileOf) && h != []
    ensures IsRecorded(h[..|h| - 1], fileOf)
    ensures h[|h| - 1].Accepted? ==>
      h[|h| - 1].file == fileOf(h[|h| - 1].stamp.url) && h[|h| - 1].stamp.Stored? && h[|h| - 1].stamp.place == |h| - 1
    ensures h[|h| - 1].Loaded? ==> h[|h| - 1].file == fileOf(h[|h| - 1].url)
  {
    var before := h[..|h| - 1];
    assert h[|h| - 1] in h;
    assert forall i | 0 <= i < |before| :: before[i] == h[i];
  }

  lemma {:induction false} LatestHasPlace(h: History, url: string, fileOf: string -> string)
    requires IsRecorded(h, fileOf)
    ensures Latest(h, url).Some? ==> Latest(h, url).value.Stored? && Latest(h, url).value.place < |h|
    ensures Latest(h, url).Some? ==> Latest(h, url).value.url == url
  {
    if h == [] {
    } else {
      BeforeIsRecorded(h, fileOf);
      LatestHasPlace(h[..|h| - 1], url, fileOf);
    }
  }

  lemma {:induction false} OnDiskHasPlace(h: History, file: string, fileOf: string -> string)
    requires IsRecorded(h, fileOf)
    ensures OnDisk(h, file).Some? && OnDisk(h, file).value.Stored? ==> OnDisk(h, file).value.place < |h|
  {
    if h == [] {
    } else {
      var before, e := h[..|h| - 1], h[|h| - 1];
      BeforeIsRecorded(h, fileOf);
      OnDiskHasPlace(before, file, fileOf);
      if e.Opened? && RecordIn(e.dir, file).Some? {
        LatestHasPlace(before, RecordIn(e.dir, file).value.url, fileOf);
      }
    }
  }

  /** A file that names the URL holds its latest page exactly if that reached the directory. */
  lemma {:induction false} OwnFile(h: History, url: string, fileOf: string -> string)
    requires IsRecorded(h, fileOf)
    requires OnDisk(h, fileOf(url)).Some? && OnDisk(h, fileOf(url)).value.url == url
    ensures OnDisk(h, fileOf(url)) == Latest(h, url) <==> SafelyWritten(h, url, fileOf)
  {
    var before, e := h[..|h| - 1], h[|h| - 1];
    BeforeIsRecorded(h, fileOf);
    if e.Opened? {
      LatestHasPlace(before, url, fileOf);
    } else if e.Accepted? && e.stamp.url == url {
      OnDiskHasPlace(before, fileOf(url), fileOf);
    } else {
      OwnFile(before, url, fileOf);
    }
  }

  /**
    What was last put into memory under a URL is the latest page accepted for it, unless it
    was loaded from disk while the latest one had not reached the directory, and then it is
    not. Other URLs with the same file make no difference.
  */
  lemma {:induction false} LatestUnlessReverted(h: History, url: string, fileOf: string -> string)
    requires IsRecorded(h, fileOf)
    ensures InMemory(h, url) == Latest(h, url) <==> !Reverted(h, url, fileOf)
  {
    if h == [] {
    } else {
      var before, e := h[..|h| - 1], h[|h| - 1];
      BeforeIsRecorded(h, fileOf);
      if e.Accepted? && e.stamp.url == url {
      } else if e.Loaded? && e.url == url {
        OwnFile(before, url, fileOf);
      } else {
        LatestUnlessReverted(before, url, fileOf);
      }
    }
  }

  /** The last page accepted for the URL was written, and no directory was opened since. */
  ghost predicate WrittenSince(h: History, url: string) {
    h != [] &&
    var before, e := h[..|h| - 1], h[|h| - 1];
    match e
    case Accepted(_, stamp, written, _) => if stamp.url == url then written else WrittenSince(before, url)
    case Opened(_) => false
    case _ => WrittenSince(before, url)
  }

  /**
    In particular memory has the latest page as long as that was written, however often
    memory was reset and filled from disk; and so has its file, unless another URL took it.
  */
  lemma {:induction false} WrittenIsLatest(h: History, url: string, fileOf: string -> string)
    requires IsRecorded(h, fileOf) && WrittenSince(h, url)
    ensures SafelyWritten(h, url, fileOf) && !Reverted(h, url, fileOf)
    ensures InMemory(h, url) == Latest(h, url) != None
    ensures OnDisk(h, fileOf(url)).Some?
    ensures OnDisk(h, fileOf(url)).value.url == url ==> OnDisk(h, fileOf(url)) == Latest(h, url)
  {
    var before, e := h[..|h| - 1], h[|h| - 1];
    BeforeIsRecorded(h, fileOf);
    if !(e.Accepted? && e.stamp.url == url) {
      WrittenIsLatest(before, url, fileOf);
    }
    LatestUnlessReverted(h, url, fileOf);
  }

  /** A page is written, a newer one is not, and memory is emptied. */
  ghost function FailedWrite(file: string, older: Stamp, newer: Stamp): History {
    [Accepted(file, older, true, None), Accepted(file, newer, false, None), Emptied]
  }

  lemma FailedWriteLeaves(fileOf: string -> string, older: Stamp, newer: Stamp)
    requires older.Stored? && newer.Stored? && older.url == newer.url && older.place == 0 && newer.place == 1
    ensures var h := FailedWrite(fileOf(older.url), older, newer);
      && IsRecorded(h, fileOf)
      && OnDisk(h, fileOf(older.url)) == Some(older) && Latest(h, older.url) == Some(newer)
  {
    var file := fileOf(older.url);
    var first, second := Accepted(file, older, true, None), Accepted(file, newer, false, None);
    assert [] + [first] == [first] && [first] + [second] == [first, second];
    assert [first, second] + [Emptied] == FailedWrite(file, older, newer);
    OneMoreRecorded([], first, fileOf);
    OneMoreRecorded([first], second, fileOf);
    OneMoreRecorded([first, second], Emptied, fileOf);
    OneMoreEvent([], first);
    OneMoreEvent([first], second);
    OneMoreEvent([first, second], Emptied);
    assert OnDisk([first], file) == Some(older);
    assert OnDisk([first, second], file) == Some(older);
    assert Latest([first, second], older.url) == Some(newer);
  }

  /** Reverting does happen: after a failed write the older page is loaded, whatever the two are. */
  lemma FailedWriteReverts(fileOf: string -> string, older: Stamp, newer: Stamp, room: Sweep)
    requires older.Stored? && newer.Stored? && older.url == newer.url && older.place == 0 && newer.place == 1
    ensures var h := FailedWrite(fileOf(older.url), older, newer) + [Loaded(fileOf(older.url), older.url, room)];
      && IsRecorded(h, fileOf) && Reverted(h, older.url, fileOf)
      && InMemory(h, older.url) == Some(older) && Latest(h, older.url) == Some(newer)
  {
    var before, load := FailedWrite(fileOf(older.url), older, newer), Loaded(fileOf(older.url), older.url, room);
    FailedWriteLeaves(fileOf, older, newer);
    hide FailedWrite;
    OneMoreRecorded(before, load, fileOf);
    OneMoreEvent(before, load);
    LatestUnlessReverted(before + [load], older.url, fileOf);
  }

  /** There has been a directory at some time. */
  ghost predicate EverOpened(h: History) {
    exists e <- h :: e.Opened? && e.dir.Some?
  }

  ghost predicate NothingLoaded(h: History) {
    forall e <- h :: !e.Loaded?
  }

  /** Without loads memory never falls behind. */
  lemma {:induction false} NothingLoadedNothingReverted(h: History, url: string, fileOf: string -> string)
    requires NothingLoaded(h)
    ensures !Reverted(h, url, fileOf)
  {
    if h == [] {
    } else {
      assert h[|h| - 1] in h;
      NothingLoadedNothingReverted(h[..|h| - 1], url, fileOf);
    }
  }

  // ---------------------------------------------------------------------------------
  // How long it stays
  // ---------------------------------------------------------------------------------

  /** Making room for another URL removes an entry that has expired, or when everything goes. */
  ghost function Survives(expires: Option<Time>, sweep: Option<Sweep>): Option<Time> {
    if expires.Some? && sweep.Some? && (sweep.value.reset || sweep.value.at > expires.value) then None else expires
  }

  /** The expiry of the entry of a URL, if there is one. */
  ghost function ExpiresAt(h: History, url: string): Option<Time> {
    if h == [] then None else
      var before, e := h[..|h| - 1], h[|h| - 1];
      match e
      case Accepted(_, stamp, _, sweep) =>
        if stamp.url == url then Some(Expiry(stamp)) else Survives(ExpiresAt(before, url), sweep)
      case Loaded(file, u, sweep) =>
        if u != url then Survives(ExpiresAt(before, url), Some(sweep))
        else if OnDisk(before, file).Some? then Some(Expiry(OnDisk(before, file).value)) else None
      case Opened(_) => ExpiresAt(before, url)
      case Emptied => None
      case Staled => if ExpiresAt(before, url).Some? then Some(ZERO_TIME) else None
  }

  /** Since the URL was last put into memory, everything was reset, emptied or marked stale. */
  ghost predicate DroppedSince(h: History, url: string) {
    h != [] &&
    var before, e := h[..|h| - 1], h[|h| - 1];
    match e
    case Accepted(_, stamp, _, sweep) =>
      stamp.url != url && ((sweep.Some? && sweep.value.reset) || DroppedSince(before, url))
    case Loaded(_, u, sweep) => u != url && (sweep.reset || DroppedSince(before, url))
    case Opened(_) => DroppedSince(before, url)
    case Emptied => true
    case Staled => true
  }

  /** Room was never made later than `now`. */
  ghost predicate SweptBefore(h: History, now: Time) {
    forall e <- h ::
      && (e.Accepted? && e.sweep.Some? ==> e.sweep.value.at <= now)
      && (e.Loaded? ==> e.room.at <= now)
  }

  /** An entry expires when its stamp says, unless it was marked stale. */
  lemma {:induction false} ExpiryIsOwn(h: History, url: string)
    ensures var expires, s := ExpiresAt(h, url), InMemory(h, url);
      expires.Some? ==> s.Some? && (expires.value == Expiry(s.value) || expires.value == ZERO_TIME)
  {
    if h == [] {
    } else {
      ExpiryIsOwn(h[..|h| - 1], url);
    }
  }

  /**
    A page whose expiry has not passed is in memory, with that expiry, if and only if
    nothing was reset, emptied or marked stale since it was put there.
  */
  lemma {:induction false} StaysUnlessDropped(h: History, url: string, now: Time)
    requires SweptBefore(h, now) && InMemory(h, url).Some? && ZERO_TIME < now <= Expiry(InMemory(h, url).value)
    ensures ExpiresAt(h, url) == Some(Expiry(InMemory(h, url).value)) <==> !DroppedSince(h, url)
    ensures DroppedSince(h, url) ==> ExpiresAt(h, url) == None || ExpiresAt(h, url) == Some(ZERO_TIME)
  {
    var before, e := h[..|h| - 1], h[|h| - 1];
    assert e in h;
    if !(e.Accepted? && e.stamp.url == url) && !(e.Loaded? && e.url == url) {
      StaysUnlessDropped(before, url, now);
    }
  }

  // ---------------------------------------------------------------------------------
  // The whole state
  // ---------------------------------------------------------------------------------

  /** Everything besides the memory: the directory, and the history that explains the contents. */
  datatype Past = Past(fileOf: string -> string, disk: Option<Disk>, history: History)

  /** A page in memory is what was last put there for its URL. */
  ghost predicate MemoryAttested(m: Memory, h: History) {
    forall url <- m ::
      InMemory(h, url).Some? && InMemory(h, url).value.url == url && InMemory(h, url).value.body == BodyOf(m[url])
  }

  /** What is in memory, and until when it is good, is what the history says. */
  ghost predicate IsExact(m: Memory, h: History) {
    forall url :: ExpiresAt(h, url) == if url in m then Some(m[url].expires) else None
  }

  /** A file with a page in it holds what was last put there. */
  ghost predicate FileAttested(f: File, s: Option<Stamp>) {
    f.record.Some? ==> Attests(s, f.record.value.url, RecordBody(f.record.value), f.record.value.expires)
  }

  ghost predicate DiskAttested(d: Disk, h: History) {
    forall name <- d :: FileAttested(d[name], OnDisk(h, name))
  }

  ghost predicate DiskIsGood(disk: Option<Disk>, h: History) {
    disk.Some? ==> DiskAttested(disk.value, h) && |PageFiles(disk.value)| <= MAX_DISK_CACHE_ENTRIES
  }

  ghost predicate MemoryIsGood(m: Memory, h: History) {
    Fits(m) && MemoryAttested(m, h) && IsExact(m, h)
  }

  /** What holds at all times of the memory, the directory and the history. */
  ghost predicate IsGood(m: Memory, p: Past) {
    && MemoryIsGood(m, p.history)
    && DiskIsGood(p.disk, p.history)
    && IsRecorded(p.history, p.fileOf)
    && (!EverOpened(p.history) ==> p.disk.None? && NothingLoaded(p.history))
  }

  lemma PageFilesAtMostAll(d: Disk)
    ensures |PageFiles(d)| <= |d|
  {
    assert d.Keys == PageFiles(d) + (d.Keys - PageFiles(d));
  }

  /** What one more event means. */
  lemma OneMoreEvent(h: History, e: Event)
    ensures (h + [e])[..|h|] == h && (h + [e])[|h|] == e
    ensures EverOpened(h + [e]) <==> EverOpened(h) || (e.Opened? && e.dir.Some?)
    ensures NothingLoaded(h + [e]) <==> NothingLoaded(h) && !e.Loaded?
  {
    assert e in h + [e] && forall x <- h :: x in h + [e];
  }

  lemma OneMoreRecorded(h: History, e: Event, fileOf: string -> string)
    requires IsRecorded(h, fileOf)
    requires e.Accepted? ==> e.file == fileOf(e.stamp.url) && e.stamp.Stored? && e.stamp.place == |h|
    requires e.Loaded? ==> e.file == fileOf(e.url) && OnDisk(h, e.file).Some? && OnDisk(h, e.file).value.url == e.url
    ensures IsRecorded(h + [e], fileOf)
  {
    OneMoreEvent(h, e);
  }

  /** Memory after room was made, if it was. */
  ghost function SweptFor(m: Memory, url: string, sweep: Option<Sweep>): Memory {
    if sweep.None? then m else if sweep.value.reset then map[] else Others(m, url, sweep.value.at)
  }

  ghost function SweepOf(m: Memory, url: string, size: nat, now: Time): Sweep {
    Sweep(now, Overflows(m, url, size, now))
  }

  /** The event puts this page into memory. */
  ghost predicate Puts(h: History, e: Event, url: string, page: Page, sweep: Option<Sweep>) {
    match e
    case Accepted(_, stamp, _, s) => s == sweep && Attests(Some(stamp), url, BodyOf(page), page.expires)
    case Loaded(file, u, s) => Some(s) == sweep && u == url && Attests(OnDisk(h, file), url, BodyOf(page), page.expires)
    case _ => false
  }

  lemma PutIsExact(m: Memory, h: History, e: Event, url: string, page: Page, sweep: Option<Sweep>)
    requires IsExact(m, h) && Puts(h, e, url, page, sweep)
    ensures IsExact(SweptFor(m, url, sweep)[url := page], h + [e])
  {
    OneMoreEvent(h, e);
    forall u
      ensures var m' := SweptFor(m, url, sweep)[url := page];
        ExpiresAt(h + [e], u) == if u in m' then Some(m'[u].expires) else None
    {
      assert ExpiresAt(h, u) == if u in m then Some(m[u].expires) else None;
    }
  }

  lemma PutIsAttested(m: Memory, h: History, e: Event, url: string, page: Page, sweep: Option<Sweep>)
    requires MemoryAttested(m, h) && Puts(h, e, url, page, sweep)
    ensures MemoryAttested(SweptFor(m, url, sweep)[url := page], h + [e])
  {
    OneMoreEvent(h, e);
  }

  /** Putting a page into memory keeps memory and history in step. */
  lemma PutIsGood(m: Memory, h: History, e: Event, url: string, page: Page, sweep: Option<Sweep>)
    requires MemoryIsGood(m, h) && Puts(h, e, url, page, sweep) && Fits(SweptFor(m, url, sweep)[url := page])
    ensures MemoryIsGood(SweptFor(m, url, sweep)[url := page], h + [e])
  {
    hide Puts, Fits, SweptFor, IsExact, MemoryAttested;
    PutIsExact(m, h, e, url, page, sweep);
    PutIsAttested(m, h, e, url, page, sweep);
  }

  // ---------------------------------------------------------------------------------
  // Lookups
  // ---------------------------------------------------------------------------------

  /** The past after a lookup, which notes when it moves a page from its file into memory. */
  ghost function LookedUp(m: Memory, p: Past, file: string, url: string, now: Time): Past {
    if url in m then p
    else
      match DiskHit(p.disk, file, url)
      case None => p
      case Some(page) =>
        p.(history := p.history + [Loaded(file, url, SweepOf(m, url, ByteLen(page.content), now))])
  }

  /** What a lookup leaves, and what it finds. */
  ghost predicate IsFinding(m: Memory, p: Past, file: string, url: string, now: Time,
                            m': Memory, p': Past, found: Option<Page>) {
    (m', found) == Lookup(m, p.disk, file, url, now) && p' == LookedUp(m, p, file, url, now)
  }

  /**
    Why a page may be served under a URL: it is what was last put into memory for it, good
    for exactly as long unless it was marked stale; and when that is the latest.
  */
  ghost predicate Explained(p: Past, url: string, page: Page) {
    var s := InMemory(p.history, url);
    && s.Some? && s.value.url == url && s.value.body == BodyOf(page)
    && (page.expires == Expiry(s.value) || page.expires == ZERO_TIME)
    && (s == Latest(p.history, url) <==> !Reverted(p.history, url, p.fileOf))
    && (!EverOpened(p.history) ==> !Reverted(p.history, url, p.fileOf))
  }

  /** The stamp is one for this content under this URL, and has not run out. */
  ghost predicate IsFresh(s: Option<Stamp>, url: string, content: string, now: Time) {
    s.Some? && s.value.url == url && s.value.body.content == content && now <= Expiry(s.value)
  }

  /** A page that may be served and whose expiry has not passed is fresh by its own stamp. */
  lemma ExplainedIsFresh(p: Past, url: string, page: Page, now: Time)
    requires Explained(p, url, page) && ZERO_TIME < now <= page.expires
    ensures IsFresh(InMemory(p.history, url), url, page.content, now)
    ensures InMemory(p.history, url) == Latest(p.history, url) <==> !Reverted(p.history, url, p.fileOf)
    ensures !EverOpened(p.history) ==> !Reverted(p.history, url, p.fileOf)
  {
  }

  lemma ExplainedIsAttested(p: Past, url: string, page: Page)
    requires Explained(p, url, page)
    ensures InMemory(p.history, url).Some? && InMemory(p.history, url).value.body == BodyOf(page)
  {
  }

  /** A page in memory has an explanation. */
  lemma InMemoryIsExplained(m: Memory, p: Past, url: string)
    requires IsGood(m, p) && url in m
    ensures Explained(p, url, m[url])
  {
    ExpiryIsOwn(p.history, url);
    LatestUnlessReverted(p.history, url, p.fileOf);
    if !EverOpened(p.history) {
      NothingLoadedNothingReverted(p.history, url, p.fileOf);
    }
  }

  /** Loading a page from its file keeps everything that holds of the cache. */
  lemma LoadIsGood(m: Memory, p: Past, file: string, url: string, page: Page, now: Time)
    requires IsGood(m, p) && file == p.fileOf(url) && DiskHit(p.disk, file, url) == Some(page)
    ensures IsGood(Room(m, url, ByteLen(page.content), now)[url := page],
                   p.(history := p.history + [Loaded(file, url, SweepOf(m, url, ByteLen(page.content), now))]))
  {
    var h, sweep := p.history, SweepOf(m, url, ByteLen(page.content), now);
    var e := Loaded(file, url, sweep);
    assert FileAttested(p.disk.value[file], OnDisk(h, file));
    InsertionFits(m, url, page, now);
    PutIsGood(m, h, e, url, page, Some(sweep));
    OneMoreEvent(h, e);
    OneMoreRecorded(h, e, p.fileOf);
  }

  /** What a lookup leaves is good, and what it finds has an explanation. */
  lemma LookupIsGood(m: Memory, p: Past, file: string, url: string, now: Time)
    requires IsGood(m, p) && file == p.fileOf(url)
    ensures var (m', found) := Lookup(m, p.disk, file, url, now);
      var p' := LookedUp(m, p, file, url, now);
      && IsFinding(m, p, file, url, now, m', p', found)
      && IsGood(m', p')
      && (found.Some? ==> Explained(p', url, found.value))
  {
    hide IsGood, Explained, Room;
    var (m', found) := Lookup(m, p.disk, file, url, now);
    var p' := LookedUp(m, p, file, url, now);
    if url !in m && found.Some? {
      LoadIsGood(m, p, file, url, found.value, now);
    }
    if found.Some? {
      InMemoryIsExplained(m', p', url);
    }
  }

  /** The expiry of what was last put into memory for the URL has not passed. */
  ghost predicate IsUnexpired(h: History, url: string, now: Time) {
    SweptBefore(h, now) && InMemory(h, url).Some? && ZERO_TIME < now <= Expiry(InMemory(h, url).value)
  }

  /** The content `getFresh` returns after its lookup. */
  ghost function FreshContent(found: Option<Page>, now: Time): Option<string> {
    if found.Some? && now <= found.value.expires then Some(found.value.content) else None
  }

  /**
    When a page is served again. As long as the expiry of what was last put into memory
    for the URL has not passed, exactly that is served if and only if nothing was reset,
    emptied or marked stale since; and otherwise nothing, unless the URL's file has a page
    and memory has no stale entry in front of it.
  */
  lemma ServedUnlessDropped(m: Memory, p: Past, file: string, url: string, loaded: Time, now: Time)
    requires IsGood(m, p) && IsUnexpired(p.history, url, now)
    ensures FreshContent(Lookup(m, p.disk, file, url, loaded).1, now) ==
      if !DroppedSince(p.history, url) then Some(InMemory(p.history, url).value.body.content)
      else if url in m then None else FreshContent(DiskHit(p.disk, file, url), now)
  {
    StaysUnlessDropped(p.history, url, now);
    assert ExpiresAt(p.history, url) == if url in m then Some(m[url].expires) else None;
  }

  /** Without persistence: the latest page is served until it expires, if and only if it was not dropped. */
  lemma LatestIsServedUnlessDropped(m: Memory, p: Past, file: string, url: string, loaded: Time, now: Time)
    requires IsGood(m, p) && !EverOpened(p.history) && SweptBefore(p.history, now)
    requires Latest(p.history, url).Some? && ZERO_TIME < now <= Expiry(Latest(p.history, url).value)
    ensures FreshContent(Lookup(m, p.disk, file, url, loaded).1, now) ==
      if DroppedSince(p.history, url) then None else Some(Latest(p.history, url).value.body.content)
  {
    LatestUnlessReverted(p.history, url, p.fileOf);
    NothingLoadedNothingReverted(p.history, url, p.fileOf);
    ServedUnlessDropped(m, p, file, url, loaded, now);
  }

  // ---------------------------------------------------------------------------------
  // Stores and revalidations
  // ---------------------------------------------------------------------------------

  /** What persisting a file may leave of the directory, if there is one. */
  ghost predicate IsOutcome(before: Option<Disk>, after: Option<Disk>, wrote: bool, name: string, file: File,
                            now: Time) {
    match before
    case None => after.None?
    case Some(d) => after.Some? && Persisted(d, after.value, wrote, name, file, now)
  }

  function FileOf(url: string, page: Page, modTime: Time): File {
    File(Some(Record(url, page.content, page.etag, page.lastModified, page.expires)), modTime)
  }

  /** A store or revalidation at `now`. */
  ghost function Acceptance(p: Past, file: string, url: string, page: Page, now: Time, ttl: int,
                            wrote: bool, sweep: Option<Sweep>): Event {
    Accepted(file, Stored(url, BodyOf(page), now, ttl, |p.history|), wrote && p.disk.Some?, sweep)
  }

  /** A successful write within the cap is all that changes; a failed one changes nothing. */
  lemma WriteWithinCap(before: Disk, after: Option<Disk>, wrote: bool, name: string, file: File, now: Time)
    requires IsOutcome(Some(before), after, wrote, name, file, now) && |before[name := file]| <= 512
    ensures after == Some(if wrote then before[name := file] else before)
  {
  }

  /** The past after a store or revalidation at `now` that left `disk`. */
  ghost function Later(p: Past, file: string, url: string, page: Page, now: Time, ttl: int,
                       wrote: bool, sweep: Option<Sweep>, disk: Option<Disk>): Past {
    Past(p.fileOf, disk, p.history + [Acceptance(p, file, url, page, now, ttl, wrote, sweep)])
  }

  /** Persisting an accepted page keeps every file in step with the history, and the cap on page files. */
  lemma PersistedIsAttested(before: Disk, after: Disk, h: History, wrote: bool, name: string, url: string, page: Page,
                            stamp: Stamp, sweep: Option<Sweep>, modTime: Time, pruned: Time)
    requires DiskAttested(before, h) && |PageFiles(before)| <= MAX_DISK_CACHE_ENTRIES
    requires Attests(Some(stamp), url, BodyOf(page), page.expires)
    requires Persisted(before, after, wrote, name, FileOf(url, page, modTime), pruned)
    ensures DiskAttested(after, h + [Accepted(name, stamp, wrote, sweep)])
    ensures |PageFiles(after)| <= MAX_DISK_CACHE_ENTRIES
  {
    var h' := h + [Accepted(name, stamp, wrote, sweep)];
    PageFilesAtMostAll(after);
    OneMoreEvent(h, Accepted(name, stamp, wrote, sweep));
    forall n <- after
      ensures FileAttested(after[n], OnDisk(h', n))
    {
      var written := if wrote then before[name := FileOf(url, page, modTime)] else before;
      assert n in written && after[n] == written[n];
      assert n in before ==> FileAttested(before[n], OnDisk(h, n));
    }
  }

  /** A page accepted into memory, where it fits, and then on disk. */
  lemma AcceptedIsGood(m: Memory, p: Past, url: string, page: Page, now: Time, ttl: int, sweep: Option<Sweep>,
                       after: Option<Disk>, wrote: bool, name: string, modTime: Time, pruned: Time)
    requires IsGood(m, p) && name == p.fileOf(url) && page.expires == now + ttl
    requires Fits(SweptFor(m, url, sweep)[url := page])
    requires IsOutcome(p.disk, after, wrote, name, FileOf(url, page, modTime), pruned)
    ensures IsGood(SweptFor(m, url, sweep)[url := page], Later(p, name, url, page, now, ttl, wrote, sweep, after))
  {
    var e := Acceptance(p, name, url, page, now, ttl, wrote, sweep);
    OneMoreEvent(p.history, e);
    OneMoreRecorded(p.history, e, p.fileOf);
    PutIsGood(m, p.history, e, url, page, sweep);
    if p.disk.Some? {
      PersistedIsAttested(p.disk.value, after.value, p.history, wrote, name, url, page, e.stamp, sweep,
                          modTime, pruned);
    }
  }

  /** Storing a page that fits by itself. */
  lemma StoreIsGood(m: Memory, p: Past, url: string, page: Page, roomed: Time, now: Time, ttl: int, after: Option<Disk>,
                    wrote: bool, name: string, modTime: Time, pruned: Time)
    requires IsGood(m, p) && name == p.fileOf(url)
    requires ByteLen(page.content) <= MAX_PAGE_CACHE_BYTES && page.expires == now + ttl
    requires IsOutcome(p.disk, after, wrote, name, FileOf(url, page, modTime), pruned)
    ensures var sweep := Some(SweepOf(m, url, ByteLen(page.content), roomed));
      IsGood(Room(m, url, ByteLen(page.content), roomed)[url := page],
             Later(p, name, url, page, now, ttl, wrote, sweep, after))
  {
    hide IsGood, IsOutcome;
    InsertionFits(m, url, page, roomed);
    AcceptedIsGood(m, p, url, page, now, ttl, Some(SweepOf(m, url, ByteLen(page.content), roomed)), after,
                   wrote, name, modTime, pruned);
  }

  /** What `refresh` may leave, and return, from a memory and a past. */
  ghost predicate IsRefreshed(m: Memory, p: Past, ttl: int, file: string, url: string, loaded: Time, now: Time,
                              wrote: bool, modTime: Time, pruned: Time,
                              m': Memory, p': Past, content: Option<string>) {
    var (found, page) := Lookup(m, p.disk, file, url, loaded);
    var looked := LookedUp(m, p, file, url, loaded);
    if ttl <= 0 then m' == m && p' == p && content == None
    else if page.None? then m' == found && p' == looked && content == None
    else
      var renewed := page.value.(expires := now + ttl);
      && m' == found[url := renewed]
      && IsOutcome(p.disk, p'.disk, wrote, file, FileOf(url, renewed, modTime), pruned)
      && p' == Later(looked, file, url, renewed, now, ttl, wrote, None, p'.disk)
      && content == Some(renewed.content)
  }

  /** Revalidating a page that is in memory. */
  lemma RenewIsGood(m: Memory, p: Past, url: string, page: Page, now: Time, ttl: int, after: Option<Disk>,
                    wrote: bool, name: string, modTime: Time, pruned: Time)
    requires IsGood(m, p) && name == p.fileOf(url)
    requires url in m && page.content == m[url].content && page.expires == now + ttl
    requires IsOutcome(p.disk, after, wrote, name, FileOf(url, page, modTime), pruned)
    ensures IsGood(m[url := page], Later(p, name, url, page, now, ttl, wrote, None, after))
  {
    TotalOfSameContents(m, m[url := page]);
    assert m[url := page].Keys == m.Keys;
    assert |m[url := page].Keys| == |m.Keys|;
    AcceptedIsGood(m, p, url, page, now, ttl, None, after, wrote, name, modTime, pruned);
  }

  /** What `refresh` leaves for a page it found. */
  lemma RefreshedPage(m: Memory, p: Past, ttl: int, file: string, url: string, loaded: Time, now: Time,
                      wrote: bool, modTime: Time, pruned: Time, found: Memory, p': Past, page: Page, renewed: Page,
                      after: Option<Disk>)
    requires ttl > 0 && IsFinding(m, p, file, url, loaded, found, p', Some(page))
    requires renewed == page.(expires := now + ttl)
    requires IsOutcome(p'.disk, after, wrote, file, FileOf(url, renewed, modTime), pruned)
    ensures IsRefreshed(m, p, ttl, file, url, loaded, now, wrote, modTime, pruned,
                        found[url := renewed], Later(p', file, url, renewed, now, ttl, wrote, None, after),
                        Some(renewed.content))
  {
  }

  /**
    What a revalidation amounts to: if memory or the file has a page for the URL, just that
    page comes back, is in memory until one TTL from now, and is the latest accepted for
    the URL; otherwise nothing changes.
  */
  lemma RefreshedIsRenewed(m: Memory, p: Past, ttl: int, file: string, url: string, loaded: Time, now: Time,
                           wrote: bool, modTime: Time, pruned: Time, m': Memory, p': Past, content: Option<string>)
    requires IsRefreshed(m, p, ttl, file, url, loaded, now, wrote, modTime, pruned, m', p', content)
    ensures content.Some? <==> ttl > 0 && (url in m || DiskHit(p.disk, file, url).Some?)
    ensures content.None? ==> m' == m && p' == p
    ensures content.Some? ==>
      var page := if url in m then m[url] else DiskHit(p.disk, file, url).value;
      var latest := Latest(p'.history, url);
      && content == Some(page.content) && url in m' && m'[url] == page.(expires := now + ttl)
      && latest.Some? && Expiry(latest.value) == now + ttl && latest.value.body == BodyOf(page)
      && InMemory(p'.history, url) == latest
  {
  }

  // ---------------------------------------------------------------------------------
  // Expiry and switching
  // ---------------------------------------------------------------------------------

  /** The pages with a zero expiry, but for those in `todo`. */
  function ExpiredBut(m: Memory, todo: set<string>): Memory {
    map url | url in m :: if url in todo then m[url] else m[url].(expires := ZERO_TIME)
  }

  function AllExpired(m: Memory): Memory {
    ExpiredBut(m, {})
  }

  lemma ExpireOne(m: Memory, todo: set<string>, url: string)
    requires url in m && url in todo
    ensures ExpiredBut(m, todo)[url := m[url].(expires := ZERO_TIME)] == ExpiredBut(m, todo - {url})
  {
  }

  /** The past after an event that leaves the directory as it is. */
  ghost function After(p: Past, e: Event): Past {
    p.(history := p.history + [e])
  }

  lemma ExpiredIsExact(m: Memory, h: History)
    requires IsExact(m, h)
    ensures IsExact(AllExpired(m), h + [Staled])
  {
    OneMoreEvent(h, Staled);
    forall url
      ensures ExpiresAt(h + [Staled], url) == if url in AllExpired(m) then Some(AllExpired(m)[url].expires) else None
    {
      assert ExpiresAt(h, url) == if url in m then Some(m[url].expires) else None;
    }
  }

  /** Marking everything stale. */
  lemma ExpiredIsGood(m: Memory, p: Past)
    requires IsGood(m, p)
    ensures IsGood(AllExpired(m), After(p, Staled))
  {
    hide IsExact, IsRecorded;
    ExpiredIsExact(m, p.history);
    OneMoreEvent(p.history, Staled);
    OneMoreRecorded(p.history, Staled, p.fileOf);
    TotalOfSameContents(m, AllExpired(m));
    assert |AllExpired(m).Keys| == |m.Keys|;
  }

  /** Emptying memory. */
  lemma EmptyIsGood(m: Memory, p: Past)
    requires IsGood(m, p)
    ensures IsGood(map[], After(p, Emptied))
  {
    OneMoreEvent(p.history, Emptied);
    OneMoreRecorded(p.history, Emptied, p.fileOf);
  }

  lemma FreshIsGood(fileOf: string -> string)
    ensures IsGood(map[], Past(fileOf, None, []))
  {
  }

  /** The past after persistence was switched off, or on over a directory as it was found. */
  ghost function Switched(p: Past, found: Option<Disk>, disk: Option<Disk>): Past {
    Past(p.fileOf, disk, p.history + [Opened(found)])
  }

  lemma SwitchedIsGood(m: Memory, p: Past, found: Option<Disk>, disk: Option<Disk>, now: Time)
    requires IsGood(m, p)
    requires if found.Some? then disk.Some? && Pruned(found.value, disk.value, now) else disk.None?
    ensures IsGood(m, Switched(p, found, disk))
  {
    var p' := Switched(p, found, disk);
    OneMoreEvent(p.history, Opened(found));
    OneMoreRecorded(p.history, Opened(found), p.fileOf);
    if found.Some? {
      forall name <- disk.value
        ensures FileAttested(disk.value[name], OnDisk(p'.history, name))
      {
        assert name in found.value && disk.value[name] == found.value[name];
      }
    }
    assert IsExact(m, p'.history) by {
      assert forall url :: ExpiresAt(p'.history, url) == ExpiresAt(p.history, url);
    }
  }

  /** Both budgets hold of every good memory, and the cap of the directory beside it. */
  lemma BudgetsHold(m: Memory, p: Past)
    requires IsGood(m, p)
    ensures |m| <= 256 && Total(m) <= 32 * 1024 * 1024
    ensures p.disk.Some? ==> |set name | name in p.disk.value && IsPageCacheFile(name)| <= 512
  {
  }
}
