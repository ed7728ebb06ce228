/** The page cache's directory: which files it owns, and how they are pruned. */
module DiskCache {
  import opened Wrappers
  import opened Numbers
  import opened Sorting
  import opened Text

  const MAX_DISK_CACHE_ENTRIES := 512

  /** The JSON form of one cached page. */
  datatype Record = Record(url: string, content: string, etag: string, lastModified: string, expires: Time)

  /** A file; `record` is None when its content is not such a JSON document. */
  datatype File = File(record: Option<Record>, modTime: Time)

  /** The files of the cache directory, by name. */
  type Disk = map<string, File>

  /** `isPageCacheFile`: 64 hexadecimal digits and the extension. */
  predicate IsPageCacheFile(name: string) {
    |name| == 69 && name[64..] == ".json" && forall i | 0 <= i < 64 :: IsHexDigit(name[i])
  }

  predicate Expired(f: File, now: Time) {
    f.record.Some? && now > f.record.value.expires
  }

  /** The cache's own files. */
  function PageFiles(d: Disk): set<string> {
    set name | name in d && IsPageCacheFile(name)
  }

  /** Those that are not known to have expired. */
  function Live(d: Disk, now: Time): set<string> {
    set name | name in d && IsPageCacheFile(name) && !Expired(d[name], now)
  }

  /**
    What pruning may leave: other files untouched, no expired page, at most the allowed
    number of live ones, as many as are allowed, and none older than one that had to go.
  */
  ghost predicate Pruned(before: Disk, after: Disk, now: Time) {
    && after.Keys <= before.Keys && (forall name <- after :: after[name] == before[name])
    && (forall name <- before :: !IsPageCacheFile(name) ==> name in after)
    && PageFiles(after) <= Live(before, now)
    && |PageFiles(after)| == Min(|Live(before, now)|, MAX_DISK_CACHE_ENTRIES)
    && (forall kept <- PageFiles(after), gone <- Live(before, now) - PageFiles(after) ::
          before[gone].modTime <= before[kept].modTime)
  }

  function ToSet(s: seq<string>): set<string> {
    set x | x in s
  }

  ghost predicate Distinct(s: seq<string>) {
    forall i, j | 0 <= i < j < |s| :: s[i] != s[j]
  }

  lemma HeadAndRest(s: seq<string>)
    requires s != []
    ensures ToSet(s) == {s[0]} + ToSet(s[1..])
  {
    assert s == [s[0]] + s[1..];
  }

  lemma {:induction false} SizeOfDistinct(s: seq<string>)
    requires Distinct(s)
    ensures |ToSet(s)| == |s|
  {
    if s == [] {
    } else {
      SizeOfDistinct(s[1..]);
      HeadAndRest(s);
    }
  }

  lemma {:induction false} DistinctBySize(s: seq<string>)
    requires |ToSet(s)| == |s|
    ensures Distinct(s)
  {
    if s == [] {
    } else {
      HeadAndRest(s);
      SizeAtMost(s[1..]);
      DistinctBySize(s[1..]);
    }
  }

  lemma {:induction false} SizeAtMost(s: seq<string>)
    ensures |ToSet(s)| <= |s|
  {
    if s == [] {
    } else {
      SizeAtMost(s[1..]);
      HeadAndRest(s);
    }
  }

  /** The directory without its expired pages. */
  function Swept(d: Disk, now: Time): Disk {
    d - (PageFiles(d) - Live(d, now))
  }

  /** The loop over the directory: removes the expired pages, collects the others. */
  method Sweep(d: Disk, now: Time) returns (after: Disk, candidates: seq<string>)
    ensures after == Swept(d, now)
    ensures Distinct(candidates) && ToSet(candidates) == Live(d, now)
  {
    after, candidates := d, [];
    var left := d.Keys;
    ghost var gone: set<string> := {};
    while left != {}
      invariant left <= d.Keys && after == d - gone
      invariant gone == PageFiles(d) - Live(d, now) - left
      invariant Distinct(candidates) && ToSet(candidates) == Live(d, now) - left
      decreases left
    {
      var name :| name in left;
      left := left - {name};
      if !IsPageCacheFile(name) {
        continue;
      }
      if Expired(d[name], now) {
        after, gone := after - {name}, gone + {name};
        continue;
      }
      assert name !in ToSet(candidates);
      assert ToSet(candidates + [name]) == ToSet(candidates) + {name};
      candidates := candidates + [name];
    }
  }

  lemma SweptPageFiles(d: Disk, now: Time)
    ensures PageFiles(Swept(d, now)) == Live(d, now)
  {
  }

  lemma SortedCandidates(candidates: seq<string>, score: string -> real)
    requires Distinct(candidates)
    ensures var sorted := SortByScore(candidates, score);
      Distinct(sorted) && ToSet(sorted) == ToSet(candidates) && |sorted| == |candidates| && Descending(sorted, score)
  {
    SortIsPermutation(candidates, score);
    SortIsDescending(candidates, score);
    SizeOfDistinct(candidates);
    assert ToSet(SortByScore(candidates, score)) == ToSet(candidates);
    DistinctBySize(SortByScore(candidates, score));
  }

  lemma RemovingOldestPrunes(d: Disk, now: Time, sorted: seq<string>, n: nat, age: string -> real)
    requires Distinct(sorted) && Descending(sorted, age) && ToSet(sorted) == Live(d, now)
    requires forall name <- sorted :: name in d && age(name) == -(d[name].modTime as real)
    requires n + MAX_DISK_CACHE_ENTRIES == |sorted|
    ensures Pruned(d, Swept(d, now) - ToSet(sorted[..n]), now)
  {
    var after := Swept(d, now) - ToSet(sorted[..n]);
    SizeOfDistinct(sorted);
    assert PageFiles(after) == Live(d, now) - ToSet(sorted[..n]);
    KeepsTheNewest(d, sorted, n, age, PageFiles(after));
    forall name <- d | !IsPageCacheFile(name)
      ensures name in after
    {
      assert name !in Live(d, now);
      assert forall x <- sorted[..n] :: x in sorted && x in ToSet(sorted);
    }
  }

  /** `pruneDiskCache`. */
  method PruneDiskCache(d: Disk, now: Time) returns (after: Disk)
    ensures Pruned(d, after, now)
  {
    var candidates;
    after, candidates := Sweep(d, now);
    SizeOfDistinct(candidates);
    SweptPageFiles(d, now);
    if |candidates| <= MAX_DISK_CACHE_ENTRIES {
      return;
    }
    var age := name => if name in d then -(d[name].modTime as real) else 0.0;
    var sorted := SortByScore(candidates, age);
    SortedCandidates(candidates, age);
    forall name <- sorted
      ensures name in d
    {
      assert name in ToSet(sorted) && name in Live(d, now);
    }
    var n := |sorted| - MAX_DISK_CACHE_ENTRIES;
    after := after - ToSet(sorted[..n]);
    RemovingOldestPrunes(d, now, sorted, n, age);
  }

  lemma KeepsTheNewest(d: Disk, sorted: seq<string>, n: nat, age: string -> real, kept: set<string>)
    requires Distinct(sorted) && Descending(sorted, age) && n <= |sorted|
    requires forall name <- sorted :: name in d && age(name) == -(d[name].modTime as real)
    requires kept == ToSet(sorted) - ToSet(sorted[..n])
    ensures |kept| == |sorted| - n
    ensures forall k <- kept, g <- ToSet(sorted) - kept :: d[g].modTime <= d[k].modTime
  {
    assert sorted == sorted[..n] + sorted[n..];
    assert kept == ToSet(sorted[n..]);
    SizeOfDistinct(sorted[n..]);
    forall k, g | k in kept && g in ToSet(sorted) - kept
      ensures d[g].modTime <= d[k].modTime
    {
      var a :| 0 <= a < n && sorted[a] == g;
      var b :| n <= b < |sorted| && sorted[b] == k;
      assert age(sorted[a]) >= age(sorted[b]);
    }
  }

  lemma HexDigits(c: char)
    ensures IsHexDigit(c) <==> c in "0123456789abcdefABCDEF"
  {
    assert "0123456789abcdefABCDEF" ==
      ['0', '1', '2', '3', '4', '5', '6', '7', '8', '9', 'a', 'b', 'c', 'd', 'e', 'f', 'A', 'B', 'C', 'D', 'E', 'F'];
  }

  /** The cache's own files are named by sixty-four hexadecimal digits. */
  lemma PageCacheFileNames(name: string)
    ensures IsPageCacheFile(name) <==>
      && |name| == 69 && name == name[..64] + ".json"
      && forall c <- name[..64] :: c in "0123456789abcdefABCDEF"
  {
    hide IsHexDigit;
    if |name| == 69 {
      assert name == name[..64] + name[64..];
      forall i | 0 <= i < 64
        ensures name[i] in name[..64] && (IsHexDigit(name[i]) <==> name[i] in "0123456789abcdefABCDEF")
      {
        assert name[..64][i] == name[i];
        HexDigits(name[i]);
      }
    }
  }

  /**
    After pruning, no page is past its expiry, there are at most 512, and a file goes only for
    one of these reasons.
  */
  lemma PrunedFiles(before: Disk, after: Disk, now: Time)
    requires Pruned(before, after, now)
    ensures forall name <- after ::
      IsPageCacheFile(name) && after[name].record.Some? ==> now <= after[name].record.value.expires
    ensures |set name | name in after && IsPageCacheFile(name)| <= 512
    ensures forall name <- before :: name !in after ==>
      && IsPageCacheFile(name)
      && (|| (before[name].record.Some? && now > before[name].record.value.expires)
          || |set n | n in after && IsPageCacheFile(n)| == 512)
    ensures forall gone <- before, kept <- after :: gone !in after && IsPageCacheFile(kept) ==>
      || (before[gone].record.Some? && now > before[gone].record.value.expires)
      || before[gone].modTime <= after[kept].modTime
  {
    var pages := PageFiles(after);
    assert pages == set name | name in after && IsPageCacheFile(name);
    forall name | name in after && IsPageCacheFile(name)
      ensures !Expired(after[name], now)
    {
      assert name in pages;
    }
    forall name <- before | name !in after
      ensures IsPageCacheFile(name) && (Expired(before[name], now) || |pages| == 512)
    {
      if |Live(before, now)| <= MAX_DISK_CACHE_ENTRIES {
        SameSize(pages, Live(before, now));
        assert name !in pages;
      }
    }
  }

  lemma SameSize<T>(a: set<T>, b: set<T>)
    requires a <= b && |a| == |b|
    ensures a == b
  {
    assert b == a + (b - a);
  }
}
