/** The voice file directory of backend/utils/voiceUtils.js: the cache
    lookup of `textToSpeech`, the synthesis outcome, and `cleanupOldFiles`,
    which keeps only the newest voice files. */
module VoiceDir {
  import opened Strings
  import opened VoiceText

  /** Keep only this many voice files. */
  const MAX_VOICE_FILES: nat := 5

  /** A cached file is reused while it is younger than five minutes. */
  const CACHE_WINDOW_MS: int := 5 * 60 * 1000

  /** A directory entry; `mtime` is `None` when the file cannot be stat'ed. */
  datatype VoiceFile = VoiceFile(name: string, mtime: Option<int>)

  /** `(f.mtime || 0)`: the sort key of `cleanupOldFiles`. */
  function Key(f: VoiceFile): int {
    match f.mtime
    case Some(t) => t
    case None => 0
  }

  predicate IsVoiceName(name: string) {
    IsPrefix("voice_", name) && IsSuffix(".mp3", name)
  }

  // ---------------------------------------------------------------------------
  // Helpers on listings
  // ---------------------------------------------------------------------------

  function Names(fs: seq<VoiceFile>): (r: set<string>)
    ensures forall f :: f in fs ==> f.name in r
  {
    if fs == [] then {} else {fs[0].name} + Names(fs[1..])
  }

  /** The names of a listing are exactly the names of its entries. */
  lemma {:induction false} NamesExact(fs: seq<VoiceFile>)
    ensures Names(fs) == set f | f in fs :: f.name
  {
    if fs != [] {
      NamesExact(fs[1..]);
      assert forall f :: f in fs <==> f == fs[0] || f in fs[1..];
    }
  }

  /** No two entries of a listing share a name, as in a directory. */
  predicate DistinctNames(fs: seq<VoiceFile>) {
    fs == [] || (fs[0].name !in Names(fs[1..]) && DistinctNames(fs[1..]))
  }

  lemma {:induction false} NameWitness(fs: seq<VoiceFile>, n: string) returns (f: VoiceFile)
    requires n in Names(fs)
    ensures f in fs && f.name == n
  {
    if fs[0].name == n {
      f := fs[0];
    } else {
      f := NameWitness(fs[1..], n);
    }
  }

  lemma {:induction false} NamesOnly(fs: seq<VoiceFile>, n: string)
    requires forall f :: f in fs ==> f.name != n
    ensures n !in Names(fs)
  {
    if fs != [] {
      assert forall f :: f in fs[1..] ==> f in fs;
      NamesOnly(fs[1..], n);
    }
  }

  /** In a directory, a name determines the entry. */
  lemma {:induction false} SameNameSameEntry(fs: seq<VoiceFile>, a: VoiceFile, b: VoiceFile)
    requires DistinctNames(fs) && a in fs && b in fs && a.name == b.name
    ensures a == b
  {
    if a != fs[0] && b != fs[0] {
      SameNameSameEntry(fs[1..], a, b);
    }
  }

  lemma {:induction false} DistinctNamesCount(fs: seq<VoiceFile>)
    requires DistinctNames(fs)
    ensures |Names(fs)| == |fs|
  {
    if fs != [] {
      DistinctNamesCount(fs[1..]);
    }
  }

  lemma {:induction false} DistinctSuffix(fs: seq<VoiceFile>, k: nat)
    requires DistinctNames(fs) && k <= |fs|
    ensures DistinctNames(fs[k..]) && Names(fs[k..]) <= Names(fs)
  {
    if k > 0 {
      assert fs[k..] == fs[1..][k - 1..];
      DistinctSuffix(fs[1..], k - 1);
    }
  }

  lemma {:induction false} NamesAppend(fs: seq<VoiceFile>, x: VoiceFile)
    ensures Names(fs + [x]) == Names(fs) + {x.name}
  {
    if fs == [] {
      assert fs + [x] == [x];
    } else {
      assert (fs + [x])[1..] == fs[1..] + [x];
      NamesAppend(fs[1..], x);
    }
  }

  lemma {:induction false} AppendDistinct(fs: seq<VoiceFile>, x: VoiceFile)
    requires DistinctNames(fs) && x.name !in Names(fs)
    ensures DistinctNames(fs + [x]) && Names(fs + [x]) == Names(fs) + {x.name}
  {
    if fs == [] {
      assert fs + [x] == [x];
    } else {
      assert (fs + [x])[1..] == fs[1..] + [x];
      AppendDistinct(fs[1..], x);
    }
  }

  /** The listing without the entries whose name is in `gone`. */
  function Without(fs: seq<VoiceFile>, gone: set<string>): (r: seq<VoiceFile>)
    ensures |r| <= |fs|
    ensures forall f :: f in r <==> f in fs && f.name !in gone
  {
    if fs == [] then []
    else (if fs[0].name in gone then [] else [fs[0]]) + Without(fs[1..], gone)
  }

  /** `files.filter(f => f.startsWith('voice_') && f.endsWith('.mp3'))` */
  function VoiceEntries(fs: seq<VoiceFile>): (r: seq<VoiceFile>)
    ensures |r| <= |fs|
    ensures forall f :: f in r <==> f in fs && IsVoiceName(f.name)
  {
    if fs == [] then []
    else (if IsVoiceName(fs[0].name) then [fs[0]] else []) + VoiceEntries(fs[1..])
  }

  lemma {:induction false} WithoutNothing(fs: seq<VoiceFile>)
    ensures Without(fs, {}) == fs
  {
    if fs != [] {
      WithoutNothing(fs[1..]);
      assert fs == [fs[0]] + fs[1..];
    }
  }

  lemma {:induction false} WithoutConcat(x: seq<VoiceFile>, y: seq<VoiceFile>, gone: set<string>)
    ensures Without(x + y, gone) == Without(x, gone) + Without(y, gone)
  {
    if x != [] {
      assert (x + y)[1..] == x[1..] + y;
      WithoutConcat(x[1..], y, gone);
    } else {
      assert x + y == y;
    }
  }

  lemma {:induction false} WithoutTwice(fs: seq<VoiceFile>, a: set<string>, b: set<string>)
    ensures Without(Without(fs, a), b) == Without(fs, a + b)
  {
    if fs != [] {
      WithoutTwice(fs[1..], a, b);
      var head := if fs[0].name in a then [] else [fs[0]];
      WithoutConcat(head, Without(fs[1..], a), b);
    }
  }

  lemma {:induction false} VoiceEntriesWithout(fs: seq<VoiceFile>, gone: set<string>)
    ensures VoiceEntries(Without(fs, gone)) == Without(VoiceEntries(fs), gone)
  {
    if fs != [] {
      VoiceEntriesWithout(fs[1..], gone);
      var head := if fs[0].name in gone then [] else [fs[0]];
      var w := Without(fs[1..], gone);
      VoiceEntriesConcat(head, w);
      var h := if IsVoiceName(fs[0].name) then [fs[0]] else [];
      WithoutConcat(h, VoiceEntries(fs[1..]), gone);
    }
  }

  lemma {:induction false} VoiceEntriesConcat(x: seq<VoiceFile>, y: seq<VoiceFile>)
    ensures VoiceEntries(x + y) == VoiceEntries(x) + VoiceEntries(y)
  {
    if x != [] {
      assert (x + y)[1..] == x[1..] + y;
      VoiceEntriesConcat(x[1..], y);
    } else {
      assert x + y == y;
    }
  }

  lemma {:induction false} WithoutKeepsDistinct(fs: seq<VoiceFile>, gone: set<string>)
    requires DistinctNames(fs)
    ensures DistinctNames(Without(fs, gone))
    ensures Names(Without(fs, gone)) == Names(fs) - gone
  {
    if fs != [] {
      var rest := Without(fs[1..], gone);
      WithoutKeepsDistinct(fs[1..], gone);
      if fs[0].name in gone {
        assert Without(fs, gone) == rest;
      } else {
        assert Without(fs, gone) == [fs[0]] + rest;
        ConsDistinct(fs[0], rest);
      }
    }
  }

  lemma {:induction false} VoiceEntriesKeepDistinct(fs: seq<VoiceFile>)
    requires DistinctNames(fs)
    ensures DistinctNames(VoiceEntries(fs)) && Names(VoiceEntries(fs)) <= Names(fs)
  {
    if fs != [] {
      var rest := VoiceEntries(fs[1..]);
      VoiceEntriesKeepDistinct(fs[1..]);
      if IsVoiceName(fs[0].name) {
        assert VoiceEntries(fs) == [fs[0]] + rest;
        ConsDistinct(fs[0], rest);
      } else {
        assert VoiceEntries(fs) == rest;
      }
    }
  }

  /** Removing names that all occur removes exactly that many entries. */
  lemma WithoutCount(fs: seq<VoiceFile>, gone: set<string>)
    requires DistinctNames(fs) && gone <= Names(fs)
    ensures |Without(fs, gone)| == |fs| - |gone|
  {
    WithoutKeepsDistinct(fs, gone);
    DistinctNamesCount(fs);
    DistinctNamesCount(Without(fs, gone));
    assert Names(fs) == (Names(fs) - gone) + gone;
  }

  // ---------------------------------------------------------------------------
  // Newest-first ordering
  // ---------------------------------------------------------------------------

  predicate NewestFirst(s: seq<VoiceFile>) {
    forall i :: 0 < i < |s| ==> Key(s[i - 1]) >= Key(s[i])
  }

  lemma {:induction false} NewestFirstPairs(s: seq<VoiceFile>, i: nat, j: nat)
    requires NewestFirst(s) && i <= j < |s|
    ensures Key(s[i]) >= Key(s[j])
    decreases j - i
  {
    if i < j {
      NewestFirstPairs(s, i + 1, j);
    }
  }

  lemma NewestFirstTail(t: seq<VoiceFile>)
    requires NewestFirst(t) && t != []
    ensures NewestFirst(t[1..])
  {
    forall i | 0 < i < |t[1..]| ensures Key(t[1..][i - 1]) >= Key(t[1..][i]) {
      assert t[1..][i - 1] == t[i] && t[1..][i] == t[i + 1];
    }
  }

  /** Places `x` after every entry at least as new. */
  function InsertByAge(t: seq<VoiceFile>, x: VoiceFile): (r: seq<VoiceFile>)
    requires NewestFirst(t)
    ensures |r| == |t| + 1 && NewestFirst(r)
    ensures multiset(r) == multiset(t) + multiset{x}
    ensures r[0] == x || (t != [] && r[0] == t[0])
  {
    if t == [] then [x]
    else if Key(x) > Key(t[0]) then [x] + t
    else
      NewestFirstTail(t);
      var rest := InsertByAge(t[1..], x);
      InsertedAfterHead(t, x, rest);
      [t[0]] + rest
  }

  /** The step of `InsertByAge` that keeps the head: putting it back in front of
      the insertion into the tail keeps the order and the contents. */
  lemma InsertedAfterHead(t: seq<VoiceFile>, x: VoiceFile, rest: seq<VoiceFile>)
    requires t != [] && NewestFirst(t) && Key(x) <= Key(t[0])
    requires |rest| == |t| && NewestFirst(rest)
    requires multiset(rest) == multiset(t[1..]) + multiset{x}
    requires rest[0] == x || (|t| > 1 && rest[0] == t[1])
    ensures NewestFirst([t[0]] + rest)
    ensures multiset([t[0]] + rest) == multiset(t) + multiset{x}
  {
    assert t == [t[0]] + t[1..];
    var r := [t[0]] + rest;
    assert forall i :: 1 <= i < |r| ==> r[i] == rest[i - 1];
    assert |t| > 1 ==> Key(t[0]) >= Key(t[1]);
  }

  /** Putting an entry with a new name in front keeps names distinct. */
  lemma ConsDistinct(x: VoiceFile, rest: seq<VoiceFile>)
    requires DistinctNames(rest) && x.name !in Names(rest)
    ensures DistinctNames([x] + rest) && Names([x] + rest) == {x.name} + Names(rest)
  {
    assert ([x] + rest)[1..] == rest;
  }

  /** `voiceFiles.sort((a, b) => (b.mtime || 0) - (a.mtime || 0))`: the
      voice files, newest first. */
  function SortNewest(s: seq<VoiceFile>): (r: seq<VoiceFile>)
    ensures |r| == |s| && NewestFirst(r) && multiset(r) == multiset(s)
  {
    if s == [] then []
    else
      assert s == s[..|s| - 1] + [s[|s| - 1]];
      InsertByAge(SortNewest(s[..|s| - 1]), s[|s| - 1])
  }

  lemma {:induction false} InsertByAgeNames(t: seq<VoiceFile>, x: VoiceFile)
    requires NewestFirst(t) && DistinctNames(t) && x.name !in Names(t)
    ensures DistinctNames(InsertByAge(t, x)) && Names(InsertByAge(t, x)) == Names(t) + {x.name}
  {
    var r := InsertByAge(t, x);
    if t == [] {
    } else if Key(x) > Key(t[0]) {
      assert r[1..] == t;
    } else {
      NewestFirstTail(t);
      InsertByAgeNames(t[1..], x);
      assert r[1..] == InsertByAge(t[1..], x);
    }
  }

  lemma {:induction false} SortNewestNames(s: seq<VoiceFile>)
    requires DistinctNames(s)
    ensures DistinctNames(SortNewest(s)) && Names(SortNewest(s)) == Names(s)
  {
    if s != [] {
      var init := s[..|s| - 1];
      var last := s[|s| - 1];
      assert s == init + [last];
      DistinctInit(s);
      SortNewestNames(init);
      InsertByAgeNames(SortNewest(init), last);
    }
  }

  /** Dropping the last entry keeps names distinct, and that entry's name is not
      among the others. */
  lemma {:induction false} DistinctInit(s: seq<VoiceFile>)
    requires DistinctNames(s) && s != []
    ensures DistinctNames(s[..|s| - 1]) && s[|s| - 1].name !in Names(s[..|s| - 1])
    ensures Names(s) == Names(s[..|s| - 1]) + {s[|s| - 1].name}
  {
    if |s| > 1 {
      assert s[1..][..|s| - 2] == s[..|s| - 1][1..];
      DistinctInit(s[1..]);
      assert s[1..][|s| - 2] == s[|s| - 1];
      assert s[..|s| - 1][0] == s[0];
      assert s[0].name != s[|s| - 1].name by {
        assert s[|s| - 1] in s[1..];
      }
    }
  }

  // ---------------------------------------------------------------------------
  // cleanupOldFiles
  // ---------------------------------------------------------------------------

  /** Deleting the k-th name after the first k is deleting the first k + 1. */
  lemma DeleteStep(start: seq<VoiceFile>, toDelete: seq<VoiceFile>, k: nat)
    requires k < |toDelete|
    ensures Without(Without(start, Names(toDelete[..k])), {toDelete[k].name})
            == Without(start, Names(toDelete[..k + 1]))
  {
    WithoutTwice(start, Names(toDelete[..k]), {toDelete[k].name});
    assert toDelete[..k + 1] == toDelete[..k] + [toDelete[k]];
    NamesAppend(toDelete[..k], toDelete[k]);
  }

  /** Deleting a name a file has removes that file. */
  lemma WithoutRemoves(fs: seq<VoiceFile>, gone: seq<VoiceFile>, f: VoiceFile)
    requires f in gone
    ensures f !in Without(fs, Names(gone))
  {
  }

  /** The voice files sorted newest first, from position MAX_VOICE_FILES on:
      `voiceFiles.slice(MAX_VOICE_FILES)`. */
  function ToDelete(fs: seq<VoiceFile>): seq<VoiceFile>
  {
    var sorted := SortNewest(VoiceEntries(fs));
    if |sorted| <= MAX_VOICE_FILES then [] else sorted[MAX_VOICE_FILES..]
  }

  /** The listing once `cleanupOldFiles` has run. */
  function Cleaned(fs: seq<VoiceFile>): seq<VoiceFile> {
    Without(fs, Names(ToDelete(fs)))
  }

  /** Files that are not voice files are never deleted. */
  lemma CleanupKeepsOtherFiles(fs: seq<VoiceFile>, f: VoiceFile)
    requires f in fs && !IsVoiceName(f.name)
    ensures f in Cleaned(fs)
  {
    var v := VoiceEntries(fs);
    var sorted := SortNewest(v);
    var del := ToDelete(fs);
    forall w | w in del ensures w.name != f.name {
      var i :| 0 <= i < |del| && del[i] == w;
      assert sorted[i + MAX_VOICE_FILES] == w;
      assert w in multiset(v);
    }
    NamesOnly(del, f.name);
  }

  /** With at most MAX_VOICE_FILES voice files, nothing is deleted. */
  lemma CleanupNoopWhenFew(fs: seq<VoiceFile>)
    requires |VoiceEntries(fs)| <= MAX_VOICE_FILES
    ensures Cleaned(fs) == fs
  {
    WithoutNothing(fs);
  }

  /** A file deleted by the cleanup sits at position MAX_VOICE_FILES or later of
      the sorted voice files. */
  lemma DeletedSitsLate(fs: seq<VoiceFile>, gone: VoiceFile) returns (j: nat)
    requires DistinctNames(fs)
    requires gone in fs && gone !in Cleaned(fs)
    ensures MAX_VOICE_FILES <= j < |SortNewest(VoiceEntries(fs))|
    ensures SortNewest(VoiceEntries(fs))[j] == gone
  {
    var v := VoiceEntries(fs);
    var sorted := SortNewest(v);
    var del := ToDelete(fs);
    var w := NameWitness(del, gone.name);
    var k :| 0 <= k < |del| && del[k] == w;
    j := k + MAX_VOICE_FILES;
    assert sorted[j] == w;
    assert w in multiset(v);
    SameNameSameEntry(fs, w, gone);
  }

  /** A voice file the cleanup keeps sits before position MAX_VOICE_FILES of the
      sorted voice files. */
  lemma KeptSitsEarly(fs: seq<VoiceFile>, kept: VoiceFile) returns (i: nat)
    requires kept in Cleaned(fs) && IsVoiceName(kept.name)
    ensures i < |SortNewest(VoiceEntries(fs))| && i < MAX_VOICE_FILES
    ensures SortNewest(VoiceEntries(fs))[i] == kept
  {
    var v := VoiceEntries(fs);
    var sorted := SortNewest(v);
    KeptIsSorted(fs, kept);
    i :| 0 <= i < |sorted| && sorted[i] == kept;
    if i >= MAX_VOICE_FILES {
      LateIsDeleted(fs, i);
    }
  }

  /** A kept voice file is one of the sorted voice files. */
  lemma KeptIsSorted(fs: seq<VoiceFile>, kept: VoiceFile)
    requires kept in Cleaned(fs) && IsVoiceName(kept.name)
    ensures kept in SortNewest(VoiceEntries(fs))
  {
    var v := VoiceEntries(fs);
    assert kept in v;
    assert kept in multiset(SortNewest(v));
  }

  /** The sorted voice file at position MAX_VOICE_FILES or later is deleted. */
  lemma LateIsDeleted(fs: seq<VoiceFile>, i: nat)
    requires MAX_VOICE_FILES <= i < |SortNewest(VoiceEntries(fs))|
    ensures SortNewest(VoiceEntries(fs))[i] !in Cleaned(fs)
  {
    var sorted := SortNewest(VoiceEntries(fs));
    TailRemoved(fs, sorted, i);
    assert ToDelete(fs) == sorted[MAX_VOICE_FILES..];
  }

  lemma TailRemoved(fs: seq<VoiceFile>, sorted: seq<VoiceFile>, i: nat)
    requires MAX_VOICE_FILES <= i < |sorted|
    ensures sorted[i] !in Without(fs, Names(sorted[MAX_VOICE_FILES..]))
  {
    var del := sorted[MAX_VOICE_FILES..];
    assert del[i - MAX_VOICE_FILES] == sorted[i];
    WithoutRemoves(fs, del, sorted[i]);
  }

  /** Every voice file kept is at least as new as every file deleted, and only
      voice files are deleted. */
  lemma CleanupKeepsNewest(fs: seq<VoiceFile>, kept: VoiceFile, gone: VoiceFile)
    requires DistinctNames(fs)
    requires kept in Cleaned(fs) && IsVoiceName(kept.name)
    requires gone in fs && gone !in Cleaned(fs)
    ensures IsVoiceName(gone.name) && Key(kept) >= Key(gone)
  {
    var j := DeletedSitsLate(fs, gone);
    var i := KeptSitsEarly(fs, kept);
    var sorted := SortNewest(VoiceEntries(fs));
    assert gone in multiset(VoiceEntries(fs));
    NewestFirstPairs(sorted, i, j);
  }

  /** Exactly min(n, MAX_VOICE_FILES) of the n voice files remain. */
  lemma CleanupLeavesNewestCount(fs: seq<VoiceFile>)
    requires DistinctNames(fs)
    ensures |VoiceEntries(Cleaned(fs))| == Min(|VoiceEntries(fs)|, MAX_VOICE_FILES)
  {
    var v := VoiceEntries(fs);
    var sorted := SortNewest(v);
    var del := ToDelete(fs);
    VoiceEntriesWithout(fs, Names(del));
    if |sorted| <= MAX_VOICE_FILES {
      WithoutNothing(v);
    } else {
      VoiceEntriesKeepDistinct(fs);
      SortNewestNames(v);
      DistinctSuffix(sorted, MAX_VOICE_FILES);
      DistinctNamesCount(del);
      WithoutCount(v, Names(del));
    }
  }

  // ---------------------------------------------------------------------------
  // The cache scan of textToSpeech
  // ---------------------------------------------------------------------------

  /** What the cache loop found: a fresh file to reuse, and the expired
      candidates it deleted before reaching it. */
  datatype CacheScan = CacheScan(hit: Option<string>, expired: set<string>)

  /** A file the cache loop looks at: a name with the prefix and `.mp3`, and a
      modification time that can be read. */
  predicate Candidate(f: VoiceFile, prefix: string) {
    MatchesPrefix(f.name, prefix) && f.mtime.Some?
  }

  /** The loop over the listing: a matching file that cannot be stat'ed is
      skipped, one newer than the cutoff ends the scan, an older one is deleted. */
  function ScanCache(fs: seq<VoiceFile>, prefix: string, cutoff: int): (r: CacheScan)
    ensures r.hit.Some? ==> r.hit.value in Names(fs)
  {
    if fs == [] then CacheScan(None, {})
    else if Candidate(fs[0], prefix) && Key(fs[0]) > cutoff then CacheScan(Some(fs[0].name), {})
    else
      var rest := ScanCache(fs[1..], prefix, cutoff);
      if Candidate(fs[0], prefix) then CacheScan(rest.hit, {fs[0].name} + rest.expired)
      else rest
  }

  /** The file reused is a fresh candidate of the listing. */
  lemma {:induction false} ScanHitIsFresh(fs: seq<VoiceFile>, prefix: string, cutoff: int)
    ensures var scan := ScanCache(fs, prefix, cutoff);
            scan.hit.Some? ==> exists f :: f in fs && f.name == scan.hit.value && Candidate(f, prefix) && Key(f) > cutoff
  {
    if fs != [] {
      ScanHitIsFresh(fs[1..], prefix, cutoff);
      assert forall f :: f in fs[1..] ==> f in fs;
    }
  }

  /** Every file deleted as expired is a candidate no newer than the cutoff. */
  lemma {:induction false} ScanExpiredAreStale(fs: seq<VoiceFile>, prefix: string, cutoff: int, n: string)
    requires n in ScanCache(fs, prefix, cutoff).expired
    ensures exists f :: f in fs && f.name == n && Candidate(f, prefix) && Key(f) <= cutoff
  {
    if n != fs[0].name || !Candidate(fs[0], prefix) {
      ScanExpiredAreStale(fs[1..], prefix, cutoff, n);
      var f :| f in fs[1..] && f.name == n && Candidate(f, prefix) && Key(f) <= cutoff;
      assert f in fs;
    }
  }

  /** Without a fresh candidate, every candidate is deleted. */
  lemma {:induction false} ScanMissDeletesAll(fs: seq<VoiceFile>, prefix: string, cutoff: int, f: VoiceFile)
    requires f in fs && Candidate(f, prefix)
    requires ScanCache(fs, prefix, cutoff).hit.None?
    ensures Key(f) <= cutoff && f.name in ScanCache(fs, prefix, cutoff).expired
  {
    if f != fs[0] {
      ScanMissDeletesAll(fs[1..], prefix, cutoff, f);
    }
  }

  /** The first fresh candidate in listing order is the one reused. */
  lemma {:induction false} ScanFindsFirstFresh(fs: seq<VoiceFile>, prefix: string, cutoff: int, k: nat)
    requires k < |fs| && Candidate(fs[k], prefix) && Key(fs[k]) > cutoff
    requires forall i :: 0 <= i < k && Candidate(fs[i], prefix) ==> Key(fs[i]) <= cutoff
    ensures ScanCache(fs, prefix, cutoff).hit == Some(fs[k].name)
  {
    if k > 0 {
      assert forall i :: 0 <= i < k - 1 ==> fs[1..][i] == fs[i + 1];
      ScanFindsFirstFresh(fs[1..], prefix, cutoff, k - 1);
    }
  }

  /** In a directory, the name reused is never one of those deleted as expired. */
  lemma {:induction false} ExpiredAndHitDiffer(fs: seq<VoiceFile>, prefix: string, cutoff: int)
    requires DistinctNames(fs)
    ensures var scan := ScanCache(fs, prefix, cutoff);
            scan.hit.Some? ==> scan.hit.value !in scan.expired
  {
    if fs != [] {
      ExpiredAndHitDiffer(fs[1..], prefix, cutoff);
      var rest := ScanCache(fs[1..], prefix, cutoff);
      ScanHitIsFresh(fs[1..], prefix, cutoff);
    }
  }

  /** One step of the scan at position i of the listing. */
  lemma ScanStep(fs: seq<VoiceFile>, i: nat, prefix: string, cutoff: int)
    requires i < |fs|
    ensures var here := ScanCache(fs[i..], prefix, cutoff);
            var next := ScanCache(fs[i + 1..], prefix, cutoff);
            if !Candidate(fs[i], prefix) then here == next
            else if Key(fs[i]) > cutoff then here == CacheScan(Some(fs[i].name), {})
            else here == CacheScan(next.hit, {fs[i].name} + next.expired)
  {
    assert fs[i..][1..] == fs[i + 1..];
  }

  /** Combines the expired names already found with the scan of the rest. */
  function AfterExpired(done: set<string>, rest: CacheScan): CacheScan {
    CacheScan(rest.hit, done + rest.expired)
  }

  // ---------------------------------------------------------------------------
  // The directory
  // ---------------------------------------------------------------------------

  /** How the synthesis of new speech ends: the file saved with its time,
      the save failing with a message, or no file appearing. */
  datatype SynthOutcome = Saved(mtime: int) | SaveFailed(message: string) | NotWritten

  /** The directory holding generated speech. */
  class VoiceStore {
    var files: seq<VoiceFile>

    ghost predicate Valid()
      reads this
    {
      DistinctNames(files)
    }

    constructor (initial: seq<VoiceFile>)
      requires DistinctNames(initial)
      ensures files == initial && Valid()
    {
      files := initial;
    }

    /** `cleanupOldFiles()` */
    method CleanupOldFiles()
      requires Valid()
      modifies this
      ensures Valid()
      ensures files == Cleaned(old(files))
    {
      var voiceFiles := VoiceEntries(files);
      var sorted := SortNewest(voiceFiles);
      var toDelete := if |sorted| <= MAX_VOICE_FILES then [] else sorted[MAX_VOICE_FILES..];
      DeleteAll(toDelete);
    }

    /** The deletion loop of `cleanupOldFiles`: unlinks each file in turn. */
    method DeleteAll(toDelete: seq<VoiceFile>)
      requires Valid()
      modifies this
      ensures Valid()
      ensures files == Without(old(files), Names(toDelete))
    {
      ghost var start := files;
      WithoutNothing(start);
      var k := 0;
      while k < |toDelete|
        invariant 0 <= k <= |toDelete|
        invariant files == Without(start, Names(toDelete[..k]))
      {
        DeleteStep(start, toDelete, k);
        files := Without(files, {toDelete[k].name});
        k := k + 1;
      }
      assert toDelete[..k] == toDelete;
      WithoutKeepsDistinct(start, Names(toDelete));
    }

    /** The cache loop of `textToSpeech`: deletes expired candidates in listing
        order until a fresh one is found. */
    method LookupCache(prefix: string, cutoff: int) returns (hit: Option<string>)
      requires Valid()
      modifies this
      ensures Valid()
      ensures hit == ScanCache(old(files), prefix, cutoff).hit
      ensures files == Without(old(files), ScanCache(old(files), prefix, cutoff).expired)
    {
      var listing := files;
      ghost var done: set<string> := {};
      WithoutNothing(listing);
      var i := 0;
      hit := None;
      while i < |listing|
        invariant 0 <= i <= |listing|
        invariant files == Without(listing, done)
        invariant ScanCache(listing, prefix, cutoff) == AfterExpired(done, ScanCache(listing[i..], prefix, cutoff))
        decreases |listing| - i
      {
        var f := listing[i];
        ScanStep(listing, i, prefix, cutoff);
        if Candidate(f, prefix) {
          if f.mtime.value > cutoff {
            hit := Some(f.name);
            WithoutKeepsDistinct(listing, done);
            return;
          }
          WithoutTwice(listing, done, {f.name});
          files := Without(files, {f.name});
          done := done + {f.name};
        }
        i := i + 1;
      }
      WithoutKeepsDistinct(listing, done);
    }

    /** `textToSpeech(text, lang)` at time `now`, where `synth` says how the
        synthesis of new speech ends. The result names the file to play. */
    method TextToSpeech(text: string, lang: string, now: nat, synth: SynthOutcome)
      returns (r: Result<string, string>)
      requires Valid()
      modifies this
      ensures Valid()
      ensures Trim(text) == [] ==> r == Err(ClassifyTtsError(EMPTY_TEXT)) && files == old(files)
      ensures Trim(text) != [] ==>
        var l := NormalizeLang(lang);
        var key := CacheKey(text);
        var scan := ScanCache(old(files), CachePrefix(l, key), now - CACHE_WINDOW_MS);
        var kept := Without(old(files), scan.expired);
        var name := FileName(l, key, now);
        match scan.hit
        case Some(cached) => r == Ok(cached) && files == Cleaned(kept)
        case None =>
          match synth
          case Saved(t) => r == Ok(name) && files == Cleaned(Without(kept, {name}) + [VoiceFile(name, Some(t))])
          case SaveFailed(m) => r == Err(ClassifyTtsError("GTTS save failed: " + m)) && files == kept
          case NotWritten => r == Err(ClassifyTtsError(NOT_CREATED)) && files == kept
    {
      if Trim(text) == [] {
        return Err(ClassifyTtsError(EMPTY_TEXT));
      }
      var l := NormalizeLang(lang);
      var key := CacheKey(text);
      var name := FileName(l, key, now);
      var hit := LookupCache(CachePrefix(l, key), now - CACHE_WINDOW_MS);
      if hit.Some? {
        CleanupOldFiles();
        return Ok(hit.value);
      }
      match synth
      case SaveFailed(m) =>
        r := Err(ClassifyTtsError("GTTS save failed: " + m));
      case NotWritten =>
        r := Err(ClassifyTtsError(NOT_CREATED));
      case Saved(t) =>
        WithoutKeepsDistinct(files, {name});
        var rest := Without(files, {name});
        AppendDistinct(rest, VoiceFile(name, Some(t)));
        files := rest + [VoiceFile(name, Some(t))];
        CleanupOldFiles();
        r := Ok(name);
    }
  }

  /** After a successful call the directory never holds more than
      MAX_VOICE_FILES voice files, whatever it held before. */
  lemma CleanupBoundsVoiceFiles(fs: seq<VoiceFile>)
    requires DistinctNames(fs)
    ensures |VoiceEntries(Cleaned(fs))| <= MAX_VOICE_FILES
  {
    CleanupLeavesNewestCount(fs);
  }

  /** With more than MAX_VOICE_FILES voice files the cleanup after a cache hit
      can delete the very file the call returns. A fresh hit listed before
      five newer voice files of other texts is reused with nothing expired,
      so the listing the cleanup sees is the whole listing; sorted, the hit
      sits at position MAX_VOICE_FILES, and it is deleted. */
  lemma CacheHitDeletedBehindFive(h: VoiceFile, others: seq<VoiceFile>, prefix: string, cutoff: int)
    requires Candidate(h, prefix) && Key(h) > cutoff && IsVoiceName(h.name)
    requires |others| == MAX_VOICE_FILES
    requires forall i :: 0 <= i < |others| ==>
               IsVoiceName(others[i].name) && Key(others[i]) > Key(h)
    ensures ScanCache([h] + others, prefix, cutoff) == CacheScan(Some(h.name), {})
    ensures Without([h] + others, {}) == [h] + others
    ensures h !in Cleaned([h] + others)
  {
    var fs := [h] + others;
    assert ScanCache(fs, prefix, cutoff) == CacheScan(Some(h.name), {});
    WithoutNothing(fs);
    assert forall i :: 0 <= i < |fs| ==> IsVoiceName(fs[i].name) by {
      assert forall i :: 1 <= i < |fs| ==> fs[i] == others[i - 1];
    }
    AllVoice(fs);
    assert forall i :: 0 <= i < |fs| && fs[i] != h ==> Key(fs[i]) > Key(h) by {
      assert forall i :: 1 <= i < |fs| ==> fs[i] == others[i - 1];
    }
    OldestSortsLast(fs, h);
    LateIsDeleted(fs, MAX_VOICE_FILES);
  }

  lemma {:induction false} AllVoice(fs: seq<VoiceFile>)
    requires forall i :: 0 <= i < |fs| ==> IsVoiceName(fs[i].name)
    ensures VoiceEntries(fs) == fs
  {
    if fs != [] {
      AllVoice(fs[1..]);
    }
  }

  /** An entry older than every other entry sorts last. */
  lemma OldestSortsLast(s: seq<VoiceFile>, x: VoiceFile)
    requires x in s && forall i :: 0 <= i < |s| && s[i] != x ==> Key(s[i]) > Key(x)
    ensures SortNewest(s)[|s| - 1] == x
  {
    var r := SortNewest(s);
    assert x in multiset(r);
    var j :| 0 <= j < |r| && r[j] == x;
    var last := r[|r| - 1];
    assert last in multiset(r);
    assert last in s;
    var k :| 0 <= k < |s| && s[k] == last;
    if last != x {
      NewestFirstPairs(r, j, |r| - 1);
      assert false;
    }
  }

  /** While the directory holds at most MAX_VOICE_FILES voice files, the cleanup
      after a cache hit deletes nothing, so the reused file is still there. */
  lemma CacheHitSurvivesCleanup(fs: seq<VoiceFile>, prefix: string, cutoff: int)
    requires DistinctNames(fs) && |VoiceEntries(fs)| <= MAX_VOICE_FILES
    requires ScanCache(fs, prefix, cutoff).hit.Some?
    ensures var scan := ScanCache(fs, prefix, cutoff);
            var kept := Without(fs, scan.expired);
            Cleaned(kept) == kept && exists f :: f in kept && f.name == scan.hit.value
  {
    var scan := ScanCache(fs, prefix, cutoff);
    var kept := Without(fs, scan.expired);
    VoiceEntriesWithout(fs, scan.expired);
    CleanupNoopWhenFew(kept);
    ScanHitIsFresh(fs, prefix, cutoff);
    var f :| f in fs && f.name == scan.hit.value && Candidate(f, prefix) && Key(f) > cutoff;
    ExpiredAndHitDiffer(fs, prefix, cutoff);
    assert f in kept;
  }
}
