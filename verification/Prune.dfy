/** Pruning: which snapshots go, and which chunks the garbage collector leaves.
    Line numbers are those of src/core/engine.c. */
module Prune {
  import opened Bytes
  import opened ChunkStore
  import opened Hashing
  import opened Manifest
  import opened ManifestText
  import opened Repository
  import opened SnapshotStore
  import opened SnapshotText
  import opened Wrappers

  type i32 = x: int | -0x8000_0000 <= x <= 0x7fff_ffff

  const SECONDS_A_DAY := 86400
  const DEFAULT_KEEP := 7

  // ---- Order ----

  predicate SortedByTime(s: seq<Snapshot>) {
    forall i, j :: 0 <= i < j < |s| ==> s[i].timestamp <= s[j].timestamp
  }

  method Swap(a: array<Snapshot>, i: nat, j: nat)
    requires i < j < a.Length
    modifies a
    ensures a[..] == old(a[..])[i := old(a[j])][j := old(a[i])]
    ensures multiset(a[..]) == multiset(old(a[..]))
  {
    a[i], a[j] := a[j], a[i];
  }

  /** The first `i` entries are in order and not newer than any later one. */
  predicate Settled(s: seq<Snapshot>, i: nat) {
    i <= |s| && forall k, l :: 0 <= k < i && k < l < |s| ==> s[k].timestamp <= s[l].timestamp
  }

  /** Entry `i` is the oldest of those from `i` up to `j`. */
  predicate Oldest(s: seq<Snapshot>, i: nat, j: nat) {
    i < j <= |s| && forall l :: i < l < j ==> s[i].timestamp <= s[l].timestamp
  }

  lemma SwapAdvances(s: seq<Snapshot>, i: nat, j: nat)
    requires Settled(s, i) && j < |s| && Oldest(s, i, j)
    ensures s[j].timestamp < s[i].timestamp ==>
      Settled(s[i := s[j]][j := s[i]], i) && Oldest(s[i := s[j]][j := s[i]], i, j + 1)
    ensures s[j].timestamp >= s[i].timestamp ==> Oldest(s, i, j + 1)
  {
  }

  lemma OldestSettles(s: seq<Snapshot>, i: nat)
    requires Settled(s, i) && Oldest(s, i, |s|)
    ensures Settled(s, i + 1)
  {
  }

  /** Lines 870-880: whenever a later entry is older the two change places. */
  method ExchangeSort(a: array<Snapshot>)
    modifies a
    ensures SortedByTime(a[..]) && multiset(a[..]) == multiset(old(a[..]))
  {
    hide Settled, Oldest;
    assert Settled(a[..], 0) by { NothingSettled(a[..]); }
    for i := 0 to a.Length
      invariant Settled(a[..], i) && multiset(a[..]) == multiset(old(a[..]))
    {
      assert Oldest(a[..], i, i + 1) by { AloneIsOldest(a[..], i); }
      for j := i + 1 to a.Length
        invariant Settled(a[..], i) && Oldest(a[..], i, j) && multiset(a[..]) == multiset(old(a[..]))
      {
        SwapAdvances(a[..], i, j);
        if a[j].timestamp < a[i].timestamp {
          Swap(a, i, j);
        }
      }
      OldestSettles(a[..], i);
    }
    AllSettled(a[..]);
  }

  lemma NothingSettled(s: seq<Snapshot>)
    ensures Settled(s, 0)
  {
  }

  lemma AloneIsOldest(s: seq<Snapshot>, i: nat)
    requires i < |s|
    ensures Oldest(s, i, i + 1)
  {
  }

  lemma AllSettled(s: seq<Snapshot>)
    requires Settled(s, |s|)
    ensures SortedByTime(s)
  {
  }

  // ---- Selection ----

  /** How many to keep, and before which time to delete (0 when no age is given). */
  datatype Rule = Rule(keep: nat, cutoff: int)

  /** Lines 847-859: a negative count becomes a huge size_t; with neither option the last 7 are kept. */
  function RuleFor(keepLast: Option<i32>, days: Option<int>, now: int): Rule {
    var keep := if keepLast.Some? then keepLast.value % TWO_64 else 0;
    var cutoff := if days.Some? && days.value > 0 then now - days.value * SECONDS_A_DAY else 0;
    if keep == 0 && cutoff == 0 then Rule(DEFAULT_KEEP, 0) else Rule(keep, cutoff)
  }

  predicate OldEnough(rule: Rule, timestamp: int) {
    if rule.cutoff > 0 then timestamp < rule.cutoff else rule.cutoff == 0
  }

  /** Those to delete among the first `n` of the sorted snapshots. */
  function DoomedUpTo(sorted: seq<Snapshot>, rule: Rule, n: nat): seq<Snapshot>
    requires n <= |sorted|
  {
    if n == 0 then []
    else DoomedUpTo(sorted, rule, n - 1) + if OldEnough(rule, sorted[n - 1].timestamp) then [sorted[n - 1]] else []
  }

  function Candidates(n: nat, rule: Rule): nat { if n > rule.keep then n - rule.keep else 0 }

  function Doomed(sorted: seq<Snapshot>, rule: Rule): seq<Snapshot> {
    DoomedUpTo(sorted, rule, Candidates(|sorted|, rule))
  }

  lemma {:induction false} DoomedUpToExact(sorted: seq<Snapshot>, rule: Rule, n: nat, x: Snapshot)
    requires n <= |sorted|
    ensures x in DoomedUpTo(sorted, rule, n) <==> exists i :: 0 <= i < n && sorted[i] == x && OldEnough(rule, x.timestamp)
  {
    if n > 0 { DoomedUpToExact(sorted, rule, n - 1, x); }
  }

  lemma {:induction false} AllDoomed(sorted: seq<Snapshot>, rule: Rule, n: nat)
    requires n <= |sorted| && rule.cutoff == 0
    ensures DoomedUpTo(sorted, rule, n) == sorted[..n]
  {
    if n > 0 {
      AllDoomed(sorted, rule, n - 1);
      assert sorted[..n] == sorted[..n - 1] + [sorted[n - 1]];
    }
  }

  /** A snapshot goes exactly when it is not among the `keep` last in the order of time and, if an age is given, is older. */
  lemma DoomedExactly(sorted: seq<Snapshot>, rule: Rule, x: Snapshot)
    ensures x in Doomed(sorted, rule)
            <==> exists i :: 0 <= i && i + rule.keep < |sorted| && sorted[i] == x && OldEnough(rule, x.timestamp)
  {
    DoomedUpToExact(sorted, rule, Candidates(|sorted|, rule), x);
    if exists i :: 0 <= i && i + rule.keep < |sorted| && sorted[i] == x && OldEnough(rule, x.timestamp) {
      var i :| 0 <= i && i + rule.keep < |sorted| && sorted[i] == x && OldEnough(rule, x.timestamp);
      assert 0 <= i < Candidates(|sorted|, rule);
    }
  }

  /** Some entry of that kind has at least `kept` entries behind it. */
  ghost predicate HasBehind(sorted: seq<Snapshot>, x: Snapshot, kept: nat) {
    exists i :: 0 <= i && i + kept < |sorted| && sorted[i] == x
  }

  /** With an age that reaches back to some time after 0: a snapshot goes if and only if it is older than that many days and
      is not among the last `keepLast`; a negative count, as a huge number, protects them all. */
  lemma AgeDecides(sorted: seq<Snapshot>, keepLast: Option<i32>, days: int, now: int, x: Snapshot)
    requires days > 0 && now > days * 86400
    ensures keepLast.None? ==>
      (x in Doomed(sorted, RuleFor(keepLast, Some(days), now)) <==> x in sorted && x.timestamp < now - days * 86400)
    ensures keepLast.Some? && keepLast.value >= 0 ==>
      (x in Doomed(sorted, RuleFor(keepLast, Some(days), now))
       <==> HasBehind(sorted, x, keepLast.value) && x.timestamp < now - days * 86400)
  {
    DoomedExactly(sorted, RuleFor(keepLast, Some(days), now), x);
    hide Doomed;
  }

  /** Without an age, or one of no days: exactly all but the last `keepLast` go, and with no count either, or 0, all but the
      last seven. */
  lemma CountDecides(sorted: seq<Snapshot>, keepLast: Option<i32>, days: Option<int>, now: int, x: Snapshot)
    requires days.Some? ==> days.value <= 0
    ensures keepLast.Some? && keepLast.value > 0 ==>
      (x in Doomed(sorted, RuleFor(keepLast, days, now)) <==> HasBehind(sorted, x, keepLast.value))
    ensures keepLast.None? || keepLast.value == 0 ==>
      (x in Doomed(sorted, RuleFor(keepLast, days, now)) <==> HasBehind(sorted, x, 7))
  {
    DoomedExactly(sorted, RuleFor(keepLast, days, now), x);
    hide Doomed;
  }

  /** A negative count protects every list shorter than 2^63, and an age that reaches back to before time 0 every list. */
  lemma NothingDoomed(sorted: seq<Snapshot>, keepLast: Option<i32>, days: Option<int>, now: int, x: Snapshot)
    requires (keepLast.Some? && keepLast.value < 0 && |sorted| < 0x8000_0000_0000_0000)
             || (days.Some? && days.value > 0 && now < days.value * 86400)
    ensures x !in Doomed(sorted, RuleFor(keepLast, days, now))
  {
    DoomedExactly(sorted, RuleFor(keepLast, days, now), x);
    hide Doomed;
  }

  /** An age that reaches back to time 0 exactly counts as none. */
  lemma AgeOfAllTime(keepLast: Option<i32>, days: int, now: int)
    requires days > 0 && now == days * 86400
    ensures RuleFor(keepLast, Some(days), now) == RuleFor(keepLast, None, now)
  {
  }

  /** No snapshot that goes is newer than one of the `keep` that are protected, and at least min(keep, n) stay. */
  lemma NewestStay(sorted: seq<Snapshot>, rule: Rule)
    requires SortedByTime(sorted)
    ensures |Doomed(sorted, rule)| <= Candidates(|sorted|, rule)
    ensures rule.cutoff == 0 ==> |Doomed(sorted, rule)| == Candidates(|sorted|, rule)
    ensures forall x, j :: x in Doomed(sorted, rule) && Candidates(|sorted|, rule) <= j < |sorted| ==>
      x.timestamp <= sorted[j].timestamp
  {
    var n := Candidates(|sorted|, rule);
    DoomedLength(sorted, rule, n);
    if rule.cutoff == 0 { AllDoomed(sorted, rule, n); }
    forall x, j | x in Doomed(sorted, rule) && n <= j < |sorted| ensures x.timestamp <= sorted[j].timestamp {
      DoomedUpToExact(sorted, rule, n, x);
      var i :| 0 <= i < n && sorted[i] == x && OldEnough(rule, x.timestamp);
    }
  }

  lemma {:induction false} DoomedLength(sorted: seq<Snapshot>, rule: Rule, n: nat)
    requires n <= |sorted|
    ensures |DoomedUpTo(sorted, rule, n)| <= n
  {
    if n > 0 { DoomedLength(sorted, rule, n - 1); }
  }

  // ---- Deletion ----

  /** Which ids stay listed: of those listed before, all whose file is still there. */
  ghost predicate StillListed(before: seq<Snapshot>, now: seq<Snapshot>, disk: map<string, string>) {
    forall id :: Lists(before, id) && SafeName(id) in disk ==> Lists(now, id)
  }

  lemma StillListedAfter(before: seq<Snapshot>, now: seq<Snapshot>, disk: map<string, string>, id: string)
    requires StillListed(before, now, disk)
    ensures StillListed(before, WithoutFirst(now, id), disk - {SafeName(id)})
  {
    hide WithoutFirst, SafeName;
    forall other | Lists(before, other) && SafeName(other) in disk - {SafeName(id)} ensures Lists(WithoutFirst(now, id), other) {
      WithoutFirstOthers(now, id, other);
    }
  }

  /** Lines 894-903. */
  method DeleteOne(store: SnapshotStore, dir: ManifestDir, id: string, ghost listed: seq<Snapshot>) returns (done: bool)
    requires store.Valid() && StillListed(listed, store.Listed(), store.disk) && Lists(listed, id)
    modifies store`count, store`disk, store.snapshots, dir
    ensures store.Valid() && StillListed(listed, store.Listed(), store.disk)
    ensures done <==> SafeName(id) in old(store.disk)
    ensures store.disk == old(store.disk) - {SafeName(id)}
    ensures dir.manifests == if done then old(dir.manifests) - {SafeName(id)} else old(dir.manifests)
  {
    CanDelete(listed, store.Listed(), store.disk, id);
    StillListedAfter(listed, store.Listed(), store.disk, id);
    hide StillListed, Lists, WithoutFirst, SafeName;
    var rc := store.Delete(id);
    if rc != 0 {
      return false;
    }
    dir.Remove(SafeName(id));
    done := true;
  }

  /** What the deletion of the files of some names leaves of both kinds, and how many there were to delete. */
  predicate Deleted(disk: map<string, string>, left: map<string, string>, manifests: map<string, string>,
                    leftManifests: map<string, string>, gone: set<string>, count: nat) {
    left == disk - gone && leftManifests == manifests - gone * disk.Keys && count == |gone * disk.Keys|
  }

  lemma DeletedIs(disk: map<string, string>, left: map<string, string>, manifests: map<string, string>,
                  leftManifests: map<string, string>, gone: set<string>, count: nat)
    requires Deleted(disk, left, manifests, leftManifests, gone, count)
    ensures left == disk - gone && leftManifests == manifests - gone * disk.Keys
  {
  }

  /** Lines 882-905: each doomed snapshot's `.snapshot` file goes, and if that worked its manifest. `sorted` is any
      rearrangement of the list. */
  method DeleteDoomed(store: SnapshotStore, dir: ManifestDir, sorted: array<Snapshot>, rule: Rule) returns (deleted: nat)
    requires store.Valid() && sorted.Length > rule.keep && sorted != store.snapshots
    requires multiset(sorted[..]) == multiset(store.Listed())
    modifies store`count, store`disk, store.snapshots, dir
    ensures store.Valid()
    ensures Deleted(old(store.disk), store.disk, old(dir.manifests), dir.manifests, NamesOf(Doomed(sorted[..], rule)), deleted)
  {
    hide NamesOf, WithoutFirst, OldEnough, StillListed, SafeName, Lists, Deleted, DoomedUpTo;
    deleted := 0;
    ghost var s, disk, manifests, listed := sorted[..], store.disk, dir.manifests, store.Listed();
    AllStillListed(listed, disk);
    NoneDeleted(s, rule, disk, manifests);
    CopyIsListed(s, listed);
    for i := 0 to sorted.Length - rule.keep
      invariant store.Valid() && sorted[..] == s
      invariant StillListed(listed, store.Listed(), store.disk)
      invariant Deleted(disk, store.disk, manifests, dir.manifests, NamesOf(DoomedUpTo(s, rule, i)), deleted)
    {
      var shouldDelete := OldEnough(rule, sorted[i].timestamp);
      OneMoreDoomed(s, rule, i);
      if shouldDelete {
        DeletedOneMore(disk, store.disk, manifests, dir.manifests, NamesOf(DoomedUpTo(s, rule, i)), deleted, SafeName(sorted[i].id));
        var done := DeleteOne(store, dir, sorted[i].id, listed);
        if done {
          deleted := deleted + 1;
        }
      }
    }
  }

  lemma NoneDeleted(sorted: seq<Snapshot>, rule: Rule, disk: map<string, string>, manifests: map<string, string>)
    ensures Deleted(disk, disk, manifests, manifests, NamesOf(DoomedUpTo(sorted, rule, 0)), 0)
  {
    NamesOfNone();
  }

  lemma OneMoreDoomed(sorted: seq<Snapshot>, rule: Rule, i: nat)
    requires i < |sorted|
    ensures NamesOf(DoomedUpTo(sorted, rule, i + 1))
            == NamesOf(DoomedUpTo(sorted, rule, i)) + if OldEnough(rule, sorted[i].timestamp) then {SafeName(sorted[i].id)} else {}
  {
    hide OldEnough, SafeName, NamesOf;
    assert DoomedUpTo(sorted, rule, i) + [] == DoomedUpTo(sorted, rule, i);
    NamesAppended(DoomedUpTo(sorted, rule, i), sorted[i]);
  }

  /** One more name. */
  lemma DeletedOneMore(disk: map<string, string>, left: map<string, string>, manifests: map<string, string>,
                       leftManifests: map<string, string>, gone: set<string>, count: nat, name: string)
    requires Deleted(disk, left, manifests, leftManifests, gone, count)
    ensures if name in left
            then Deleted(disk, left - {name}, manifests, leftManifests - {name}, gone + {name}, count + 1)
            else Deleted(disk, left - {name}, manifests, leftManifests, gone + {name}, count)
  {
    OneMoreGone(disk, gone, name);
    MinusOneMore(manifests, gone * disk.Keys, name);
  }

  lemma MinusOneMore<T>(m: map<string, T>, a: set<string>, x: string)
    ensures (m - a) - {x} == m - (a + {x})
  {
  }

  /** What one more name changes, and when nothing. */
  lemma OneMoreGone(disk: map<string, string>, gone: set<string>, name: string)
    ensures disk - (gone + {name}) == (disk - gone) - {name}
    ensures name in disk - gone ==> (gone + {name}) * disk.Keys == gone * disk.Keys + {name} && name !in gone * disk.Keys
    ensures name !in disk - gone ==> (gone + {name}) * disk.Keys == gone * disk.Keys && disk - (gone + {name}) == disk - gone
  {
  }

  lemma NamesOfNone()
    ensures NamesOf([]) == {}
  {
  }

  lemma AllStillListed(s: seq<Snapshot>, disk: map<string, string>)
    ensures StillListed(s, s, disk)
  {
  }

  lemma CanDelete(before: seq<Snapshot>, now: seq<Snapshot>, disk: map<string, string>, id: string)
    requires StillListed(before, now, disk) && Lists(before, id)
    ensures SafeName(id) in disk ==> Lists(now, id)
  {
  }

  lemma CopyIsListed(copy: seq<Snapshot>, listed: seq<Snapshot>)
    requires multiset(copy) == multiset(listed)
    ensures forall i :: 0 <= i < |copy| ==> Lists(listed, copy[i].id)
  {
    forall i | 0 <= i < |copy| ensures Lists(listed, copy[i].id) {
      assert copy[i] in multiset(copy);
      assert copy[i] in listed;
      var k :| 0 <= k < |listed| && listed[k] == copy[i];
    }
  }

  // ---- A directory in which every file leads back to itself ----

  predicate DistinctNames(s: seq<Snapshot>) { forall i, j :: 0 <= i < j < |s| ==> SafeName(s[i].id) != SafeName(s[j].id) }

  /** Its files are listed one by one under their own names. */
  lemma {:induction false} TidyEntries(entries: seq<Entry>, files: map<string, string>)
    requires forall i :: 0 <= i < |entries| ==>
      entries[i].name in files && entries[i].text == Some(files[entries[i].name]) && ListsItself(entries[i].name, files[entries[i].name])
    ensures |ReadEntries(entries)| == |entries|
    ensures forall i :: 0 <= i < |entries| ==> SafeName(ReadEntries(entries)[i].id) == entries[i].name
  {
    hide Read, Visible, SafeName;
    if entries != [] { TidyEntries(entries[..|entries| - 1], files); }
  }

  lemma TidyListing(entries: seq<Entry>, files: map<string, string>)
    requires Enumerates(entries, files) && OpenedIn(entries) == files.Keys && AllListThemselves(files)
    ensures DistinctNames(ReadEntries(entries)) && NamesOf(ReadEntries(entries)) == files.Keys
  {
    hide Read, Visible, SafeName, ListsItself;
    forall i | 0 <= i < |entries|
      ensures entries[i].text == Some(files[entries[i].name]) && ListsItself(entries[i].name, files[entries[i].name])
    {
      assert entries[i].name in OpenedIn(entries);
    }
    TidyEntries(entries, files);
    NamesRead(entries, files);
    ListsExactly(files, files.Keys);
  }

  lemma TwiceCounts(s: seq<Snapshot>, i: nat, j: nat)
    requires i < j < |s| && s[i] == s[j]
    ensures multiset(s)[s[i]] >= 2
  {
    assert s == s[..j] + [s[j]] + s[j + 1..];
    assert s[i] in s[..j];
  }

  lemma OnceCounts(s: seq<Snapshot>, k: nat)
    requires DistinctNames(s) && k < |s|
    ensures multiset(s)[s[k]] == 1
  {
    hide SafeName;
    assert s == s[..k] + [s[k]] + s[k + 1..];
    assert s[k] !in s[..k] && s[k] !in s[k + 1..];
  }

  /** A rearrangement has the same names, each once. */
  lemma SameNames(a: seq<Snapshot>, b: seq<Snapshot>)
    requires multiset(a) == multiset(b) && DistinctNames(b)
    ensures DistinctNames(a) && NamesOf(a) == NamesOf(b)
  {
    hide SafeName;
    forall x: Snapshot ensures x in a <==> x in b {
      assert x in a <==> x in multiset(a);
      assert x in b <==> x in multiset(b);
    }
    SubsetNames(a, b);
    SubsetNames(b, a);
    forall i, j | 0 <= i < j < |a| ensures SafeName(a[i].id) != SafeName(a[j].id) {
      assert a[i] in a && a[j] in a;
      assert a[i] in b && a[j] in b;
      var k :| 0 <= k < |b| && b[k] == a[i];
      var l :| 0 <= l < |b| && b[l] == a[j];
      if a[i] == a[j] {
        TwiceCounts(a, i, j);
        OnceCounts(b, k);
      }
    }
  }

  lemma SubsetNames(a: seq<Snapshot>, b: seq<Snapshot>)
    requires forall x :: x in a ==> x in b
    ensures NamesOf(a) <= NamesOf(b)
  {
    hide SafeName;
    forall n | n in NamesOf(a) ensures n in NamesOf(b) {
      var i :| 0 <= i < |a| && SafeName(a[i].id) == n;
      assert a[i] in a && a[i] in b;
      var k :| 0 <= k < |b| && b[k] == a[i];
    }
  }

  lemma {:induction false} DoomedNames(sorted: seq<Snapshot>, rule: Rule, n: nat)
    requires DistinctNames(sorted) && n <= |sorted|
    ensures |NamesOf(DoomedUpTo(sorted, rule, n))| == |DoomedUpTo(sorted, rule, n)|
    ensures NamesOf(DoomedUpTo(sorted, rule, n)) <= NamesOf(sorted)
    ensures forall i :: n <= i < |sorted| ==> SafeName(sorted[i].id) !in NamesOf(DoomedUpTo(sorted, rule, n))
  {
    hide SafeName, OldEnough;
    if n > 0 {
      DoomedNames(sorted, rule, n - 1);
      var before := DoomedUpTo(sorted, rule, n - 1);
      NamesAppended(before, sorted[n - 1]);
      hide NamesOf;
      assert SafeName(sorted[n - 1].id) in NamesOf(sorted) by { NameIn(sorted, n - 1); }
      if !OldEnough(rule, sorted[n - 1].timestamp) { assert before + [] == before; }
    }
  }

  lemma NameIn(s: seq<Snapshot>, i: nat)
    requires i < |s|
    ensures SafeName(s[i].id) in NamesOf(s)
  {
    hide SafeName;
  }

  /** There a deletion takes away exactly one file for each doomed snapshot and leaves the file of every other one. */
  lemma TidyDeletion(entries: seq<Entry>, files: map<string, string>, sorted: seq<Snapshot>, rule: Rule)
    requires Enumerates(entries, files) && OpenedIn(entries) == files.Keys && AllListThemselves(files)
    requires multiset(sorted) == multiset(ReadEntries(entries))
    ensures var gone := NamesOf(Doomed(sorted, rule));
            && gone <= files.Keys && |gone * files.Keys| == |Doomed(sorted, rule)|
            && forall x :: x in sorted && x !in Doomed(sorted, rule) ==> SafeName(x.id) in files.Keys - gone
  {
    hide SafeName, NamesOf, Enumerates, AllListThemselves, ReadEntries, OpenedIn;
    TidyListing(entries, files);
    SameNames(sorted, ReadEntries(entries));
    var n := Candidates(|sorted|, rule);
    DoomedNames(sorted, rule, n);
    var gone := NamesOf(Doomed(sorted, rule));
    assert gone * files.Keys == gone;
    forall x | x in sorted && x !in Doomed(sorted, rule) ensures SafeName(x.id) in files.Keys - gone {
      var i :| 0 <= i < |sorted| && sorted[i] == x;
      NameIn(sorted, i);
      SurvivorIsKept(sorted, rule, n, i);
    }
  }

  lemma {:induction false} SurvivorIsKept(sorted: seq<Snapshot>, rule: Rule, n: nat, i: nat)
    requires DistinctNames(sorted) && n <= |sorted| && i < |sorted| && sorted[i] !in DoomedUpTo(sorted, rule, n)
    ensures SafeName(sorted[i].id) !in NamesOf(DoomedUpTo(sorted, rule, n))
  {
    hide SafeName, OldEnough;
    if n > 0 {
      var before := DoomedUpTo(sorted, rule, n - 1);
      assert sorted[i] !in before;
      SurvivorIsKept(sorted, rule, n - 1, i);
      NamesAppended(before, sorted[n - 1]);
      if !OldEnough(rule, sorted[n - 1].timestamp) {
        assert before + [] == before;
      } else {
        assert sorted[n - 1] in DoomedUpTo(sorted, rule, n);
        assert i < n - 1 || n - 1 < i;
      }
    }
  }

  // ---- Garbage collection ----

  /** Some loadable manifest under one of the names mentions the (shortened) name of a chunk file. */
  ghost predicate Mentioned(names: set<string>, manifests: map<string, string>, chunk: string) {
    exists n :: n in names && n in manifests && Mentions(manifests[n], Cut(chunk, HEX_LEN))
  }

  method FindsHash(text: string, hash: string) returns (found: bool)
    ensures found <==> Mentions(text, hash)
  {
    hide Loaded, WellBuilt;
    found := false;
    var rc, manifest := Load(text);
    if rc != 0 {
      return;
    }
    ghost var files := manifest.Contents().files;
    for fi := 0 to manifest.fileCount
      invariant !found && forall f, c :: f in files[..fi] && c in f.chunks ==> c.hash != hash
    {
      var chunks := manifest.files[fi].chunks;
      assert files[fi].chunks == chunks;
      for ci := 0 to |chunks|
        invariant !found && forall c :: c in chunks[..ci] ==> c.hash != hash
      {
        if chunks[ci].hash == hash {
          assert files[fi] in files && chunks[ci] in files[fi].chunks;
          return true;
        }
        assert chunks[..ci + 1] == chunks[..ci] + [chunks[ci]];
      }
      assert chunks[..|chunks|] == chunks;
      assert files[..fi + 1] == files[..fi] + [files[fi]];
    }
    assert files[..|files|] == files;
  }

  method IsMentioned(listed: seq<Snapshot>, manifests: map<string, string>, chunk: string) returns (referenced: bool)
    ensures referenced <==> Mentioned(NamesOf(listed), manifests, chunk)
  {
    hide Mentions, SafeName;
    referenced := false;
    for si := 0 to |listed|
      invariant !referenced
      invariant forall k :: 0 <= k < si && SafeName(listed[k].id) in manifests ==>
        !Mentions(manifests[SafeName(listed[k].id)], Cut(chunk, HEX_LEN))
    {
      var name := SafeName(listed[si].id);
      if name in manifests {
        var found := FindsHash(manifests[name], Cut(chunk, HEX_LEN));
        if found {
          assert name in NamesOf(listed);
          return true;
        }
      }
    }
  }

  /** Lines 530-579: every chunk file is looked up in every listed manifest that can be opened, and removed if none
      mentions it. */
  method CollectOrphans(store: ChunkStore, manifests: map<string, string>, listed: seq<Snapshot>) returns (scanned: nat, removed: nat)
    requires forall h :: h in store.blobs ==> |h| >= 2
    modifies store
    ensures forall h :: h in store.blobs <==> h in old(store.blobs) && Mentioned(NamesOf(listed), manifests, h)
    ensures forall h :: h in store.blobs ==> store.blobs[h] == old(store.blobs)[h]
    ensures scanned == |old(store.blobs)| && removed == |old(store.blobs)| - |store.blobs|
  {
    hide Mentioned, NamesOf;
    scanned, removed := 0, 0;
    var todo := store.blobs.Keys;
    ghost var all := store.blobs;
    while todo != {}
      invariant todo <= all.Keys && scanned == |all.Keys| - |todo|
      invariant forall h :: h in store.blobs <==> h in all && (h in todo || Mentioned(NamesOf(listed), manifests, h))
      invariant forall h :: h in store.blobs ==> store.blobs[h] == all[h]
      invariant removed == |all.Keys| - |store.blobs.Keys|
      decreases |todo|
    {
      var name: Hash :| name in todo;
      todo := todo - {name};
      scanned := scanned + 1;
      var referenced := IsMentioned(listed, manifests, name);
      if !referenced {
        ghost var before := store.blobs;
        var rc := store.Delete(name);
        assert store.blobs.Keys == before.Keys - {name};
        if rc == 0 {
          removed := removed + 1;
        }
      }
    }
    assert |store.blobs| == |store.blobs.Keys|;
  }

  /** The files that can be opened. */
  function Openable(files: map<string, string>, opens: set<string>): map<string, string> {
    map n | n in files && n in opens :: files[n]
  }

  /** Lines 826-917 with the lock held: sort a copy of the list, delete, open the directory again and collect against what it
      lists now. `opens` and `loads` are the `.snapshot` and manifest files that can be opened then. */
  method Prune(store: SnapshotStore, dir: ManifestDir, chunks: ChunkStore, keepLast: Option<i32>, days: Option<int>, now: int,
               opens: set<string>, loads: set<string>) returns (deleted: nat, ghost sorted: seq<Snapshot>)
    requires store.Valid() && forall h :: h in chunks.blobs ==> |h| >= 2
    modifies store`count, store`disk, store.snapshots, dir, chunks
    ensures var rule := RuleFor(keepLast, days, now);
            var gone := NamesOf(Doomed(sorted, rule));
            && multiset(sorted) == multiset(old(store.Listed())) && (|sorted| > rule.keep ==> SortedByTime(sorted))
            && Deleted(old(store.disk), store.disk, old(dir.manifests), dir.manifests, gone, deleted)
            && store.disk == old(store.disk) - gone && dir.manifests == old(dir.manifests) - gone * old(store.disk).Keys
    ensures forall h :: h in chunks.blobs <==>
              h in old(chunks.blobs) && Mentioned(ListedNames(store.disk, opens), Openable(dir.manifests, loads), h)
    ensures forall h :: h in chunks.blobs ==> chunks.blobs[h] == old(chunks.blobs)[h]
  {
    hide NamesOf, Mentioned, ReadEntries, Enumerates, OpenedIn, ListedNames, Openable, Deleted, Doomed;
    var rule := RuleFor(keepLast, days, now);
    var snapshots := store.List();
    deleted := 0;
    if snapshots.Length > rule.keep {
      ExchangeSort(snapshots);
      sorted := snapshots[..];
      deleted := DeleteDoomed(store, dir, snapshots, rule);
    } else {
      sorted := store.Listed();
      NothingGoes(sorted, rule, store.disk, dir.manifests);
    }
    DeletedIs(old(store.disk), store.disk, old(dir.manifests), dir.manifests, NamesOf(Doomed(sorted, rule)), deleted);
    var entries := ReadDirectory(store.disk, opens);
    var reopened := new SnapshotStore(entries, store.disk);
    SameListing(store.disk, entries, opens);
    var _, _ := CollectOrphans(chunks, Openable(dir.manifests, loads), reopened.Listed());
  }

  lemma NothingGoes(sorted: seq<Snapshot>, rule: Rule, disk: map<string, string>, manifests: map<string, string>)
    requires |sorted| <= rule.keep
    ensures Deleted(disk, disk, manifests, manifests, NamesOf(Doomed(sorted, rule)), 0)
  {
    NamesOfNone();
  }

  lemma SameListing(files: map<string, string>, entries: seq<Entry>, opens: set<string>)
    requires Enumerates(entries, files) && OpenedIn(entries) == opens * files.Keys
    ensures NamesOf(ReadEntries(entries)) == ListedNames(files, opens)
  {
    hide Visible, Read, SafeName, Enumerates, OpenedIn, ReadEntries, NamesOf;
    NamesRead(entries, files);
  }
}
