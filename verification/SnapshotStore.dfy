/** The list of snapshots: loaded from the directory, appended to, and closed up when one is removed.
    Line numbers are those of src/storage/snapshot_store.c. */
module SnapshotStore {
  import opened SnapshotText
  import opened Wrappers

  const INITIAL_CAPACITY := 128

  /** A `.snapshot` file as the directory yields it: its name without the extension, and its text if it can be opened. */
  datatype Entry = Entry(name: string, text: Option<string>)

  predicate Listable(e: Entry) { Visible(e.name) && e.text.Some? && Read(e.text.value).id != "" }

  /** What the listing makes of the entries; files that cannot be seen or opened or give no id are passed over. */
  function ReadEntries(entries: seq<Entry>): seq<Snapshot> {
    if entries == [] then []
    else
      var e := entries[|entries| - 1];
      ReadEntries(entries[..|entries| - 1]) + if Listable(e) then [Read(e.text.value)] else []
  }

  /** Every file once, in whatever order. */
  predicate Enumerates(entries: seq<Entry>, files: map<string, string>) {
    && (forall i, j :: 0 <= i < j < |entries| ==> entries[i].name != entries[j].name)
    && (forall i :: 0 <= i < |entries| ==> entries[i].name in files)
    && (forall i :: 0 <= i < |entries| ==> entries[i].text == None || entries[i].text == Some(files[entries[i].name]))
    && (forall n :: n in files ==> exists i :: 0 <= i < |entries| && entries[i].name == n)
  }

  function OpenedIn(entries: seq<Entry>): set<string> { set i | 0 <= i < |entries| && entries[i].text.Some? :: entries[i].name }

  /** The entry of a file; `opens` are those that can be opened. */
  function EntryFor(files: map<string, string>, opens: set<string>, name: string): Entry
    requires name in files
  {
    Entry(name, if name in opens then Some(files[name]) else None)
  }

  /** All files but those in `todo` have their entry. */
  ghost predicate ReadSoFar(entries: seq<Entry>, files: map<string, string>, opens: set<string>, todo: set<string>) {
    && (forall i, j :: 0 <= i < j < |entries| ==> entries[i].name != entries[j].name)
    && (forall i :: 0 <= i < |entries| ==> entries[i].name in files.Keys - todo && entries[i] == EntryFor(files, opens, entries[i].name))
    && (forall n :: n in files.Keys - todo ==> exists i :: 0 <= i < |entries| && entries[i].name == n)
  }

  lemma ReadOneMore(entries: seq<Entry>, files: map<string, string>, opens: set<string>, todo: set<string>, name: string)
    requires ReadSoFar(entries, files, opens, todo) && name in todo && name in files
    ensures ReadSoFar(entries + [EntryFor(files, opens, name)], files, opens, todo - {name})
  {
    var more := entries + [EntryFor(files, opens, name)];
    forall n | n in files.Keys - (todo - {name}) ensures exists i :: 0 <= i < |more| && more[i].name == n {
      if n == name {
        assert more[|entries|].name == n;
      } else {
        assert n in files.Keys - todo;
        var i :| 0 <= i < |entries| && entries[i].name == n;
        assert more[i].name == n;
      }
    }
  }

  lemma ReadAll(entries: seq<Entry>, files: map<string, string>, opens: set<string>)
    requires ReadSoFar(entries, files, opens, {})
    ensures Enumerates(entries, files) && OpenedIn(entries) == opens * files.Keys
  {
    assert files.Keys - {} == files.Keys;
    forall n | n in opens * files.Keys ensures n in OpenedIn(entries) {
      var i :| 0 <= i < |entries| && entries[i].name == n;
    }
  }

  /** A directory read that can open the given files. */
  method ReadDirectory(files: map<string, string>, opens: set<string>) returns (entries: seq<Entry>)
    ensures Enumerates(entries, files) && OpenedIn(entries) == opens * files.Keys
  {
    entries := [];
    var todo := files.Keys;
    assert ReadSoFar([], files, opens, files.Keys);
    hide ReadSoFar, Enumerates, OpenedIn, EntryFor;
    while todo != {}
      invariant todo <= files.Keys && ReadSoFar(entries, files, opens, todo)
      decreases |todo|
    {
      var name: string :| name in todo;
      ReadOneMore(entries, files, opens, todo, name);
      todo := todo - {name};
      entries := entries + [EntryFor(files, opens, name)];
    }
    ReadAll(entries, files, opens);
  }

  function NamesOf(s: seq<Snapshot>): set<string> { set i | 0 <= i < |s| :: SafeName(s[i].id) }

  lemma NamesAppended(s: seq<Snapshot>, x: Snapshot)
    ensures NamesOf(s + [x]) == NamesOf(s) + {SafeName(x.id)}
  {
    hide SafeName;
    var t := s + [x];
    forall n | n in NamesOf(s) + {SafeName(x.id)} ensures n in NamesOf(t) {
      if n == SafeName(x.id) {
        assert SafeName(t[|s|].id) == n;
      } else {
        var k :| 0 <= k < |s| && SafeName(s[k].id) == n;
        assert SafeName(t[k].id) == n;
      }
    }
  }

  /** The names of a listing are those of the ids in the files that could be seen and opened. */
  lemma NamesRead(entries: seq<Entry>, files: map<string, string>)
    requires Enumerates(entries, files)
    ensures NamesOf(ReadEntries(entries)) == ListedNames(files, OpenedIn(entries))
  {
    hide Visible, Read, SafeName;
    var listed := ListedNames(files, OpenedIn(entries));
    forall n ensures n in NamesOf(ReadEntries(entries)) <==> n in listed {
      NameRead(entries, n);
      if n in NamesOf(ReadEntries(entries)) {
        var i :| 0 <= i < |entries| && Listable(entries[i]) && SafeName(Read(entries[i].text.value).id) == n;
        assert entries[i].name in files && entries[i].name in OpenedIn(entries);
      }
      if n in listed {
        var m :| m in files && m in OpenedIn(entries) && Visible(m) && Read(files[m]).id != "" && SafeName(Read(files[m]).id) == n;
        var i :| 0 <= i < |entries| && entries[i].text.Some? && entries[i].name == m;
        assert Listable(entries[i]);
      }
    }
  }

  lemma {:induction false} NameRead(entries: seq<Entry>, n: string)
    ensures n in NamesOf(ReadEntries(entries))
            <==> exists i :: 0 <= i < |entries| && Listable(entries[i]) && SafeName(Read(entries[i].text.value).id) == n
  {
    hide Visible, Read, SafeName;
    if entries != [] {
      var front, e := entries[..|entries| - 1], entries[|entries| - 1];
      NameRead(front, n);
      if Listable(e) {
        NamesAppended(ReadEntries(front), Read(e.text.value));
      } else {
        assert ReadEntries(front) + [] == ReadEntries(front);
      }
      if exists i :: 0 <= i < |front| && Listable(front[i]) && SafeName(Read(front[i].text.value).id) == n {
        var i :| 0 <= i < |front| && Listable(front[i]) && SafeName(Read(front[i].text.value).id) == n;
        assert entries[i] == front[i];
      }
    }
  }

  /** Where an id first occurs; the length when it does not. */
  function IndexOfId(s: seq<Snapshot>, id: string): (n: nat)
    ensures n <= |s| && (forall k :: 0 <= k < n ==> s[k].id != id) && (n < |s| ==> s[n].id == id)
  {
    if s == [] || s[0].id == id then 0 else 1 + IndexOfId(s[1..], id)
  }

  lemma {:induction false} IndexIs(s: seq<Snapshot>, id: string, n: nat)
    requires n <= |s| && (forall k :: 0 <= k < n ==> s[k].id != id) && (n < |s| ==> s[n].id == id)
    ensures IndexOfId(s, id) == n
  {
    if n > 0 { IndexIs(s[1..], id, n - 1); }
  }

  function WithoutFirst(s: seq<Snapshot>, id: string): seq<Snapshot> {
    var n := IndexOfId(s, id);
    if n == |s| then s else s[..n] + s[n + 1..]
  }

  predicate Lists(s: seq<Snapshot>, id: string) { exists k :: 0 <= k < |s| && s[k].id == id }

  predicate DistinctIds(s: seq<Snapshot>) { forall i, j :: 0 <= i < j < |s| ==> s[i].id != s[j].id }

  /** Without repeated ids, removing the first match removes exactly that id and keeps the order. */
  lemma WithoutFirstExact(s: seq<Snapshot>, id: string)
    requires DistinctIds(s)
    ensures DistinctIds(WithoutFirst(s, id)) && !Lists(WithoutFirst(s, id), id)
    ensures forall x :: x in WithoutFirst(s, id) <==> x in s && x.id != id
  {
    var n, r := IndexOfId(s, id), WithoutFirst(s, id);
    if n < |s| {
      forall x | x in s && x.id != id ensures x in r {
        var k :| 0 <= k < |s| && s[k] == x;
        if k < n { assert r[k] == x; } else { assert r[k - 1] == x; }
      }
    }
  }

  /** The removal leaves every other id as listed as it was. */
  lemma WithoutFirstOthers(s: seq<Snapshot>, id: string, other: string)
    requires other != id
    ensures Lists(WithoutFirst(s, id), other) <==> Lists(s, other)
  {
    var n, r := IndexOfId(s, id), WithoutFirst(s, id);
    if n < |s| && Lists(s, other) {
      var k :| 0 <= k < |s| && s[k].id == other;
      if k < n { assert r[k] == s[k]; } else { assert r[k - 1] == s[k]; }
    }
    if n < |s| && Lists(r, other) {
      var k :| 0 <= k < |r| && r[k].id == other;
      if k < n { assert s[k] == r[k]; } else { assert s[k + 1] == r[k]; }
    }
  }

  // ---- The capacity that doubling reaches ----

  /** `capacity` doubled `k` times. */
  function Times2(capacity: nat, k: nat): nat
    decreases k
  {
    if k == 0 then capacity else Times2(2 * capacity, k - 1)
  }

  /** `capacity`, doubled until `n` entries fit. */
  function Doubled(capacity: nat, n: nat): nat
    requires capacity > 0
    decreases if n <= capacity then 0 else n - capacity
  {
    if n <= capacity then capacity else Doubled(2 * capacity, n)
  }

  /** Room after `n` snapshots have been found. */
  function CapacityFor(n: nat): nat { Doubled(INITIAL_CAPACITY, n) }

  lemma {:induction false} DoubledStep(capacity: nat, n: nat)
    requires capacity > 0
    ensures Doubled(capacity, n) >= n
    ensures Doubled(capacity, n + 1) == if n < Doubled(capacity, n) then Doubled(capacity, n) else 2 * n
    decreases if n <= capacity then 0 else n - capacity
  {
    if n > capacity { DoubledStep(2 * capacity, n); }
  }

  lemma {:induction false} DoubledIsTimes2(capacity: nat, n: nat) returns (k: nat)
    requires capacity > 0
    ensures Doubled(capacity, n) == Times2(capacity, k) && (k > 0 ==> Times2(capacity, k - 1) < n)
    decreases if n <= capacity then 0 else n - capacity
  {
    k := 0;
    if n > capacity {
      var j := DoubledIsTimes2(2 * capacity, n);
      k := j + 1;
    }
  }

  lemma {:induction false} DoubledExact(capacity: nat, k: nat)
    requires capacity > 0
    ensures Times2(capacity, k) >= capacity && (k > 0 ==> Times2(capacity, k) > capacity)
    ensures Doubled(capacity, Times2(capacity, k)) == Times2(capacity, k)
    decreases k
  {
    if k > 0 { DoubledExact(2 * capacity, k - 1); }
  }

  /** The capacity is the least 128 * 2^k that holds them all. */
  lemma CapacityIsLeast(n: nat)
    ensures n <= CapacityFor(n)
    ensures exists k: nat :: CapacityFor(n) == Times2(INITIAL_CAPACITY, k) && (k > 0 ==> Times2(INITIAL_CAPACITY, k - 1) < n)
  {
    DoubledStep(INITIAL_CAPACITY, n);
    var k := DoubledIsTimes2(INITIAL_CAPACITY, n);
  }

  /** 128, 256, 512, ... */
  ghost predicate FillsUp(n: nat) { exists k: nat :: n == Times2(INITIAL_CAPACITY, k) }

  /** Opening leaves no room for one more exactly when that many named snapshots are found. */
  lemma OpensFullIff(n: nat)
    ensures CapacityFor(n) == n <==> FillsUp(n)
  {
    var k := DoubledIsTimes2(INITIAL_CAPACITY, n);
    if FillsUp(n) {
      var j: nat :| n == Times2(INITIAL_CAPACITY, j);
      DoubledExact(INITIAL_CAPACITY, j);
    }
  }

  lemma FirstCapacity()
    ensures CapacityFor(0) == INITIAL_CAPACITY
  {
  }

  class SnapshotStore {
    var snapshots: array<Snapshot>
    var count: nat
    /** The texts of the `.snapshot` files, by file name. */
    var disk: map<string, string>

    ghost predicate Valid()
      reads this
    {
      count <= snapshots.Length && snapshots.Length > 0
    }

    function Listed(): seq<Snapshot>
      requires Valid()
      reads this, snapshots
    {
      snapshots[..count]
    }

    /** Lines 221-257 and 164-217: 128 entries to begin with, doubled whenever another one has no room. */
    constructor (entries: seq<Entry>, files: map<string, string>)
      requires Enumerates(entries, files)
      ensures Valid() && fresh(snapshots) && Listed() == ReadEntries(entries) && disk == files
      ensures snapshots.Length == CapacityFor(|ReadEntries(entries)|)
    {
      snapshots := new Snapshot[INITIAL_CAPACITY](_ => NOTHING);
      count := 0;
      disk := files;
      new;
      hide Read, Visible, Enumerates, CapacityFor;
      assert CapacityFor(0) == INITIAL_CAPACITY by { FirstCapacity(); }
      for i := 0 to |entries|
        invariant Valid() && fresh(snapshots) && disk == files && Listed() == ReadEntries(entries[..i])
        invariant snapshots.Length == CapacityFor(count)
      {
        assert entries[..i + 1][..i] == entries[..i];
        if Visible(entries[i].name) && entries[i].text.Some? {
          var snapshot := LoadSnapshot(entries[i].text.value);
          if snapshot.id != "" {
            Append(snapshot);
          }
        }
      }
      assert entries[..|entries|] == entries;
    }

    /** Lines 205-213. */
    method Append(s: Snapshot)
      requires Valid() && snapshots.Length == CapacityFor(count)
      modifies this`snapshots, this`count, snapshots
      ensures Valid() && (snapshots == old(snapshots) || fresh(snapshots)) && snapshots.Length == CapacityFor(count)
      ensures Listed() == old(Listed()) + [s]
    {
      DoubledStep(INITIAL_CAPACITY, count);
      if count >= snapshots.Length {
        Grow();
      }
      snapshots[count] := s;
      count := count + 1;
    }

    method Grow()
      requires Valid() && count == snapshots.Length
      modifies this`snapshots
      ensures Valid() && fresh(snapshots) && Listed() == old(Listed()) && snapshots.Length == 2 * old(snapshots.Length)
    {
      var current := snapshots;
      var first := current[0];
      var grown := new Snapshot[current.Length * 2](_ => first);
      forall i | 0 <= i < count { grown[i] := current[i]; }
      snapshots := grown;
      assert Listed() == old(Listed());
    }

    /** Lines 270-324; `opens` says whether the file can be opened. The list takes the entry only while it has room. */
    method Create(s: Snapshot, opens: bool) returns (rc: int)
      requires Valid()
      modifies this`count, this`disk, snapshots
      ensures Valid() && rc == if opens then 0 else -1
      ensures disk == if opens then old(disk)[SafeName(s.id) := PrintSnapshot(s)] else old(disk)
      ensures Listed() == if opens && old(count) < snapshots.Length then old(Listed()) + [s] else old(Listed())
    {
      if !opens {
        return -1;
      }
      disk := disk[SafeName(s.id) := PrintSnapshot(s)];
      if count < snapshots.Length {
        snapshots[count] := s;
        count := count + 1;
      }
      return 0;
    }

    /** Lines 326-341. */
    method List() returns (copy: array<Snapshot>)
      requires Valid()
      ensures fresh(copy) && copy[..] == Listed()
    {
      var first := snapshots[0];
      copy := new Snapshot[count](_ => first);
      forall i | 0 <= i < count { copy[i] := snapshots[i]; }
    }

    /** Lines 361-400: fails for an id that is not listed; where the file cannot be opened the list has changed already. */
    method Update(s: Snapshot, opens: bool) returns (rc: int)
      requires Valid()
      modifies this`disk, snapshots
      ensures Valid() && rc == if Lists(old(Listed()), s.id) && opens then 0 else -1
      ensures disk == if rc == 0 then old(disk)[SafeName(s.id) := PrintSnapshot(s)] else old(disk)
      ensures Listed() == if Lists(old(Listed()), s.id) then old(Listed())[IndexOfId(old(Listed()), s.id) := s] else old(Listed())
    {
      for i := 0 to count
        invariant forall k :: 0 <= k < i ==> snapshots[k].id != s.id
      {
        if snapshots[i].id == s.id {
          IndexIs(Listed(), s.id, i);
          assert Listed()[i].id == s.id;
          snapshots[i] := s;
          if !opens {
            return -1;
          }
          disk := disk[SafeName(s.id) := PrintSnapshot(s)];
          return 0;
        }
      }
      rc := -1;
    }

    /** Lines 402-434: the file goes first, then the entries behind close up. */
    method Delete(id: string) returns (rc: int)
      requires Valid()
      modifies this`count, this`disk, snapshots
      ensures Valid() && rc == if Lists(old(Listed()), id) && SafeName(id) in old(disk) then 0 else -1
      ensures rc != 0 ==> disk == old(disk) && Listed() == old(Listed())
      ensures rc == 0 ==> disk == old(disk) - {SafeName(id)} && Listed() == WithoutFirst(old(Listed()), id)
    {
      for i := 0 to count
        invariant forall k :: 0 <= k < i ==> snapshots[k].id != id
      {
        if snapshots[i].id == id {
          ghost var was := Listed();
          IndexIs(was, id, i);
          assert was[i].id == id;
          if SafeName(id) !in disk {
            return -1;
          }
          disk := disk - {SafeName(id)};
          CloseUp(i);
          return 0;
        }
      }
      rc := -1;
    }

    /** The memmove: entry `i` goes, the later ones move down by one. */
    method CloseUp(i: nat)
      requires Valid() && i < count
      modifies this`count, snapshots
      ensures Valid() && Listed() == old(Listed()[..i] + Listed()[i + 1..])
    {
      ghost var was := Listed();
      for k := i to count - 1
        invariant Valid() && count == |was|
        invariant snapshots[..k] == was[..i] + was[i + 1..k + 1]
        invariant snapshots[k + 1..count] == was[k + 1..]
      {
        assert snapshots[k + 1] == snapshots[k + 1..count][0] == was[k + 1];
        snapshots[k] := snapshots[k + 1];
        assert was[i + 1..k + 2] == was[i + 1..k + 1] + [was[k + 1]];
        assert snapshots[..k + 1] == snapshots[..k] + [was[k + 1]];
      }
      count := count - 1;
    }
  }

  /** The `.manifest` files, by file name. */
  class ManifestDir {
    var manifests: map<string, string>

    constructor (files: map<string, string>)
      ensures manifests == files
    {
      manifests := files;
    }

    /** The rename that makes a manifest visible. */
    method Publish(name: string, text: string)
      modifies this
      ensures manifests == old(manifests)[name := text]
    {
      manifests := manifests[name := text];
    }

    method Remove(name: string)
      modifies this
      ensures manifests == old(manifests) - {name}
    {
      manifests := manifests - {name};
    }
  }

  /** What the file system refuses while a backup is being finished: to create the `.snapshot`, to open it again, or to write
      or rename the manifest. */
  datatype Faults = Faults(create: bool, update: bool, write: bool)

  /** Lines 1487-1515 of src/core/engine.c, after a scan that went well: every later failure jumps to the end with the scan's
      status still in place, so the backup reports success whether or not a manifest was published. */
  method FinishBackup(store: SnapshotStore, dir: ManifestDir, s: Snapshot, fileCount: nat, sizeBytes: nat, text: string,
                      faults: Faults) returns (status: int)
    requires store.Valid() && s.fileCount == 0 && s.sizeBytes == 0
    modifies store`count, store`disk, store.snapshots, dir
    ensures store.Valid() && status == 0
    ensures var name, hasRoom := SafeName(s.id), old(store.count) < store.snapshots.Length;
            var updated := !faults.create && (hasRoom || Lists(old(store.Listed()), s.id)) && !faults.update;
            && dir.manifests == (if updated && !faults.write then old(dir.manifests)[name := text] else old(dir.manifests))
            && store.disk == if faults.create then old(store.disk)
                             else if updated then old(store.disk)[name := PrintSnapshot(s.(fileCount := fileCount, sizeBytes := sizeBytes))]
                             else old(store.disk)[name := PrintSnapshot(s)]
  {
    status := 0;
    ghost var before := store.Listed();
    hide PrintSnapshot;
    var rc := store.Create(s, !faults.create);
    if rc != 0 {
      return;
    }
    assert Lists(store.Listed(), s.id) <==> Lists(before, s.id) || |before| < store.snapshots.Length by {
      ListsAppended(before, s);
    }
    rc := store.Update(s.(fileCount := fileCount, sizeBytes := sizeBytes), !faults.update);
    if rc != 0 {
      return;
    }
    if faults.write {
      return;
    }
    dir.Publish(SafeName(s.id), text);
  }

  /** The store as a backup opens it, and the backup's end: without faults the manifest is published unless the listing
      found exactly 128 * 2^k snapshots and none of this id. */
  method OpenAndFinish(entries: seq<Entry>, files: map<string, string>, dir: ManifestDir, s: Snapshot, fileCount: nat,
                       sizeBytes: nat, text: string, faults: Faults) returns (status: int)
    requires Enumerates(entries, files) && s.fileCount == 0 && s.sizeBytes == 0
    modifies dir
    ensures status == 0
    ensures var found := ReadEntries(entries);
            dir.manifests == if !faults.create && !faults.update && !faults.write && (FillsUp(|found|) ==> Lists(found, s.id))
                             then old(dir.manifests)[SafeName(s.id) := text] else old(dir.manifests)
  {
    OpensFullIff(|ReadEntries(entries)|);
    DoubledStep(INITIAL_CAPACITY, |ReadEntries(entries)|);
    hide ReadEntries, CapacityFor, FillsUp, Lists, Enumerates;
    var store := new SnapshotStore(entries, files);
    status := FinishBackup(store, dir, s, fileCount, sizeBytes, text, faults);
  }

  /** The first directory in which a backup under a new id ends without a manifest: 128 snapshots. */
  lemma FirstFullStore(n: nat)
    requires n <= 128
    ensures FillsUp(n) <==> n == 128
  {
    assert Times2(INITIAL_CAPACITY, 0) == INITIAL_CAPACITY;
    if FillsUp(n) {
      var k: nat :| n == Times2(INITIAL_CAPACITY, k);
      DoubledExact(INITIAL_CAPACITY, k);
    }
  }

  lemma ListsAppended(s: seq<Snapshot>, x: Snapshot)
    ensures Lists(s + [x], x.id)
  {
    assert (s + [x])[|s|].id == x.id;
  }
}
