/** The in-memory cache of derived keys: it returns what direct derivation returns and keeps exactly the
  most recently used keys.
    Line numbers are those of src/crypto/key_cache.c. */
module KeyCache {
  import opened Bytes
  import opened Lru
  import Kdf
  import Sha256

  /** What an entry is matched on: the passphrase is known by its hash only. */
  datatype CacheId = CacheId(passphraseHash: seq<byte>, salt: seq<byte>, rounds: nat)

  datatype Request = Request(passphrase: seq<byte>, salt: seq<byte>, rounds: nat) {
    function Id(): CacheId { CacheId(Sha256.Digest(passphrase), salt, rounds) }
    function Key(): seq<byte> {
      if rounds == 0 then [] else Kdf.DerivedKey(passphrase, salt, rounds, Sha256.DIGEST)
    }
  }

  datatype Entry = Entry(id: CacheId, key: seq<byte>, lastUsedTick: nat, inUse: bool)

  const NO_ENTRY := Entry(CacheId([], [], 0), [], 0, false)

  function Ids(history: seq<Request>): (r: seq<CacheId>)
    ensures |r| == |history| && forall i :: 0 <= i < |history| ==> r[i] == history[i].Id()
  {
    seq(|history|, i requires 0 <= i < |history| => history[i].Id())
  }

  function Cells(entries: seq<Entry>): (r: seq<Cell<CacheId>>)
    ensures |r| == |entries|
    ensures forall i :: 0 <= i < |entries| ==> r[i] == Cell(entries[i].id, entries[i].lastUsedTick, entries[i].inUse)
  {
    seq(|entries|, i requires 0 <= i < |entries| => Cell(entries[i].id, entries[i].lastUsedTick, entries[i].inUse))
  }

  /** The key was derived for a request of the history with this passphrase hash, salt and round count. */
  ghost predicate ServedBy(history: seq<Request>, id: CacheId, key: seq<byte>) {
    exists r :: r in history && r.Id() == id && r.Key() == key
  }

  /** No two passphrases of the history share a hash. */
  ghost predicate NoCollision(history: seq<Request>) {
    forall q, r :: q in history && r in history && Sha256.Digest(q.passphrase) == Sha256.Digest(r.passphrase) ==>
      q.passphrase == r.passphrase
  }

  /** Without a collision, a served key is the key of direct derivation. */
  lemma ServedIsDirect(history: seq<Request>, request: Request, key: seq<byte>)
    requires request in history && NoCollision(history) && ServedBy(history, request.Id(), key)
    ensures key == request.Key()
  {
    hide Sha256.Digest, Kdf.DerivedKey;
    var r :| r in history && r.Id() == request.Id() && r.Key() == key;
    assert r.passphrase == request.passphrase;
  }

  lemma ServedLater(history: seq<Request>, request: Request, id: CacheId, key: seq<byte>)
    requires ServedBy(history, id, key)
    ensures ServedBy(history + [request], id, key)
  {
    hide Sha256.Digest, Kdf.DerivedKey;
    var r :| r in history && r.Id() == id && r.Key() == key;
    assert r in history + [request];
  }

  lemma RecentAppend(history: seq<Request>, request: Request)
    ensures Recent(Ids(history + [request])) == [request.Id()] + Without(Recent(Ids(history)), request.Id())
  {
    hide Sha256.Digest;
    assert Ids(history + [request])[..|history|] == Ids(history);
  }

  ghost predicate Consistent(entries: seq<Entry>, history: seq<Request>, order: seq<nat>, tick: nat) {
    && Tracks(Cells(entries), Recent(Ids(history)), order, tick)
    && forall i :: 0 <= i < |entries| && entries[i].inUse ==> ServedBy(history, entries[i].id, entries[i].key)
  }

  lemma ConsistentNotEmpty(entries: seq<Entry>, history: seq<Request>, order: seq<nat>, tick: nat)
    requires Consistent(entries, history, order, tick)
    ensures entries != []
  {
  }

  /** Stamping the entry that serves a request, found or newly filled, keeps the cache consistent. */
  lemma StampServes(entries: seq<Entry>, history: seq<Request>, tick: nat, index: nat, request: Request, key: seq<byte>)
    requires index < |entries|
    requires forall i :: 0 <= i < |entries| && entries[i].inUse ==> ServedBy(history, entries[i].id, entries[i].key)
    requires ServedBy(history + [request], request.Id(), key)
    ensures var entries' := entries[index := Entry(request.Id(), key, tick, true)];
            forall i :: 0 <= i < |entries'| && entries'[i].inUse ==> ServedBy(history + [request], entries'[i].id, entries'[i].key)
  {
    hide Sha256.Digest, Kdf.DerivedKey, ServedBy;
    forall i | 0 <= i < |entries| && entries[i].inUse
      ensures ServedBy(history + [request], entries[i].id, entries[i].key)
    {
      ServedLater(history, request, entries[i].id, entries[i].key);
    }
  }

  lemma CellUpdate(entries: seq<Entry>, index: nat, e: Entry)
    requires index < |entries|
    ensures Cells(entries[index := e]) == Cells(entries)[index := Cell(e.id, e.lastUsedTick, e.inUse)]
  {
  }

  lemma HitKeepsConsistent(entries: seq<Entry>, history: seq<Request>, order: seq<nat>, tick: nat, index: nat, request: Request)
    returns (order': seq<nat>)
    requires Consistent(entries, history, order, tick)
    requires index < |entries| && entries[index].inUse && entries[index].id == request.Id()
    ensures Consistent(entries[index := entries[index].(lastUsedTick := tick)], history + [request], order', tick + 1)
    ensures ServedBy(history + [request], request.Id(), entries[index].key)
  {
    hide Sha256.Digest, Kdf.DerivedKey, Tracks, Recent, ServedBy;
    var entry := entries[index].(lastUsedTick := tick);
    RecentDistinct(Ids(history));
    assert entry == Entry(request.Id(), entry.key, tick, true);
    assert Cells(entries)[index].(tick := tick) == Cell(request.Id(), tick, true);
    order' := HitTracks(Cells(entries), Recent(Ids(history)), order, tick, index);
    CellUpdate(entries, index, entry);
    RecentAppend(history, request);
    ServedLater(history, request, request.Id(), entry.key);
    StampServes(entries, history, tick, index, request, entry.key);
  }

  lemma MissKeepsConsistent(entries: seq<Entry>, history: seq<Request>, order: seq<nat>, tick: nat, index: nat, request: Request)
    returns (order': seq<nat>)
    requires Consistent(entries, history, order, tick)
    requires index < |entries|
    requires forall i :: 0 <= i < |entries| && entries[i].inUse ==> entries[i].id != request.Id()
    requires entries[index].inUse ==> forall i :: 0 <= i < |entries| ==>
      entries[i].inUse && entries[index].lastUsedTick <= entries[i].lastUsedTick
    ensures Consistent(entries[index := Entry(request.Id(), request.Key(), tick, true)], history + [request], order', tick + 1)
    ensures ServedBy(history + [request], request.Id(), request.Key())
  {
    hide Sha256.Digest, Kdf.DerivedKey, Tracks, Recent;
    order' := MissTracks(Cells(entries), Recent(Ids(history)), order, tick, index, request.Id());
    CellUpdate(entries, index, Entry(request.Id(), request.Key(), tick, true));
    RecentAppend(history, request);
    assert request in history + [request];
    StampServes(entries, history, tick, index, request, request.Key());
  }

  class KeyCache {
    const entries: array<Entry>
    var nextTick: nat
    /** The successful requests since the last reset. */
    ghost var history: seq<Request>
    /** The entries in use, the most recently used first. */
    ghost var order: seq<nat>

    ghost predicate Valid()
      reads this, entries
    {
      Consistent(entries[..], history, order, nextTick)
    }

    /** The ids for which a key is held. */
    ghost function Cached(): set<CacheId>
      reads this, entries
    {
      set i | 0 <= i < entries.Length && entries[i].inUse :: entries[i].id
    }

    constructor (capacity: nat)
      requires capacity > 0
      ensures Valid() && fresh(entries)
      ensures history == [] && entries.Length == capacity
    {
      entries := new Entry[capacity](_ => NO_ENTRY);
      nextTick, history, order := 1, [], [];
    }

    /** The cache holds one key for each of the min(capacity, distinct) most recently used ids, and nothing else. */
    lemma HoldsMostRecent()
      requires Valid()
      ensures var recent := Recent(Ids(history));
              Cached() == set k | 0 <= k < Min(|recent|, entries.Length) :: recent[k]
      ensures forall i, j :: 0 <= i < j < entries.Length && entries[i].inUse && entries[j].inUse ==> entries[i].id != entries[j].id
    {
      hide Sha256.Digest, Tracks, Recent, Distinct;
      var cells, recent := Cells(entries[..]), Recent(Ids(history));
      RecentDistinct(Ids(history));
      HeldIsRecent(cells, recent, order, nextTick);
      forall i | 0 <= i < entries.Length
        ensures cells[i] == Cell(entries[i].id, entries[i].lastUsedTick, entries[i].inUse)
      {}
      forall k | 0 <= k < Min(|recent|, entries.Length) ensures recent[k] in Cached() {
        var i := Holder(cells, recent, order, nextTick, k);
        assert entries[i].inUse && entries[i].id == recent[k];
      }
      forall i, j | 0 <= i < j < entries.Length && entries[i].inUse && entries[j].inUse ensures entries[i].id != entries[j].id {
        HeldOnce(cells, recent, order, nextTick, i, j);
      }
    }

    /** Lines 14-28: the first unused entry, else the one used longest ago. */
    method PickVictim() returns (victim: nat)
      requires entries.Length > 0
      ensures victim < entries.Length
      ensures entries[victim].inUse ==> forall i :: 0 <= i < entries.Length ==>
                entries[i].inUse && entries[victim].lastUsedTick <= entries[i].lastUsedTick
    {
      victim := 0;
      var oldestTick := 0;
      for index := 0 to entries.Length
        invariant victim < entries.Length
        invariant forall i :: 0 <= i < index ==> entries[i].inUse && oldestTick <= entries[i].lastUsedTick
        invariant index > 0 ==> entries[victim].lastUsedTick == oldestTick && victim < index
      {
        var entry := entries[index];
        if !entry.inUse {
          return index;
        }
        if index == 0 || entry.lastUsedTick < oldestTick {
          oldestTick := entry.lastUsedTick;
          victim := index;
        }
      }
    }

    /** Lines 90-95: the entry that holds the id, if any. */
    method Find(id: CacheId) returns (found: bool, index: nat)
      ensures found ==> index < entries.Length && entries[index].inUse && entries[index].id == id
      ensures !found ==> forall i :: 0 <= i < entries.Length && entries[i].inUse ==> entries[i].id != id
    {
      for i := 0 to entries.Length
        invariant forall j :: 0 <= j < i && entries[j].inUse ==> entries[j].id != id
      {
        if entries[i].inUse && entries[i].id == id {
          return true, i;
        }
      }
      return false, 0;
    }

    /** Lines 47-56. */
    method Reset()
      requires Valid()
      modifies this, entries
      ensures Valid()
      ensures history == [] && Cached() == {}
    {
      for index := 0 to entries.Length
        invariant forall i :: 0 <= i < index ==> entries[i] == NO_ENTRY
      {
        entries[index] := NO_ENTRY;
      }
      nextTick := 1;
      history, order := [], [];
    }

    /** Lines 88-113: finds or fills the entry for a request and stamps it as the most recently used one. */
    method TouchEntry(request: Request, id: CacheId) returns (entry: Entry)
      requires Valid() && id == request.Id() && |request.salt| == Kdf.SALT_SIZE && request.rounds > 0
      modifies this, entries
      ensures Valid()
      ensures history == old(history) + [request]
      ensures entry.id == id && ServedBy(history, id, entry.key)
    {
      hide Sha256.Digest, Kdf.DerivedKey, Consistent, ServedBy;
      ghost var before := entries[..];
      var found, index := Find(id);
      if !found {
        ConsistentNotEmpty(before, history, order, nextTick);
        index := PickVictim();
        var key := new byte[Sha256.DIGEST];
        Kdf.WholeKeyIff(Sha256.DIGEST);
        var ends, _ := Kdf.Pbkdf2(request.passphrase, request.salt, request.rounds, key);
        order := MissKeepsConsistent(before, history, order, nextTick, index, request);
        entries[index] := Entry(id, key[..], entries[index].lastUsedTick, true);
      } else {
        order := HitKeepsConsistent(before, history, order, nextTick, index, request);
      }
      entry := entries[index];
      entries[index] := entry.(lastUsedTick := nextTick);
      assert entries[..] == before[index := entries[index]];
      nextTick := nextTick + 1;
      history := history + [request];
    }

    /** Lines 73-116: the key for a passphrase, from the cache when it holds one, else derived and kept. */
    method Derive(passphrase: seq<byte>, salt: seq<byte>, rounds: nat, out: array<byte>) returns (status: int)
      requires Valid()
      modifies this, entries, out
      ensures Valid()
      ensures status == if |salt| == Kdf.SALT_SIZE && out.Length == Sha256.DIGEST && rounds > 0 then 0 else -1
      ensures status != 0 ==> history == old(history) && out[..] == old(out[..]) && entries[..] == old(entries[..])
      ensures status == 0 ==> history == old(history) + [Request(passphrase, salt, rounds)]
      ensures status == 0 ==> ServedBy(history, Request(passphrase, salt, rounds).Id(), out[..])
      ensures status == 0 && NoCollision(history) ==> out[..] == Kdf.DerivedKey(passphrase, salt, rounds, Sha256.DIGEST)
    {
      hide Sha256.Digest, Kdf.DerivedKey, Consistent;
      if |salt| != Kdf.SALT_SIZE || out.Length != Sha256.DIGEST || rounds == 0 {
        return -1;
      }
      var hash := new byte[Sha256.DIGEST];
      Kdf.Sha256Of(passphrase, hash);
      var request := Request(passphrase, salt, rounds);
      var id := CacheId(hash[..], salt, rounds);
      assert id == request.Id();
      ghost var before := entries[..];
      var entry := TouchEntry(request, id);
      assert ServedBy(history, id, entry.key);
      forall i | 0 <= i < Sha256.DIGEST {
        out[i] := entry.key[i];
      }
      assert out[..] == entry.key;
      if NoCollision(history) {
        assert request in history && request.Key() == Kdf.DerivedKey(passphrase, salt, rounds, Sha256.DIGEST);
        ServedIsDirect(history, request, out[..]);
      }
      return 0;
    }
  }
}
