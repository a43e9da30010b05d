/** The store of chunk blobs: one file per hash.
    Line numbers are those of src/storage/chunk_store.c. */
module ChunkStore {
  import opened Bytes
  import opened Hashing

  /** The content of a file, whose size a size_t can hold. */
  type Blob = s: seq<byte> | |s| < TWO_64

  type Blobs = map<Hash, Blob>

  /** Hashes of fewer than two characters have no place in the store. */
  predicate Has(blobs: Blobs, hash: Hash) { |hash| >= 2 && hash in blobs }

  class ChunkStore {
    var blobs: Blobs

    constructor ()
      ensures blobs == map[]
    {
      blobs := map[];
    }

    /** Lines 108-125. */
    method Put(hash: Hash, data: Blob) returns (rc: int)
      modifies this
      ensures rc == if |hash| >= 2 && data != [] then 0 else -1
      ensures blobs == if rc == 0 then old(blobs)[hash := data] else old(blobs)
    {
      if data == [] || |hash| < 2 {
        return -1;
      }
      blobs := blobs[hash := data];
      rc := 0;
    }

    /** Lines 127-144. */
    method Get(hash: Hash) returns (rc: int, data: Blob)
      ensures rc == if Has(blobs, hash) then 0 else -1
      ensures rc == 0 ==> data == blobs[hash]
    {
      if |hash| < 2 || hash !in blobs {
        return -1, [];
      }
      return 0, blobs[hash];
    }

    /** Lines 146-165. */
    method Exists(hash: Hash) returns (found: bool)
      ensures found <==> Has(blobs, hash)
    {
      found := |hash| >= 2 && hash in blobs;
    }

    /** Lines 167-183. */
    method Delete(hash: Hash) returns (rc: int)
      modifies this
      ensures rc == if Has(old(blobs), hash) then 0 else -1
      ensures blobs == if rc == 0 then old(blobs) - {hash} else old(blobs)
    {
      if |hash| < 2 || hash !in blobs {
        return -1;
      }
      blobs := blobs - {hash};
      rc := 0;
    }
  }
}
