/** src/backend/disk.rs, src/store.rs, src/sink.rs, src/source.rs: the store, and what is written to it and read from
    it. */
module Store {
  import opened Trees
  import opened Content

  datatype PutResult = Ok | AlreadyThere

  /** One generation on disk: an append-only data file and an index from digest to file offset. */
  class Store {
    var data: Bytes
    var offset: nat
    var index: map<Bytes, nat>
    ghost var blobs: Blobs

    ghost predicate Valid()
      reads this
    {
      && offset == |data|
      && index.Keys == blobs.Keys
      && forall d :: d in blobs ==>
           index[d] + |blobs[d]| <= |data| && data[index[d]..index[d] + |blobs[d]|] == blobs[d]
    }

    constructor ()
      ensures Valid() && blobs == map[]
    {
      data, offset, index, blobs := [], 0, map[], map[];
    }

    method Put(digest: Bytes, bytes: Bytes) returns (r: PutResult)
      requires Valid()
      modifies this
      ensures Valid()
      ensures r == (if digest in old(blobs) then AlreadyThere else Ok)
      ensures blobs == if digest in old(blobs) then old(blobs) else old(blobs)[digest := bytes]
    {
      if digest in index {
        r := AlreadyThere;
      } else {
        index := index[digest := offset];
        data := data + bytes;
        offset := offset + |bytes|;
        blobs := blobs[digest := bytes];
        r := Ok;
      }
    }

    /** The reader runs from the blob's offset to the end of the data file, not to the end of the blob. */
    method Get(digest: Bytes) returns (r: Option<Source>)
      requires Valid()
      ensures r.Some? <==> digest in blobs
      ensures r.Some? ==> fresh(r.value) && exists tail: Bytes :: r.value.rest == blobs[digest] + tail
    {
      if digest in index {
        var at := index[digest];
        var src := new Source(data[at..]);
        assert src.rest == blobs[digest] + data[at + |blobs[digest]|..];
        r := Some(src);
      } else {
        r := None;
      }
    }
  }

  class Source {
    var rest: Bytes

    constructor (bytes: Bytes)
      ensures rest == bytes
    {
      rest := bytes;
    }

    method Read(n: nat) returns (r: Option<Bytes>)
      modifies this
      ensures r.Some? <==> n <= |old(rest)|
      ensures r.Some? ==> r.value == old(rest)[..n] && rest == old(rest)[n..]
      ensures r.None? ==> rest == old(rest)
    {
      if n <= |rest| {
        r := Some(rest[..n]);
        rest := rest[n..];
      } else {
        r := None;
      }
    }
  }

  datatype Mode = DryRun | Writing | WritingCached(digest: Bytes)

  class Sink {
    var mode: Mode
    var bytes: Bytes
    const store: Store

    constructor (store: Store, mode: Mode)
      ensures this.mode == mode && this.store == store && bytes == []
    {
      this.store := store;
      this.mode := mode;
      bytes := [];
    }

    method Write(b: Bytes)
      modifies this`bytes
      ensures bytes == old(bytes) + b
    {
      bytes := bytes + b;
    }

    /** Digest of what was written; the writing modes also put the bytes in the store under it. */
    method Fin<L(!new), A(!new)>(e: Env<L, A>) returns (d: Bytes)
      requires store.Valid()
      modifies if mode.DryRun? then {} else {store}
      ensures store.Valid()
      ensures d == if mode.WritingCached? then mode.digest else e.hash(bytes)
      ensures var was := old(store.blobs);
                store.blobs == if mode.DryRun? || d in was then was else was[d := bytes]
    {
      match mode
      case DryRun =>
        d := e.hash(bytes);
      case Writing =>
        d := e.hash(bytes);
        var _ := store.Put(d, bytes);
      case WritingCached(digest) =>
        d := digest;
        var _ := store.Put(d, bytes);
    }
  }
}
