/** The store's methods as code: copy and hash in chunks, write in partial writes, link, and
    unlink. The operating system chooses how much each read and write moves and, when it is
    faulty, which calls fail. */
module ArtifactStore {
  import opened Wrappers
  import opened ArtifactFiles

  datatype PutResult =
    | Imported(digest: string, size: nat)
    | BadLimit
    | IntegrityFailure
    | StoreFailure

  datatype VerifyResult = Intact(size: nat) | NotFound | DigestMismatch | ReadFailure

  lemma PrefixGrows(content: Bytes, position: nat, chunk: Bytes, k: nat, base: Bytes)
    requires position + |chunk| <= |content| && chunk == content[position..position + |chunk|] && k <= |chunk|
    ensures content[..position + k] == content[..position] + chunk[..k]
    ensures base + content[..position + k] == base + content[..position] + chunk[..k]
  {
    forall i | 0 <= i < position + k
      ensures content[i] == (content[..position] + chunk[..k])[i]
    {
    }
    assert content[..position + k] == content[..position] + chunk[..k];
  }

  /** One read at a position: nothing exactly at the end of the file, else some bytes. */
  method ReadChunk(content: Bytes, position: nat, faulty: bool) returns (chunk: Option<Bytes>)
    requires position <= |content|
    ensures !faulty ==> chunk.Some?
    ensures chunk.Some? ==>
              && |chunk.value| <= CHUNK_SIZE && position + |chunk.value| <= |content|
              && chunk.value == content[position..position + |chunk.value|]
              && (chunk.value == [] <==> position == |content|)
  {
    var fails: bool := *;
    if faulty && fails {
      return None;
    }
    if position == |content| {
      return Some([]);
    }
    var most := if |content| - position < CHUNK_SIZE then |content| - position else CHUNK_SIZE;
    var count: nat :| 1 <= count <= most;
    chunk := Some(content[position..position + count]);
  }

  class LocalArtifactStore {
    const hash: Hash
    var inodes: map<nat, Bytes>
    var tmp: map<string, nat>
    var objects: map<string, nat>

    ghost function Files(): State
      reads this
    {
      State(inodes, tmp, objects, map[])
    }

    /** The invariant of the concurrent model, with no import under way. */
    ghost predicate Valid()
      reads this
    {
      Inv(hash, Files())
    }

    constructor (hash: Hash)
      ensures Valid() && this.hash == hash && objects == map[]
    {
      this.hash := hash;
      inodes, tmp, objects := map[], map[], map[];
    }

    /** Writes all the data or reports a failure; a failed call has written a prefix of it. */
    method WriteAll(ino: nat, data: Bytes, faulty: bool) returns (ok: bool, ghost offset: nat)
      requires ino in inodes
      modifies this`inodes
      ensures !faulty ==> ok
      ensures offset <= |data| && (ok ==> offset == |data|)
      ensures inodes == old(inodes)[ino := old(inodes)[ino] + data[..offset]]
    {
      var done := 0;
      offset := 0;
      assert data[..0] == [] && old(inodes)[ino] + [] == old(inodes)[ino];
      while done < |data|
        invariant done == offset <= |data|
        invariant inodes == old(inodes)[ino := old(inodes)[ino] + data[..offset]]
      {
        var fails: bool := *;
        if faulty && fails {
          return false, done;
        }
        var written: nat :| written <= |data| - done && (faulty || 0 < written);
        inodes := inodes[ino := inodes[ino] + data[done..done + written]];
        PrefixGrows(data, done, data[done..done + written], written, old(inodes)[ino]);
        offset := done + written;
        if written == 0 {
          return false, offset;
        }
        done := done + written;
      }
      assert data[..offset] == data;
      ok := true;
    }

    /** Hashes while copying: on success the file has grown by exactly the source's bytes. */
    method CopyHashed(source: Bytes, ino: nat, faulty: bool) returns (r: Option<(string, nat)>, ghost copied: nat)
      requires ino in inodes
      modifies this`inodes
      ensures !faulty ==> r.Some?
      ensures copied <= |source| && inodes == old(inodes)[ino := old(inodes)[ino] + source[..copied]]
      ensures r.Some? ==> r.value == (hash(source), |source|) && copied == |source|
    {
      var hasher: Bytes := [];
      var size := 0;
      copied := 0;
      assert source[..0] == [] && old(inodes)[ino] + [] == old(inodes)[ino];
      while true
        invariant copied == size <= |source| && hasher == source[..size]
        invariant inodes == old(inodes)[ino := old(inodes)[ino] + source[..copied]]
        decreases |source| - size
      {
        var chunk := ReadChunk(source, size, faulty);
        if chunk.None? {
          return None, copied;
        }
        if chunk.value == [] {
          break;
        }
        hasher := hasher + chunk.value;
        var ok, wrote := WriteAll(ino, chunk.value, faulty);
        PrefixGrows(source, size, chunk.value, wrote, old(inodes)[ino]);
        copied := size + wrote;
        if !ok {
          return None, copied;
        }
        size := size + |chunk.value|;
        assert chunk.value[..wrote] == chunk.value;
      }
      assert source[..size] == source;
      r := Some((hash(hasher), size));
    }

    method HashFd(ino: nat, faulty: bool) returns (r: Option<(string, nat)>)
      requires ino in inodes
      ensures !faulty ==> r.Some?
      ensures r.Some? ==> r.value == (hash(inodes[ino]), |inodes[ino]|)
    {
      var content := inodes[ino];
      var hasher: Bytes := [];
      var size := 0;
      while true
        invariant size <= |content| && hasher == content[..size]
        decreases |content| - size
      {
        var chunk := ReadChunk(content, size, faulty);
        if chunk.None? {
          return None;
        }
        if chunk.value == [] {
          break;
        }
        PrefixGrows(content, size, chunk.value, |chunk.value|, []);
        hasher := hasher + chunk.value;
        size := size + |chunk.value|;
      }
      assert content[..size] == content;
      r := Some((hash(hasher), size));
    }

    /** Links the finished file under its digest, or requires that what is there matches. */
    method Publish(name: string, digest: string, size: nat, faulty: bool) returns (r: PutResult)
      requires Valid() && name in tmp && hash(inodes[tmp[name]]) == digest && |inodes[tmp[name]]| == size
      modifies this`objects
      ensures Valid()
      ensures objects == old(objects) || (digest !in old(objects) && objects == old(objects)[digest := tmp[name]])
      ensures r.Imported? ==>
                r == Imported(digest, size) && digest in objects && |inodes[objects[digest]]| == size
      ensures r.IntegrityFailure? ==>
                digest in old(objects) && hash(inodes[old(objects)[digest]]) == digest &&
                  |inodes[old(objects)[digest]]| != size
      ensures !r.BadLimit? && (!faulty ==> !r.StoreFailure?)
    {
      var fails: bool := *;
      if digest in objects {
        var found := HashFd(objects[digest], faulty);
        if found.None? {
          return StoreFailure;
        }
        if found.value.0 != digest || found.value.1 != size {
          return IntegrityFailure;
        }
        return if faulty && fails then StoreFailure else Imported(digest, size);
      }
      if faulty && fails {
        return StoreFailure;
      }
      objects := objects[digest := tmp[name]];
      var synced: bool := *;
      r := if faulty && !synced then StoreFailure else Imported(digest, size);
    }

    /** What an import leaves alone: objects already stored, and other temporary names. */
    twostate predicate LeavesAlone(name: string, ino: nat)
      reads this
    {
      && (forall d :: d in old(objects) ==> SameObject(old(Files()), Files(), d))
      && (tmp == old(tmp) || tmp == old(tmp)[name := ino])
    }

    /** Creates the temporary file; None when the name is taken or the call fails. */
    method CreateTemp(name: string, ino: nat, faulty: bool) returns (ok: bool)
      requires Valid() && ino !in inodes
      modifies this`inodes, this`tmp
      ensures Valid()
      ensures ok ==> name !in old(tmp) && inodes == old(inodes)[ino := []] && tmp == old(tmp)[name := ino]
      ensures !ok ==> inodes == old(inodes) && tmp == old(tmp)
      ensures !faulty && name !in old(tmp) ==> ok
    {
      var fails: bool := *;
      if (faulty && fails) || name in tmp {
        return false;
      }
      inodes, tmp := inodes[ino := []], tmp[name := ino];
      ok := true;
    }

    method UnlinkTemp(name: string, faulty: bool)
      requires Valid()
      modifies this`tmp
      ensures Valid() && (tmp == old(tmp) || tmp == old(tmp) - {name})
      ensures !faulty ==> tmp == old(tmp) - {name}
    {
      var fails: bool := *;
      if !(faulty && fails) {
        tmp := tmp - {name};
      }
    }

    /** The common end of an import: publish what was copied whole, then drop the temporary
        name in any case. */
    method Conclude(name: string, ino: nat, content: Bytes, copied: bool, faulty: bool) returns (r: PutResult)
      requires Valid() && name in tmp && tmp[name] == ino && ino in inodes && (copied ==> inodes[ino] == content)
      modifies this`tmp, this`objects
      ensures Valid() && (tmp == old(tmp) || tmp == old(tmp) - {name})
      ensures objects == old(objects) ||
              (copied && hash(content) !in old(objects) && objects == old(objects)[hash(content) := ino])
      ensures r.Imported? ==>
                && copied && r == Imported(hash(content), |content|) && hash(content) in objects
                && objects[hash(content)] in inodes && |inodes[objects[hash(content)]]| == |content|
      ensures r.IntegrityFailure? ==>
                hash(content) in old(objects) && |inodes[old(objects)[hash(content)]]| != |content|
      ensures !r.BadLimit? && (copied && !faulty ==> !r.StoreFailure? && tmp == old(tmp) - {name})
    {
      r := StoreFailure;
      if copied {
        r := Publish(name, hash(content), |content|, faulty);
      }
      UnlinkTemp(name, faulty);
    }

    /** Imports a file. On success the digest of its bytes names a stored object of its size,
        and a new object holds exactly its bytes; on failure at most that object was added.
        Under an unused name it fails only for a faulty system or for an object of another
        size under the same digest. */
    method Put(source: Bytes, name: string, ino: nat, faulty: bool) returns (r: PutResult)
      requires Valid() && ino !in inodes
      modifies this`inodes, this`tmp, this`objects
      ensures Valid() && LeavesAlone(name, ino)
      ensures objects == old(objects) ||
              (hash(source) !in old(objects) && objects == old(objects)[hash(source) := ino] && inodes[ino] == source)
      ensures r.Imported? ==>
                && r == Imported(hash(source), |source|) && hash(source) in objects
                && |inodes[objects[hash(source)]]| == |source|
      ensures r.IntegrityFailure? ==>
                hash(source) in old(objects) && |inodes[old(objects)[hash(source)]]| != |source|
      ensures !r.BadLimit?
      ensures !faulty && name !in old(tmp) ==> !r.StoreFailure? && tmp == old(tmp)
    {
      assert forall d :: d in objects ==> objects[d] in inodes;
      hide Inv;
      var created := CreateTemp(name, ino, faulty);
      if !created {
        return StoreFailure;
      }
      var copy, n := CopyHashed(source, ino, faulty);
      assert inodes == old(inodes)[ino := source[..n]] by {
        assert [] + source[..n] == source[..n];
      }
      PrivateFile(old(Files()), Files(), name, ino);
      assert copy.Some? ==> source[..n] == source;
      r := Conclude(name, ino, source, copy.Some?, faulty);
      assert old(tmp)[name := ino] - {name} == old(tmp);
    }

    /** Imports bytes held in memory, up to a limit. */
    method PutBytes(payload: Bytes, limit: int, name: string, ino: nat, faulty: bool) returns (r: PutResult)
      requires Valid() && ino !in inodes
      modifies this`inodes, this`tmp, this`objects
      ensures Valid() && LeavesAlone(name, ino)
      ensures r.BadLimit? <==> limit < 1 || |payload| > limit
      ensures r.BadLimit? ==> objects == old(objects) && tmp == old(tmp) && inodes == old(inodes)
      ensures objects == old(objects) ||
              (hash(payload) !in old(objects) && objects == old(objects)[hash(payload) := ino] &&
                inodes[ino] == payload)
      ensures r.Imported? ==>
                && r == Imported(hash(payload), |payload|) && hash(payload) in objects
                && |inodes[objects[hash(payload)]]| == |payload|
      ensures r.IntegrityFailure? ==>
                hash(payload) in old(objects) && |inodes[old(objects)[hash(payload)]]| != |payload|
      ensures !faulty && name !in old(tmp) ==> !r.StoreFailure? && tmp == old(tmp)
    {
      if limit < 1 || |payload| > limit {
        return BadLimit;
      }
      assert forall d :: d in objects ==> objects[d] in inodes;
      hide Inv;
      var created := CreateTemp(name, ino, faulty);
      if !created {
        return StoreFailure;
      }
      var ok, n := WriteAll(ino, payload, faulty);
      assert inodes == old(inodes)[ino := payload[..n]] by {
        assert [] + payload[..n] == payload[..n];
      }
      PrivateFile(old(Files()), Files(), name, ino);
      assert ok ==> payload[..n] == payload;
      r := Conclude(name, ino, payload, ok, faulty);
      assert old(tmp)[name := ino] - {name} == old(tmp);
    }

    lemma PrivateFile(before: State, after: State, name: string, ino: nat)
      requires Inv(hash, before) && ino !in before.inodes && before.procs == map[] && after.procs == map[]
      requires ino in after.inodes && after.inodes == before.inodes[ino := after.inodes[ino]]
      requires after.tmp == before.tmp[name := ino] && after.objects == before.objects
      ensures Inv(hash, after)
    {
    }

    /** Re-hashes a stored object: it never finds a mismatch. */
    method Verify(digest: string, faulty: bool) returns (r: VerifyResult)
      requires Valid()
      ensures r.NotFound? <==> digest !in objects
      ensures r.Intact? ==> digest in objects && r.size == |inodes[objects[digest]]|
      ensures !r.DigestMismatch? && (!faulty ==> !r.ReadFailure?)
    {
      if digest !in objects {
        return NotFound;
      }
      var found := HashFd(objects[digest], faulty);
      if found.None? {
        return ReadFailure;
      }
      r := if found.value.0 != digest then DigestMismatch else Intact(found.value.1);
    }
  }
}
