/** The content-addressed store as processes over one file system: any number of imports and
    verifications interleave, and any of them may fail or crash between two system calls.
    Files are inodes; a published object and its temporary name are two links to one inode. */
module ArtifactFiles {
  newtype Byte = b: int | 0 <= b < 256

  type Bytes = seq<Byte>

  type Hash = Bytes -> string

  const CHUNK_SIZE: nat := 65536

  /** What an import is doing. It makes writes only in Writing, although its descriptor stays
      open until the end. */
  datatype Pc =
    | Writing(pending: Bytes, more: bool)
    | Publishing
    | Comparing(target: nat, got: Bytes)
    | Cleanup(ok: bool)
    | Finished(ok: bool)

  datatype Verdict = Verified(size: nat) | Mismatch | Missing | Unreadable

  /** An import holds a temporary name and its inode, and the bytes its hasher has consumed. */
  datatype Process =
    | Put(name: string, ino: nat, read: Bytes, pc: Pc)
    | Verifying(digest: string, target: nat, got: Bytes)
    | VerifyEnded(digest: string, verdict: Verdict)

  predicate Owns(p: Process)
  {
    p.Put? && !p.pc.Finished?
  }

  datatype State = State(
    inodes: map<nat, Bytes>,
    tmp: map<string, nat>,
    objects: map<string, nat>,
    procs: map<nat, Process>)

  const INIT := State(map[], map[], map[], map[])

  datatype Action =
    | BeginPut(pid: nat, name: string, ino: nat)
    | BeginPutBytes(pid: nat, name: string, ino: nat, payload: Bytes, limit: nat)
    | ReadSource(pid: nat, chunk: Bytes)
    | WriteSome(pid: nat, count: nat)
    | EndOfPayload(pid: nat)
    | LinkObject(pid: nat)
    | ReadExisting(pid: nat, count: nat)
    | Unlink(pid: nat, works: bool)
    | Fail(pid: nat)
    | BeginVerify(pid: nat, digest: string)
    | ReadObject(pid: nat, count: nat)
    | Crash(pid: nat)

  function Update(s: State, pid: nat, p: Process): State
  {
    s.(procs := s.procs[pid := p])
  }

  /** Exclusive creation: an existing name is refused, and the inode is a new one. */
  function Create(s: State, pid: nat, name: string, ino: nat, p: Process): State
  {
    if pid in s.procs || name in s.tmp || ino in s.inodes then s
    else s.(inodes := s.inodes[ino := []], tmp := s.tmp[name := ino], procs := s.procs[pid := p])
  }

  /** One read of at most count bytes from a descriptor at the end of what was got. */
  function ReadOn(content: Bytes, got: Bytes, count: nat): Bytes
  {
    if |got| + count <= |content| then content[|got|..|got| + count] else []
  }

  /** Only this process moves. */
  predicate OthersStay(s: State, t: State, pid: nat)
  {
    forall q :: q in s.procs && q != pid ==> q in t.procs && t.procs[q] == s.procs[q]
  }

  function StepWriting(s: State, pid: nat, p: Process, a: Action): (t: State)
    requires p.Put? && p.pc.Writing?
    ensures OthersStay(s, t, pid) && t.objects == s.objects && t.tmp == s.tmp
    ensures t.inodes != s.inodes ==>
              p.ino in s.inodes && p.ino in t.inodes && t.inodes == s.inodes[p.ino := t.inodes[p.ino]]
  {
    match a
    case ReadSource(_, chunk) =>
      if !p.pc.more || p.pc.pending != [] || |chunk| > CHUNK_SIZE then s
      else if chunk == [] then Update(s, pid, p.(pc := Publishing))
      else Update(s, pid, p.(read := p.read + chunk, pc := Writing(chunk, true)))
    case WriteSome(_, count) =>
      if p.pc.pending == [] || count > |p.pc.pending| || p.ino !in s.inodes then s
      else if count == 0 then Update(s, pid, p.(pc := Cleanup(false)))
      else
        Update(s.(inodes := s.inodes[p.ino := s.inodes[p.ino] + p.pc.pending[..count]]), pid,
               p.(pc := Writing(p.pc.pending[count..], p.pc.more)))
    case EndOfPayload(_) =>
      if p.pc.more || p.pc.pending != [] then s else Update(s, pid, p.(pc := Publishing))
    case Fail(_) => Update(s, pid, p.(pc := Cleanup(false)))
    case _ => s
  }

  function StepPublishing(hash: Hash, s: State, pid: nat, p: Process, a: Action): (t: State)
    requires p.Put? && p.pc.Publishing?
    ensures OthersStay(s, t, pid) && t.inodes == s.inodes && t.tmp == s.tmp
    ensures forall d :: d in s.objects ==> d in t.objects && t.objects[d] == s.objects[d]
  {
    match a
    case LinkObject(_) =>
      var digest := hash(p.read);
      if digest in s.objects then Update(s, pid, p.(pc := Comparing(s.objects[digest], [])))
      else if p.name !in s.tmp then Update(s, pid, p.(pc := Cleanup(false)))
      else Update(s.(objects := s.objects[digest := s.tmp[p.name]]), pid, p.(pc := Cleanup(true)))
    case Fail(_) => Update(s, pid, p.(pc := Cleanup(false)))
    case _ => s
  }

  function StepComparing(hash: Hash, s: State, pid: nat, p: Process, a: Action): (t: State)
    requires p.Put? && p.pc.Comparing?
    ensures OthersStay(s, t, pid) && t == s.(procs := t.procs)
  {
    match a
    case ReadExisting(_, count) =>
      if p.pc.target !in s.inodes then s
      else
        var content := s.inodes[p.pc.target];
        var chunk := ReadOn(content, p.pc.got, count);
        if chunk != [] then Update(s, pid, p.(pc := Comparing(p.pc.target, p.pc.got + chunk)))
        else if |p.pc.got| < |content| then s
        else Update(s, pid, p.(pc := Cleanup(hash(p.pc.got) == hash(p.read) && |p.pc.got| == |p.read|)))
    case Fail(_) => Update(s, pid, p.(pc := Cleanup(false)))
    case _ => s
  }

  function StepVerifying(hash: Hash, s: State, pid: nat, p: Process, a: Action): (t: State)
    requires p.Verifying?
    ensures OthersStay(s, t, pid) && t == s.(procs := t.procs)
  {
    if a.Fail? then Update(s, pid, VerifyEnded(p.digest, Unreadable))
    else if !a.ReadObject? || p.target !in s.inodes then s
    else
      var content := s.inodes[p.target];
      var chunk := ReadOn(content, p.got, a.count);
      if chunk != [] then Update(s, pid, p.(got := p.got + chunk))
      else if |p.got| < |content| then s
      else Update(s, pid, VerifyEnded(p.digest, if hash(p.got) == p.digest then Verified(|p.got|) else Mismatch))
  }

  function StepCleanup(s: State, pid: nat, p: Process, a: Action): (t: State)
    requires p.Put? && p.pc.Cleanup?
    ensures OthersStay(s, t, pid) && t.inodes == s.inodes && t.objects == s.objects
  {
    if a.Fail? then Update(s, pid, p.(pc := Cleanup(false)))
    else if !a.Unlink? then s
    else Update(if a.works then s.(tmp := s.tmp - {p.name}) else s, pid, p.(pc := Finished(p.pc.ok)))
  }

  function StepProcess(hash: Hash, s: State, pid: nat, a: Action): State
  {
    if pid !in s.procs then s
    else
      var p := s.procs[pid];
      if p.Verifying? then StepVerifying(hash, s, pid, p, a)
      else if p.VerifyEnded? || p.pc.Finished? then s
      else if p.pc.Writing? then StepWriting(s, pid, p, a)
      else if p.pc.Publishing? then StepPublishing(hash, s, pid, p, a)
      else if p.pc.Comparing? then StepComparing(hash, s, pid, p, a)
      else StepCleanup(s, pid, p, a)
  }

  function Step(hash: Hash, s: State, a: Action): State
  {
    match a
    case BeginPut(pid, name, ino) => Create(s, pid, name, ino, Put(name, ino, [], Writing([], true)))
    case BeginPutBytes(pid, name, ino, payload, limit) =>
      if limit < 1 || |payload| > limit then s
      else Create(s, pid, name, ino, Put(name, ino, payload, Writing(payload, false)))
    case BeginVerify(pid, digest) =>
      if pid in s.procs then s
      else if digest !in s.objects then Update(s, pid, VerifyEnded(digest, Missing))
      else Update(s, pid, Verifying(digest, s.objects[digest], []))
    case Crash(pid) => s.(procs := s.procs - {pid})
    case _ => StepProcess(hash, s, a.pid, a)
  }

  function Run(hash: Hash, s: State, actions: seq<Action>): State
    decreases actions
  {
    if actions == [] then s else Run(hash, Step(hash, s, actions[0]), actions[1..])
  }

  // What every state keeps

  predicate Published(s: State, ino: nat)
  {
    exists d | d in s.objects :: s.objects[d] == ino
  }

  /** A stored object of the right name and size. */
  predicate Holds(hash: Hash, s: State, content: Bytes)
  {
    var d := hash(content);
    d in s.objects && s.objects[d] in s.inodes && |s.inodes[s.objects[d]]| == |content|
  }

  predicate ReadsObject(s: State, digest: string, target: nat, got: Bytes)
  {
    digest in s.objects && s.objects[digest] == target && target in s.inodes && got <= s.inodes[target]
  }

  predicate PutOk(hash: Hash, s: State, p: Process)
    requires p.Put?
  {
    match p.pc
    case Writing(pending, _) =>
      // The hasher is ahead of the file by what is still pending, and the file is private.
      p.ino in s.inodes && s.inodes[p.ino] + pending == p.read && !Published(s, p.ino)
    case Publishing => p.ino in s.inodes && s.inodes[p.ino] == p.read
    case Comparing(target, got) => ReadsObject(s, hash(p.read), target, got)
    case Cleanup(ok) => ok ==> Holds(hash, s, p.read)
    case Finished(ok) => ok ==> Holds(hash, s, p.read)
  }

  predicate ProcOk(hash: Hash, s: State, p: Process)
  {
    && (Owns(p) ==> p.name in s.tmp && s.tmp[p.name] == p.ino && p.ino in s.inodes)
    && (p.Put? ==> PutOk(hash, s, p))
    && (p.Verifying? ==> ReadsObject(s, p.digest, p.target, p.got))
    && (p.VerifyEnded? ==> !p.verdict.Mismatch?)
    && (p.VerifyEnded? && p.verdict.Verified? ==>
          p.digest in s.objects && s.objects[p.digest] in s.inodes && |s.inodes[s.objects[p.digest]]| == p.verdict.size)
  }

  /** Every object's bytes hash to its name. */
  predicate ObjectsOk(hash: Hash, s: State)
  {
    forall d :: d in s.objects ==> s.objects[d] in s.inodes && hash(s.inodes[s.objects[d]]) == d
  }

  predicate TmpOk(s: State)
  {
    forall n :: n in s.tmp ==> s.tmp[n] in s.inodes
  }

  /** No two live imports share an inode. */
  predicate Separate(s: State)
  {
    forall p, q :: p in s.procs && q in s.procs && p != q && Owns(s.procs[p]) && Owns(s.procs[q]) ==>
      s.procs[p].ino != s.procs[q].ino
  }

  predicate Inv(hash: Hash, s: State)
  {
    && ObjectsOk(hash, s) && TmpOk(s) && Separate(s)
    && forall pid :: pid in s.procs ==> ProcOk(hash, s, s.procs[pid])
  }

  /** A step may write one unpublished inode, publish that inode and drop one name; published
      files and published names stay. */
  predicate Frame(s: State, t: State, ino: nat, name: string)
  {
    && (forall i :: i in s.inodes ==> i in t.inodes && (i != ino || Published(s, ino) ==> t.inodes[i] == s.inodes[i]))
    && (forall d :: d in s.objects ==> d in t.objects && t.objects[d] == s.objects[d])
    && (forall d :: d in t.objects ==> d in s.objects || t.objects[d] == ino)
    && (forall n :: n in s.tmp && n != name ==> n in t.tmp && t.tmp[n] == s.tmp[n])
  }

  lemma ObjectKept(hash: Hash, s: State, t: State, ino: nat, name: string, d: string)
    requires Frame(s, t, ino, name) && d in s.objects && s.objects[d] in s.inodes
    ensures d in t.objects && t.objects[d] == s.objects[d] && t.inodes[t.objects[d]] == s.inodes[s.objects[d]]
  {
    assert Published(s, s.objects[d]);
  }

  lemma ProcKept(hash: Hash, s: State, t: State, ino: nat, name: string, q: Process)
    requires Frame(s, t, ino, name) && ProcOk(hash, s, q)
    requires Owns(q) ==> q.ino != ino && q.name != name
    ensures ProcOk(hash, t, q)
  {
    forall d | d in s.objects && s.objects[d] in s.inodes
      ensures d in t.objects && t.objects[d] == s.objects[d] && t.inodes[t.objects[d]] == s.inodes[s.objects[d]]
    {
      ObjectKept(hash, s, t, ino, name, d);
    }
    hide Frame;
    if q.Put? && q.pc.Writing? {
      assert !Published(t, q.ino) by { FrameUnpublished(s, t, ino, name, q.ino); }
      assert t.inodes[q.ino] == s.inodes[q.ino] by { FrameInode(s, t, ino, name, q.ino); }
    }
    if Owns(q) {
      FrameInode(s, t, ino, name, q.ino);
      FrameName(s, t, ino, name, q.name);
    }
  }

  lemma FrameUnpublished(s: State, t: State, ino: nat, name: string, i: nat)
    requires Frame(s, t, ino, name) && i != ino && !Published(s, i)
    ensures !Published(t, i)
  {
  }

  lemma FrameInode(s: State, t: State, ino: nat, name: string, i: nat)
    requires Frame(s, t, ino, name) && i in s.inodes && i != ino
    ensures i in t.inodes && t.inodes[i] == s.inodes[i]
  {
  }

  lemma FrameName(s: State, t: State, ino: nat, name: string, n: string)
    requires Frame(s, t, ino, name) && n in s.tmp && n != name
    ensures n in t.tmp && t.tmp[n] == s.tmp[n]
  {
  }

  /** A step by one process keeps the invariant when it keeps the process itself sound. */
  lemma Assemble(hash: Hash, s: State, t: State, pid: nat, ino: nat, name: string)
    requires Inv(hash, s) && Frame(s, t, ino, name) && ObjectsOk(hash, t) && TmpOk(t)
    requires pid in t.procs && t.procs == s.procs[pid := t.procs[pid]] && ProcOk(hash, t, t.procs[pid])
    requires Owns(t.procs[pid]) ==> t.procs[pid].ino == ino
    requires forall q :: q in s.procs && q != pid && Owns(s.procs[q]) ==>
        s.procs[q].ino != ino && s.procs[q].name != name
    ensures Inv(hash, t)
  {
    hide ProcOk, ObjectsOk, TmpOk, Frame;
    forall q | q in t.procs
      ensures ProcOk(hash, t, t.procs[q])
    {
      if q != pid { ProcKept(hash, s, t, ino, name, s.procs[q]); }
    }
  }

  /** A live import's name and inode are its own. */
  lemma OwnIsOwn(hash: Hash, s: State, pid: nat)
    requires Inv(hash, s) && pid in s.procs && Owns(s.procs[pid])
    ensures forall q :: q in s.procs && q != pid && Owns(s.procs[q]) ==>
              s.procs[q].ino != s.procs[pid].ino && s.procs[q].name != s.procs[pid].name
  {
    hide PutOk, ObjectsOk;
    forall q | q in s.procs && q != pid && Owns(s.procs[q])
      ensures s.procs[q].ino != s.procs[pid].ino && s.procs[q].name != s.procs[pid].name
    {
      assert ProcOk(hash, s, s.procs[q]) && ProcOk(hash, s, s.procs[pid]);
    }
  }

  lemma NewIsOwn(hash: Hash, s: State, name: string, ino: nat)
    requires Inv(hash, s) && name !in s.tmp && ino !in s.inodes
    ensures forall q :: q in s.procs && Owns(s.procs[q]) ==> s.procs[q].ino != ino && s.procs[q].name != name
  {
    hide PutOk, ObjectsOk;
    forall q | q in s.procs && Owns(s.procs[q])
      ensures s.procs[q].ino != ino && s.procs[q].name != name
    {
      assert ProcOk(hash, s, s.procs[q]);
    }
  }

  /** Only the process moved. */
  lemma Moved(hash: Hash, s: State, t: State, pid: nat, p: Process)
    requires Inv(hash, s) && t == Update(s, pid, p) && ProcOk(hash, s, p)
    requires Owns(p) ==>
        pid in s.procs && Owns(s.procs[pid]) && s.procs[pid].ino == p.ino && s.procs[pid].name == p.name
    ensures Inv(hash, t)
  {
    if Owns(p) {
      OwnIsOwn(hash, s, pid);
      SameFiles(hash, s, t, p);
      assert Frame(s, t, p.ino, p.name);
      hide ProcOk, Frame, ObjectsOk, TmpOk;
      Assemble(hash, s, t, pid, p.ino, p.name);
    } else {
      SameFiles(hash, s, t, p);
      forall q | q in t.procs
        ensures ProcOk(hash, t, t.procs[q])
      {
        if q != pid { SameFiles(hash, s, t, s.procs[q]); }
      }
    }
  }

  lemma SameFiles(hash: Hash, s: State, t: State, p: Process)
    requires t.(procs := s.procs) == s && ProcOk(hash, s, p)
    ensures ProcOk(hash, t, p)
  {
    assert forall i :: Published(s, i) == Published(t, i);
  }

  lemma CreateKeeps(hash: Hash, s: State, pid: nat, name: string, ino: nat, content: Bytes, more: bool)
    requires Inv(hash, s)
    ensures Inv(hash, Create(s, pid, name, ino, Put(name, ino, content, Writing(content, more))))
  {
    var p := Put(name, ino, content, Writing(content, more));
    var t := Create(s, pid, name, ino, p);
    if t != s {
      NewIsOwn(hash, s, name, ino);
      assert !Published(t, ino);
      assert ProcOk(hash, t, p);
      assert ObjectsOk(hash, t);
      hide ProcOk, ObjectsOk;
      Assemble(hash, s, t, pid, ino, name);
    }
  }

  /** Appending pending bytes to a private file. */
  lemma AppendKeeps(hash: Hash, s: State, t: State, pid: nat, p: Process, count: nat)
    requires Inv(hash, s) && pid in s.procs && s.procs[pid] == p && p.Put? && p.pc.Writing?
    requires p.ino in s.inodes && count <= |p.pc.pending|
    requires t == Update(s.(inodes := s.inodes[p.ino := s.inodes[p.ino] + p.pc.pending[..count]]), pid,
                         p.(pc := Writing(p.pc.pending[count..], p.pc.more)))
    ensures Inv(hash, t)
  {
    assert ProcOk(hash, s, p);
    OwnIsOwn(hash, s, pid);
    hide Inv, Separate;
    assert p.pc.pending == p.pc.pending[..count] + p.pc.pending[count..];
    assert !Published(t, p.ino);
    assert ProcOk(hash, t, t.procs[pid]);
    hide ProcOk;
    assert forall d :: d in s.objects ==> s.objects[d] != p.ino;
    UnpublishedWrite(hash, s, t, p.ino, p.name);
    hide Frame, ObjectsOk, TmpOk, Published;
    Assemble(hash, s, t, pid, p.ino, p.name);
  }

  lemma UnpublishedWrite(hash: Hash, s: State, t: State, ino: nat, name: string)
    requires Inv(hash, s) && !Published(s, ino) && t.objects == s.objects && t.tmp == s.tmp
    requires ino in s.inodes && ino in t.inodes && t.inodes == s.inodes[ino := t.inodes[ino]]
    ensures ObjectsOk(hash, t) && TmpOk(t) && Frame(s, t, ino, name)
  {
    hide ProcOk, Separate;
    assert forall d :: d in s.objects ==> s.objects[d] != ino;
  }

  lemma WriteKeeps(hash: Hash, s: State, pid: nat, p: Process, a: Action)
    requires Inv(hash, s) && pid in s.procs && s.procs[pid] == p && p.Put? && p.pc.Writing?
    ensures Inv(hash, StepWriting(s, pid, p, a))
  {
    var t := StepWriting(s, pid, p, a);
    assert ProcOk(hash, s, p);
    hide Inv, Published;
    if a.WriteSome? {
      if t != s && a.count > 0 {
        AppendKeeps(hash, s, t, pid, p, a.count);
      } else if t != s {
        Moved(hash, s, t, pid, p.(pc := Cleanup(false)));
      }
    } else if t != s {
      Moved(hash, s, t, pid, t.procs[pid]);
    }
  }

  lemma PublishKeeps(hash: Hash, s: State, pid: nat, p: Process, a: Action)
    requires Inv(hash, s) && pid in s.procs && s.procs[pid] == p && p.Put? && p.pc.Publishing?
    ensures Inv(hash, StepPublishing(hash, s, pid, p, a))
  {
    var t := StepPublishing(hash, s, pid, p, a);
    assert ProcOk(hash, s, p);
    if t.objects != s.objects {
      OwnIsOwn(hash, s, pid);
      assert ProcOk(hash, t, t.procs[pid]);
      assert ObjectsOk(hash, t) && Frame(s, t, p.ino, p.name);
      hide ProcOk, ObjectsOk, Frame;
      Assemble(hash, s, t, pid, p.ino, p.name);
    } else if t != s {
      Moved(hash, s, t, pid, t.procs[pid]);
    }
  }

  lemma CompareKeeps(hash: Hash, s: State, pid: nat, p: Process, a: Action)
    requires Inv(hash, s) && pid in s.procs && s.procs[pid] == p && p.Put? && p.pc.Comparing?
    ensures Inv(hash, StepComparing(hash, s, pid, p, a))
  {
    var t := StepComparing(hash, s, pid, p, a);
    assert ProcOk(hash, s, p);
    if t != s {
      Moved(hash, s, t, pid, t.procs[pid]);
    }
  }

  lemma VerifyKeeps(hash: Hash, s: State, pid: nat, p: Process, a: Action)
    requires Inv(hash, s) && pid in s.procs && s.procs[pid] == p && p.Verifying?
    ensures Inv(hash, StepVerifying(hash, s, pid, p, a))
  {
    var t := StepVerifying(hash, s, pid, p, a);
    assert ProcOk(hash, s, p);
    if t != s {
      if a.ReadObject? && t.procs[pid].VerifyEnded? {
        assert p.got == s.inodes[p.target];
      }
      Moved(hash, s, t, pid, t.procs[pid]);
    }
  }

  lemma CleanupKeeps(hash: Hash, s: State, pid: nat, p: Process, a: Action)
    requires Inv(hash, s) && pid in s.procs && s.procs[pid] == p && p.Put? && p.pc.Cleanup?
    ensures Inv(hash, StepCleanup(s, pid, p, a))
  {
    var t := StepCleanup(s, pid, p, a);
    assert ProcOk(hash, s, p);
    if t.tmp != s.tmp {
      OwnIsOwn(hash, s, pid);
      assert Frame(s, t, p.ino, p.name) && ObjectsOk(hash, t) && TmpOk(t);
      assert ProcOk(hash, t, t.procs[pid]);
      hide ProcOk, ObjectsOk, TmpOk, Frame;
      Assemble(hash, s, t, pid, p.ino, p.name);
    } else if t != s {
      assert t == Update(s, pid, t.procs[pid]);
      Moved(hash, s, t, pid, t.procs[pid]);
    }
  }

  lemma CrashKeeps(hash: Hash, s: State, pid: nat)
    requires Inv(hash, s)
    ensures Inv(hash, s.(procs := s.procs - {pid}))
  {
    hide PutOk, ReadsObject;
    var t := s.(procs := s.procs - {pid});
    forall q | q in t.procs
      ensures ProcOk(hash, t, t.procs[q])
    {
      SameFiles(hash, s, t, s.procs[q]);
    }
  }

  lemma StepKeeps(hash: Hash, s: State, a: Action)
    requires Inv(hash, s)
    ensures Inv(hash, Step(hash, s, a))
  {
    match a {
      case BeginPut(pid, name, ino) => CreateKeeps(hash, s, pid, name, ino, [], true);
      case BeginPutBytes(pid, name, ino, payload, _) => CreateKeeps(hash, s, pid, name, ino, payload, false);
      case BeginVerify(pid, digest) =>
        var t := Step(hash, s, a);
        if t != s { Moved(hash, s, t, pid, t.procs[pid]); }
      case Crash(pid) => CrashKeeps(hash, s, pid);
      case _ => ProcessKeeps(hash, s, a.pid, a);
    }
  }

  lemma ProcessKeeps(hash: Hash, s: State, pid: nat, a: Action)
    requires Inv(hash, s)
    ensures Inv(hash, StepProcess(hash, s, pid, a))
  {
    hide Inv, StepWriting, StepPublishing, StepComparing, StepVerifying, StepCleanup;
    if pid in s.procs {
      var p := s.procs[pid];
      if p.Verifying? {
        VerifyKeeps(hash, s, pid, p, a);
      } else if p.Put? && p.pc.Writing? {
        WriteKeeps(hash, s, pid, p, a);
      } else if p.Put? && p.pc.Publishing? {
        PublishKeeps(hash, s, pid, p, a);
      } else if p.Put? && p.pc.Comparing? {
        CompareKeeps(hash, s, pid, p, a);
      } else if p.Put? && p.pc.Cleanup? {
        CleanupKeeps(hash, s, pid, p, a);
      }
    }
  }

  lemma {:induction false} RunKeeps(hash: Hash, s: State, actions: seq<Action>)
    requires Inv(hash, s)
    ensures Inv(hash, Run(hash, s, actions))
    decreases actions
  {
    hide Inv, Step;
    if actions != [] {
      StepKeeps(hash, s, actions[0]);
      RunKeeps(hash, Step(hash, s, actions[0]), actions[1..]);
    }
  }

  lemma Reachable(hash: Hash, actions: seq<Action>)
    ensures Inv(hash, Run(hash, INIT, actions))
  {
    RunKeeps(hash, INIT, actions);
  }

  // Immutability

  predicate SameObject(s: State, t: State, d: string)
  {
    && d in s.objects && d in t.objects && t.objects[d] == s.objects[d]
    && s.objects[d] in s.inodes && s.objects[d] in t.inodes
    && t.inodes[t.objects[d]] == s.inodes[s.objects[d]]
  }

  lemma StepKeepsObject(hash: Hash, s: State, a: Action, d: string)
    requires Inv(hash, s) && d in s.objects
    ensures SameObject(s, Step(hash, s, a), d)
  {
    hide StepWriting, StepPublishing, StepComparing, StepVerifying, StepCleanup, Separate, ReadsObject, Holds;
    assert s.objects[d] in s.inodes;
    if !(a.BeginPut? || a.BeginPutBytes? || a.BeginVerify? || a.Crash?) {
      ProcessKeepsObject(hash, s, a, d);
      return;
    }
    hide Inv, ObjectsOk, TmpOk, ProcOk, OthersStay;
  }

  lemma ProcessKeepsObject(hash: Hash, s: State, a: Action, d: string)
    requires Inv(hash, s) && d in s.objects
    ensures SameObject(s, StepProcess(hash, s, a.pid, a), d)
  {
    hide StepWriting, StepPublishing, StepComparing, StepVerifying, StepCleanup, Separate, ReadsObject, Holds;
    assert s.objects[d] in s.inodes;
    if a.pid in s.procs && s.procs[a.pid].Put? && s.procs[a.pid].pc.Writing? {
      assert ProcOk(hash, s, s.procs[a.pid]);
      hide Inv, ObjectsOk, TmpOk, ProcOk;
      assert s.objects[d] != s.procs[a.pid].ino;
    }
    hide Inv, ObjectsOk, TmpOk, ProcOk, OthersStay;
  }

  /** A published object keeps its name, its inode and its bytes for ever, whatever writers
      and crashes follow, and its bytes hash to its name. */
  lemma {:induction false} ObjectsAreImmutable(hash: Hash, s: State, actions: seq<Action>, d: string)
    requires Inv(hash, s) && d in s.objects
    ensures SameObject(s, Run(hash, s, actions), d)
    ensures hash(s.inodes[s.objects[d]]) == d
    decreases actions
  {
    if actions != [] {
      var t := Step(hash, s, actions[0]);
      StepKeepsObject(hash, s, actions[0], d);
      StepKeeps(hash, s, actions[0]);
      hide Step, ProcOk;
      ObjectsAreImmutable(hash, t, actions[1..], d);
    }
  }

  /** No import with writes left to make shares an inode with a published object, although
      the object shares its inode with the temporary name, and with a descriptor of the
      import that published it, until the end of that import. */
  lemma NoWriterReachesAnObject(hash: Hash, actions: seq<Action>, pid: nat, d: string)
    requires var s := Run(hash, INIT, actions);
             pid in s.procs && s.procs[pid].Put? && s.procs[pid].pc.Writing? && d in s.objects
    ensures var s := Run(hash, INIT, actions); s.objects[d] != s.procs[pid].ino
  {
    Reachable(hash, actions);
    var s := Run(hash, INIT, actions);
    hide Run, ObjectsOk;
    assert ProcOk(hash, s, s.procs[pid]);
  }

  predicate PutSucceeded(s: State, pid: nat)
  {
    pid in s.procs && s.procs[pid].Put? && s.procs[pid].pc == Finished(true)
  }

  /** After a successful import of some bytes, in every later state the object named by their
      hash is there, with their size and with bytes of that hash; they are those very bytes
      unless the hash has collided. */
  lemma PutIsDurable(hash: Hash, s: State, pid: nat, actions: seq<Action>)
    requires Inv(hash, s) && PutSucceeded(s, pid)
    ensures var t, content := Run(hash, s, actions), s.procs[pid].read;
            && Holds(hash, t, content)
            && var stored := t.inodes[t.objects[hash(content)]];
            && hash(stored) == hash(content)
            && ((forall b: Bytes :: hash(b) == hash(content) ==> b == content) ==> stored == content)
  {
    var d := hash(s.procs[pid].read);
    assert ProcOk(hash, s, s.procs[pid]);
    hide ProcOk, ObjectsOk, TmpOk, Separate;
    ObjectsAreImmutable(hash, s, actions, d);
  }

  /** A step moves no process but its own. */
  lemma StepIsLocal(hash: Hash, s: State, a: Action, v: nat)
    requires v in s.procs && a.pid != v
    ensures v in Step(hash, s, a).procs && Step(hash, s, a).procs[v] == s.procs[v]
  {
    ProcessIsLocal(hash, s, a, v);
    hide StepProcess;
  }

  lemma ProcessIsLocal(hash: Hash, s: State, a: Action, v: nat)
    requires v in s.procs && a.pid != v
    ensures var t := StepProcess(hash, s, a.pid, a);
            v in t.procs && t.procs[v] == s.procs[v]
  {
    hide StepWriting, StepPublishing, StepComparing, StepVerifying, StepCleanup;
  }

  /** A verification of the digest that has found the object; only a failed read may have
      left it without a verdict. */
  predicate Finds(s: State, v: nat, digest: string, failed: bool)
  {
    && v in s.procs
    && ((s.procs[v].Verifying? && s.procs[v].digest == digest)
        || (s.procs[v].VerifyEnded? && s.procs[v].digest == digest && !s.procs[v].verdict.Missing?
            && (s.procs[v].verdict.Unreadable? ==> failed)))
  }

  lemma StepFinds(hash: Hash, s: State, a: Action, v: nat, digest: string, failed: bool)
    requires Finds(s, v, digest, failed) && a != Crash(v) && (a == Fail(v) ==> failed)
    ensures Finds(Step(hash, s, a), v, digest, failed)
  {
    if a.pid != v {
      StepIsLocal(hash, s, a, v);
    } else {
      hide StepWriting, StepPublishing, StepComparing, StepCleanup;
    }
  }

  lemma {:induction false} RunFinds(
    hash: Hash, s: State, actions: seq<Action>, v: nat, digest: string, failed: bool)
    requires Finds(s, v, digest, failed) && forall i :: 0 <= i < |actions| ==> actions[i] != Crash(v)
    requires Fail(v) in actions ==> failed
    ensures Finds(Run(hash, s, actions), v, digest, failed)
    decreases actions
  {
    hide Step, Finds;
    if actions != [] {
      StepFinds(hash, s, actions[0], v, digest, failed);
      RunFinds(hash, Step(hash, s, actions[0]), actions[1..], v, digest, failed);
    }
  }

  /** A verification that begins at any time after a successful import of the digest, and does
      not crash, can only be still reading, have succeeded with the import's size, or have had
      a read of its own fail. */
  lemma PutThenVerify(hash: Hash, s: State, pid: nat, between: seq<Action>, v: nat, after: seq<Action>)
    requires Inv(hash, s) && PutSucceeded(s, pid) && v !in Run(hash, s, between).procs
    requires forall i :: 0 <= i < |after| ==> after[i] != Crash(v)
    ensures var digest, size := hash(s.procs[pid].read), |s.procs[pid].read|;
            var t := Run(hash, Step(hash, Run(hash, s, between), BeginVerify(v, digest)), after);
            && v in t.procs
            && (t.procs[v].Verifying? || t.procs[v] == VerifyEnded(digest, Verified(size))
                || (t.procs[v] == VerifyEnded(digest, Unreadable) && Fail(v) in after))
  {
    var digest := hash(s.procs[pid].read);
    var m := Run(hash, s, between);
    var b := Step(hash, m, BeginVerify(v, digest));
    var t := Run(hash, b, after);
    PutIsDurable(hash, s, pid, between);
    RunKeeps(hash, s, between);
    assert Holds(hash, m, s.procs[pid].read);
    assert Finds(b, v, digest, Fail(v) in after);
    assert SameObject(m, b, digest);
    StepKeeps(hash, m, BeginVerify(v, digest));
    hide Run, Step, Inv;
    RunFinds(hash, b, after, v, digest, Fail(v) in after);
    ObjectsAreImmutable(hash, b, after, digest);
    RunKeeps(hash, b, after);
    EndsWell(hash, t, v);
  }

  lemma EndsWell(hash: Hash, t: State, v: nat)
    requires Inv(hash, t)
    ensures v in t.procs && t.procs[v].VerifyEnded?
            && !t.procs[v].verdict.Missing? && !t.procs[v].verdict.Unreadable? ==>
              var d := t.procs[v].digest;
              d in t.objects && t.objects[d] in t.inodes && t.procs[v].verdict == Verified(|t.inodes[t.objects[d]]|)
  {
    if v in t.procs {
      assert ProcOk(hash, t, t.procs[v]);
    }
  }

  /** And it can always finish: reading on to the end of the file succeeds. */
  lemma VerifyCanFinish(hash: Hash, s: State, v: nat)
    requires Inv(hash, s) && v in s.procs && s.procs[v].Verifying?
    ensures var p := s.procs[v];
            && p.target in s.inodes && |p.got| <= |s.inodes[p.target]|
            && var size := |s.inodes[p.target]|;
            var t := Run(hash, s, [ReadObject(v, size - |p.got|), ReadObject(v, 0)]);
            v in t.procs && t.procs[v] == VerifyEnded(p.digest, Verified(size))
  {
    var p := s.procs[v];
    assert ProcOk(hash, s, p);
    VerifiedHash(hash, s, p.digest);
    hide Inv, ProcOk, Step, Run;
    var size := |s.inodes[p.target]|;
    var a, b := ReadObject(v, size - |p.got|), ReadObject(v, 0);
    var m := Step(hash, s, a);
    ReadToEnd(hash, s, v, size - |p.got|);
    if m.procs[v].Verifying? {
      ReadToEnd(hash, m, v, 0);
    } else {
      EndedStays(hash, m, v, b);
    }
    RunTwo(hash, s, a, b);
  }

  lemma RunTwo(hash: Hash, s: State, a: Action, b: Action)
    ensures Run(hash, s, [a, b]) == Step(hash, Step(hash, s, a), b)
  {
    hide Step;
    assert [a, b][1..] == [b] && [b][1..] == [];
    assert Run(hash, s, [a, b]) == Run(hash, Step(hash, s, a), [b]);
  }

  lemma ReadToEnd(hash: Hash, s: State, v: nat, count: nat)
    requires v in s.procs && s.procs[v].Verifying? && s.procs[v].target in s.inodes
    requires var p := s.procs[v];
             p.got <= s.inodes[p.target] && count == |s.inodes[p.target]| - |p.got| &&
               hash(s.inodes[p.target]) == p.digest
    ensures var p, t := s.procs[v], Step(hash, s, ReadObject(v, count));
            && v in t.procs && t.inodes == s.inodes
            && t.procs[v] == if count == 0 then VerifyEnded(p.digest, Verified(|s.inodes[p.target]|))
                             else p.(got := s.inodes[p.target])
  {
    var p := s.procs[v];
    var content := s.inodes[p.target];
    if count == 0 {
      assert p.got == content;
    } else {
      assert ReadOn(content, p.got, count) == content[|p.got|..];
      assert p.got + content[|p.got|..] == content;
    }
  }

  lemma EndedStays(hash: Hash, s: State, v: nat, a: Action)
    requires v in s.procs && s.procs[v].VerifyEnded? && a.ReadObject? && a.pid == v
    ensures Step(hash, s, a) == s
  {
  }

  lemma VerifiedHash(hash: Hash, s: State, d: string)
    requires Inv(hash, s) && d in s.objects
    ensures s.objects[d] in s.inodes && hash(s.inodes[s.objects[d]]) == d
  {
  }
}
