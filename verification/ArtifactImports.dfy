/** Imports can succeed: from every state in which an import is under way, steps of that import
    alone bring it to its end, with the outcome its content calls for. */
module ArtifactImports {
  import opened ArtifactFiles

  /** The import of the content is over. It succeeded unless an object already stored under
      the digest has another size; a new digest now names the import's own file; the
      temporary name is gone. */
  predicate ImportDone(hash: Hash, s: State, t: State, pid: nat, name: string, ino: nat, content: Bytes)
  {
    var d := hash(content);
    var fits := d in s.objects && s.objects[d] in s.inodes && |s.inodes[s.objects[d]]| == |content|;
    && pid in t.procs && t.procs[pid] == Put(name, ino, content, Finished(d !in s.objects || fits))
    && t.objects == (if d in s.objects then s.objects else s.objects[d := ino])
    && t.tmp == s.tmp - {name} && ino in t.inodes && t.inodes[ino] == content
  }

  predicate OwnSteps(actions: seq<Action>, pid: nat)
  {
    forall i :: 0 <= i < |actions| ==> actions[i].pid == pid && !actions[i].Fail? && !actions[i].Crash?
  }

  lemma RunFirst(hash: Hash, s: State, a: Action, rest: seq<Action>)
    ensures Run(hash, s, [a] + rest) == Run(hash, Step(hash, s, a), rest)
  {
    assert ([a] + rest)[1..] == rest;
    hide Step;
  }

  /** Dropping the temporary name ends the import. */
  lemma Unlinked(hash: Hash, s: State, pid: nat)
    requires pid in s.procs && s.procs[pid].Put? && s.procs[pid].pc.Cleanup?
    ensures var p := s.procs[pid];
            Run(hash, s, [Unlink(pid, true)]) ==
            Update(s.(tmp := s.tmp - {p.name}), pid, p.(pc := Finished(p.pc.ok)))
  {
    var a := Unlink(pid, true);
    RunFirst(hash, s, a, []);
    assert [a] + [] == [a];
    hide StepWriting, StepPublishing, StepComparing, StepVerifying;
  }

  lemma Linked(hash: Hash, s: State, pid: nat)
    requires pid in s.procs && s.procs[pid].Put? && s.procs[pid].pc.Publishing? && s.procs[pid].name in s.tmp
    ensures var p := s.procs[pid];
            var d := hash(p.read);
            Step(hash, s, LinkObject(pid)) ==
            if d in s.objects then Update(s, pid, p.(pc := Comparing(s.objects[d], [])))
            else Update(s.(objects := s.objects[d := s.tmp[p.name]]), pid, p.(pc := Cleanup(true)))
  {
    hide StepWriting, StepCleanup, StepComparing, StepVerifying;
  }

  lemma ComparedAll(hash: Hash, s: State, pid: nat)
    requires pid in s.procs && s.procs[pid].Put? && s.procs[pid].pc.Comparing?
    requires s.procs[pid].pc.target in s.inodes && s.procs[pid].pc.got == s.inodes[s.procs[pid].pc.target]
    ensures var p := s.procs[pid];
            Step(hash, s, ReadExisting(pid, 0)) ==
            Update(s, pid, p.(pc := Cleanup(hash(p.pc.got) == hash(p.read) && |p.pc.got| == |p.read|)))
  {
    var got := s.procs[pid].pc.got;
    assert ReadOn(got, got, 0) == [];
    hide StepWriting, StepCleanup, StepPublishing, StepVerifying;
  }

  /** A file that is there already is read to its end and compared. */
  lemma Compared(hash: Hash, s: State, pid: nat)
    requires pid in s.procs && s.procs[pid].Put? && s.procs[pid].pc.Comparing? && s.procs[pid].pc.got == []
    requires s.procs[pid].pc.target in s.inodes
    ensures var p := s.procs[pid];
            var content := s.inodes[p.pc.target];
            Run(hash, s, [ReadExisting(pid, |content|), ReadExisting(pid, 0)]) ==
            Update(s, pid, p.(pc := Cleanup(hash(content) == hash(p.read) && |content| == |p.read|)))
  {
    var p := s.procs[pid];
    var content := s.inodes[p.pc.target];
    var a, b := ReadExisting(pid, |content|), ReadExisting(pid, 0);
    RunTwo(hash, s, a, b);
    hide StepWriting, StepCleanup, StepPublishing, StepVerifying, Run;
    assert content[0..|content|] == content && [] + content == content;
    var m := Step(hash, s, a);
    if content == [] {
      assert m == Update(s, pid, p.(pc := Cleanup(hash(content) == hash(p.read) && |content| == |p.read|)));
      CleanupIgnores(hash, m, pid, b);
    } else {
      assert m == Update(s, pid, p.(pc := Comparing(p.pc.target, content)));
      ComparedAll(hash, m, pid);
      var after := Step(hash, m, b).procs[pid];
      assert m.procs[pid := after] == s.procs[pid := after];
    }
  }

  lemma CleanupIgnores(hash: Hash, s: State, pid: nat, a: Action)
    requires pid in s.procs && s.procs[pid].Put? && s.procs[pid].pc.Cleanup? && a.ReadExisting? && a.pid == pid
    ensures Step(hash, s, a) == s
  {
  }

  lemma {:induction false} RunOn(hash: Hash, s: State, first: seq<Action>, second: seq<Action>)
    ensures Run(hash, s, first + second) == Run(hash, Run(hash, s, first), second)
    decreases first
  {
    hide Step;
    if first == [] {
      assert first + second == second;
    } else {
      assert first + second == [first[0]] + (first[1..] + second);
      RunFirst(hash, s, first[0], first[1..] + second);
      RunOn(hash, Step(hash, s, first[0]), first[1..], second);
    }
  }

  lemma PublishingFacts(hash: Hash, s: State, pid: nat)
    requires Inv(hash, s) && pid in s.procs && s.procs[pid].Put? && s.procs[pid].pc.Publishing?
    ensures var p := s.procs[pid];
            && p.name in s.tmp && s.tmp[p.name] == p.ino && p.ino in s.inodes && s.inodes[p.ino] == p.read
            && var d := hash(p.read);
            d in s.objects ==> s.objects[d] in s.inodes && hash(s.inodes[s.objects[d]]) == d
  {
    assert ProcOk(hash, s, s.procs[pid]);
  }

  lemma FinishPublishing(hash: Hash, s: State, pid: nat) returns (actions: seq<Action>)
    requires Inv(hash, s) && pid in s.procs && s.procs[pid].Put? && s.procs[pid].pc.Publishing?
    ensures var p := s.procs[pid];
            OwnSteps(actions, pid) && ImportDone(hash, s, Run(hash, s, actions), pid, p.name, p.ino, p.read)
  {
    var p := s.procs[pid];
    PublishingFacts(hash, s, pid);
    Linked(hash, s, pid);
    var link, end := LinkObject(pid), [Unlink(pid, true)];
    var m := Step(hash, s, link);
    hide Inv, Step, Run;
    var d := hash(p.read);
    if d !in s.objects {
      actions := [link] + end;
      RunFirst(hash, s, link, end);
      Unlinked(hash, m, pid);
    } else {
      var size := |s.inodes[s.objects[d]]|;
      var compare := [ReadExisting(pid, size), ReadExisting(pid, 0)];
      actions := [link] + (compare + end);
      Compared(hash, m, pid);
      var u := Run(hash, m, compare);
      RunFirst(hash, s, link, compare + end);
      RunOn(hash, m, compare, end);
      Unlinked(hash, u, pid);
    }
  }

  // Writing

  /** One step that only adds to the import's own unpublished file. */
  predicate Preparing(hash: Hash, s: State, m: State, pid: nat, name: string, ino: nat)
  {
    && m.objects == s.objects && m.tmp == s.tmp
    && (forall d :: d in s.objects && s.objects[d] in s.inodes ==>
          s.objects[d] in m.inodes && m.inodes[s.objects[d]] == s.inodes[s.objects[d]])
    && (forall d :: d in s.objects ==> s.objects[d] in s.inodes)
  }

  lemma DoneFromHere(
    hash: Hash, s: State, m: State, t: State, pid: nat, name: string, ino: nat, content: Bytes)
    requires Preparing(hash, s, m, pid, name, ino) && ImportDone(hash, m, t, pid, name, ino, content)
    ensures ImportDone(hash, s, t, pid, name, ino, content)
  {
  }

  lemma Written(hash: Hash, s: State, pid: nat)
    requires Inv(hash, s) && pid in s.procs && s.procs[pid].Put? && s.procs[pid].pc.Writing?
    requires s.procs[pid].pc.pending != []
    ensures var p, m := s.procs[pid], Step(hash, s, WriteSome(pid, |s.procs[pid].pc.pending|));
            && OwnSteps([WriteSome(pid, |p.pc.pending|)], pid)
            && pid in m.procs && m.procs[pid] == p.(pc := Writing([], p.pc.more))
            && Inv(hash, m) && Preparing(hash, s, m, pid, p.name, p.ino)
  {
    var p := s.procs[pid];
    assert ProcOk(hash, s, p);
    assert forall d :: d in s.objects ==> s.objects[d] != p.ino;
    assert p.pc.pending[|p.pc.pending|..] == [];
    StepKeeps(hash, s, WriteSome(pid, |p.pc.pending|));
    hide StepPublishing, StepCleanup, StepComparing, StepVerifying;
  }

  lemma Consumed(hash: Hash, s: State, pid: nat, chunk: Bytes)
    requires Inv(hash, s) && pid in s.procs && s.procs[pid].Put? && s.procs[pid].pc == Writing([], true)
    requires 0 < |chunk| <= 65536
    ensures var p, m := s.procs[pid], Step(hash, s, ReadSource(pid, chunk));
            && OwnSteps([ReadSource(pid, chunk)], pid)
            && pid in m.procs && m.procs[pid] == p.(read := p.read + chunk, pc := Writing(chunk, true))
            && Inv(hash, m) && Preparing(hash, s, m, pid, p.name, p.ino)
  {
    StepKeeps(hash, s, ReadSource(pid, chunk));
    hide StepPublishing, StepCleanup, StepComparing, StepVerifying;
  }

  lemma Ended(hash: Hash, s: State, pid: nat) returns (a: Action)
    requires Inv(hash, s) && pid in s.procs && s.procs[pid].Put? && s.procs[pid].pc.Writing?
    requires s.procs[pid].pc.pending == []
    ensures var p, m := s.procs[pid], Step(hash, s, a);
            && OwnSteps([a], pid) && pid in m.procs && m.procs[pid] == p.(pc := Publishing)
            && Inv(hash, m) && Preparing(hash, s, m, pid, p.name, p.ino)
  {
    hide StepPublishing, StepCleanup, StepComparing, StepVerifying;
    a := if s.procs[pid].pc.more then ReadSource(pid, []) else EndOfPayload(pid);
    StepKeeps(hash, s, a);
  }

  lemma Prepended(
    hash: Hash, s: State, a: Action, more: seq<Action>, pid: nat, name: string, ino: nat, content: Bytes)
    requires OwnSteps([a], pid) && OwnSteps(more, pid) && Preparing(hash, s, Step(hash, s, a), pid, name, ino)
    requires ImportDone(hash, Step(hash, s, a), Run(hash, Step(hash, s, a), more), pid, name, ino, content)
    ensures OwnSteps([a] + more, pid) && ImportDone(hash, s, Run(hash, s, [a] + more), pid, name, ino, content)
  {
    assert [a][0] == a;
    RunFirst(hash, s, a, more);
    hide Run, Step, ImportDone;
    DoneFromHere(hash, s, Step(hash, s, a), Run(hash, s, [a] + more), pid, name, ino, content);
  }

  lemma FinishRead(hash: Hash, s: State, pid: nat) returns (actions: seq<Action>)
    requires Inv(hash, s) && pid in s.procs && s.procs[pid].Put? && s.procs[pid].pc.Writing?
    requires s.procs[pid].pc.pending == []
    ensures var p := s.procs[pid];
            OwnSteps(actions, pid) && ImportDone(hash, s, Run(hash, s, actions), pid, p.name, p.ino, p.read)
  {
    var p := s.procs[pid];
    var a := Ended(hash, s, pid);
    hide Inv, Run, Step, ImportDone, OwnSteps, Preparing;
    var more := FinishPublishing(hash, Step(hash, s, a), pid);
    Prepended(hash, s, a, more, pid, p.name, p.ino, p.read);
    actions := [a] + more;
  }

  lemma {:induction false} FinishFlushed(hash: Hash, s: State, pid: nat, rest: Bytes) returns (actions: seq<Action>)
    requires Inv(hash, s) && pid in s.procs && s.procs[pid].Put? && s.procs[pid].pc.Writing?
    requires s.procs[pid].pc.pending == [] && (s.procs[pid].pc.more || rest == [])
    ensures var p := s.procs[pid];
            OwnSteps(actions, pid) && ImportDone(hash, s, Run(hash, s, actions), pid, p.name, p.ino, p.read + rest)
    decreases |rest|, 0
  {
    hide Inv, Run, Step, ImportDone, OwnSteps, Preparing;
    var p := s.procs[pid];
    if rest == [] {
      assert p.read + rest == p.read;
      actions := FinishRead(hash, s, pid);
    } else {
      var n := if |rest| < 65536 then |rest| else 65536;
      var chunk := rest[..n];
      var a := ReadSource(pid, chunk);
      Consumed(hash, s, pid, chunk);
      var more := FinishWriting(hash, Step(hash, s, a), pid, rest[n..]);
      assert p.read + chunk + rest[n..] == p.read + rest;
      Prepended(hash, s, a, more, pid, p.name, p.ino, p.read + rest);
      actions := [a] + more;
    }
  }

  /** An import that is still writing, with the given bytes left to read, can finish. */
  lemma {:induction false} FinishWriting(hash: Hash, s: State, pid: nat, rest: Bytes) returns (actions: seq<Action>)
    requires Inv(hash, s) && pid in s.procs && s.procs[pid].Put? && s.procs[pid].pc.Writing?
    requires s.procs[pid].pc.more || rest == []
    ensures var p := s.procs[pid];
            OwnSteps(actions, pid) && ImportDone(hash, s, Run(hash, s, actions), pid, p.name, p.ino, p.read + rest)
    decreases |rest|, 1
  {
    hide Inv, Run, Step, ImportDone, OwnSteps, Preparing;
    var p := s.procs[pid];
    if p.pc.pending == [] {
      actions := FinishFlushed(hash, s, pid, rest);
    } else {
      var a := WriteSome(pid, |p.pc.pending|);
      Written(hash, s, pid);
      var more := FinishFlushed(hash, Step(hash, s, a), pid, rest);
      Prepended(hash, s, a, more, pid, p.name, p.ino, p.read + rest);
      actions := [a] + more;
    }
  }

  /** Importing any file under an unused temporary name can succeed, and does so exactly when
      no object with the digest but another size is stored. */
  lemma PutCanFinish(hash: Hash, s: State, pid: nat, name: string, ino: nat, content: Bytes)
    returns (actions: seq<Action>)
    requires Inv(hash, s) && pid !in s.procs && name !in s.tmp && ino !in s.inodes
    ensures OwnSteps(actions, pid)
    ensures ImportDone(hash, s, Run(hash, s, [BeginPut(pid, name, ino)] + actions), pid, name, ino, content)
  {
    var a := BeginPut(pid, name, ino);
    var m := Step(hash, s, a);
    StepKeeps(hash, s, a);
    BegunApart(hash, s, m, pid, name, ino);
    hide Inv, Step, Run;
    actions := FinishWriting(hash, m, pid, content);
    assert [] + content == content;
    RunFirst(hash, s, a, actions);
    DoneSinceStart(hash, s, m, Run(hash, m, actions), pid, name, ino, content);
  }

  /** The same for bytes in memory within the limit. */
  lemma PutBytesCanFinish(
    hash: Hash, s: State, pid: nat, name: string, ino: nat, payload: Bytes, limit: nat)
    returns (actions: seq<Action>)
    requires Inv(hash, s) && pid !in s.procs && name !in s.tmp && ino !in s.inodes
    requires 1 <= limit && |payload| <= limit
    ensures OwnSteps(actions, pid)
    ensures ImportDone(hash, s, Run(hash, s, [BeginPutBytes(pid, name, ino, payload, limit)] + actions),
              pid, name, ino, payload)
  {
    var a := BeginPutBytes(pid, name, ino, payload, limit);
    var m := Step(hash, s, a);
    StepKeeps(hash, s, a);
    BegunApart(hash, s, m, pid, name, ino);
    hide Inv, Step, Run;
    actions := FinishWriting(hash, m, pid, []);
    assert payload + [] == payload;
    RunFirst(hash, s, a, actions);
    DoneSinceStart(hash, s, m, Run(hash, m, actions), pid, name, ino, payload);
  }

  predicate Begun(s: State, m: State, name: string, ino: nat)
  {
    && m.objects == s.objects && m.tmp == s.tmp[name := ino] && name !in s.tmp
    && forall d :: d in s.objects ==>
         s.objects[d] in s.inodes && s.objects[d] in m.inodes && m.inodes[s.objects[d]] == s.inodes[s.objects[d]]
  }

  lemma BegunApart(hash: Hash, s: State, m: State, pid: nat, name: string, ino: nat)
    requires Inv(hash, s) && ino !in s.inodes && name !in s.tmp
    requires m.inodes == s.inodes[ino := []] && m.tmp == s.tmp[name := ino] && m.objects == s.objects
    ensures Begun(s, m, name, ino)
  {
  }

  lemma DoneSinceStart(
    hash: Hash, s: State, m: State, t: State, pid: nat, name: string, ino: nat, content: Bytes)
    requires Begun(s, m, name, ino) && ImportDone(hash, m, t, pid, name, ino, content)
    ensures t.tmp == s.tmp && ImportDone(hash, s, t, pid, name, ino, content)
  {
    assert s.tmp[name := ino] - {name} == s.tmp;
    assert s.tmp - {name} == s.tmp;
  }

  /** Bytes in memory are taken only within a positive limit, a temporary name only when it is
      unused; an import that is not taken changes nothing. */
  lemma ImportsTaken(hash: Hash, s: State, pid: nat, name: string, ino: nat, payload: Bytes, limit: nat)
    requires pid !in s.procs && ino !in s.inodes
    ensures Step(hash, s, BeginPut(pid, name, ino)) != s <==> name !in s.tmp
    ensures Step(hash, s, BeginPutBytes(pid, name, ino, payload, limit)) != s <==>
            name !in s.tmp && 1 <= limit && |payload| <= limit
  {
    assert pid in Create(s, pid, name, ino, Put(name, ino, [], Writing([], true))).procs <==> name !in s.tmp;
    assert pid in Create(s, pid, name, ino, Put(name, ino, payload, Writing(payload, false))).procs <==> name !in s.tmp;
  }

  /** A verification finds nothing exactly when no object has the digest. */
  lemma VerifyBegins(hash: Hash, s: State, v: nat, digest: string)
    requires v !in s.procs
    ensures Step(hash, s, BeginVerify(v, digest)) ==
            s.(procs := s.procs[v := if digest in s.objects then Verifying(digest, s.objects[digest], [])
                                     else VerifyEnded(digest, Missing)])
  {
  }
}
