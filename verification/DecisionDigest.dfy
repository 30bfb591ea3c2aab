/** The decision payload as the canonical JSON document that is digested: its text determines
    the decision. */
module DecisionDigest {
  import opened Sorting
  import opened CanonicalJson
  import opened Authorization

  function EntryDoc(e: (string, string)): Doc
  {
    ObjDoc([("id", StrDoc(e.0)), ("decision", StrDoc(e.1))])
  }

  function EntriesDoc(es: seq<(string, string)>): Doc
  {
    ArrDoc(seq(|es|, i requires 0 <= i < |es| => EntryDoc(es[i])))
  }

  function DigestsMembers(p: Payload): seq<(string, Doc)>
  {
    [("spec", StrDoc(p.spec)), ("registry", StrDoc(p.registry)), ("plan", StrDoc(p.plan))]
  }

  function PayloadMembers(p: Payload): seq<(string, Doc)>
  {
    [("status", StrDoc(p.status)),
     ("digests", ObjDoc(DigestsMembers(p))),
     ("capabilities", EntriesDoc(p.capabilities)),
     ("permissions", EntriesDoc(p.permissions)),
     ("requirements", EntriesDoc(p.requirements))]
  }

  function PayloadDoc(p: Payload): Doc
  {
    ObjDoc(PayloadMembers(p))
  }

  /** What content_digest hashes. */
  function PayloadText(p: Payload): string
    requires Valid(PayloadDoc(p))
  {
    Print(PayloadDoc(p))
  }

  lemma EntryValid(e: (string, string))
    ensures Valid(EntryDoc(e)) && Meaning(EntryDoc(e)) == Obj(map["id" := Str(e.0), "decision" := Str(e.1)])
  {
    var ms := [("id", StrDoc(e.0)), ("decision", StrDoc(e.1))];
    assert |"id"| == 2 && |"decision"| == 8;
    assert DistinctKeys(ms);
    MemberMapEntries(ms);
    assert ms[0].0 in MemberMap(ms) && ms[1].0 in MemberMap(ms);
    assert MemberMap(ms) == map["id" := Str(e.0), "decision" := Str(e.1)];
  }

  lemma EntriesValid(es: seq<(string, string)>)
    ensures Valid(EntriesDoc(es))
  {
    hide EntryDoc;
    forall i | 0 <= i < |es|
      ensures Valid(EntryDoc(es[i]))
    {
      EntryValid(es[i]);
    }
  }

  lemma EntriesDetermined(es: seq<(string, string)>, fs: seq<(string, string)>)
    requires Meaning(EntriesDoc(es)) == Meaning(EntriesDoc(fs))
    ensures es == fs
  {
    var a, b := EntriesDoc(es).items, EntriesDoc(fs).items;
    assert Meanings(a) == Meanings(b);
    assert |es| == |fs|;
    forall i | 0 <= i < |es|
      ensures es[i] == fs[i]
    {
      assert Meanings(a)[i] == Meaning(EntryDoc(es[i])) && Meanings(b)[i] == Meaning(EntryDoc(fs[i]));
      EntryValid(es[i]);
      EntryValid(fs[i]);
      assert |"id"| == 2 && |"decision"| == 8;
      var m, n := Meaning(EntryDoc(es[i])).members, Meaning(EntryDoc(fs[i])).members;
      assert m["id"] == n["id"] && m["decision"] == n["decision"];
    }
  }

  lemma KeysDistinct(p: Payload)
    ensures DistinctKeys(PayloadMembers(p)) && DistinctKeys(DigestsMembers(p))
  {
    assert |"status"| == 6 && |"digests"| == 7 && |"capabilities"| == 12 && |"permissions"| == 11;
    assert |"requirements"| == 12 && "requirements"[0] == 'r' && "capabilities"[0] == 'c';
    assert |"spec"| == 4 && |"registry"| == 8 && |"plan"| == 4 && "spec"[0] == 's' && "plan"[0] == 'p';
  }

  lemma PayloadValid(p: Payload)
    ensures Valid(PayloadDoc(p))
  {
    KeysDistinct(p);
    EntriesValid(p.capabilities);
    EntriesValid(p.permissions);
    EntriesValid(p.requirements);
    hide EntriesDoc, DistinctKeys;
    var ms := PayloadMembers(p);
    assert Valid(ObjDoc(DigestsMembers(p)));
    assert forall i :: 0 <= i < |ms| ==> Valid(ms[i].1);
  }

  lemma MembersDetermined(ms: seq<(string, Doc)>, ns: seq<(string, Doc)>, i: nat)
    requires DistinctKeys(ms) && DistinctKeys(ns) && i < |ms| && i < |ns| && ms[i].0 == ns[i].0
    requires MemberMap(ms) == MemberMap(ns)
    ensures Meaning(ms[i].1) == Meaning(ns[i].1)
  {
    MemberMapEntries(ms);
    MemberMapEntries(ns);
  }

  lemma DigestsDetermined(p: Payload, q: Payload)
    requires Meaning(ObjDoc(DigestsMembers(p))) == Meaning(ObjDoc(DigestsMembers(q)))
    ensures p.spec == q.spec && p.registry == q.registry && p.plan == q.plan
  {
    KeysDistinct(p);
    KeysDistinct(q);
    var ms, ns := DigestsMembers(p), DigestsMembers(q);
    assert MemberMap(ms) == MemberMap(ns);
    hide MemberMap, DistinctKeys, PayloadMembers;
    MembersDetermined(ms, ns, 0);
    MembersDetermined(ms, ns, 1);
    MembersDetermined(ms, ns, 2);
    assert Meaning(ms[0].1) == Str(p.spec) && Meaning(ns[0].1) == Str(q.spec);
    assert Meaning(ms[1].1) == Str(p.registry) && Meaning(ns[1].1) == Str(q.registry);
    assert Meaning(ms[2].1) == Str(p.plan) && Meaning(ns[2].1) == Str(q.plan);
  }

  lemma PayloadDetermined(p: Payload, q: Payload)
    requires Meaning(PayloadDoc(p)) == Meaning(PayloadDoc(q))
    ensures p == q
  {
    KeysDistinct(p);
    KeysDistinct(q);
    var ms, ns := PayloadMembers(p), PayloadMembers(q);
    assert MemberMap(ms) == MemberMap(ns);
    assert Meaning(ms[0].1) == Str(p.status) && Meaning(ns[0].1) == Str(q.status);
    hide Meaning, MemberMap, DistinctKeys, DigestsMembers, EntriesDoc;
    MembersDetermined(ms, ns, 0);
    MembersDetermined(ms, ns, 1);
    MembersDetermined(ms, ns, 2);
    MembersDetermined(ms, ns, 3);
    MembersDetermined(ms, ns, 4);
    DigestsDetermined(p, q);
    EntriesDetermined(p.capabilities, q.capabilities);
    EntriesDetermined(p.permissions, q.permissions);
    EntriesDetermined(p.requirements, q.requirements);
  }

  /** The canonical text that is hashed into the decision digest is the same for two accepted
      evaluations exactly when they are the same decision in every field. */
  lemma SameTextIffSameDecision(f: Facts, g: Facts, digest: Payload -> string)
    requires FactsOk(f) && FactsOk(g)
    ensures Valid(PayloadDoc(GatePayload(f))) && Valid(PayloadDoc(GatePayload(g)))
    ensures PayloadText(GatePayload(f)) == PayloadText(GatePayload(g)) <==> Decide(f, digest) == Decide(g, digest)
  {
    var p, q := GatePayload(f), GatePayload(g);
    PayloadValid(p);
    PayloadValid(q);
    PayloadsAgree(f, digest);
    PayloadsAgree(g, digest);
    SameTextIffSameValue(PayloadDoc(p), PayloadDoc(q));
    hide PayloadDoc, GatePayload, Print, Meaning, Valid, Decide, ReportPayload;
    if PayloadText(p) == PayloadText(q) {
      PayloadDetermined(p, q);
      PayloadDeterminesDecision(f, g, digest);
    }
  }
}
