/** canonical_json on Python objects: the recursive serializer with its set of active
    containers, tied to the canonical text of the JSON value the object graph unfolds to. */
module JcsSerializer {
  import opened Wrappers
  import opened DecimalNumber
  import opened Binary64
  import opened ObjectGraph
  import opened Sorting
  import opened CanonicalJson
  import KeyOrder

  datatype Fault = UnsupportedType | KeyNotString | UnsafeInteger | NotFinite | BadUnicode | Circular

  datatype Result<T> = Ok(value: T) | Err(fault: Fault)

  // Leaves

  predicate Encodable(s: PyStr)
  {
    forall i :: 0 <= i < |s| ==> !(0xD800 <= s[i] <= 0xDFFF)
  }

  function Chars(s: PyStr): (t: string)
    requires Encodable(s)
    ensures |t| == |s| && forall i :: 0 <= i < |s| ==> t[i] as int == s[i]
  {
    seq(|s|, i requires 0 <= i < |s| => s[i] as char)
  }

  predicate FiniteFloat(f: Float) { f.ZeroFloat? || f.Finite? }

  predicate LeafAccepted(v: Value)
  {
    match v
    case Nil => true
    case Flag(_) => true
    case Integer(n) => -SAFE_INTEGER <= n <= SAFE_INTEGER
    case Real(f) => f.Valid() && FiniteFloat(f)
    case Text(s) => Encodable(s)
    case Ref(_) => false
    case Foreign(_) => false
  }

  predicate KeyAccepted(k: Key) { k.StrKey? && Encodable(k.s) }

  predicate KeysAccepted(c: Container)
  {
    c.Dict? ==> forall i :: 0 <= i < |c.entries| ==> KeyAccepted(c.entries[i].0)
  }

  const RULES: Rules := Rules(LeafAccepted, KeysAccepted)

  function LeafDoc(v: Value): Doc
    requires LeafAccepted(v)
  {
    match v
    case Nil => NullDoc
    case Flag(b) => BoolDoc(b)
    case Integer(n) => NumDoc(IntNumber(n))
    case Real(f) => NumDoc(f.Number())
    case Text(s) => StrDoc(Chars(s))
  }

  function KeyText(k: Key): string
    requires KeyAccepted(k)
  {
    Chars(k.s)
  }

  function StrMembers(es: seq<(Key, Value)>): (ms: seq<(string, Value)>)
    requires forall i :: 0 <= i < |es| ==> KeyAccepted(es[i].0)
    ensures |ms| == |es|
    ensures forall i :: 0 <= i < |es| ==> ms[i] == (KeyText(es[i].0), es[i].1)
  {
    if es == [] then [] else [(KeyText(es[0].0), es[0].1)] + StrMembers(es[1..])
  }

  lemma StrMembersDistinct(es: seq<(Key, Value)>)
    requires forall i :: 0 <= i < |es| ==> KeyAccepted(es[i].0)
    requires forall i, j :: 0 <= i < j < |es| ==> es[i].0 != es[j].0
    ensures DistinctKeys(StrMembers(es))
  {
    var ms := StrMembers(es);
    forall i, j | 0 <= i < j < |ms|
      ensures ms[i].0 != ms[j].0
    {
      assert KeyAccepted(es[i].0) && KeyAccepted(es[j].0);
      CharsInjective(es[i].0.s, es[j].0.s);
    }
  }

  lemma CharsInjective(s: PyStr, t: PyStr)
    requires Encodable(s) && Encodable(t) && s != t
    ensures Chars(s) != Chars(t)
  {
    if |s| == |t| {
      var i :| 0 <= i < |s| && s[i] != t[i];
      assert Chars(s)[i] as int != Chars(t)[i] as int;
    }
  }

  // The value an object graph unfolds to

  ghost predicate Accepted(h: Heap, v: Value, path: set<nat>)
  {
    WellFormed(h) && Known(h, v) && Clean(h, v, path, RULES)
  }

  ghost function Unfold(h: Heap, v: Value, path: set<nat>): Doc
    requires Accepted(h, v, path)
    decreases |h.Keys - path|, 0
  {
    if !v.Ref? then LeafDoc(v)
    else
      assert v.id in h.Keys - path;
      SmallerSet(h.Keys - (path + {v.id}), h.Keys - path);
      match h[v.id]
      case List(items) => ArrDoc(UnfoldItems(h, items, path + {v.id}))
      case Dict(entries) =>
        assert forall i :: 0 <= i < |entries| ==> EntryValues(entries)[i] in Children(h[v.id]);
        ObjDoc(UnfoldMembers(h, StrMembers(entries), path + {v.id}))
  }

  ghost function UnfoldItems(h: Heap, vs: seq<Value>, path: set<nat>): (ds: seq<Doc>)
    requires forall i :: 0 <= i < |vs| ==> Accepted(h, vs[i], path)
    ensures |ds| == |vs|
    decreases |h.Keys - path|, |vs|
  {
    if vs == [] then [] else [Unfold(h, vs[0], path)] + UnfoldItems(h, vs[1..], path)
  }

  ghost function UnfoldMembers(h: Heap, ms: seq<(string, Value)>, path: set<nat>): (ds: seq<(string, Doc)>)
    requires forall i :: 0 <= i < |ms| ==> Accepted(h, ms[i].1, path)
    ensures |ds| == |ms|
    decreases |h.Keys - path|, |ms|
  {
    if ms == [] then [] else [(ms[0].0, Unfold(h, ms[0].1, path))] + UnfoldMembers(h, ms[1..], path)
  }

  // The serializer as a function

  function FirstKeyFault(es: seq<(Key, Value)>): (r: Option<Fault>)
    ensures r.None? <==> forall i :: 0 <= i < |es| ==> KeyAccepted(es[i].0)
  {
    if es == [] then None
    else if !es[0].0.StrKey? then Some(KeyNotString)
    else if !Encodable(es[0].0.s) then Some(BadUnicode)
    else
      assert forall i :: 0 < i < |es| ==> es[i] == es[1..][i-1];
      FirstKeyFault(es[1..])
  }

  function LeafText(v: Value): Result<string>
    requires FloatOk(v)
  {
    match v
    case Nil => Ok("null")
    case Flag(b) => Ok(if b then "true" else "false")
    case Integer(n) => if -SAFE_INTEGER <= n <= SAFE_INTEGER then Ok(IntText(n)) else Err(UnsafeInteger)
    case Real(f) => if FiniteFloat(f) then Ok(EcmaText(f.Number())) else Err(NotFinite)
    case Text(s) => if Encodable(s) then Ok(Quote(Chars(s))) else Err(BadUnicode)
    case Ref(_) => Err(UnsupportedType)
    case Foreign(_) => Err(UnsupportedType)
  }

  ghost predicate Readable(h: Heap, v: Value)
  {
    WellFormed(h) && Known(h, v) && FloatOk(v)
  }

  lemma EntriesReadable(h: Heap, es: seq<(Key, Value)>)
    requires WellFormed(h) && WellFormedContainer(h, Dict(es))
    requires forall i :: 0 <= i < |es| ==> KeyAccepted(es[i].0)
    ensures forall i :: 0 <= i < |es| ==> Readable(h, Sort(StrMembers(es), KeyLess)[i].1)
    ensures forall i :: 0 <= i < |es| ==> Readable(h, StrMembers(es)[i].1)
  {
    hide WellFormed, KeyLess, Sort;
    var ms := StrMembers(es);
    forall i | 0 <= i < |es|
      ensures Readable(h, ms[i].1)
    {
      assert EntryValues(es)[i] in Children(Dict(es));
    }
    forall i | 0 <= i < |es|
      ensures Readable(h, Sort(ms, KeyLess)[i].1)
    {
      SortMembers(ms, KeyLess, Sort(ms, KeyLess)[i]);
      var j :| 0 <= j < |ms| && ms[j] == Sort(ms, KeyLess)[i];
    }
  }

  ghost function Jcs(h: Heap, v: Value, active: set<nat>): Result<string>
    requires Readable(h, v)
    decreases |h.Keys - active|, 0
  {
    if !v.Ref? then LeafText(v)
    else if v.id in active then Err(Circular)
    else
      assert v.id in h.Keys - active;
      SmallerSet(h.Keys - (active + {v.id}), h.Keys - active);
      assert WellFormedContainer(h, h[v.id]);
      match h[v.id]
      case List(items) => ArrayText(JcsItems(h, items, active + {v.id}))
      case Dict(entries) =>
        var fault := FirstKeyFault(entries);
        if fault.Some? then Err(fault.value)
        else
          EntriesReadable(h, entries);
          ObjectText(JcsMembers(h, Sort(StrMembers(entries), KeyLess), active + {v.id}))
  }

  function ArrayText(r: Result<seq<string>>): Result<string>
  {
    if r.Err? then Err(r.fault) else Ok(['['] + Join(r.value) + [']'])
  }

  function ObjectText(r: Result<seq<(string, string)>>): Result<string>
  {
    if r.Err? then Err(r.fault) else Ok(['{'] + Join(MemberTexts(r.value)) + ['}'])
  }

  ghost function JcsItems(h: Heap, vs: seq<Value>, active: set<nat>): Result<seq<string>>
    requires forall i :: 0 <= i < |vs| ==> Readable(h, vs[i])
    decreases |h.Keys - active|, |vs|
  {
    if vs == [] then Ok([])
    else
      var first := Jcs(h, vs[0], active);
      if first.Err? then Err(first.fault)
      else
        var rest := JcsItems(h, vs[1..], active);
        if rest.Err? then rest else Ok([first.value] + rest.value)
  }

  ghost function JcsMembers(h: Heap, ms: seq<(string, Value)>, active: set<nat>): Result<seq<(string, string)>>
    requires forall i :: 0 <= i < |ms| ==> Readable(h, ms[i].1)
    decreases |h.Keys - active|, |ms|
  {
    if ms == [] then Ok([])
    else
      var first := Jcs(h, ms[0].1, active);
      if first.Err? then Err(first.fault)
      else
        var rest := JcsMembers(h, ms[1..], active);
        if rest.Err? then rest else Ok([(ms[0].0, first.value)] + rest.value)
  }

  // The serializer prints the value the graph unfolds to

  lemma LeafAgrees(v: Value)
    requires FloatOk(v) && !v.Ref?
    ensures LeafText(v).Ok? <==> LeafAccepted(v)
    ensures LeafAccepted(v) ==> Valid(LeafDoc(v)) && LeafText(v) == Ok(Print(LeafDoc(v)))
  {
    hide EcmaText, IntNumber, IntText;
    if v.Integer? && LeafAccepted(v) {
      IntTextIsEcma(v.n);
    }
  }

  /** What the serializer returns for an accepted value, and that it fails otherwise. */
  ghost predicate Agrees(h: Heap, v: Value, path: set<nat>)
    requires Readable(h, v)
  {
    if Clean(h, v, path, RULES)
    then Valid(Unfold(h, v, path)) && Jcs(h, v, path) == Ok(Print(Unfold(h, v, path)))
    else Jcs(h, v, path).Err?
  }

  lemma {:induction false} ItemsAgree(h: Heap, vs: seq<Value>, path: set<nat>)
    requires forall i :: 0 <= i < |vs| ==> Readable(h, vs[i]) && Agrees(h, vs[i], path)
    ensures JcsItems(h, vs, path).Ok? <==> forall i :: 0 <= i < |vs| ==> Accepted(h, vs[i], path)
    ensures JcsItems(h, vs, path).Ok? ==>
              var ds := UnfoldItems(h, vs, path);
              (forall i :: 0 <= i < |ds| ==> Valid(ds[i])) && JcsItems(h, vs, path).value == PrintItems(ds)
  {
    hide Clean, WellFormed, Print, Jcs, Unfold, Valid;
    if vs != [] {
      ItemsAgree(h, vs[1..], path);
      assert forall i :: 0 < i < |vs| ==> vs[i] == vs[1..][i-1];
      assert Agrees(h, vs[0], path);
      if JcsItems(h, vs, path).Ok? {
        assert UnfoldItems(h, vs, path)[1..] == UnfoldItems(h, vs[1..], path);
      }
    }
  }

  /** The canonical text below a path, for use as an item map. */
  ghost function TextOf(h: Heap, v: Value, path: set<nat>): string
  {
    if Accepted(h, v, path) && Valid(Unfold(h, v, path)) then Print(Unfold(h, v, path)) else ""
  }

  lemma {:induction false} MembersAgree(h: Heap, ms: seq<(string, Value)>, path: set<nat>)
    requires forall i :: 0 <= i < |ms| ==> Readable(h, ms[i].1) && Agrees(h, ms[i].1, path)
    ensures JcsMembers(h, ms, path).Ok? <==> AllAccepted(h, ms, path)
    ensures JcsMembers(h, ms, path).Ok? ==>
              JcsMembers(h, ms, path).value == MapItems(v => TextOf(h, v, path), ms)
  {
    hide Clean, WellFormed, Print, Jcs, Unfold, Valid;
    if ms != [] {
      MembersAgree(h, ms[1..], path);
      assert forall i :: 0 < i < |ms| ==> ms[i] == ms[1..][i-1];
      assert Agrees(h, ms[0].1, path);
    }
  }

  lemma {:induction false} UnfoldedMembers(h: Heap, ms: seq<(string, Value)>, path: set<nat>)
    requires forall i :: 0 <= i < |ms| ==>
        Readable(h, ms[i].1) && Agrees(h, ms[i].1, path) && Accepted(h, ms[i].1, path)
    ensures var ds := UnfoldMembers(h, ms, path);
            && (forall i :: 0 <= i < |ds| ==> ds[i].0 == ms[i].0 && Valid(ds[i].1))
            && PrintMembers(ds) == MapItems(v => TextOf(h, v, path), ms)
  {
    hide Clean, WellFormed, Print, Jcs, Unfold, Valid;
    if ms != [] {
      UnfoldedMembers(h, ms[1..], path);
      assert forall i :: 0 < i < |ms| ==> ms[i] == ms[1..][i-1];
      assert Agrees(h, ms[0].1, path);
      var ds := UnfoldMembers(h, ms, path);
      assert ds[1..] == UnfoldMembers(h, ms[1..], path);
      assert forall i :: 0 < i < |ds| ==> ds[i] == ds[1..][i-1];
    }
  }

  lemma DictAgrees(h: Heap, es: seq<(Key, Value)>, path: set<nat>)
    requires WellFormed(h) && WellFormedContainer(h, Dict(es))
    requires forall i :: 0 <= i < |es| ==> KeyAccepted(es[i].0)
    requires forall i :: 0 <= i < |es| ==> Readable(h, es[i].1) && Agrees(h, es[i].1, path)
    ensures forall i :: 0 <= i < |es| ==> Readable(h, Sort(StrMembers(es), KeyLess)[i].1)
    ensures JcsMembers(h, Sort(StrMembers(es), KeyLess), path).Ok? <==> AllAccepted(h, StrMembers(es), path)
    ensures JcsMembers(h, Sort(StrMembers(es), KeyLess), path).Ok? ==>
              var ds := UnfoldMembers(h, StrMembers(es), path);
              Valid(ObjDoc(ds)) &&
              JcsMembers(h, Sort(StrMembers(es), KeyLess), path).value == Sort(PrintMembers(ds), KeyLess)
  {
    hide Clean, WellFormed, Print, Jcs, Unfold, KeyLess, Agrees, Sort;
    EntriesReadable(h, es);
    var ms := StrMembers(es);
    var sorted := Sort(ms, KeyLess);
    forall i | 0 <= i < |sorted|
      ensures Agrees(h, sorted[i].1, path)
    {
      SortMembers(ms, KeyLess, sorted[i]);
      var j :| 0 <= j < |ms| && ms[j] == sorted[i];
    }
    MembersAgree(h, sorted, path);
    SameAccepted(h, ms, path);
    if JcsMembers(h, sorted, path).Ok? {
      UnfoldedMembers(h, ms, path);
      SortCommutesWithMap(v => TextOf(h, v, path), ms, KeyLess);
      StrMembersDistinct(es);
    }
  }

  ghost predicate AllAccepted(h: Heap, ms: seq<(string, Value)>, path: set<nat>)
  {
    forall i :: 0 <= i < |ms| ==> Accepted(h, ms[i].1, path)
  }

  lemma SameAccepted(h: Heap, ms: seq<(string, Value)>, path: set<nat>)
    ensures AllAccepted(h, Sort(ms, KeyLess), path) <==> AllAccepted(h, ms, path)
  {
    hide Accepted, KeyLess, Sort;
    var sorted := Sort(ms, KeyLess);
    if AllAccepted(h, ms, path) {
      forall i | 0 <= i < |sorted|
        ensures Accepted(h, sorted[i].1, path)
      {
        SortMembers(ms, KeyLess, sorted[i]);
        var j :| 0 <= j < |ms| && ms[j] == sorted[i];
      }
    }
    if AllAccepted(h, sorted, path) {
      forall i | 0 <= i < |ms|
        ensures Accepted(h, ms[i].1, path)
      {
        SortMembers(ms, KeyLess, ms[i]);
        var j :| 0 <= j < |sorted| && sorted[j] == ms[i];
      }
    }
  }

  /** For every object graph, cyclic or shared: the serializer succeeds exactly on the
      values it must accept, and then returns the canonical text of the unfolded value. */
  lemma {:induction false} SerializerAgrees(h: Heap, v: Value, path: set<nat>)
    requires Readable(h, v)
    ensures Agrees(h, v, path)
    decreases |h.Keys - path|
  {
    if !v.Ref? {
      LeafAgrees(v);
    } else if v.id !in path {
      SmallerSet(h.Keys - (path + {v.id}), h.Keys - path);
      var c := h[v.id];
      assert WellFormedContainer(h, c);
      forall child | child in Children(c)
        ensures Readable(h, child) && Agrees(h, child, path + {v.id})
      {
        SerializerAgrees(h, child, path + {v.id});
      }
      ContainerAgrees(h, v.id, path);
    }
  }

  lemma ContainerAgrees(h: Heap, id: nat, path: set<nat>)
    requires WellFormed(h) && id in h && id !in path
    requires forall child :: child in Children(h[id]) ==> Readable(h, child) && Agrees(h, child, path + {id})
    ensures Agrees(h, Ref(id), path)
  {
    assert WellFormedContainer(h, h[id]);
    CleanContainer(h, id, path);
    hide Agrees, Clean, WellFormed, WellFormedContainer;
    if h[id].List? {
      ListAgrees(h, id, path);
    } else {
      EntriesAgree(h, id, path);
    }
  }

  /** One unfolding of the recursive check, by index. */
  lemma CleanContainer(h: Heap, id: nat, path: set<nat>)
    requires WellFormed(h) && id in h && id !in path
    ensures var vs := Children(h[id]);
            Clean(h, Ref(id), path, RULES) <==>
            KeysAccepted(h[id]) && forall i :: 0 <= i < |vs| ==> Accepted(h, vs[i], path + {id})
  {
    var vs := Children(h[id]);
    assert forall c :: c in vs ==> exists i :: 0 <= i < |vs| && vs[i] == c;
    assert forall i :: 0 <= i < |vs| ==> vs[i] in vs;
  }

  lemma ListAgrees(h: Heap, id: nat, path: set<nat>)
    requires WellFormed(h) && id in h && id !in path && h[id].List?
    requires forall child :: child in Children(h[id]) ==> Readable(h, child) && Agrees(h, child, path + {id})
    requires var vs := Children(h[id]);
             Clean(h, Ref(id), path, RULES) <==>
             KeysAccepted(h[id]) && forall i :: 0 <= i < |vs| ==> Accepted(h, vs[i], path + {id})
    ensures Agrees(h, Ref(id), path)
  {
    hide WellFormed, Clean, JcsItems, UnfoldItems;
    var items := h[id].items;
    assert forall i :: 0 <= i < |items| ==> items[i] in Children(h[id]);
    ItemsAgree(h, items, path + {id});
  }

  lemma EntriesAgree(h: Heap, id: nat, path: set<nat>)
    requires WellFormed(h) && id in h && id !in path && h[id].Dict? && WellFormedContainer(h, h[id])
    requires forall child :: child in Children(h[id]) ==> Readable(h, child) && Agrees(h, child, path + {id})
    requires var vs := Children(h[id]);
             Clean(h, Ref(id), path, RULES) <==>
             KeysAccepted(h[id]) && forall i :: 0 <= i < |vs| ==> Accepted(h, vs[i], path + {id})
    ensures Agrees(h, Ref(id), path)
  {
    hide WellFormed, Clean, JcsMembers, UnfoldMembers, Sort, KeyLess, PrintMembers, EntryValues, StrMembers, Accepted,
      LeafDoc;
    var es, path' := h[id].entries, path + {id};
    forall i | 0 <= i < |es|
      ensures Readable(h, es[i].1) && Agrees(h, es[i].1, path')
    {
      assert EntryValues(es)[i] in Children(h[id]);
    }
    if KeysAccepted(h[id]) {
      hide Agrees;
      DictAgrees(h, es, path');
      SameEntries(h, es, path');
      DictConcludes(h, id, path);
    }
  }

  lemma SameEntries(h: Heap, es: seq<(Key, Value)>, path: set<nat>)
    requires forall i :: 0 <= i < |es| ==> KeyAccepted(es[i].0)
    ensures AllAccepted(h, StrMembers(es), path) <==>
            forall i :: 0 <= i < |EntryValues(es)| ==> Accepted(h, EntryValues(es)[i], path)
  {
    hide Accepted;
    assert forall i :: 0 <= i < |es| ==> StrMembers(es)[i].1 == EntryValues(es)[i];
  }

  lemma DictConcludes(h: Heap, id: nat, path: set<nat>)
    requires WellFormed(h) && id in h && id !in path && h[id].Dict? && KeysAccepted(h[id])
    requires var es, path' := h[id].entries, path + {id};
             && (forall i :: 0 <= i < |es| ==> Readable(h, Sort(StrMembers(es), KeyLess)[i].1))
             && (Clean(h, Ref(id), path, RULES) <==> AllAccepted(h, StrMembers(es), path'))
             && (JcsMembers(h, Sort(StrMembers(es), KeyLess), path').Ok? <==> AllAccepted(h, StrMembers(es), path'))
             && (AllAccepted(h, StrMembers(es), path') ==>
                   var ds := UnfoldMembers(h, StrMembers(es), path');
                   Valid(ObjDoc(ds)) &&
                   JcsMembers(h, Sort(StrMembers(es), KeyLess), path').value == Sort(PrintMembers(ds), KeyLess))
    ensures Agrees(h, Ref(id), path)
  {
    hide WellFormed, Clean, JcsMembers, UnfoldMembers, Sort, KeyLess, PrintMembers, StrMembers;
  }

  /** canonical_json succeeds exactly on acyclic graphs of I-JSON values. */
  lemma SucceedsIffSound(h: Heap, v: Value)
    requires Readable(h, v)
    ensures Jcs(h, v, {}).Ok? <==> Sound(h, v, RULES)
  {
    hide WellFormed, Clean, Sound, Jcs;
    SerializerAgrees(h, v, {});
    CleanIffSound(h, v, RULES);
  }

  /** The JSON value of a serializable object graph. */
  ghost function JsonValue(h: Heap, v: Value): Json
    requires Readable(h, v) && Sound(h, v, RULES)
  {
    CleanIffSound(h, v, RULES);
    Meaning(Unfold(h, v, {}))
  }

  /** Two object graphs have the same canonical text exactly when they are the same JSON
      value, however they share, nest or order their parts. */
  lemma SameCanonicalIffSameJson(h1: Heap, v1: Value, h2: Heap, v2: Value)
    requires Readable(h1, v1) && Readable(h2, v2) && Sound(h1, v1, RULES) && Sound(h2, v2, RULES)
    ensures Jcs(h1, v1, {}) == Jcs(h2, v2, {}) <==> JsonValue(h1, v1) == JsonValue(h2, v2)
  {
    hide WellFormed, Clean, Sound, Jcs, Unfold, Print, Meaning, Valid;
    CleanIffSound(h1, v1, RULES);
    CleanIffSound(h2, v2, RULES);
    SerializerAgrees(h1, v1, {});
    SerializerAgrees(h2, v2, {});
    SameTextIffSameValue(Unfold(h1, v1, {}), Unfold(h2, v2, {}));
  }

  /** Parsing the canonical text recovers the JSON value. */
  lemma ParseInvertsCanonical(h: Heap, v: Value)
    requires Readable(h, v) && Sound(h, v, RULES)
    ensures Jcs(h, v, {}).Ok? && Parse(Jcs(h, v, {}).value) == Some(JsonValue(h, v))
  {
    hide WellFormed, Clean, Sound, Jcs, Unfold, Print, Meaning, Valid, Parse;
    CleanIffSound(h, v, RULES);
    SerializerAgrees(h, v, {});
    ParseInvertsPrint(Unfold(h, v, {}));
  }

  // What the text of each kind of value is

  lemma {:induction false} MembersAt(h: Heap, ms: seq<(string, Value)>, active: set<nat>, i: nat)
    requires forall j :: 0 <= j < |ms| ==> Readable(h, ms[j].1)
    requires JcsMembers(h, ms, active).Ok? && i < |ms|
    ensures |JcsMembers(h, ms, active).value| == |ms| && Jcs(h, ms[i].1, active).Ok?
    ensures JcsMembers(h, ms, active).value[i] == (ms[i].0, Jcs(h, ms[i].1, active).value)
    decreases ms
  {
    hide Jcs, Readable;
    assert forall j :: 0 < j < |ms| ==> ms[j] == ms[1..][j-1];
    if i > 0 {
      MembersAt(h, ms[1..], active, i - 1);
    } else if |ms| > 1 {
      MembersAt(h, ms[1..], active, 0);
    }
  }

  /** A dictionary prints exactly its entries, each once, in ascending order of the UTF-16 code
      units of their keys. */
  lemma DictionaryPrintsInUnitOrder(h: Heap, id: nat, active: set<nat>) returns (ps: seq<(string, string)>)
    requires Readable(h, Ref(id)) && h[id].Dict? && Jcs(h, Ref(id), active).Ok?
    ensures Jcs(h, Ref(id), active).value == ['{'] + Join(MemberTexts(ps)) + ['}'] && |ps| == |h[id].entries|
    ensures forall i, j :: 0 <= i < j < |ps| ==> KeyOrder.Less(KeyOrder.Units(ps[i].0), KeyOrder.Units(ps[j].0))
    ensures forall i :: 0 <= i < |h[id].entries| ==>
              var e := h[id].entries[i];
              && e.0.StrKey? && Encodable(e.0.s) && Readable(h, e.1) && Jcs(h, e.1, active + {id}).Ok?
              && (Chars(e.0.s), Jcs(h, e.1, active + {id}).value) in ps
  {
    var es := h[id].entries;
    assert WellFormedContainer(h, h[id]);
    EntriesReadable(h, es);
    var ms := StrMembers(es);
    var sorted := Sort(ms, KeyLess);
    StrMembersDistinct(es);
    ps := JcsMembers(h, sorted, active + {id}).value;
    hide Jcs, WellFormed, WellFormedContainer, Sort, KeyLess, JcsMembers, KeyOrder.Less, KeyOrder.Units;
    if sorted != [] {
      MembersAt(h, sorted, active + {id}, 0);
    }
    forall i, j | 0 <= i < j < |ps|
      ensures KeyOrder.Less(KeyOrder.Units(ps[i].0), KeyOrder.Units(ps[j].0))
    {
      SortedByUnits(ms, i, j);
      MembersAt(h, sorted, active + {id}, i);
      MembersAt(h, sorted, active + {id}, j);
    }
    forall i | 0 <= i < |es|
      ensures es[i].0.StrKey? && Encodable(es[i].0.s) && Readable(h, es[i].1)
      ensures Jcs(h, es[i].1, active + {id}).Ok?
      ensures (Chars(es[i].0.s), Jcs(h, es[i].1, active + {id}).value) in ps
    {
      SortMembers(ms, KeyLess, ms[i]);
      var j :| 0 <= j < |sorted| && sorted[j] == ms[i];
      MembersAt(h, sorted, active + {id}, j);
      assert ps[j] in ps;
    }
  }

  /** The texts of atoms: the three names, ints exactly within the range that binary64 holds
      exactly, finite floats, and strings without surrogates. */
  lemma AtomTexts(h: Heap, v: Value, active: set<nat>)
    requires Readable(h, v) && !v.Ref?
    ensures v.Nil? ==> Jcs(h, v, active) == Ok("null")
    ensures v.Flag? ==> Jcs(h, v, active) == Ok(if v.b then "true" else "false")
    ensures v.Integer? ==> (Jcs(h, v, active).Ok? <==> -9007199254740991 <= v.n <= 9007199254740991)
    ensures v.Real? ==> (Jcs(h, v, active).Ok? <==> !v.f.NotANumber? && !v.f.Infinite?)
    ensures v.Text? ==> (Jcs(h, v, active).Ok? <==> forall i :: 0 <= i < |v.s| ==> v.s[i] < 0xD800 || v.s[i] > 0xDFFF)
    ensures v.Foreign? ==> Jcs(h, v, active).Err?
  {
    hide EcmaText, IntText, Quote;
  }

  // The serializer as code

  method QuoteString(value: PyStr) returns (r: Result<string>)
    ensures r == if Encodable(value) then Ok(Quote(Chars(value))) else Err(BadUnicode)
  {
    if !Encodable(value) {
      return Err(BadUnicode);
    }
    hide Escape;
    var text := Chars(value);
    var parts := ['\"'];
    assert EscapeAll(text[..0]) == "";
    for i := 0 to |text|
      invariant parts == ['\"'] + EscapeAll(text[..i])
    {
      parts := parts + Escape(text[i]);
      EscapeAppend(text[..i], text[i]);
      assert text[..i+1] == text[..i] + [text[i]];
    }
    assert text[..|text|] == text;
    r := Ok(parts + ['\"']);
  }

  lemma {:induction false} EscapeAppend(s: string, c: char)
    ensures EscapeAll(s + [c]) == EscapeAll(s) + Escape(c)
  {
    hide Escape;
    if s == "" {
      assert [c][1..] == "";
      assert s + [c] == [c];
    } else {
      assert (s + [c])[1..] == s[1..] + [c];
      EscapeAppend(s[1..], c);
    }
  }

  function Prepend<T>(parts: seq<T>, r: Result<seq<T>>): Result<seq<T>>
  {
    if r.Err? then r else Ok(parts + r.value)
  }

  lemma PrependNothing<T>(r: Result<seq<T>>)
    ensures Prepend([], r) == r
  {
    if r.Ok? {
      assert [] + r.value == r.value;
    }
  }

  lemma ItemsStep(h: Heap, vs: seq<Value>, active: set<nat>, i: nat, parts: seq<string>)
    requires (forall j :: 0 <= j < |vs| ==> Readable(h, vs[j])) && i < |vs|
    ensures var first := Jcs(h, vs[i], active);
            Prepend(parts, JcsItems(h, vs[i..], active)) ==
            if first.Err? then Err(first.fault)
            else Prepend(parts + [first.value], JcsItems(h, vs[i+1..], active))
  {
    hide Readable, Jcs;
    assert vs[i..][1..] == vs[i+1..] && vs[i..][0] == vs[i];
    var first, rest := Jcs(h, vs[i], active), JcsItems(h, vs[i+1..], active);
    if first.Ok? && rest.Ok? {
      assert parts + ([first.value] + rest.value) == parts + [first.value] + rest.value;
    }
  }

  lemma MembersStep(h: Heap, ms: seq<(string, Value)>, active: set<nat>, i: nat, parts: seq<(string, string)>)
    requires (forall j :: 0 <= j < |ms| ==> Readable(h, ms[j].1)) && i < |ms|
    ensures var first := Jcs(h, ms[i].1, active);
            Prepend(parts, JcsMembers(h, ms[i..], active)) ==
            if first.Err? then Err(first.fault)
            else Prepend(parts + [(ms[i].0, first.value)], JcsMembers(h, ms[i+1..], active))
  {
    hide Readable, Jcs;
    assert ms[i..][1..] == ms[i+1..] && ms[i..][0] == ms[i];
    var first, rest := Jcs(h, ms[i].1, active), JcsMembers(h, ms[i+1..], active);
    if first.Ok? && rest.Ok? {
      assert parts + ([(ms[i].0, first.value)] + rest.value) == parts + [(ms[i].0, first.value)] + rest.value;
    }
  }

  /** The serializer of one canonical_json call, with its set of active containers. */
  class Serializer {
    const h: Heap
    var active: set<nat>

    constructor (h: Heap)
      ensures this.h == h && active == {}
    {
      this.h := h;
      active := {};
    }

    method SerializeJcs(v: Value) returns (r: Result<string>)
      requires Readable(h, v)
      modifies this
      ensures active == old(active)
      ensures r == Jcs(h, v, active)
      decreases |h.Keys - active|, 1
    {
      match v
      case Nil => r := Ok("null");
      case Flag(b) => r := Ok(if b then "true" else "false");
      case Text(s) => r := QuoteString(s);
      case Integer(n) =>
        if !(-SAFE_INTEGER <= n <= SAFE_INTEGER) {
          r := Err(UnsafeInteger);
        } else {
          r := Ok(IntText(n));
        }
      case Real(f) =>
        var t := SerializeBinary64(f);
        r := if t.Some? then Ok(t.value) else Err(NotFinite);
      case Ref(id) =>
        match h[id] {
          case List(_) => r := SerializeArray(id);
          case Dict(_) => r := SerializeObject(id);
        }
      case Foreign(_) => r := Err(UnsupportedType);
    }

    method SerializeArray(id: nat) returns (r: Result<string>)
      requires Readable(h, Ref(id)) && h[id].List?
      modifies this
      ensures active == old(active)
      ensures r == Jcs(h, Ref(id), active)
      decreases |h.Keys - active|, 0
    {
      if id in active {
        return Err(Circular);
      }
      SmallerSet(h.Keys - (active + {id}), h.Keys - active);
      assert WellFormedContainer(h, h[id]);
      active := active + {id};
      var items := h[id].items;
      assert forall i :: 0 <= i < |items| ==> items[i] in Children(h[id]);
      hide JcsItems;
      var texts := SerializeItems(items);
      active := active - {id};
      assert active == old(active);
      r := ArrayText(texts);
    }

    method SerializeItems(items: seq<Value>) returns (r: Result<seq<string>>)
      requires forall i :: 0 <= i < |items| ==> Readable(h, items[i])
      modifies this
      ensures active == old(active)
      ensures r == JcsItems(h, items, active)
      decreases |h.Keys - active|, 2
    {
      hide Readable, Jcs;
      var parts: seq<string> := [];
      assert items[0..] == items;
      PrependNothing(JcsItems(h, items, active));
      for i := 0 to |items|
        invariant active == old(active)
        invariant JcsItems(h, items, active) == Prepend(parts, JcsItems(h, items[i..], active))
      {
        ItemsStep(h, items, active, i, parts);
        var text := SerializeJcs(items[i]);
        if text.Err? {
          return Err(text.fault);
        }
        parts := parts + [text.value];
      }
      assert parts + [] == parts;
      r := Ok(parts);
    }

    method SerializeObject(id: nat) returns (r: Result<string>)
      requires Readable(h, Ref(id)) && h[id].Dict?
      modifies this
      ensures active == old(active)
      ensures r == Jcs(h, Ref(id), active)
      decreases |h.Keys - active|, 0
    {
      if id in active {
        return Err(Circular);
      }
      SmallerSet(h.Keys - (active + {id}), h.Keys - active);
      assert WellFormedContainer(h, h[id]);
      active := active + {id};
      var entries := h[id].entries;
      var fault := CheckKeys(entries);
      if fault.Some? {
        active := active - {id};
        assert active == old(active);
        return Err(fault.value);
      }
      EntriesReadable(h, entries);
      var items := Sort(StrMembers(entries), KeyLess);
      hide Sort, StrMembers, KeyLess, JcsMembers;
      var members := SerializeMembers(items);
      active := active - {id};
      assert active == old(active);
      r := ObjectText(members);
    }

    method SerializeMembers(items: seq<(string, Value)>) returns (r: Result<seq<(string, string)>>)
      requires forall i :: 0 <= i < |items| ==> Readable(h, items[i].1)
      modifies this
      ensures active == old(active)
      ensures r == JcsMembers(h, items, active)
      decreases |h.Keys - active|, 2
    {
      hide Readable, Jcs;
      var members: seq<(string, string)> := [];
      assert items[0..] == items;
      PrependNothing(JcsMembers(h, items, active));
      for i := 0 to |items|
        invariant active == old(active)
        invariant JcsMembers(h, items, active) == Prepend(members, JcsMembers(h, items[i..], active))
      {
        MembersStep(h, items, active, i, members);
        var text := SerializeJcs(items[i].1);
        if text.Err? {
          return Err(text.fault);
        }
        members := members + [(items[i].0, text.value)];
      }
      assert members + [] == members;
      r := Ok(members);
    }

    method CheckKeys(entries: seq<(Key, Value)>) returns (fault: Option<Fault>)
      ensures fault == FirstKeyFault(entries)
    {
      assert entries[0..] == entries;
      for i := 0 to |entries|
        invariant FirstKeyFault(entries) == FirstKeyFault(entries[i..])
      {
        assert entries[i..][1..] == entries[i+1..] && entries[i..][0] == entries[i];
        if !entries[i].0.StrKey? {
          return Some(KeyNotString);
        }
        if !Encodable(entries[i].0.s) {
          return Some(BadUnicode);
        }
      }
      fault := None;
    }
  }

  /** One canonical_json call. */
  method CanonicalText(h: Heap, v: Value) returns (r: Result<string>)
    requires Readable(h, v)
    ensures r == Jcs(h, v, {})
  {
    var serializer := new Serializer(h);
    r := serializer.SerializeJcs(v);
  }
}
