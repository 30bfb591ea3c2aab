/** RFC 8785 canonical JSON text of an ordered document, a parser that undoes it, and the
    theorem that two documents print alike exactly when they are the same JSON value. */
module CanonicalJson {
  import opened Wrappers
  import opened DecimalNumber
  import opened KeyOrder
  import opened Sorting

  /** A JSON value: objects are finite maps, numbers are exact. */
  datatype Json =
    | Null
    | Bool(b: bool)
    | Str(s: string)
    | Num(n: Number)
    | Arr(items: seq<Json>)
    | Obj(members: map<string, Json>)

  /** A JSON document as a program holds it: object members in insertion order. */
  datatype Doc =
    | NullDoc
    | BoolDoc(b: bool)
    | StrDoc(s: string)
    | NumDoc(n: Number)
    | ArrDoc(items: seq<Doc>)
    | ObjDoc(members: seq<(string, Doc)>)

  predicate Valid(d: Doc)
  {
    match d
    case NumDoc(n) => n.Valid()
    case ArrDoc(items) => forall i :: 0 <= i < |items| ==> Valid(items[i])
    case ObjDoc(members) =>
      DistinctKeys(members) && forall i :: 0 <= i < |members| ==> Valid(members[i].1)
    case _ => true
  }

  /** The JSON value a document stands for. */
  function Meaning(d: Doc): Json
  {
    match d
    case NullDoc => Null
    case BoolDoc(b) => Bool(b)
    case StrDoc(s) => Str(s)
    case NumDoc(n) => Num(n)
    case ArrDoc(items) => Arr(Meanings(items))
    case ObjDoc(members) => Obj(MemberMap(members))
  }

  function Meanings(ds: seq<Doc>): (js: seq<Json>)
    ensures |js| == |ds|
    ensures forall i :: 0 <= i < |ds| ==> js[i] == Meaning(ds[i])
  {
    if ds == [] then [] else [Meaning(ds[0])] + Meanings(ds[1..])
  }

  function MemberMap(ms: seq<(string, Doc)>): map<string, Json>
  {
    if ms == [] then map[] else
      var m := ms[0];
      assert m.1 < m;
      MemberMap(ms[1..])[m.0 := Meaning(m.1)]
  }

  // Printing

  function HexChar(d: int): char
    requires 0 <= d < 16
  {
    if d < 10 then (d + '0' as int) as char else (d - 10 + 'a' as int) as char
  }

  /** One character inside a string literal. */
  function Escape(c: char): (t: string)
    ensures t != ""
  {
    if c == '\U{0008}' then ['\\', 'b']
    else if c == '\t' then ['\\', 't']
    else if c == '\n' then ['\\', 'n']
    else if c == '\U{000C}' then ['\\', 'f']
    else if c == '\r' then ['\\', 'r']
    else if c == '\"' then ['\\', '\"']
    else if c == '\\' then ['\\', '\\']
    else if c < ' ' then ['\\', 'u', '0', '0', HexChar(c as int / 16), HexChar(c as int % 16)]
    else [c]
  }

  function EscapeAll(s: string): string
  {
    if s == "" then "" else Escape(s[0]) + EscapeAll(s[1..])
  }

  function Quote(s: string): string
  {
    ['\"'] + EscapeAll(s) + ['\"']
  }

  function KeyLess(a: string, b: string): bool
  {
    Less(SortKey(a), SortKey(b))
  }

  function Print(d: Doc): string
    requires Valid(d)
  {
    match d
    case NullDoc => "null"
    case BoolDoc(b) => if b then "true" else "false"
    case StrDoc(s) => Quote(s)
    case NumDoc(n) => EcmaText(n)
    case ArrDoc(items) => ['['] + Join(PrintItems(items)) + [']']
    case ObjDoc(members) =>
      ['{'] + Join(MemberTexts(Sort(PrintMembers(members), KeyLess))) + ['}']
  }

  function PrintItems(ds: seq<Doc>): (ts: seq<string>)
    requires forall i :: 0 <= i < |ds| ==> Valid(ds[i])
    ensures |ts| == |ds|
    ensures forall i :: 0 <= i < |ds| ==> ts[i] == Print(ds[i])
  {
    if ds == [] then [] else [Print(ds[0])] + PrintItems(ds[1..])
  }

  function PrintMembers(ms: seq<(string, Doc)>): (ps: seq<(string, string)>)
    requires forall i :: 0 <= i < |ms| ==> Valid(ms[i].1)
    ensures |ps| == |ms|
  {
    if ms == [] then [] else
      var m := ms[0];
      assert m.1 < m;
      [(m.0, Print(m.1))] + PrintMembers(ms[1..])
  }

  function MemberText(p: (string, string)): string
  {
    Quote(p.0) + [':'] + p.1
  }

  function MemberTexts(ps: seq<(string, string)>): (ts: seq<string>)
    ensures |ts| == |ps|
  {
    if ps == [] then [] else [MemberText(ps[0])] + MemberTexts(ps[1..])
  }

  /** Python's ",".join. */
  function Join(ts: seq<string>): string
  {
    if ts == [] then "" else if |ts| == 1 then ts[0] else ts[0] + [','] + Join(ts[1..])
  }

  // Parsing

  function HexValue(c: char): Option<int>
  {
    if '0' <= c <= '9' then Some(c as int - '0' as int)
    else if 'a' <= c <= 'f' then Some(c as int - 'a' as int + 10)
    else None
  }

  /** Reads one character of a string literal. */
  function ReadChar(s: string): (r: Option<(char, string)>)
    requires s != ""
    ensures r.Some? ==> |r.value.1| < |s|
  {
    if s[0] != '\\' then (if s[0] < ' ' then None else Some((s[0], s[1..])))
    else if |s| < 2 then None
    else if s[1] == 'b' then Some(('\U{0008}', s[2..]))
    else if s[1] == 't' then Some(('\t', s[2..]))
    else if s[1] == 'n' then Some(('\n', s[2..]))
    else if s[1] == 'f' then Some(('\U{000C}', s[2..]))
    else if s[1] == 'r' then Some(('\r', s[2..]))
    else if s[1] == '\"' then Some(('\"', s[2..]))
    else if s[1] == '\\' then Some(('\\', s[2..]))
    else if s[1] == 'u' && |s| >= 6 && s[2] == '0' && s[3] == '0' then
      var hi, lo := HexValue(s[4]), HexValue(s[5]);
      if hi.Some? && lo.Some? then Some(((16 * hi.value + lo.value) as char, s[6..])) else None
    else None
  }

  /** Reads a string literal after its opening quote. */
  function ParseString(s: string): (r: Option<(string, string)>)
    ensures r.Some? ==> |r.value.1| < |s|
    decreases |s|
  {
    if s == "" then None
    else if s[0] == '\"' then Some(("", s[1..]))
    else
      var c := ReadChar(s);
      if c.None? then None else
        var t := ParseString(c.value.1);
        if t.None? then None else Some(([c.value.0] + t.value.0, t.value.1))
  }

  predicate NumberChar(c: char)
  {
    IsDigit(c) || c == '-' || c == '+' || c == '.' || c == 'e'
  }

  /** Length of the longest prefix of numeral characters. */
  function NumberLength(s: string): (n: nat)
    ensures n <= |s|
    ensures forall i :: 0 <= i < n ==> NumberChar(s[i])
    ensures n < |s| ==> !NumberChar(s[n])
  {
    if s == "" || !NumberChar(s[0]) then 0 else
      assert s == [s[0]] + s[1..];
      1 + NumberLength(s[1..])
  }

  function ParseNumber(s: string): (r: Option<(Json, string)>)
    ensures r.Some? ==> |r.value.1| < |s|
  {
    var n := NumberLength(s);
    var d := Scan(s[..n]);
    if n == 0 || d.None? then None else Some((Num(Normalize(d.value)), s[n..]))
  }

  predicate StartsWith(s: string, c: char) { s != "" && s[0] == c }

  function ParseValue(s: string): (r: Option<(Json, string)>)
    ensures r.Some? ==> |r.value.1| < |s|
    decreases |s|, 1
  {
    if s == "" then None
    else if s[0] == '\"' then
      var t := ParseString(s[1..]);
      if t.None? then None else Some((Str(t.value.0), t.value.1))
    else if s[0] == '[' then
      if StartsWith(s[1..], ']') then Some((Arr([]), s[2..]))
      else
        var t := ParseItems(s[1..]);
        if t.None? then None else Some((Arr(t.value.0), t.value.1))
    else if s[0] == '{' then
      if StartsWith(s[1..], '}') then Some((Obj(map[]), s[2..]))
      else
        var t := ParseMembers(s[1..]);
        if t.None? then None else Some((Obj(t.value.0), t.value.1))
    else if |s| >= 4 && s[..4] == "null" then Some((Null, s[4..]))
    else if |s| >= 4 && s[..4] == "true" then Some((Bool(true), s[4..]))
    else if |s| >= 5 && s[..5] == "false" then Some((Bool(false), s[5..]))
    else ParseNumber(s)
  }

  /** Reads array items up to and including the closing bracket. */
  function ParseItems(s: string): (r: Option<(seq<Json>, string)>)
    ensures r.Some? ==> |r.value.1| < |s|
    decreases |s|, 2
  {
    var v := ParseValue(s);
    if v.None? then None
    else if StartsWith(v.value.1, ']') then Some(([v.value.0], v.value.1[1..]))
    else if StartsWith(v.value.1, ',') then
      var t := ParseItems(v.value.1[1..]);
      if t.None? then None else Some(([v.value.0] + t.value.0, t.value.1))
    else None
  }

  /** Reads object members up to and including the closing brace. */
  function ParseMembers(s: string): (r: Option<(map<string, Json>, string)>)
    ensures r.Some? ==> |r.value.1| < |s|
    decreases |s|, 2
  {
    if !StartsWith(s, '\"') then None else
      var k := ParseString(s[1..]);
      if k.None? || !StartsWith(k.value.1, ':') then None else
        var v := ParseValue(k.value.1[1..]);
        if v.None? then None
        else if StartsWith(v.value.1, '}') then Some((map[k.value.0 := v.value.0], v.value.1[1..]))
        else if StartsWith(v.value.1, ',') then
          var t := ParseMembers(v.value.1[1..]);
          if t.None? then None else Some((t.value.0[k.value.0 := v.value.0], t.value.1))
        else None
  }

  /** Parses a whole text. */
  function Parse(s: string): Option<Json>
  {
    var r := ParseValue(s);
    if r.Some? && r.value.1 == "" then Some(r.value.0) else None
  }

  // String literals are read back

  lemma HexReadBack(d: int)
    requires 0 <= d < 16
    ensures HexValue(HexChar(d)) == Some(d)
  {
  }

  lemma EscapeReadBack(c: char, rest: string)
    ensures Escape(c)[0] != '\"'
    ensures ReadChar(Escape(c) + rest) == Some((c, rest))
  {
    var t := Escape(c) + rest;
    assert t[|Escape(c)|..] == rest;
    if c < ' ' {
      HexReadBack(c as int / 16);
      HexReadBack(c as int % 16);
    }
  }

  lemma {:induction false} StringReadBack(s: string, rest: string)
    ensures ParseString(EscapeAll(s) + ['\"'] + rest) == Some((s, rest))
  {
    hide ReadChar, Escape;
    if s == "" {
      assert EscapeAll(s) + ['\"'] + rest == ['\"'] + rest;
    } else {
      StringReadBack(s[1..], rest);
      var tail := EscapeAll(s[1..]) + ['\"'] + rest;
      EscapeReadBack(s[0], tail);
      assert EscapeAll(s) + ['\"'] + rest == Escape(s[0]) + tail;
      assert s == [s[0]] + s[1..];
    }
  }

  // Every printed value is read back, whatever delimiter follows

  predicate Delimited(rest: string)
  {
    rest == "" || rest[0] == ',' || rest[0] == ']' || rest[0] == '}'
  }

  ghost predicate Decodes(text: string, j: Json)
  {
    text != "" && text[0] != ']' && text[0] != '}' &&
    forall rest | Delimited(rest) :: ParseValue(text + rest) == Some((j, rest))
  }

  lemma DecodesIntro(text: string, j: Json)
    requires text != "" && text[0] != ']' && text[0] != '}'
    requires forall rest | Delimited(rest) :: ParseValue(text + rest) == Some((j, rest))
    ensures Decodes(text, j)
  {
  }

  lemma DecodesAt(text: string, j: Json, rest: string)
    requires Decodes(text, j) && Delimited(rest)
    ensures ParseValue(text + rest) == Some((j, rest))
  {
  }

  lemma StringDecodes(s: string)
    ensures Decodes(Quote(s), Str(s))
  {
    hide EscapeAll, ParseString;
    forall rest | Delimited(rest)
      ensures ParseValue(Quote(s) + rest) == Some((Str(s), rest))
    {
      StringReadBack(s, rest);
      assert (Quote(s) + rest)[1..] == EscapeAll(s) + ['\"'] + rest;
      assert (Quote(s) + rest)[0] == '\"';
    }
  }

  lemma LiteralReadBack(rest: string)
    ensures ParseValue("null" + rest) == Some((Null, rest))
    ensures ParseValue("true" + rest) == Some((Bool(true), rest))
    ensures ParseValue("false" + rest) == Some((Bool(false), rest))
  {
    assert ("null" + rest)[..4] == "null" && ("null" + rest)[4..] == rest;
    assert ("true" + rest)[..4] == "true" && ("true" + rest)[4..] == rest;
    assert ("false" + rest)[..5] == "false" && ("false" + rest)[5..] == rest;
    assert ("false" + rest)[..4][0] == 'f' && ("true" + rest)[..4][0] == 't';
  }

  lemma LiteralDecodes()
    ensures Decodes("null", Null) && Decodes("true", Bool(true)) && Decodes("false", Bool(false))
  {
    forall rest | Delimited(rest)
      ensures ParseValue("null" + rest) == Some((Null, rest))
      ensures ParseValue("true" + rest) == Some((Bool(true), rest))
      ensures ParseValue("false" + rest) == Some((Bool(false), rest))
    {
      LiteralReadBack(rest);
    }
    hide ParseValue;
    DecodesIntro("null", Null);
    DecodesIntro("true", Bool(true));
    DecodesIntro("false", Bool(false));
  }

  predicate Numeral(t: string)
  {
    forall i :: 0 <= i < |t| ==> NumberChar(t[i])
  }

  lemma NumeralConcat(a: string, b: string)
    requires Numeral(a) && Numeral(b)
    ensures Numeral(a + b)
  {
  }

  lemma NumeralMagnitude(digits: string, point: int)
    requires digits != "" && Digits(digits)
    ensures Numeral(EcmaMagnitude(digits, point))
  {
    assert forall a: string :: Digits(a) ==> Numeral(a);
    if |digits| <= point <= 21 || -6 < point <= 21 {
      hide ExponentText, Numeral;
      NumeralPlain(digits, point);
    } else {
      var mantissa := if |digits| == 1 then digits else digits[..1] + ['.'] + digits[1..];
      assert Numeral(['e', ExponentSign(point - 1)]);
      NumeralConcat(['e', ExponentSign(point - 1)], NatText(Abs(point - 1)));
      hide NatText;
      NumeralConcat(mantissa, ExponentText(point - 1));
    }
  }

  lemma NumeralPlain(digits: string, point: int)
    requires digits != "" && Digits(digits) && -6 < point <= 21
    ensures Numeral(EcmaMagnitude(digits, point))
  {
    hide ExponentText;
  }

  lemma NumeralChars(n: Number)
    requires n.Valid()
    ensures EcmaText(n) != "" && Numeral(EcmaText(n))
    ensures EcmaText(n)[0] == '-' || IsDigit(EcmaText(n)[0])
  {
    if n.Number? {
      EcmaMagnitudeHead(n);
      NumeralMagnitude(n.digits, n.point);
      hide EcmaMagnitude;
      NumeralConcat(Sign(n.neg), EcmaMagnitude(n.digits, n.point));
    }
  }

  lemma NumberPrefix(t: string, rest: string)
    requires Delimited(rest) && Numeral(t)
    ensures NumberLength(t + rest) == |t|
  {
    var s := t + rest;
    assert forall i :: 0 <= i < |t| ==> s[i] == t[i];
    assert rest != "" ==> s[|t|] == rest[0];
  }

  lemma NumberDispatch(s: string)
    requires s != "" && (s[0] == '-' || IsDigit(s[0]))
    ensures ParseValue(s) == ParseNumber(s)
  {
    hide ParseNumber;
    assert |s| >= 4 ==> s[..4][0] == s[0];
    assert |s| >= 5 ==> s[..5][0] == s[0];
  }

  lemma NumberDecodes(n: Number)
    requires n.Valid()
    ensures Decodes(EcmaText(n), Num(n))
  {
    hide EcmaText, Scan, Normalize, NumberLength, ParseValue;
    NumeralChars(n);
    ReadBack(n);
    var t := EcmaText(n);
    forall rest | Delimited(rest)
      ensures ParseValue(t + rest) == Some((Num(n), rest))
    {
      NumberPrefix(t, rest);
      var s := t + rest;
      assert s[..|t|] == t && s[|t|..] == rest;
      NumberDispatch(s);
    }
  }

  lemma {:induction false} ItemsReadBack(ts: seq<string>, js: seq<Json>, rest: string)
    requires |ts| == |js| > 0
    requires forall i :: 0 <= i < |ts| ==> Decodes(ts[i], js[i])
    ensures ParseItems(Join(ts) + [']'] + rest) == Some((js, rest))
  {
    hide ParseValue, Decodes;
    if |ts| == 1 {
      assert Join(ts) + [']'] + rest == ts[0] + ([']'] + rest);
      DecodesAt(ts[0], js[0], [']'] + rest);
      assert js == [js[0]];
    } else {
      ItemsReadBack(ts[1..], js[1..], rest);
      var tail := Join(ts[1..]) + [']'] + rest;
      assert Join(ts) + [']'] + rest == ts[0] + ([','] + tail);
      DecodesAt(ts[0], js[0], [','] + tail);
      assert ([','] + tail)[1..] == tail;
      assert js == [js[0]] + js[1..];
    }
  }

  lemma JoinHead(ts: seq<string>)
    requires ts != [] && ts[0] != ""
    ensures Join(ts) != "" && Join(ts)[0] == ts[0][0]
  {
  }

  lemma EmptyArray(rest: string)
    ensures ParseValue(['['] + (Join([]) + [']'] + rest)) == Some((Arr([]), rest))
  {
    hide ParseItems;
    var s := ['['] + (Join([]) + [']'] + rest);
    assert s == ['[', ']'] + rest;
    assert s[2..] == rest && s[1..][0] == ']';
  }

  lemma ArrayReadBack(ts: seq<string>, js: seq<Json>, rest: string)
    requires |ts| == |js| > 0
    requires forall i :: 0 <= i < |ts| ==> Decodes(ts[i], js[i])
    ensures ParseValue(['['] + (Join(ts) + [']'] + rest)) == Some((Arr(js), rest))
  {
    ItemsReadBack(ts, js, rest);
    assert Decodes(ts[0], js[0]);
    JoinHead(ts);
    hide ParseItems, ParseMembers, ParseNumber, ParseString, Join;
    assert Join(ts)[0] != ']';
    hide Decodes;
    var tail := Join(ts) + [']'] + rest;
    assert tail[0] == Join(ts)[0];
    assert (['['] + tail)[1..] == tail;
  }

  lemma ArrayDecodes(ts: seq<string>, js: seq<Json>)
    requires |ts| == |js|
    requires forall i :: 0 <= i < |ts| ==> Decodes(ts[i], js[i])
    ensures Decodes(['['] + Join(ts) + [']'], Arr(js))
  {
    hide ParseValue, Join, Decodes;
    var text := ['['] + Join(ts) + [']'];
    forall rest | Delimited(rest)
      ensures ParseValue(text + rest) == Some((Arr(js), rest))
    {
      assert text + rest == ['['] + (Join(ts) + [']'] + rest);
      if ts == [] {
        EmptyArray(rest);
      } else {
        ArrayReadBack(ts, js, rest);
      }
    }
    DecodesIntro(text, Arr(js));
  }

  /** The members read so far, for texts that decode to the values of a map. */
  ghost function Restrict(ps: seq<(string, string)>, m: map<string, Json>): map<string, Json>
    requires forall i :: 0 <= i < |ps| ==> ps[i].0 in m
  {
    if ps == [] then map[] else Restrict(ps[1..], m)[ps[0].0 := m[ps[0].0]]
  }

  lemma {:induction false} MembersReadBack(ps: seq<(string, string)>, m: map<string, Json>, rest: string)
    requires ps != []
    requires forall i :: 0 <= i < |ps| ==> ps[i].0 in m && Decodes(ps[i].1, m[ps[i].0])
    ensures ParseMembers(Join(MemberTexts(ps)) + ['}'] + rest) == Some((Restrict(ps, m), rest))
  {
    hide ParseValue, ParseString, EscapeAll, Decodes, Join, MemberTexts;
    var (k, t) := ps[0];
    var tail := if |ps| == 1 then ['}'] + rest else [','] + (Join(MemberTexts(ps[1..])) + ['}'] + rest);
    var s := Join(MemberTexts(ps)) + ['}'] + rest;
    MemberHead(ps, rest, tail);
    StringReadBack(k, [':'] + (t + tail));
    assert ([':'] + (t + tail))[1..] == t + tail;
    DecodesAt(t, m[k], tail);
    if |ps| > 1 {
      MembersReadBack(ps[1..], m, rest);
      assert tail[1..] == Join(MemberTexts(ps[1..])) + ['}'] + rest;
    } else {
      assert tail[1..] == rest;
      assert Restrict(ps[1..], m) == map[];
      assert Restrict(ps, m) == map[k := m[k]];
    }
  }

  lemma JoinHeadTail(ts: seq<string>, rest: string)
    requires ts != []
    ensures Join(ts) + ['}'] + rest
            == ts[0] + if |ts| == 1 then ['}'] + rest else [','] + (Join(ts[1..]) + ['}'] + rest)
  {
    if |ts| > 1 {
      var tail := Join(ts[1..]);
      assert Join(ts) == ts[0] + [','] + tail;
      hide Join;
      Reassociate(ts[0], [','] + tail, ['}'] + rest);
      Reassociate([','], tail, ['}'] + rest);
      Reassociate(ts[0], [','], tail);
      Reassociate(Join(ts), ['}'], rest);
      Reassociate(tail, ['}'], rest);
    } else {
      hide Join;
      Reassociate(ts[0], ['}'], rest);
    }
  }

  lemma Reassociate(a: string, b: string, c: string)
    ensures a + b + c == a + (b + c)
  {
  }

  lemma MemberHead(ps: seq<(string, string)>, rest: string, tail: string)
    requires ps != []
    requires tail == if |ps| == 1 then ['}'] + rest else [','] + (Join(MemberTexts(ps[1..])) + ['}'] + rest)
    ensures var s := Join(MemberTexts(ps)) + ['}'] + rest;
            s != "" && s[0] == '\"' &&
            s[1..] == EscapeAll(ps[0].0) + ['\"'] + ([':'] + (ps[0].1 + tail))
  {
    hide EscapeAll, Join;
    var ts := MemberTexts(ps);
    assert ts[0] == MemberText(ps[0]) && ts[1..] == MemberTexts(ps[1..]);
    JoinHeadTail(ts, rest);
    MemberTextShape(ps[0], tail);
  }

  lemma MemberTextShape(p: (string, string), tail: string)
    ensures MemberText(p) + tail == ['\"'] + (EscapeAll(p.0) + ['\"'] + ([':'] + (p.1 + tail)))
  {
    hide EscapeAll;
  }

  lemma ObjectReadBack(ps: seq<(string, string)>, m: map<string, Json>, rest: string)
    requires ps != []
    requires forall i :: 0 <= i < |ps| ==> ps[i].0 in m && Decodes(ps[i].1, m[ps[i].0])
    ensures ParseValue(['{'] + (Join(MemberTexts(ps)) + ['}'] + rest)) == Some((Obj(Restrict(ps, m)), rest))
  {
    hide ParseMembers, EscapeAll, Restrict, Decodes, Join, MemberTexts;
    var s := ['{'] + (Join(MemberTexts(ps)) + ['}'] + rest);
    MembersReadBack(ps, m, rest);
    MemberHead(ps, rest, if |ps| == 1 then ['}'] + rest else [','] + (Join(MemberTexts(ps[1..])) + ['}'] + rest));
    assert s[1..] == Join(MemberTexts(ps)) + ['}'] + rest;
  }

  lemma ObjectDecodes(ps: seq<(string, string)>, m: map<string, Json>)
    requires forall i :: 0 <= i < |ps| ==> ps[i].0 in m && Decodes(ps[i].1, m[ps[i].0])
    requires forall k :: k in m ==> exists i :: 0 <= i < |ps| && ps[i].0 == k
    ensures Decodes(['{'] + Join(MemberTexts(ps)) + ['}'], Obj(m))
  {
    hide ParseValue, Restrict, MemberTexts, Join, Decodes;
    RestrictAll(ps, m);
    var text := ['{'] + Join(MemberTexts(ps)) + ['}'];
    forall rest | Delimited(rest)
      ensures ParseValue(text + rest) == Some((Obj(m), rest))
    {
      assert text + rest == ['{'] + (Join(MemberTexts(ps)) + ['}'] + rest);
      if ps == [] {
        assert m == map[];
        EmptyObject(rest);
      } else {
        ObjectReadBack(ps, m, rest);
      }
    }
    DecodesIntro(text, Obj(m));
  }

  lemma EmptyObject(rest: string)
    ensures ParseValue(['{'] + (Join(MemberTexts([])) + ['}'] + rest)) == Some((Obj(map[]), rest))
  {
    var s := ['{'] + (Join(MemberTexts([])) + ['}'] + rest);
    assert s == ['{', '}'] + rest;
    assert s[2..] == rest && s[1..][0] == '}';
  }

  lemma RestrictAll(ps: seq<(string, string)>, m: map<string, Json>)
    requires forall i :: 0 <= i < |ps| ==> ps[i].0 in m
    requires forall k :: k in m ==> exists i :: 0 <= i < |ps| && ps[i].0 == k
    ensures Restrict(ps, m) == m
  {
    RestrictEntries(ps, m);
    assert Restrict(ps, m).Keys == m.Keys;
  }

  lemma {:induction false} RestrictEntries(ps: seq<(string, string)>, m: map<string, Json>)
    requires forall i :: 0 <= i < |ps| ==> ps[i].0 in m
    ensures forall k :: k in Restrict(ps, m) ==> k in m && Restrict(ps, m)[k] == m[k]
    ensures forall i :: 0 <= i < |ps| ==> ps[i].0 in Restrict(ps, m)
  {
    if ps != [] {
      RestrictEntries(ps[1..], m);
      assert forall i :: 0 < i < |ps| ==> ps[i] == ps[1..][i-1];
    }
  }

  // The member map of an ordered object

  lemma {:induction false} MemberMapEntries(ms: seq<(string, Doc)>)
    requires DistinctKeys(ms)
    ensures forall i :: 0 <= i < |ms| ==> ms[i].0 in MemberMap(ms) && MemberMap(ms)[ms[i].0] == Meaning(ms[i].1)
    ensures forall k :: k in MemberMap(ms) ==> exists i :: 0 <= i < |ms| && ms[i].0 == k
  {
    if ms != [] {
      MemberMapEntries(ms[1..]);
      assert forall i :: 0 < i < |ms| ==> ms[i] == ms[1..][i-1];
      forall k | k in MemberMap(ms)
        ensures exists i :: 0 <= i < |ms| && ms[i].0 == k
      {
        if k == ms[0].0 {
        } else {
          var i :| 0 <= i < |ms[1..]| && ms[1..][i].0 == k;
          assert ms[i+1].0 == k;
        }
      }
    }
  }

  lemma {:induction false} PrintMembersAt(ms: seq<(string, Doc)>, i: nat)
    requires forall j :: 0 <= j < |ms| ==> Valid(ms[j].1)
    requires i < |ms|
    ensures PrintMembers(ms)[i] == (ms[i].0, Print(ms[i].1))
  {
    if i > 0 {
      PrintMembersAt(ms[1..], i - 1);
    }
  }

  lemma PrintedKeysDistinct(ms: seq<(string, Doc)>)
    requires DistinctKeys(ms) && forall j :: 0 <= j < |ms| ==> Valid(ms[j].1)
    ensures DistinctKeys(PrintMembers(ms))
  {
    forall i, j | 0 <= i < j < |ms|
      ensures PrintMembers(ms)[i].0 != PrintMembers(ms)[j].0
    {
      PrintMembersAt(ms, i);
      PrintMembersAt(ms, j);
    }
  }

  // The round trip

  lemma {:induction false} PrintDecodes(d: Doc)
    requires Valid(d)
    ensures Decodes(Print(d), Meaning(d))
    decreases d, 0
  {
    hide Decodes, EcmaText;
    match d
    case NullDoc => LiteralDecodes();
    case BoolDoc(_) => LiteralDecodes();
    case StrDoc(s) => StringDecodes(s);
    case NumDoc(n) => NumberDecodes(n);
    case ArrDoc(items) =>
      forall i | 0 <= i < |items|
        ensures Decodes(PrintItems(items)[i], Meanings(items)[i])
      {
        PrintDecodes(items[i]);
      }
      ArrayDecodes(PrintItems(items), Meanings(items));
    case ObjDoc(ms) =>
      forall i | 0 <= i < |ms|
        ensures Decodes(Print(ms[i].1), Meaning(ms[i].1))
      {
        assert ms[i].1 < ms[i];
        PrintDecodes(ms[i].1);
      }
      SortedMembersDecode(ms);
  }

  lemma SortedMembersDecode(ms: seq<(string, Doc)>)
    requires DistinctKeys(ms) && forall i :: 0 <= i < |ms| ==> Valid(ms[i].1)
    requires forall i :: 0 <= i < |ms| ==> Decodes(Print(ms[i].1), Meaning(ms[i].1))
    ensures Decodes(['{'] + Join(MemberTexts(Sort(PrintMembers(ms), KeyLess))) + ['}'], Obj(MemberMap(ms)))
  {
    hide Decodes, Print, Meaning, PrintMembers, MemberMap, KeyLess, Sort;
    var m, qs := MemberMap(ms), PrintMembers(ms);
    var ps := Sort(qs, KeyLess);
    MemberMapEntries(ms);
    forall i | 0 <= i < |ps|
      ensures ps[i].0 in m && Decodes(ps[i].1, m[ps[i].0])
    {
      SortMembers(qs, KeyLess, ps[i]);
      var j :| 0 <= j < |qs| && qs[j] == ps[i];
      PrintMembersAt(ms, j);
    }
    forall k | k in m
      ensures exists i :: 0 <= i < |ps| && ps[i].0 == k
    {
      var j :| 0 <= j < |ms| && ms[j].0 == k;
      PrintMembersAt(ms, j);
      SortMembers(qs, KeyLess, qs[j]);
      var i :| 0 <= i < |ps| && ps[i] == qs[j];
    }
    ObjectDecodes(ps, m);
  }

  /** The parser recovers the JSON value of every document from its canonical text. */
  lemma ParseInvertsPrint(d: Doc)
    requires Valid(d)
    ensures Parse(Print(d)) == Some(Meaning(d))
  {
    hide ParseValue, Print, Meaning;
    PrintDecodes(d);
    assert Print(d) + "" == Print(d);
  }

  // Insertion order does not matter

  lemma KeyLessIsStrictTotal()
    ensures StrictTotalOrder(KeyLess)
  {
    forall a, b
      ensures KeyLess(a, b) ==> !KeyLess(b, a)
      ensures a != b ==> KeyLess(a, b) || KeyLess(b, a)
    {
      MemberOrderIsStrictTotal(a, b);
      LessTrichotomy(SortKey(a), SortKey(b));
    }
    forall a, b, c | KeyLess(a, b) && KeyLess(b, c)
      ensures KeyLess(a, c)
    {
      LessTransitive(SortKey(a), SortKey(b), SortKey(c));
    }
  }

  /** Section 3.2.3 of RFC 8785: an object prints exactly its members, each once, in ascending
      order of the UTF-16 code units of their keys. */
  lemma ObjectPrintsInUnitOrder(ms: seq<(string, Doc)>) returns (ps: seq<(string, string)>)
    requires Valid(ObjDoc(ms))
    ensures Print(ObjDoc(ms)) == ['{'] + Join(MemberTexts(ps)) + ['}'] && |ps| == |ms|
    ensures forall i :: 0 <= i < |ms| ==> (ms[i].0, Print(ms[i].1)) in ps
    ensures forall i, j :: 0 <= i < j < |ps| ==> Less(Units(ps[i].0), Units(ps[j].0))
  {
    var qs := PrintMembers(ms);
    ps := Sort(qs, KeyLess);
    PrintedKeysDistinct(ms);
    forall i | 0 <= i < |ms|
      ensures (ms[i].0, Print(ms[i].1)) in ps
    {
      PrintMembersAt(ms, i);
      SortMembers(qs, KeyLess, qs[i]);
    }
    forall i, j | 0 <= i < j < |ps|
      ensures Less(Units(ps[i].0), Units(ps[j].0))
    {
      SortedByUnits(qs, i, j);
    }
  }

  lemma SortedByUnits<T>(qs: seq<(string, T)>, i: nat, j: nat)
    requires DistinctKeys(qs) && i < j < |qs|
    ensures Less(Units(Sort(qs, KeyLess)[i].0), Units(Sort(qs, KeyLess)[j].0))
  {
    KeyLessIsStrictTotal();
    SortIncreasing(qs, KeyLess);
    var ps := Sort(qs, KeyLess);
    assert KeyLess(ps[i].0, ps[j].0);
    MemberOrderIsStrictTotal(ps[i].0, ps[j].0);
  }

  /** Documents with the same JSON value print alike, at every nesting depth. */
  lemma {:induction false} PrintDependsOnMeaning(d: Doc, e: Doc)
    requires Valid(d) && Valid(e) && Meaning(d) == Meaning(e)
    ensures Print(d) == Print(e)
    decreases d
  {
    hide EcmaText;
    match d
    case NullDoc =>
    case BoolDoc(_) =>
    case StrDoc(_) =>
    case NumDoc(_) =>
    case ArrDoc(items) =>
      forall i | 0 <= i < |items|
        ensures Print(items[i]) == Print(e.items[i])
      {
        assert Meanings(items)[i] == Meanings(e.items)[i];
        PrintDependsOnMeaning(items[i], e.items[i]);
      }
      assert PrintItems(items) == PrintItems(e.items);
    case ObjDoc(ms) =>
      forall i, j | 0 <= i < |ms| && 0 <= j < |e.members| && Meaning(ms[i].1) == Meaning(e.members[j].1)
        ensures Print(ms[i].1) == Print(e.members[j].1)
      {
        assert ms[i].1 < ms[i];
        PrintDependsOnMeaning(ms[i].1, e.members[j].1);
      }
      SameMembersPrint(ms, e.members);
  }

  lemma SameMembersPrint(ms: seq<(string, Doc)>, ns: seq<(string, Doc)>)
    requires DistinctKeys(ms) && DistinctKeys(ns) && MemberMap(ms) == MemberMap(ns)
    requires forall i :: 0 <= i < |ms| ==> Valid(ms[i].1)
    requires forall i :: 0 <= i < |ns| ==> Valid(ns[i].1)
    requires forall i, j :: 0 <= i < |ms| && 0 <= j < |ns| && Meaning(ms[i].1) == Meaning(ns[j].1)
                            ==> Print(ms[i].1) == Print(ns[j].1)
    ensures Sort(PrintMembers(ms), KeyLess) == Sort(PrintMembers(ns), KeyLess)
  {
    hide Print, Meaning, PrintMembers, MemberMap, KeyLess, Sort, StrictTotalOrder;
    forall p
      ensures p in PrintMembers(ms) <==> p in PrintMembers(ns)
    {
      if p in PrintMembers(ms) { SameMemberPrinted(ms, ns, p); }
      if p in PrintMembers(ns) { SameMemberPrinted(ns, ms, p); }
    }
    PrintedKeysDistinct(ms);
    PrintedKeysDistinct(ns);
    KeyLessIsStrictTotal();
    SortDependsOnMembers(PrintMembers(ms), PrintMembers(ns), KeyLess);
  }

  lemma SameMemberPrinted(ms: seq<(string, Doc)>, ns: seq<(string, Doc)>, p: (string, string))
    requires DistinctKeys(ms) && DistinctKeys(ns) && MemberMap(ms) == MemberMap(ns)
    requires forall i :: 0 <= i < |ms| ==> Valid(ms[i].1)
    requires forall i :: 0 <= i < |ns| ==> Valid(ns[i].1)
    requires forall i, j :: 0 <= i < |ms| && 0 <= j < |ns| && Meaning(ms[i].1) == Meaning(ns[j].1)
                            ==> Print(ms[i].1) == Print(ns[j].1)
    requires p in PrintMembers(ms)
    ensures p in PrintMembers(ns)
  {
    hide Print, Meaning, PrintMembers, MemberMap, Valid;
    MemberMapEntries(ms);
    MemberMapEntries(ns);
    var i :| 0 <= i < |PrintMembers(ms)| && PrintMembers(ms)[i] == p;
    PrintMembersAt(ms, i);
    assert ms[i].0 in MemberMap(ns);
    var j :| 0 <= j < |ns| && ns[j].0 == ms[i].0;
    PrintMembersAt(ns, j);
  }

  /** Canonical text identifies JSON values: equal text is equal value. */
  lemma SameTextIffSameValue(d: Doc, e: Doc)
    requires Valid(d) && Valid(e)
    ensures Print(d) == Print(e) <==> Meaning(d) == Meaning(e)
  {
    hide Print, Meaning, Parse;
    ParseInvertsPrint(d);
    ParseInvertsPrint(e);
    if Meaning(d) == Meaning(e) {
      PrintDependsOnMeaning(d, e);
    }
  }

  // String literals are as short as they can be

  lemma CharLiteralIsShortest(t: string)
    requires t != "" && t[0] != '\"' && ReadChar(t).Some?
    ensures |Escape(ReadChar(t).value.0)| + |ReadChar(t).value.1| <= |t|
  {
  }

  /** No literal that reads as a string is shorter than its canonical one. */
  lemma {:induction false} QuoteIsShortest(t: string, s: string, rest: string)
    requires ParseString(t) == Some((s, rest))
    ensures |Quote(s)| + |rest| <= 1 + |t|
    decreases |t|
  {
    if t[0] == '\"' {
      assert s == "";
    } else {
      CharLiteralIsShortest(t);
      var c := ReadChar(t).value;
      hide ReadChar, Escape;
      var u := ParseString(c.1).value;
      QuoteIsShortest(c.1, u.0, u.1);
      assert s == [c.0] + u.0 && s[0] == c.0 && s[1..] == u.0;
    }
  }

  /** A control character without a short escape is written with four lower-case digits, and a
      character that needs no escape is written as it is. */
  lemma LiteralOf(c: char)
    ensures c >= ' ' && c != '\"' && c != '\\' ==> Quote([c]) == ['\"', c, '\"']
    ensures c < ' ' && c !in ['\U{0008}', '\t', '\n', '\U{000C}', '\r'] ==>
              var digits, n := "0123456789abcdef", c as int;
              Quote([c]) == ['\"', '\\', 'u', '0', '0', digits[n / 16], digits[n % 16], '\"']
  {
    assert [c][1..] == "";
    assert EscapeAll([c]) == Escape(c) + EscapeAll("");
    assert EscapeAll([c]) == Escape(c);
    if c < ' ' {
      HexDigits(c as int / 16);
      HexDigits(c as int % 16);
    }
  }

  lemma HexDigits(d: int)
    requires 0 <= d < 16
    ensures HexChar(d) == "0123456789abcdef"[d]
  {
  }
}
