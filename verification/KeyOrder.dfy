/** Lexicographic order on code sequences and the UTF-16 forms of a string: the order of
    object members in canonical JSON. */
module KeyOrder {

  /** Strict lexicographic order; a proper prefix comes first. */
  predicate Less(a: seq<int>, b: seq<int>)
  {
    b != [] && (a == [] || a[0] < b[0] || (a[0] == b[0] && Less(a[1..], b[1..])))
  }

  lemma {:induction false} LessTrichotomy(a: seq<int>, b: seq<int>)
    ensures !(Less(a, b) && Less(b, a))
    ensures Less(a, b) || Less(b, a) || a == b
    ensures Less(a, b) ==> a != b
  {
    if a != [] && b != [] {
      LessTrichotomy(a[1..], b[1..]);
      if a[0] == b[0] && a[1..] == b[1..] {
        assert a == [a[0]] + a[1..] == [b[0]] + b[1..] == b;
      }
    }
  }

  lemma {:induction false} LessTransitive(a: seq<int>, b: seq<int>, c: seq<int>)
    requires Less(a, b) && Less(b, c)
    ensures Less(a, c)
  {
    if a != [] && a[0] == b[0] && b[0] == c[0] {
      LessTransitive(a[1..], b[1..], c[1..]);
    }
  }

  // UTF-16

  /** The UTF-16 code units of one Unicode scalar value. */
  function UnitsOf(c: char): (u: seq<int>)
    ensures 1 <= |u| <= 2
    ensures forall i :: 0 <= i < |u| ==> 0 <= u[i] < 0x10000
  {
    var n := c as int;
    if n < 0x10000 then [n]
    else [0xD800 + (n - 0x10000) / 0x400, 0xDC00 + (n - 0x10000) % 0x400]
  }

  function Units(s: string): (u: seq<int>)
    ensures forall i :: 0 <= i < |u| ==> 0 <= u[i] < 0x10000
  {
    if s == [] then [] else UnitsOf(s[0]) + Units(s[1..])
  }

  /** Big-endian bytes of a code-unit sequence (Python's utf-16-be codec). */
  function BigEndian(u: seq<int>): (b: seq<int>)
    requires forall i :: 0 <= i < |u| ==> 0 <= u[i] < 0x10000
    ensures |b| == 2 * |u|
    ensures forall i :: 0 <= i < |b| ==> 0 <= b[i] < 256
  {
    if u == [] then [] else [u[0] / 256, u[0] % 256] + BigEndian(u[1..])
  }

  /** The sort key used for object members. */
  function SortKey(s: string): seq<int>
  {
    BigEndian(Units(s))
  }

  /** Comparing the encoded bytes is comparing the code units. */
  lemma {:induction false} BytesOrderIsUnitOrder(u: seq<int>, v: seq<int>)
    requires forall i :: 0 <= i < |u| ==> 0 <= u[i] < 0x10000
    requires forall i :: 0 <= i < |v| ==> 0 <= v[i] < 0x10000
    ensures Less(BigEndian(u), BigEndian(v)) <==> Less(u, v)
  {
    if u != [] && v != [] {
      var bu, bv := BigEndian(u), BigEndian(v);
      assert bu[0] == u[0] / 256 && bu[1] == u[0] % 256;
      assert bv[0] == v[0] / 256 && bv[1] == v[0] % 256;
      assert bu[1..][1..] == BigEndian(u[1..]);
      assert bv[1..][1..] == BigEndian(v[1..]);
      assert bu[1..][0] == bu[1] && bv[1..][0] == bv[1];
      BytesOrderIsUnitOrder(u[1..], v[1..]);
      assert Less(bu, bv) <==> (bu[0] < bv[0] || (bu[0] == bv[0] && Less(bu[1..], bv[1..])));
      assert Less(bu[1..], bv[1..]) <==>
        (bu[1] < bv[1] || (bu[1] == bv[1] && Less(BigEndian(u[1..]), BigEndian(v[1..]))));
    }
  }

  lemma {:induction false} BigEndianInjective(u: seq<int>, v: seq<int>)
    requires forall i :: 0 <= i < |u| ==> 0 <= u[i] < 0x10000
    requires forall i :: 0 <= i < |v| ==> 0 <= v[i] < 0x10000
    requires BigEndian(u) == BigEndian(v)
    ensures u == v
  {
    BytesOrderIsUnitOrder(u, v);
    BytesOrderIsUnitOrder(v, u);
    LessTrichotomy(BigEndian(u), BigEndian(v));
    LessTrichotomy(u, v);
  }

  /** UTF-16 is injective on scalar values: a lead unit never equals a whole unit. */
  lemma {:induction false} UnitsInjective(s: string, t: string)
    requires Units(s) == Units(t)
    ensures s == t
  {
    assert s != [] ==> |Units(s)| >= 1;
    assert t != [] ==> |Units(t)| >= 1;
    if s != [] {
      var a, b := UnitsOf(s[0]), UnitsOf(t[0]);
      assert Units(s)[..|a|] == a && Units(t)[..|b|] == b;
      assert Units(s)[0] == a[0] && Units(t)[0] == b[0];
      assert |a| == |b|;
      if |a| == 2 {
        assert Units(s)[1] == a[1] && Units(t)[1] == b[1];
      }
      assert s[0] as int == t[0] as int;
      assert s[0] == t[0];
      assert Units(s)[|a|..] == Units(s[1..]);
      assert Units(t)[|b|..] == Units(t[1..]);
      UnitsInjective(s[1..], t[1..]);
      assert s == [s[0]] + s[1..] == [t[0]] + t[1..] == t;
    }
  }

  /** Section 3.2.3 of RFC 8785: member order is a strict total order on distinct keys,
      and it is the order of UTF-16 code units. */
  lemma MemberOrderIsStrictTotal(s: string, t: string)
    ensures Less(SortKey(s), SortKey(t)) <==> Less(Units(s), Units(t))
    ensures s != t ==> (Less(SortKey(s), SortKey(t)) <==> !Less(SortKey(t), SortKey(s)))
    ensures SortKey(s) == SortKey(t) <==> s == t
  {
    BytesOrderIsUnitOrder(Units(s), Units(t));
    LessTrichotomy(SortKey(s), SortKey(t));
    if SortKey(s) == SortKey(t) {
      BigEndianInjective(Units(s), Units(t));
      UnitsInjective(s, t);
    }
  }

  function CodePoints(s: string): seq<int>
  {
    seq(|s|, i requires 0 <= i < |s| => s[i] as int)
  }

  /** Where two keys first differ, UTF-16 order disagrees with code-point order exactly
      when one character is supplementary and the other lies in U+E000..U+FFFF. */
  lemma MemberOrderAgainstCodePointOrder(p: string, x: char, s: string, y: char, t: string)
    requires x != y
    ensures Less(CodePoints(p + ([x] + s)), CodePoints(p + ([y] + t))) <==> x as int < y as int
    ensures Less(Units(p + ([x] + s)), Units(p + ([y] + t))) <==>
            ((x as int < y as int) <==>
             !((x as int >= 0x10000 && 0xE000 <= y as int < 0x10000) ||
               (y as int >= 0x10000 && 0xE000 <= x as int < 0x10000)))
  {
    StripCommonPrefix(p, [x] + s, [y] + t);
    FirstUnitsDecide(x, s, y, t);
    PrependUnits(CodePoints(p), CodePoints([x] + s), CodePoints([y] + t));
    assert CodePoints(p + ([x] + s)) == CodePoints(p) + CodePoints([x] + s);
    assert CodePoints(p + ([y] + t)) == CodePoints(p) + CodePoints([y] + t);
  }

  lemma FirstUnitsDecide(x: char, s: string, y: char, t: string)
    requires x != y
    ensures Less(Units([x] + s), Units([y] + t)) <==>
            ((x as int < y as int) <==>
             !((x as int >= 0x10000 && 0xE000 <= y as int < 0x10000) ||
               (y as int >= 0x10000 && 0xE000 <= x as int < 0x10000)))
  {
    var u, v := Units([x] + s), Units([y] + t);
    assert ([x] + s)[1..] == s && ([y] + t)[1..] == t;
    assert u == UnitsOf(x) + Units(s) && v == UnitsOf(y) + Units(t);
    assert u[0] == UnitsOf(x)[0] && v[0] == UnitsOf(y)[0];
    if x as int >= 0x10000 && y as int >= 0x10000 {
      assert u[1..][0] == UnitsOf(x)[1] && v[1..][0] == UnitsOf(y)[1];
    }
  }

  lemma {:induction false} StripCommonPrefix(p: string, s: string, t: string)
    ensures Less(Units(p + s), Units(p + t)) <==> Less(Units(s), Units(t))
  {
    if p == [] {
      assert p + s == s && p + t == t;
    } else {
      assert (p + s)[1..] == p[1..] + s && (p + t)[1..] == p[1..] + t;
      StripCommonPrefix(p[1..], s, t);
      PrependUnits(UnitsOf(p[0]), Units(p[1..] + s), Units(p[1..] + t));
    }
  }

  lemma {:induction false} PrependUnits(u: seq<int>, a: seq<int>, b: seq<int>)
    ensures Less(u + a, u + b) <==> Less(a, b)
  {
    if u == [] {
      assert u + a == a && u + b == b;
    } else {
      assert (u + a)[1..] == u[1..] + a && (u + b)[1..] == u[1..] + b;
      PrependUnits(u[1..], a, b);
    }
  }
}
