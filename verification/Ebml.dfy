/**
 * EBML primitives: what the writer emits, and an independent parser that follows RFC 8794
 * (variable-size integers, section 4; element IDs, section 5; data sizes, section 6;
 * integer bodies, sections 7.1 and 7.2).
 */
module Ebml {
  import opened Bytes

  const SIZE_LIMIT := 0x1_0000_0000

  // ---------------------------------------------------------------- writer side

  /** Octets taken by an element ID: leading zero octets are dropped. */
  function IdLen(id: nat): (n: nat)
    ensures 1 <= n <= 4
  {
    if id >= 0x1000000 then 4 else if id >= 0x10000 then 3 else if id >= 0x100 then 2 else 1
  }

  function EncId(id: nat): Octets { BE(id, IdLen(id)) }

  /** Octets taken by a data size: the shortest form that is not the reserved all-ones pattern. */
  function EbmlSizeSize(n: nat): (w: nat)
    requires n < SIZE_LIMIT
    ensures 1 <= w <= 5 && n < Pow(128, w) - 1
    ensures w > 1 ==> n >= Pow(128, w - 1) - 1
  {
    assert Pow(128, 1) == 0x80 && Pow(128, 2) == 0x4000 && Pow(128, 3) == 0x200000;
    assert Pow(128, 4) == 0x10000000 && Pow(128, 5) == 0x800000000;
    if n < 0x7f then 1 else if n < 0x3fff then 2 else if n < 0x1fffff then 3 else if n < 0x0fffffff then 4 else 5
  }

  function EncSize(n: nat): Octets
    requires n < SIZE_LIMIT
  {
    BE(n + Pow(128, EbmlSizeSize(n)), EbmlSizeSize(n))
  }

  predicate IsUInt64(v: int) { 0 <= v < 0x1_0000_0000_0000_0000 }

  predicate IsInt64(v: int) { -0x8000_0000_0000_0000 <= v < 0x8000_0000_0000_0000 }

  /** The low 64 bits of v read as unsigned, as a C conversion from int64_t does. */
  function AsUInt64(v: int): (u: nat)
    ensures IsUInt64(u)
    ensures IsInt64(v) ==> u == if v < 0 then v + 0x1_0000_0000_0000_0000 else v
  {
    v % 0x1_0000_0000_0000_0000
  }

  function UIntLen(v: nat): nat { if v < 256 then 1 else 1 + UIntLen(v / 256) }

  function SIntLen(v: int): nat
    decreases if v < 0 then -v else v
  {
    if -128 <= v < 128 then 1 else 1 + SIntLen(v / 256)
  }

  function UIntBody(v: int): Octets {
    BE(AsUInt64(v), UIntLen(AsUInt64(v)))
  }

  function SIntBody(v: int): Octets { BE(v, SIntLen(v)) }

  datatype Elem = Elem(id: nat, body: Octets)

  /** An element as mk_closeContext and mk_writeBin put it out; the size is a 32-bit unsigned. */
  function Element(e: Elem): Octets {
    EncId(e.id) + EncSize(|e.body| % SIZE_LIMIT) + e.body
  }

  predicate Fits(es: seq<Elem>) { forall i | 0 <= i < |es| :: |es[i].body| < SIZE_LIMIT }

  function Flatten(es: seq<Elem>): Octets {
    if es == [] then [] else Element(es[0]) + Flatten(es[1..])
  }

  // ---------------------------------------------------------------- parser (RFC 8794)

  /** Length of a variable-size integer, from the position of the first one bit; 0 if none. */
  function VintLen(b: Byte): (n: nat)
    ensures n <= 8
  {
    if b >= 128 then 1 else if b >= 64 then 2 else if b >= 32 then 3 else if b >= 16 then 4
    else if b >= 8 then 5 else if b >= 4 then 6 else if b >= 2 then 7 else if b >= 1 then 8 else 0
  }

  datatype DataSize = Known(n: nat) | Unknown

  datatype Head<T> = Head(value: T, len: nat)

  /** An element ID keeps its marker bit; at most four octets (EBMLMaxIDLength). */
  function ParseId(s: Octets): (r: Option<Head<nat>>)
    ensures r.Some? ==> 1 <= r.value.len <= |s|
  {
    if s == [] then None else
    var w := VintLen(s[0]);
    if w == 0 || w > 4 || w > |s| then None else Some(Head(Unsigned(s[..w]), w))
  }

  /** A data size drops its marker bit; all value bits one means an unknown size. */
  function ParseSize(s: Octets): (r: Option<Head<DataSize>>)
    ensures r.Some? ==> 1 <= r.value.len <= |s|
  {
    if s == [] then None else
    var w := VintLen(s[0]);
    if w == 0 || w > |s| || Unsigned(s[..w]) < Pow(128, w) then None else
    var v := Unsigned(s[..w]) - Pow(128, w);
    Some(Head(if v == Pow(128, w) - 1 then Unknown else Known(v), w))
  }

  datatype ElemHead = ElemHead(id: nat, size: DataSize, len: nat)

  function ParseElemHead(s: Octets): (r: Option<ElemHead>)
    ensures r.Some? ==> 2 <= r.value.len <= |s|
  {
    var id := ParseId(s);
    if id.None? then None else
    var size := ParseSize(s[id.value.len..]);
    if size.None? then None else
    Some(ElemHead(id.value.value, size.value.value, id.value.len + size.value.len))
  }

  /** The list of sibling elements a body is made of, every one with a known size. */
  function ParseElems(s: Octets): Option<seq<Elem>>
    decreases |s|
  {
    if s == [] then Some([]) else
    var h := ParseElemHead(s);
    if h.None? || h.value.size.Unknown? then None else
    var start := h.value.len;
    if start + h.value.size.n > |s| then None else
    var rest := ParseElems(s[start + h.value.size.n..]);
    if rest.None? then None else
    Some([Elem(h.value.id, s[start..start + h.value.size.n])] + rest.value)
  }

  // ---------------------------------------------------------------- round trips

  /** IDs the specification allows: marker bit at the place the length dictates. */
  predicate ValidId(id: nat) {
    0x80 <= id < 0x100 || 0x4000 <= id < 0x8000 || 0x200000 <= id < 0x400000 || 0x10000000 <= id < 0x20000000
  }

  lemma Powers128()
    ensures Pow(128, 1) == 0x80 && Pow(128, 2) == 0x4000 && Pow(128, 3) == 0x200000
    ensures Pow(128, 4) == 0x10000000 && Pow(128, 5) == 0x800000000
    ensures Pow(128, 6) == 0x40000000000 && Pow(128, 7) == 0x2000000000000 && Pow(128, 8) == 0x100000000000000
  {}

  lemma Powers256()
    ensures Pow(256, 0) == 1 && Pow(256, 1) == 0x100 && Pow(256, 2) == 0x10000 && Pow(256, 3) == 0x1000000
    ensures Pow(256, 4) == 0x100000000 && Pow(256, 5) == 0x10000000000 && Pow(256, 6) == 0x1000000000000
    ensures Pow(256, 7) == 0x100000000000000 && Pow(256, 8) == 0x1_0000_0000_0000_0000
  {}

  /** Every valid ID is read back whatever follows it. */
  lemma IdRoundTrip(id: nat, rest: Octets)
    requires ValidId(id)
    ensures ParseId(EncId(id) + rest) == Some(Head(id, |EncId(id)|))
  {
    Powers256();
    hide Pow;
    var s := EncId(id) + rest;
    BEHead(id, IdLen(id));
    assert s[..IdLen(id)] == EncId(id);
    UnsignedBE(id, IdLen(id));
  }

  /** A written size is read back exactly: it is never mistaken for the reserved pattern. */
  lemma SizeRoundTrip(n: nat, rest: Octets)
    requires n < SIZE_LIMIT
    ensures ParseSize(EncSize(n) + rest) == Some(Head(Known(n), |EncSize(n)|))
  {
    var w := EbmlSizeSize(n);
    var s := EncSize(n) + rest;
    SizeHead(n);
    assert s[..w] == EncSize(n);
  }

  /** The marker bit of a w-octet size is in the first octet, where it says w. */
  lemma MarkerSays(x: nat, w: nat)
    requires 1 <= w <= 5 && Pow(128, w) <= x < 2 * Pow(128, w)
    ensures x < Pow(256, w) && x / Pow(256, w - 1) < 256 && VintLen(x / Pow(256, w - 1)) == w
  {
    Powers128();
    Powers256();
    hide Pow;
  }

  lemma SizeHead(n: nat)
    requires n < SIZE_LIMIT
    ensures VintLen(EncSize(n)[0]) == EbmlSizeSize(n)
    ensures Unsigned(EncSize(n)) == n + Pow(128, EbmlSizeSize(n))
  {
    hide Pow, VintLen, EbmlSizeSize, BE, Unsigned;
    var w := EbmlSizeSize(n);
    var x := n + Pow(128, w);
    MarkerSays(x, w);
    BEHead(x, w);
    UnsignedBE(x, w);
  }

  /** No other well-formed size field with the same value is shorter. */
  lemma SizeShortest(n: nat, s: Octets, w: nat)
    requires n < SIZE_LIMIT && ParseSize(s) == Some(Head(Known(n), w))
    ensures |EncSize(n)| <= w
  {
    var m := EbmlSizeSize(n);
    if w < m {
      PowMonotone(128, w, m - 1);
      UnsignedBound(s[..w]);
      SizeValueBound(s);
      assert false;
    }
  }

  lemma SizeValueBound(s: Octets)
    requires ParseSize(s).Some? && ParseSize(s).value.value.Known?
    ensures ParseSize(s).value.value.n < Pow(128, ParseSize(s).value.len) - 1
  {
    var w := VintLen(s[0]);
    var t := s[..w];
    VintUpper(t, w);
  }

  /** The marker bit is the top bit, so a w-octet size is below 2 * 128^w. */
  lemma VintUpper(t: Octets, w: nat)
    requires w >= 1 && |t| == w && VintLen(t[0]) == w
    ensures Unsigned(t) < 2 * Pow(128, w)
  {
    UnsignedHead(t);
    Powers128();
    Powers256();
    hide Pow;
  }

  lemma {:induction false} UnsignedHead(t: Octets)
    requires t != []
    ensures t[0] * Pow(256, |t| - 1) <= Unsigned(t) < (t[0] + 1) * Pow(256, |t| - 1)
  {
    if |t| > 1 {
      var u := t[..|t| - 1];
      UnsignedHead(u);
      Scale256(t[0], Pow(256, |u| - 1));
      Scale256(t[0] as int + 1, Pow(256, |u| - 1));
    }
  }

  lemma {:induction false} UIntLenMinimal(v: nat)
    ensures v < Pow(256, UIntLen(v))
    ensures UIntLen(v) > 1 ==> v >= Pow(256, UIntLen(v) - 1)
  {
    if v >= 256 { UIntLenMinimal(v / 256); }
  }

  lemma {:induction false} SIntLenMinimal(v: int)
    ensures -128 * Pow(256, SIntLen(v) - 1) <= v < 128 * Pow(256, SIntLen(v) - 1)
    ensures SIntLen(v) > 1 ==> !(-128 * Pow(256, SIntLen(v) - 2) <= v < 128 * Pow(256, SIntLen(v) - 2))
    decreases if v < 0 then -v else v
  {
    if !(-128 <= v < 128) {
      SIntLenMinimal(v / 256);
      var n := SIntLen(v) - 1;
      var p := Pow(256, n - 1);
      assert Pow(256, n) == 256 * p;
      if n > 1 { assert p == 256 * Pow(256, n - 2); }
    }
  }

  lemma UIntLenBound(u: nat)
    requires IsUInt64(u)
    ensures 1 <= UIntLen(u) <= 8
  {
    UIntLenMinimal(u);
    if UIntLen(u) > 8 {
      PowMonotone(256, 8, UIntLen(u) - 1);
      Powers256();
    }
  }

  /** Unsigned integer bodies decode to the value (as 64 unsigned bits) and use the fewest octets. */
  lemma UIntRoundTrip(v: int)
    ensures Unsigned(UIntBody(v)) == AsUInt64(v)
    ensures 1 <= |UIntBody(v)| <= 8
    ensures forall s: Octets :: s != [] && Unsigned(s) == AsUInt64(v) ==> |UIntBody(v)| <= |s|
  {
    hide AsUInt64;
    var u := AsUInt64(v);
    UIntLenBound(u);
    hide IsUInt64;
    UIntLenMinimal(u);
    UnsignedBE(u, UIntLen(u));
    forall s: Octets | s != [] && Unsigned(s) == u ensures UIntLen(u) <= |s| {
      UnsignedBound(s);
      if |s| < UIntLen(u) { PowMonotone(256, |s|, UIntLen(u) - 1); }
    }
  }

  /** Signed integer bodies decode to the value and use the fewest octets. */
  lemma SIntRoundTrip(v: int)
    ensures Signed(SIntBody(v)) == v
    ensures |SIntBody(v)| >= 1
    ensures forall s: Octets :: s != [] && Signed(s) == v ==> |SIntBody(v)| <= |s|
  {
    SIntLenMinimal(v);
    SignedBE(v, SIntLen(v));
    forall s: Octets | s != [] && Signed(s) == v ensures SIntLen(v) <= |s| {
      SignedBound(s);
      if |s| < SIntLen(v) { PowMonotone(256, |s| - 1, SIntLen(v) - 2); }
    }
  }

  lemma SignedBound(s: Octets)
    requires s != []
    ensures -128 * Pow(256, |s| - 1) <= Signed(s) < 128 * Pow(256, |s| - 1)
  {
    UnsignedHead(s);
    var p := Pow(256, |s| - 1);
    assert Pow(256, |s|) == 256 * p;
    PowPositive(256, |s| - 1);
    if s[0] >= 128 {
      MulMonotone(128, s[0], p);
      MulMonotone(s[0] as int + 1, 256, p);
    } else {
      MulMonotone(s[0] as int + 1, 128, p);
      MulMonotone(0, s[0], p);
    }
  }

  lemma SIntLenInt64(v: int)
    requires IsInt64(v)
    ensures 1 <= SIntLen(v) <= 8
  {
    SIntLenMinimal(v);
    if SIntLen(v) > 8 {
      PowMonotone(256, 7, SIntLen(v) - 2);
      Powers256();
    }
  }

  /** Where the body of a leading element lies. */
  lemma ElementAt(e: Elem, rest: Octets)
    requires |e.body| < SIZE_LIMIT
    ensures var s, k := Element(e) + rest, |EncId(e.id)| + |EncSize(|e.body|)|;
            k + |e.body| <= |s| && s[k..k + |e.body|] == e.body && s[k + |e.body|..] == rest
  {
    hide EncId, EncSize;
    assert |e.body| % SIZE_LIMIT == |e.body|;
  }

  lemma {:induction false} ParseOne(e: Elem, rest: Octets)
    requires ValidId(e.id) && |e.body| < SIZE_LIMIT
    ensures ParseElems(Element(e) + rest)
         == (if ParseElems(rest).None? then None else Some([e] + ParseElems(rest).value))
  {
    hide EncId, EncSize, ParseElemHead, Element;
    HeadRoundTrip(e, rest);
    ElementAt(e, rest);
  }

  lemma ParseNothing(rest: Octets)
    requires rest == []
    ensures ParseElems(rest) == Some([])
  {}

  lemma ParseLast(e: Elem, rest: Octets)
    requires ValidId(e.id) && |e.body| < SIZE_LIMIT && rest == []
    ensures ParseElems(Element(e)) == Some([e])
  {
    hide Element, ParseElems;
    ParseNothing(rest);
    ParseOne(e, rest);
    assert Element(e) + rest == Element(e);
    assert [e] + [] == [e];
  }

  lemma HeadRoundTrip(e: Elem, rest: Octets)
    requires ValidId(e.id) && |e.body| < SIZE_LIMIT
    ensures ParseElemHead(Element(e) + rest)
         == Some(ElemHead(e.id, Known(|e.body|), |EncId(e.id)| + |EncSize(|e.body|)|))
  {
    var s := Element(e) + rest;
    hide EncId, EncSize, ParseId, ParseSize;
    var afterId := EncSize(|e.body|) + (e.body + rest);
    assert s == EncId(e.id) + afterId;
    IdRoundTrip(e.id, afterId);
    assert s[|EncId(e.id)|..] == afterId;
    SizeRoundTrip(|e.body|, e.body + rest);
  }

  predicate ValidIds(es: seq<Elem>) { forall i | 0 <= i < |es| :: ValidId(es[i].id) }

  /** Parsing recovers any flattened element list: every declared size is the body length. */
  lemma {:induction false} ParseFlatten(es: seq<Elem>)
    requires Fits(es) && ValidIds(es)
    ensures ParseElems(Flatten(es)) == Some(es)
  {
    if es != [] {
      hide Element, ParseElems;
      var tail := es[1..];
      ParseFlatten(tail);
      ParseOne(es[0], Flatten(tail));
      assert Flatten(es) == Element(es[0]) + Flatten(tail);
      assert es == [es[0]] + tail;
    }
  }

  lemma {:induction false} FlattenAppend(a: seq<Elem>, b: seq<Elem>)
    ensures Flatten(a + b) == Flatten(a) + Flatten(b)
  {
    if a == [] {
      assert a + b == b;
    } else {
      hide Element, Flatten;
      assert (a + b)[0] == a[0] && (a + b)[1..] == a[1..] + b;
      FlattenAppend(a[1..], b);
      FlattenFirst(a);
      FlattenFirst(a + b);
      Associated(Element(a[0]), Flatten(a[1..]), Flatten(b));
    }
  }

  lemma FlattenFirst(es: seq<Elem>)
    requires es != []
    ensures Flatten(es) == Element(es[0]) + Flatten(es[1..])
  {}

  lemma Associated(a: Octets, b: Octets, c: Octets)
    ensures a + b + c == a + (b + c)
  {}
}
