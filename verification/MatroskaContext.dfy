/** The writer's growing buffers and the element writers that append to them. */
module MatroskaContext {
  import opened Bytes
  import opened Ebml
  import opened MatroskaFormat
  import opened MatroskaMuxing

  const MAX_BUFFER := 0x8000_0000

  /** Buffer capacities: none yet, or 16 doubled some number of times. */
  predicate IsDoubled(n: nat) {
    n == 16 || (n > 16 && n % 2 == 0 && IsDoubled(n / 2))
  }

  predicate IsCapacity(n: nat) { n == 0 || IsDoubled(n) }

  /** The capacity loop of mk_appendContextData: keep doubling until the contents fit. */
  method Grow(dMax: nat, ns: nat) returns (dn: nat)
    requires IsCapacity(dMax) && dMax < ns <= MAX_BUFFER
    ensures IsDoubled(dn) && ns <= dn
    ensures dn == 16 || dn / 2 < ns
    ensures dn <= MAX_BUFFER
  {
    dn := if dMax != 0 then 2 * dMax else 16;
    while ns > dn
      invariant IsDoubled(dn) && 16 <= dn && (dn == 16 || dn / 2 < ns)
      decreases ns - dn
    {
      dn := 2 * dn;
    }
    DoubledBound(dn);
  }

  lemma {:induction false} DoubledBound(n: nat)
    requires IsDoubled(n) && n / 2 < MAX_BUFFER
    ensures n <= MAX_BUFFER
  {
    if n > 16 {
      DoubledSteps(n, 27);
      assert Pow(2, 9) == 0x200;
      assert Pow(2, 18) == 0x40000;
      assert Pow(2, 27) == 0x800_0000;
    }
  }

  /** A doubled size above 16 * 2^k is at least 16 * 2^(k+1). */
  lemma {:induction false} DoubledSteps(n: nat, k: nat)
    requires IsDoubled(n)
    ensures n > 16 * Pow(2, k) ==> n >= 32 * Pow(2, k)
  {
    if k == 0 {
      if n > 16 { assert IsDoubled(n / 2); DoubledAtLeast(n / 2); }
    } else if n > 16 {
      DoubledSteps(n / 2, k - 1);
    } else {
      PowPositive(2, k);
    }
  }

  lemma {:induction false} DoubledAtLeast(n: nat)
    requires IsDoubled(n)
    ensures n >= 16
  {}

  class Context {
    var next: Context?
    var parent: Context?
    var id: nat
    var data: Octets   // the allocated block, d_max octets
    var dCur: nat

    constructor ()
      ensures next == null && parent == null && id == 0 && Valid() && Contents() == []
    {
      next, parent, id, data, dCur := null, null, 0, [], 0;
    }

    predicate Valid()
      reads this
    {
      dCur <= |data| && IsCapacity(|data|)
    }

    function Contents(): Octets
      reads this
    {
      if dCur <= |data| then data[..dCur] else []
    }

    /** mk_appendContextData */
    method Append(d: Octets)
      requires Valid() && dCur + |d| <= MAX_BUFFER
      modifies this`data, this`dCur
      ensures Valid() && Contents() == old(Contents()) + d
      ensures |data| == old(|data|) || (IsDoubled(|data|) && (|data| == 16 || |data| / 2 < dCur))
    {
      var ns := dCur + |d|;
      if ns > |data| {
        var dn := Grow(|data|, ns);
        data := data + seq(dn - |data|, _ => 0);
      }
      data := data[..dCur] + d + data[ns..];
      dCur := ns;
    }

    /** mk_writeID */
    method WriteId(id: nat)
      requires Valid() && dCur + 4 <= MAX_BUFFER && id < SIZE_LIMIT
      modifies this`data, this`dCur
      ensures Valid() && Contents() == old(Contents()) + EncId(id)
    {
      var cId := BE(id, 4);
      IdBytes(id);
      if cId[0] != 0 {
        Append(cId);
      } else if cId[1] != 0 {
        Append(cId[1..]);
      } else if cId[2] != 0 {
        Append(cId[2..]);
      } else {
        Append(cId[3..]);
      }
    }

    /** mk_writeSize; the marker bits are clear before they are set, so setting adds them. */
    method WriteSize(size: nat)
      requires Valid() && dCur + 5 <= MAX_BUFFER && size < SIZE_LIMIT
      modifies this`data, this`dCur
      ensures Valid() && Contents() == old(Contents()) + EncSize(size)
    {
      hide BE, EncSize, EbmlSizeSize;
      var cSize := [0x08] + BE(size, 4);
      SizeBytes(size);
      assert cSize[1..] == BE(size, 4) && cSize[2..] == BE(size, 4)[1..];
      assert cSize[3..] == BE(size, 4)[2..] && cSize[4..] == BE(size, 4)[3..];
      if size < 0x7f {
        Append([cSize[4] + 0x80]);
      } else if size < 0x3fff {
        Append([cSize[3] + 0x40] + cSize[4..]);
      } else if size < 0x1fffff {
        Append([cSize[2] + 0x20] + cSize[3..]);
      } else if size < 0x0fffffff {
        Append([cSize[1] + 0x10] + cSize[2..]);
      } else {
        Append(cSize);
      }
    }

    /** mk_writeStr and mk_writeBin */
    method WriteBin(id: nat, d: Octets)
      requires Valid() && id < SIZE_LIMIT && dCur + |d| + 9 <= MAX_BUFFER
      modifies this`data, this`dCur
      ensures Valid() && Contents() == old(Contents()) + Element(Elem(id, d))
    {
      hide EncId, EncSize, IsCapacity;
      HeadBound(id, |d|);
      ghost var was := Contents();
      WriteId(id);
      WriteSize(|d|);
      Append(d);
      assert |d| % SIZE_LIMIT == |d|;
      Headed(was, EncId(id), EncSize(|d|), d);
    }

    /** mk_writeUInt */
    method WriteUInt(id: nat, ui: int)
      requires Valid() && id < SIZE_LIMIT && IsInt64(ui) && dCur + 17 <= MAX_BUFFER
      modifies this`data, this`dCur
      ensures Valid() && Contents() == old(Contents()) + Element(UInt(id, ui))
    {
      hide EncId, EncSize, IsCapacity, UIntBody, UInt, BE;
      var cUi := BE(ui, 8);
      var i := 0;
      while i < 7 && cUi[i] == 0
        invariant i <= 7 && forall j | 0 <= j < i :: cUi[j] == 0
      {
        i := i + 1;
      }
      UIntDropped(ui, i);
      UIntIs(id, ui);
      WriteBin(id, cUi[i..]);
    }

    /** mk_writeSInt */
    method WriteSInt(id: nat, si: int)
      requires Valid() && id < SIZE_LIMIT && IsInt64(si) && dCur + 17 <= MAX_BUFFER
      modifies this`data, this`dCur
      ensures Valid() && Contents() == old(Contents()) + Element(Elem(id, SIntBody(si)))
    {
      hide EncId, EncSize, IsCapacity, SIntBody, BE;
      var cSi := BE(si, 8);
      var i := SkipSigned(si);
      WriteBin(id, cSi[i..]);
    }

    /** mk_writeUInt onto a body known as an element list. */
    method PutUInt(id: nat, ui: int, ghost es: seq<Elem>) returns (ghost es': seq<Elem>)
      requires Valid() && id < SIZE_LIMIT && IsInt64(ui) && dCur + 17 <= MAX_BUFFER && Contents() == Flatten(es)
      modifies this`data, this`dCur
      ensures Valid() && es' == es + [UInt(id, ui)] && Contents() == Flatten(es') && dCur <= old(dCur) + 17
    {
      hide IsCapacity, UInt, Flatten, Element;
      WriteUInt(id, ui);
      es' := es + [UInt(id, ui)];
      ElementSize(UInt(id, ui));
      FlattenSnoc(es, UInt(id, ui));
    }

    /** mk_writeBin onto a body known as an element list. */
    method PutBin(id: nat, d: Octets, ghost es: seq<Elem>) returns (ghost es': seq<Elem>)
      requires Valid() && id < SIZE_LIMIT && dCur + |d| + 9 <= MAX_BUFFER && Contents() == Flatten(es)
      modifies this`data, this`dCur
      ensures Valid() && es' == es + [Elem(id, d)] && Contents() == Flatten(es') && dCur <= old(dCur) + |d| + 9
    {
      hide IsCapacity, Flatten, Element;
      WriteBin(id, d);
      es' := es + [Elem(id, d)];
      ElementSize(Elem(id, d));
      FlattenSnoc(es, Elem(id, d));
    }

    /** BlockGroup and Block up to the payload. */
    method WriteGroupStart(bgsize: nat, delta: int, payload: Octets)
      requires Valid() && |payload| <= MAX_FRAME && bgsize < SIZE_LIMIT && dCur + |payload| + 30 <= MAX_BUFFER
      modifies this`data, this`dCur
      ensures Valid() && Contents() == old(Contents()) + GroupStart(bgsize, delta, payload)
    {
      HeadLengths();
      hide EncId, EncSize, IsCapacity, BE, EbmlSizeSize;
      ghost var was := Contents();
      WriteId(ID_BLOCKGROUP);
      WriteSize(bgsize);
      WriteId(ID_BLOCK);
      WriteSize(|payload| + 4);
      WriteSize(1);
      Append(BE(delta, 2) + [0]);
      Append(payload);
      SevenParts(was, EncId(ID_BLOCKGROUP), EncSize(bgsize), EncId(ID_BLOCK), EncSize(|payload| + 4), EncSize(1),
                 BE(delta, 2) + [0], payload);
    }

    /** The BlockGroup part of mk_flushFrame; its size is announced before its parts exist. */
    method WriteGroup(delta: int, payload: Octets, keyframe: bool, ref: int)
      requires Valid() && |payload| <= MAX_FRAME && dCur + |payload| + 60 <= MAX_BUFFER
      requires IsInt16(delta) && IsInt64(ref)
      modifies this`data, this`dCur
      ensures Valid()
      ensures Contents() == old(Contents()) + Element(GroupElem(Block(delta, payload, if keyframe then None else Some(ref))))
    {
      hide GroupStart, IsCapacity, SIntBody, EbmlSizeSize, SIntLen, GroupElem, Element;
      ghost var was := Contents();
      var fsize := |payload|;
      var bgsize := fsize + 4 + EbmlSizeSize(fsize + 4) + 1;
      if !keyframe {
        var n := EbmlSIntSize(ref);
        SIntLenInt64(ref);
        bgsize := bgsize + 1 + 1 + n;
      }
      GroupStartLength(bgsize, delta, payload);
      WriteGroupStart(bgsize, delta, payload);
      if !keyframe {
        WriteSInt(ID_REFERENCE, ref);
      }
      GroupOctets(Block(delta, payload, if keyframe then None else Some(ref)), bgsize);
    }
  }

  lemma HeadBound(id: nat, n: nat)
    requires n < SIZE_LIMIT
    ensures |EncId(id)| <= 4 && |EncSize(n)| <= 5
  {}

  lemma Headed(was: Octets, id: Octets, size: Octets, d: Octets)
    ensures was + id + size + d == was + (id + size + d)
  {}

  lemma FlattenSnoc(es: seq<Elem>, e: Elem)
    ensures Flatten(es + [e]) == Flatten(es) + Element(e)
  {
    hide Element;
    FlattenAppend(es, [e]);
    FlattenOne(e, [e]);
  }

  lemma SevenParts(w: Octets, a: Octets, b: Octets, c: Octets, d: Octets, e: Octets, f: Octets, g: Octets)
    ensures w + a + b + c + d + e + f + g == w + (a + b + c + d + e + f + g)
  {}

  lemma GroupStartLength(bgsize: nat, delta: int, payload: Octets)
    requires bgsize < SIZE_LIMIT && |payload| <= MAX_FRAME
    ensures |GroupStart(bgsize, delta, payload)| <= |payload| + 16
  {
    HeadLengths();
    hide EncId, EncSize, BE;
  }

  /** A block group up to the end of the block, with an announced group size. */
  function GroupStart(bgsize: nat, delta: int, payload: Octets): Octets
    requires bgsize < SIZE_LIMIT && |payload| <= MAX_FRAME
  {
    EncId(ID_BLOCKGROUP) + EncSize(bgsize) + EncId(ID_BLOCK) + EncSize(|payload| + 4) + EncSize(1)
    + (BE(delta, 2) + [0]) + payload
  }

  lemma HeadLengths()
    ensures |EncId(ID_BLOCKGROUP)| == 1 && |EncId(ID_BLOCK)| == 1 && |EncSize(1)| == 1
    ensures forall n :: 0 <= n < SIZE_LIMIT ==> |EncSize(n)| <= 5
  {}

  /** The octets written piecewise are the element with its true size. */
  lemma GroupOctets(b: Block, bgsize: nat)
    requires ValidBlock(b) && |b.payload| <= MAX_FRAME
    requires bgsize == |b.payload| + 4 + EbmlSizeSize(|b.payload| + 4) + 1 + (if b.ref.None? then 0 else 2 + SIntLen(b.ref.value))
    requires bgsize < SIZE_LIMIT
    ensures Element(GroupElem(b)) == GroupStart(bgsize, b.delta, b.payload)
            + (if b.ref.None? then [] else Element(Elem(ID_REFERENCE, SIntBody(b.ref.value))))
  {
    hide EncId, EncSize, BE, SIntBody, EbmlSizeSize, SIntLen, Flatten, GroupElems, BlockBody;
    GroupSize(b);
    GroupParts(b);
    var t := if b.ref.None? then [] else Element(Elem(ID_REFERENCE, SIntBody(b.ref.value)));
    GroupFlat(b, t);
    BlockFirst(b);
    Joined(EncId(ID_BLOCKGROUP), EncSize(bgsize), EncId(ID_BLOCK), EncSize(|b.payload| + 4), EncSize(1), BE(b.delta, 2) + [0], b.payload, t);
  }

  lemma GroupFlat(b: Block, t: Octets)
    requires t == if b.ref.None? then [] else Element(Elem(ID_REFERENCE, SIntBody(b.ref.value)))
    ensures Flatten(GroupElems(b)) == Element(Elem(ID_BLOCK, BlockBody(b))) + t
  {
    hide Element, Flatten, BlockBody, SIntBody;
    var e := Elem(ID_BLOCK, BlockBody(b));
    if b.ref.None? {
      FlattenOne(e, GroupElems(b));
    } else {
      var f := Elem(ID_REFERENCE, SIntBody(b.ref.value));
      assert GroupElems(b) == [e] + [f];
      FlattenAppend([e], [f]);
      FlattenOne(e, [e]);
      FlattenOne(f, [f]);
    }
  }

  lemma BlockFirst(b: Block)
    requires |BlockBody(b)| == |b.payload| + 4 < SIZE_LIMIT
    ensures Element(Elem(ID_BLOCK, BlockBody(b))) == EncId(ID_BLOCK) + EncSize(|b.payload| + 4) + (EncSize(1) + (BE(b.delta, 2) + [0]) + b.payload)
  {
    hide EncId, EncSize, BE;
  }

  lemma Joined(a: Octets, b: Octets, c: Octets, d: Octets, e: Octets, f: Octets, g: Octets, t: Octets)
    ensures a + b + ((c + d + (e + f + g)) + t) == (a + b + c + d + e + f + g) + t
  {}

  lemma BESuffix(v: int, n: nat, k: nat)
    requires k <= n
    ensures BE(v, n)[n - k..] == BE(v, k)
    decreases n
  {
    if 0 < k {
      BESuffix(v / 256, n - 1, k - 1);
      assert BE(v, n)[n - k..] == BE(v / 256, n - 1)[n - k..] + [v % 256];
    }
  }

  /** The octets of an identifier and which of them are leading zeros. */
  lemma IdBytes(id: nat)
    requires id < SIZE_LIMIT
    ensures var c := BE(id, 4);
      EncId(id) == if c[0] != 0 then c else if c[1] != 0 then c[1..] else if c[2] != 0 then c[2..] else c[3..]
  {
    BESuffix(id, 4, 3);
    BESuffix(id, 4, 2);
    BESuffix(id, 4, 1);
    Bytes4(id);
  }

  lemma Bytes4(v: nat)
    ensures BE(v, 4) == [v / 0x1000000 % 256, v / 0x10000 % 256, v / 0x100 % 256, v % 256]
  {
    BEIndex(v, 4, 0);
    BEIndex(v, 4, 1);
    BEIndex(v, 4, 2);
    BEIndex(v, 4, 3);
    assert Shift(v, 3) == v / 256 / 256 / 256;
    assert Shift(v, 2) == v / 256 / 256;
  }

  lemma {:induction false} BEWrapsMany(v: int, n: nat, m: nat)
    ensures BE(v + m * Pow(256, n), n) == BE(v, n)
    decreases m
  {
    if m > 0 {
      var p := Pow(256, n);
      BEWrapsMany(v, n, m - 1);
      BEWraps(v + (m - 1) * p, n);
      assert v + m * p == v + (m - 1) * p + p;
    }
  }

  lemma DivShift(n: nat, m: nat, p: nat)
    requires p > 0
    ensures (n + m * p) / p == n / p + m
  {
    var q := n / p;
    assert q * p <= n < q * p + p;
    assert (q + m) * p == q * p + m * p;
    assert (q + m + 1) * p == q * p + m * p + p;
    DivUnique(n + m * p, p, q + m);
  }

  /** A marker bit above the low octets changes the first octet only. */
  lemma MarkedBytes(n: nat, w: nat, m: nat)
    requires 1 <= w && n + m * Pow(256, w - 1) < Pow(256, w)
    ensures Pow(256, w - 1) > 0
    ensures BE(n + m * Pow(256, w - 1), w) == [n / Pow(256, w - 1) + m] + BE(n, w - 1)
  {
    hide BE;
    var p := Pow(256, w - 1);
    PowPositive(256, w - 1);
    var x := n + m * p;
    BEHead(x, w);
    BESuffix(x, w, w - 1);
    BEWrapsMany(n, w - 1, m);
    DivShift(n, m, p);
    assert BE(x, w) == [BE(x, w)[0]] + BE(x, w)[1..];
  }

  /** The writer's recipe for a w-octet size: the low octets of n with marker m in the first. */
  lemma SizeRecipe(n: nat, w: nat, m: nat)
    requires n < SIZE_LIMIT && w == EbmlSizeSize(n) <= 4 && Pow(128, w) == m * Pow(256, w - 1) && m <= 128
    ensures BE(n, 4)[4 - w] < m && EncSize(n) == [BE(n, 4)[4 - w] + m] + BE(n, 4)[5 - w..]
  {
    hide BE, Pow;
    PowPositive(256, w - 1);
    Pow256Step(w);
    MarkerRoom(n, m, Pow(256, w - 1));
    MarkedBytes(n, w, m);
    BESuffix(n, 4, w);
    BESuffix(n, 4, w - 1);
    BEHead(n, w);
    assert BE(n, 4)[4 - w..][0] == BE(n, 4)[4 - w];
  }

  lemma MarkerRoom(n: nat, m: nat, p: nat)
    requires p > 0 && n < m * p && m <= 128
    ensures n / p < m && n + m * p < 256 * p
  {
    MulMonotone(m, 128, p);
    DivBelow(n, m, p);
  }

  lemma DivBelow(n: nat, m: nat, p: nat)
    requires p > 0 && n < m * p
    ensures n / p < m
  {
    var q := n / p;
    assert q * p <= n;
    ProductOrder(q, m, p);
  }

  lemma Pow256Step(w: nat)
    requires w >= 1
    ensures Pow(256, w) == 256 * Pow(256, w - 1)
  {}

  lemma SizeRecipe5(n: nat)
    requires n < SIZE_LIMIT && EbmlSizeSize(n) == 5
    ensures EncSize(n) == [0x08] + BE(n, 4)
  {
    Powers128();
    Powers256();
    hide BE, Pow, EbmlSizeSize;
    MarkedBytes(n, 5, 0x08);
  }

  /** Each branch of mk_writeSize emits the value with the marker bit its length calls for. */
  lemma SizeBytes(n: nat)
    requires n < SIZE_LIMIT
    ensures var c := BE(n, 4);
      if n < 0x7f then c[3] < 128 && EncSize(n) == [c[3] + 0x80]
      else if n < 0x3fff then c[2] < 64 && EncSize(n) == [c[2] + 0x40] + c[3..]
      else if n < 0x1fffff then c[1] < 32 && EncSize(n) == [c[1] + 0x20] + c[2..]
      else if n < 0x0fffffff then c[0] < 16 && EncSize(n) == [c[0] + 0x10] + c[1..]
      else EncSize(n) == [0x08] + c
  {
    var w := EbmlSizeSize(n);
    assert w == if n < 0x7f then 1 else if n < 0x3fff then 2 else if n < 0x1fffff then 3
                else if n < 0x0fffffff then 4 else 5;
    Powers128();
    Powers256();
    hide Pow, BE, EncSize, EbmlSizeSize;
    if w == 5 {
      SizeRecipe5(n);
    } else {
      SizeRecipe(n, w, if w == 1 then 0x80 else if w == 2 then 0x40 else if w == 3 then 0x20 else 0x10);
    }
  }

  lemma UIntIs(id: nat, v: int)
    ensures UInt(id, v) == Elem(id, UIntBody(v))
  {
    hide UIntBody;
  }

  lemma ShiftNext(v: int, k: nat)
    ensures Shift(v, k) / 256 == Shift(v, k + 1)
    decreases k
  {
    if k > 0 { ShiftNext(v / 256, k - 1); }
  }

  /** Leading zero octets of the eight-octet form: what follows them is the shortest form. */
  lemma UIntDropped(ui: int, i: nat)
    requires IsInt64(ui) && i <= 7 && forall j | 0 <= j < i :: BE(ui, 8)[j] == 0
    requires i == 7 || BE(ui, 8)[i] != 0
    ensures BE(ui, 8)[i..] == UIntBody(ui)
  {
    hide BE;
    var u := AsUInt64(ui);
    SameOctets(ui);
    ZeroOctets(u, i);
    if i < 7 {
      BEIndex(u, 8, i);
      UIntLenIs(u, 8 - i);
    } else {
      UIntLenIs(u, 1);
    }
    BESuffix(u, 8, 8 - i);
  }

  lemma SameOctets(ui: int)
    requires IsInt64(ui)
    ensures BE(ui, 8) == BE(AsUInt64(ui), 8)
  {
    hide BE, Pow;
    Powers256();
    if ui < 0 { BEWraps(ui, 8); }
  }

  lemma {:induction false} ZeroOctets(u: nat, i: nat)
    requires IsUInt64(u) && i <= 7 && forall j | 0 <= j < i :: BE(u, 8)[j] == 0
    ensures Shift(u, 8 - i) == 0
  {
    hide BE, Shift, Pow;
    if i == 0 {
      Powers256();
      ShiftRange(u, 8, 0, 1);
    } else {
      ZeroOctets(u, i - 1);
      BEIndex(u, 8, i - 1);
      ShiftNext(u, 8 - i);
    }
  }

  lemma {:induction false} UIntLenIs(u: nat, n: nat)
    requires n >= 1 && Shift(u, n) == 0 && (n == 1 || Shift(u, n - 1) != 0)
    ensures UIntLen(u) == n
  {
    if n > 1 {
      ShiftRange(u, n - 1, 0, 1);
      PowMonotone(256, 1, n - 1);
      UIntLenIs(u / 256, n - 1);
    }
  }

  lemma {:induction false} SIntLenIs(v: int, n: nat)
    requires n >= 1 && -128 <= Shift(v, n - 1) < 128 && (n == 1 || !(-128 <= Shift(v, n - 2) < 128))
    ensures SIntLen(v) == n
    decreases n
  {
    if n > 1 {
      ShiftRange(v, n - 2, -128, 128);
      PowMonotone(256, 0, n - 2);
      SIntLenIs(v / 256, n - 1);
    }
  }

  /** The loops of mk_writeSInt and mk_ebmlSIntSize: octets that only repeat the sign. */
  method SkipSigned(si: int) returns (i: nat)
    requires IsInt64(si)
    ensures i <= 7 && 8 - i == SIntLen(si) && BE(si, 8)[i..] == SIntBody(si)
  {
    hide BE, Shift, SIntLen;
    var cSi := BE(si, 8);
    i := 0;
    SignStart(si);
    if si < 0 {
      while i < 7 && cSi[i] == 0xff && cSi[i + 1] >= 0x80
        invariant i <= 7 && -128 <= Shift(si, 7 - i) < 128
      {
        SignStep(si, i);
        i := i + 1;
      }
    } else {
      while i < 7 && cSi[i] == 0 && cSi[i + 1] < 0x80
        invariant i <= 7 && -128 <= Shift(si, 7 - i) < 128
      {
        SignStep(si, i);
        i := i + 1;
      }
    }
    if i < 7 { SignStep(si, i); }
    SIntLenIs(si, 8 - i);
    BESuffix(si, 8, 8 - i);
  }

  lemma SignStart(si: int)
    requires IsInt64(si)
    ensures -128 <= Shift(si, 7) < 128
  {
    Powers256();
    hide Pow, Shift;
    ShiftRange(si, 7, -128, 128);
  }

  /** One step: the next octet repeats the sign exactly when dropping one keeps the value. */
  lemma SignStep(si: int, i: nat)
    requires i < 7 && -128 <= Shift(si, 7 - i) < 128
    ensures var c := BE(si, 8);
      -128 <= Shift(si, 6 - i) < 128 <==>
        if si < 0 then c[i] == 0xff && c[i + 1] >= 0x80 else c[i] == 0 && c[i + 1] < 0x80
  {
    hide BE, Shift;
    BEIndex(si, 8, i);
    BEIndex(si, 8, i + 1);
    ShiftNext(si, 6 - i);
    ShiftSign(si, 6 - i);
  }

  lemma ShiftSign(v: int, k: nat)
    ensures Shift(v, k) < 0 <==> v < 0
    decreases k
  {
    if k > 0 { ShiftSign(v / 256, k - 1); }
  }

  /** mk_ebmlSIntSize predicts the length mk_writeSInt produces. */
  method EbmlSIntSize(si: int) returns (n: nat)
    requires IsInt64(si)
    ensures n == |SIntBody(si)| == SIntLen(si)
  {
    var i := SkipSigned(si);
    n := 8 - i;
  }
}
