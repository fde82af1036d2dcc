/** What umalloc.c keeps: a circular, address-ordered list of free blocks, and the blocks in use.
    Addresses and sizes count header-sized units. */
module Heap {

  /** `c` lists the free blocks from the header `base` on, `live` the blocks handed out (by the address of
      their headers), `size` the sizes in all headers, and `own` maps every unit obtained from sbrk
      to the block that holds it. */
  datatype Heap = Heap(c: seq<nat>, size: map<nat, nat>, live: set<nat>, own: map<nat, nat>)

  predicate Sized(h: Heap) {
    h.c != [] && (forall i | 0 <= i < |h.c| :: h.c[i] in h.size) && (forall a | a in h.live :: a in h.size)
  }

  function End(h: Heap, a: nat): nat
    requires a in h.size
  {
    a + h.size[a]
  }

  /** In address order, with something between any two neighbours. */
  predicate Ordered(h: Heap)
    requires Sized(h)
  {
    && h.size[h.c[0]] == 0
    && Rising(h.c)
    && (forall i: nat | 0 < i < |h.c| :: GapOk(h, i))
  }

  predicate Rising(c: seq<nat>) { forall i, j | 0 <= i < j < |c| :: c[i] < c[j] }

  predicate GapOk(h: Heap, i: nat)
    requires Sized(h) && 0 < i < |h.c|
  {
    h.size[h.c[i]] > 0 && End(h, h.c[i - 1]) < h.c[i]
  }

  predicate IsBlock(h: Heap, a: nat)
    requires Sized(h)
  {
    a in h.live || (a in h.c && a != h.c[0])
  }

  predicate UnitOk(h: Heap, u: nat)
    requires Sized(h) && u in h.own
  {
    IsBlock(h, h.own[u]) && h.own[u] <= u < End(h, h.own[u])
  }

  predicate LiveOk(h: Heap, a: nat)
    requires Sized(h) && a in h.live
  {
    a > h.c[0] && a !in h.c && h.size[a] > 0
  }

  /** Every unit of block a belongs to a. */
  predicate BlockOk(h: Heap, a: nat)
    requires Sized(h) && IsBlock(h, a)
  {
    forall u: nat | a <= u < End(h, a) :: u in h.own && h.own[u] == a
  }

  ghost predicate Inv(h: Heap) {
    && Sized(h) && Ordered(h)
    && (forall a | a in h.live :: LiveOk(h, a))
    && (forall u | u in h.own :: UnitOk(h, u))
    && (forall a: nat | IsBlock(h, a) :: BlockOk(h, a))
  }

  /** No two blocks share a unit. */
  lemma BlocksApart(h: Heap, a: nat, b: nat)
    requires Inv(h) && IsBlock(h, a) && IsBlock(h, b) && a < b
    ensures End(h, a) <= b
  {
    assert BlockOk(h, a) && BlockOk(h, b);
    HasUnits(h, b);
    assert b in h.own && h.own[b] == b;
  }

  lemma HasUnits(h: Heap, a: nat)
    requires Inv(h) && IsBlock(h, a)
    ensures h.size[a] > 0 && a > h.c[0]
  {
    if a in h.live {
      assert LiveOk(h, a);
    } else {
      var i :| 0 <= i < |h.c| && h.c[i] == a;
      assert GapOk(h, i);
    }
  }

  // ----- Units

  function Span(a: nat, n: nat): set<nat> { if n == 0 then {} else Span(a, n - 1) + {a + n - 1} }

  lemma {:induction false} SpanIs(a: nat, n: nat)
    ensures |Span(a, n)| == n && forall u: nat :: u in Span(a, n) <==> a <= u < a + n
  {
    if n > 0 {
      SpanIs(a, n - 1);
    }
  }

  /** The units [a, a + n) become part of block a. */
  function Claim(own: map<nat, nat>, a: nat, n: nat): map<nat, nat> {
    if n == 0 then own else Claim(own, a, n - 1)[a + n - 1 := a]
  }

  lemma {:induction false} ClaimIs(own: map<nat, nat>, a: nat, n: nat, u: nat)
    ensures u in Claim(own, a, n) <==> u in own || a <= u < a + n
    ensures u in Claim(own, a, n) ==> Claim(own, a, n)[u] == if a <= u < a + n then a else own[u]
  {
    if n > 0 {
      ClaimIs(own, a, n - 1, u);
    }
  }

  lemma {:induction false} ClaimKeys(own: map<nat, nat>, a: nat, n: nat)
    ensures Claim(own, a, n).Keys == own.Keys + Span(a, n)
  {
    if n > 0 {
      ClaimKeys(own, a, n - 1);
    }
  }

  // ----- The list as a set

  function Cut(c: seq<nat>, k: nat): seq<nat>
    requires k < |c|
  {
    c[..k] + c[k + 1..]
  }

  lemma CutHas(c: seq<nat>, k: nat, a: nat)
    requires k < |c| && Rising(c)
    ensures a in Cut(c, k) <==> a in c && a != c[k]
  {
    if a in Cut(c, k) {
      var i :| 0 <= i < |c| - 1 && Cut(c, k)[i] == a;
      assert c[if i < k then i else i + 1] == a;
    }
    if a in c && a != c[k] {
      var i :| 0 <= i < |c| && c[i] == a;
      assert Cut(c, k)[if i < k then i else i - 1] == a;
    }
  }

  lemma CutRising(c: seq<nat>, k: nat)
    requires k < |c| && Rising(c)
    ensures Rising(Cut(c, k))
  {
    var r := Cut(c, k);
    forall i, j | 0 <= i < j < |r|
      ensures r[i] < r[j]
    {
      assert r[i] == c[if i < k then i else i + 1] && r[j] == c[if j < k then j else j + 1];
    }
  }

  // ----- malloc

  /** A free block of exactly the right size is handed out whole. */
  function TakeWhole(h: Heap, k: nat): Heap
    requires 0 < k < |h.c|
  {
    h.(c := Cut(h.c, k), live := h.live + {h.c[k]})
  }

  /** The last n units of a larger free block are handed out. */
  function Carve(h: Heap, k: nat, n: nat): Heap
    requires Sized(h) && 0 < k < |h.c| && n < h.size[h.c[k]]
  {
    var p, rest := h.c[k], h.size[h.c[k]] - n;
    h.(size := h.size[p := rest][p + rest := n], live := h.live + {p + rest}, own := Claim(h.own, p + rest, n))
  }

  lemma TakeWholeOrdered(h: Heap, k: nat)
    requires Sized(h) && Ordered(h) && 0 < k < |h.c|
    ensures Sized(TakeWhole(h, k)) && Ordered(TakeWhole(h, k)) && TakeWhole(h, k).c[0] == h.c[0]
  {
    var t := TakeWhole(h, k);
    CutRising(h.c, k);
    assert t.c[0] == h.c[0];
    forall i: nat | 0 < i < |t.c|
      ensures GapOk(t, i)
    {
      assert t.c[i] == h.c[if i < k then i else i + 1] && t.c[i - 1] == h.c[if i - 1 < k then i - 1 else i];
      assert GapOk(h, if i < k then i else i + 1);
      if i == k {
        assert GapOk(h, i);
      }
    }
  }

  lemma TakeWholeKeepsInv(h: Heap, k: nat)
    requires Inv(h) && 0 < k < |h.c|
    ensures Inv(TakeWhole(h, k))
  {
    var t := TakeWhole(h, k);
    TakeWholeOrdered(h, k);
    forall a: nat
      ensures a in t.c <==> a in h.c && a != h.c[k]
    {
      CutHas(h.c, k, a);
    }
    forall a | a in t.live
      ensures LiveOk(t, a)
    {
      HasUnits(h, a);
      if a in h.live {
        assert LiveOk(h, a);
      }
    }
    forall u | u in t.own
      ensures UnitOk(t, u)
    {
      assert UnitOk(h, u);
    }
    forall a: nat | IsBlock(t, a)
      ensures BlockOk(t, a)
    {
      assert BlockOk(h, a);
    }
  }

  lemma CarveKeepsInv(h: Heap, k: nat, n: nat)
    requires Inv(h) && 0 < k < |h.c| && 0 < n < h.size[h.c[k]]
    ensures Inv(Carve(h, k, n)) && Carve(h, k, n).own.Keys == h.own.Keys
  {
    var t, p := Carve(h, k, n), h.c[k];
    var q := p + h.size[p] - n;
    assert p != h.c[0];
    Newcomer(h, p, q);
    CarveOrdered(h, k, n);
    forall u | u in t.own
      ensures UnitOk(t, u)
    {
      CarveUnit(h, k, n, u);
    }
    forall a: nat | IsBlock(t, a)
      ensures BlockOk(t, a)
    {
      CarveBlock(h, k, n, a);
    }
    KeysKept(h, p, q, n);
  }

  lemma CarveOrdered(h: Heap, k: nat, n: nat)
    requires Inv(h) && 0 < k < |h.c| && 0 < n < h.size[h.c[k]]
    requires var q := h.c[k] + h.size[h.c[k]] - n; q !in h.live && q !in h.c && q > h.c[0]
    ensures var t := Carve(h, k, n); Sized(t) && Ordered(t) && forall a | a in t.live :: LiveOk(t, a)
  {
    var t := Carve(h, k, n);
    forall i: nat | 0 < i < |t.c|
      ensures GapOk(t, i)
    {
      assert GapOk(h, i);
    }
    forall a | a in t.live
      ensures LiveOk(t, a)
    {
      if a in h.live {
        assert LiveOk(h, a);
      }
    }
  }

  lemma CarveUnit(h: Heap, k: nat, n: nat, u: nat)
    requires Inv(h) && 0 < k < |h.c| && 0 < n < h.size[h.c[k]] && u in Carve(h, k, n).own
    requires h.c[k] + h.size[h.c[k]] - n !in h.live && h.c[k] + h.size[h.c[k]] - n !in h.c
    ensures Sized(Carve(h, k, n)) && UnitOk(Carve(h, k, n), u)
  {
    ClaimIs(h.own, h.c[k] + h.size[h.c[k]] - n, n, u);
    if u in h.own {
      assert UnitOk(h, u);
    }
  }

  lemma CarveBlock(h: Heap, k: nat, n: nat, a: nat)
    requires Inv(h) && 0 < k < |h.c| && 0 < n < h.size[h.c[k]]
    requires h.c[k] + h.size[h.c[k]] - n !in h.live && h.c[k] + h.size[h.c[k]] - n !in h.c
    requires Sized(Carve(h, k, n)) && IsBlock(Carve(h, k, n), a)
    ensures BlockOk(Carve(h, k, n), a)
  {
    var t, q := Carve(h, k, n), h.c[k] + h.size[h.c[k]] - n;
    if a != q {
      assert BlockOk(h, a) && BlockOk(h, h.c[k]);
    }
    forall u: nat | a <= u < End(t, a)
      ensures u in t.own && t.own[u] == a
    {
      ClaimIs(h.own, q, n, u);
      if a != q {
        assert u in h.own && h.own[u] == a;
      }
    }
  }

  /** An address inside a block is no header. */
  lemma Newcomer(h: Heap, p: nat, q: nat)
    requires Inv(h) && IsBlock(h, p) && p < q < End(h, p)
    ensures q !in h.live && q !in h.c && q > h.c[0]
  {
    assert BlockOk(h, p);
    assert h.own[q] == p;
    HasUnits(h, p);
    if IsBlock(h, q) {
      BlocksApart(h, p, q);
    }
  }

  lemma KeysKept(h: Heap, p: nat, q: nat, n: nat)
    requires Inv(h) && IsBlock(h, p) && p <= q && q + n <= End(h, p)
    ensures Claim(h.own, q, n).Keys == h.own.Keys
  {
    assert BlockOk(h, p);
    SpanIs(q, n);
    ClaimKeys(h.own, q, n);
    forall u | u in Span(q, n)
      ensures u in h.own
    {
      assert p <= u < End(h, p);
    }
  }

  // ----- free

  /** The block in use at bp swallows the free block right after it. */
  function AbsorbRight(h: Heap, i: nat, bp: nat): Heap
    requires Sized(h) && 0 < i < |h.c| && bp in h.live
  {
    var n := h.size[bp] + h.size[h.c[i]];
    h.(c := Cut(h.c, i), size := h.size[bp := n], own := Claim(h.own, bp, n))
  }

  /** The free block c[k] swallows the block in use right after it. */
  function JoinLeft(h: Heap, k: nat, bp: nat): Heap
    requires Sized(h) && k < |h.c| && bp in h.live
  {
    var n := h.size[h.c[k]] + h.size[bp];
    h.(size := h.size[h.c[k] := n], live := h.live - {bp}, own := Claim(h.own, h.c[k], n))
  }

  /** The block in use at bp becomes a free block of its own after c[k]. */
  function Insert(h: Heap, k: nat, bp: nat): Heap
    requires k < |h.c|
  {
    h.(c := h.c[..k + 1] + [bp] + h.c[k + 1..], live := h.live - {bp})
  }

  /** bp lies between c[k] and whatever follows it. */
  predicate Between(c: seq<nat>, k: nat, bp: nat) {
    k < |c| && c[k] < bp && (k + 1 < |c| ==> bp < c[k + 1])
  }

  /** c[i] begins where the block in use at bp ends. */
  ghost predicate RightNext(h: Heap, i: nat, bp: nat) {
    Inv(h) && 0 < i < |h.c| && bp in h.live && End(h, bp) == h.c[i]
  }

  lemma AbsorbOrdered(h: Heap, i: nat, bp: nat)
    requires RightNext(h, i, bp)
    ensures var t := AbsorbRight(h, i, bp);
            Sized(t) && Ordered(t) && t.c[0] == h.c[0] && (forall a | a in t.live :: LiveOk(t, a))
  {
    var t := AbsorbRight(h, i, bp);
    TakeWholeOrdered(h, i);
    assert LiveOk(h, bp);
    forall j: nat | 0 < j < |t.c|
      ensures GapOk(t, j)
    {
      assert GapOk(TakeWhole(h, i), j);
      CutHas(h.c, i, t.c[j]);
      CutHas(h.c, i, t.c[j - 1]);
    }
    forall a | a in t.live
      ensures LiveOk(t, a)
    {
      assert LiveOk(h, a);
      CutHas(h.c, i, a);
    }
  }

  lemma AbsorbUnit(h: Heap, i: nat, bp: nat, u: nat)
    requires RightNext(h, i, bp) && u in AbsorbRight(h, i, bp).own && Sized(AbsorbRight(h, i, bp))
    requires AbsorbRight(h, i, bp).c[0] == h.c[0]
    ensures UnitOk(AbsorbRight(h, i, bp), u) && u in h.own
  {
    var n := h.size[bp] + h.size[h.c[i]];
    ClaimIs(h.own, bp, n, u);
    assert BlockOk(h, bp) && BlockOk(h, h.c[i]);
    assert u in h.own;
    assert UnitOk(h, u);
    CutHas(h.c, i, h.own[u]);
  }

  lemma AbsorbBlock(h: Heap, i: nat, bp: nat, a: nat)
    requires RightNext(h, i, bp) && Sized(AbsorbRight(h, i, bp)) && AbsorbRight(h, i, bp).c[0] == h.c[0]
    requires IsBlock(AbsorbRight(h, i, bp), a)
    ensures BlockOk(AbsorbRight(h, i, bp), a)
  {
    var t, n := AbsorbRight(h, i, bp), h.size[bp] + h.size[h.c[i]];
    CutHas(h.c, i, a);
    assert BlockOk(h, a) && BlockOk(h, bp) && BlockOk(h, h.c[i]);
    forall u: nat | a <= u < End(t, a)
      ensures u in t.own && t.own[u] == a
    {
      ClaimIs(h.own, bp, n, u);
      if a != bp {
        assert u in h.own && h.own[u] == a;
      }
    }
  }

  lemma AbsorbKeepsInv(h: Heap, i: nat, bp: nat)
    requires RightNext(h, i, bp)
    ensures Inv(AbsorbRight(h, i, bp)) && AbsorbRight(h, i, bp).own.Keys == h.own.Keys
  {
    var t := AbsorbRight(h, i, bp);
    AbsorbOrdered(h, i, bp);
    forall u | u in t.own
      ensures UnitOk(t, u)
    {
      AbsorbUnit(h, i, bp, u);
    }
    forall a: nat | IsBlock(t, a)
      ensures BlockOk(t, a)
    {
      AbsorbBlock(h, i, bp, a);
    }
    forall u
      ensures u in t.own <==> u in h.own
    {
      ClaimIs(h.own, bp, h.size[bp] + h.size[h.c[i]], u);
      if u in t.own {
        AbsorbUnit(h, i, bp, u);
      }
    }
  }

  /** bp starts where c[k] ends, and nothing free starts where bp ends. */
  ghost predicate LeftNext(h: Heap, k: nat, bp: nat) {
    && Inv(h) && 0 < k < |h.c| && bp in h.live && End(h, h.c[k]) == bp
    && (k + 1 < |h.c| ==> End(h, bp) < h.c[k + 1])
  }

  lemma JoinOrdered(h: Heap, k: nat, bp: nat)
    requires LeftNext(h, k, bp)
    ensures var t := JoinLeft(h, k, bp); Sized(t) && Ordered(t) && (forall a | a in t.live :: LiveOk(t, a))
  {
    var t := JoinLeft(h, k, bp);
    assert LiveOk(h, bp);
    forall j: nat | 0 < j < |t.c|
      ensures GapOk(t, j)
    {
      assert GapOk(h, j);
    }
    forall a | a in t.live
      ensures LiveOk(t, a)
    {
      assert LiveOk(h, a);
    }
  }

  lemma JoinUnit(h: Heap, k: nat, bp: nat, u: nat)
    requires LeftNext(h, k, bp) && u in JoinLeft(h, k, bp).own && Sized(JoinLeft(h, k, bp))
    ensures UnitOk(JoinLeft(h, k, bp), u) && u in h.own
  {
    ClaimIs(h.own, h.c[k], h.size[h.c[k]] + h.size[bp], u);
    assert h.c[k] != h.c[0];
    assert BlockOk(h, bp) && BlockOk(h, h.c[k]);
    assert u in h.own;
    assert UnitOk(h, u);
  }

  lemma JoinBlock(h: Heap, k: nat, bp: nat, a: nat)
    requires LeftNext(h, k, bp) && Sized(JoinLeft(h, k, bp)) && IsBlock(JoinLeft(h, k, bp), a)
    ensures BlockOk(JoinLeft(h, k, bp), a)
  {
    var t, p := JoinLeft(h, k, bp), h.c[k];
    assert LiveOk(h, bp);
    assert BlockOk(h, a) && BlockOk(h, bp) && BlockOk(h, p);
    forall u: nat | a <= u < End(t, a)
      ensures u in t.own && t.own[u] == a
    {
      ClaimIs(h.own, p, h.size[p] + h.size[bp], u);
      if a != p {
        assert u in h.own && h.own[u] == a;
      }
    }
  }

  lemma JoinKeepsInv(h: Heap, k: nat, bp: nat)
    requires LeftNext(h, k, bp)
    ensures Inv(JoinLeft(h, k, bp)) && JoinLeft(h, k, bp).own.Keys == h.own.Keys
  {
    var t := JoinLeft(h, k, bp);
    JoinOrdered(h, k, bp);
    forall u | u in t.own
      ensures UnitOk(t, u)
    {
      JoinUnit(h, k, bp, u);
    }
    forall a: nat | IsBlock(t, a)
      ensures BlockOk(t, a)
    {
      JoinBlock(h, k, bp, a);
    }
    forall u
      ensures u in t.own <==> u in h.own
    {
      ClaimIs(h.own, h.c[k], h.size[h.c[k]] + h.size[bp], u);
      if u in t.own {
        JoinUnit(h, k, bp, u);
      }
    }
  }

  /** bp touches no free block. */
  ghost predicate AloneAt(h: Heap, k: nat, bp: nat) {
    && Inv(h) && k < |h.c| && bp in h.live && End(h, h.c[k]) < bp
    && (k + 1 < |h.c| ==> End(h, bp) < h.c[k + 1])
  }

  lemma InsertAt(c: seq<nat>, k: nat, bp: nat, a: nat)
    requires k < |c|
    ensures a in c[..k + 1] + [bp] + c[k + 1..] <==> a in c || a == bp
  {
    var r := c[..k + 1] + [bp] + c[k + 1..];
    if a in c {
      var i :| 0 <= i < |c| && c[i] == a;
      assert r[if i <= k then i else i + 1] == a;
    }
    assert r[k + 1] == bp;
  }

  lemma InsertOrdered(h: Heap, k: nat, bp: nat)
    requires AloneAt(h, k, bp)
    ensures Sized(Insert(h, k, bp)) && Ordered(Insert(h, k, bp)) && Insert(h, k, bp).c[0] == h.c[0]
  {
    var t := Insert(h, k, bp);
    assert LiveOk(h, bp);
    forall j: nat | j < |t.c|
      ensures t.c[j] in h.size
    {
      InsertedAt(h.c, k, bp, j);
    }
    InsertedAt(h.c, k, bp, 0);
    forall j: nat | 0 < j < |t.c|
      ensures GapOk(t, j)
    {
      InsertGap(h, k, bp, j);
    }
    InsertRising(h.c, k, bp);
  }

  lemma InsertedAt(c: seq<nat>, k: nat, bp: nat, j: nat)
    requires k < |c| && j <= |c|
    ensures (c[..k + 1] + [bp] + c[k + 1..])[j] == (if j <= k then c[j] else if j == k + 1 then bp else c[j - 1])
  {}

  lemma InsertGap(h: Heap, k: nat, bp: nat, j: nat)
    requires AloneAt(h, k, bp) && h.size[bp] > 0 && 0 < j <= |h.c| && Sized(Insert(h, k, bp))
    ensures GapOk(Insert(h, k, bp), j)
  {
    InsertedAt(h.c, k, bp, j);
    InsertedAt(h.c, k, bp, j - 1);
    if j <= k {
      assert GapOk(h, j);
    } else if j > k + 1 {
      assert GapOk(h, j - 1);
    }
  }

  lemma InsertRising(c: seq<nat>, k: nat, bp: nat)
    requires Rising(c) && Between(c, k, bp)
    ensures Rising(c[..k + 1] + [bp] + c[k + 1..])
  {
    var r := c[..k + 1] + [bp] + c[k + 1..];
    forall i, j | 0 <= i < j < |r|
      ensures r[i] < r[j]
    {
      assert r[i] == (if i <= k then c[i] else if i == k + 1 then bp else c[i - 1]);
      assert r[j] == (if j <= k then c[j] else if j == k + 1 then bp else c[j - 1]);
    }
  }

  lemma InsertKeepsInv(h: Heap, k: nat, bp: nat)
    requires AloneAt(h, k, bp)
    ensures Inv(Insert(h, k, bp))
  {
    var t := Insert(h, k, bp);
    InsertOrdered(h, k, bp);
    assert LiveOk(h, bp);
    forall a: nat
      ensures a in t.c <==> a in h.c || a == bp
    {
      InsertAt(h.c, k, bp, a);
    }
    forall a | a in t.live
      ensures LiveOk(t, a)
    {
      assert LiveOk(h, a);
    }
    forall u | u in t.own
      ensures UnitOk(t, u)
    {
      assert UnitOk(h, u);
    }
    forall a: nat | IsBlock(t, a)
      ensures BlockOk(t, a)
    {
      assert BlockOk(h, a);
    }
  }

  // ----- free as a whole

  /** The block before bp ends at or before bp, the one after starts at or after its end. */
  lemma Around(h: Heap, k: nat, bp: nat)
    requires Inv(h) && Between(h.c, k, bp) && bp in h.live
    ensures End(h, h.c[k]) <= bp && (k + 1 < |h.c| ==> End(h, bp) <= h.c[k + 1])
  {
    if k > 0 {
      assert h.c[0] < h.c[k];
      BlocksApart(h, h.c[k], bp);
    }
    if k + 1 < |h.c| {
      assert h.c[0] < h.c[k + 1];
      BlocksApart(h, bp, h.c[k + 1]);
    }
  }

  /** free's first test: bp joins the next free block if they touch. */
  ghost function Absorbed(h: Heap, k: nat, bp: nat): (t: Heap)
    requires Inv(h) && Between(h.c, k, bp) && bp in h.live
    ensures Inv(t) && Between(t.c, k, bp) && bp in t.live && t.live == h.live && t.own.Keys == h.own.Keys && t.c[..k + 1] == h.c[..k + 1]
    ensures k + 1 < |t.c| ==> End(t, bp) < t.c[k + 1]
    ensures forall a | a in h.live && a != bp :: t.size[a] == h.size[a]
  {
    Around(h, k, bp);
    if k + 1 < |h.c| && End(h, bp) == h.c[k + 1] then
      AbsorbKeepsInv(h, k + 1, bp);
      AbsorbedEnd(h, k, bp);
      AbsorbRight(h, k + 1, bp)
    else h
  }

  lemma AbsorbedEnd(h: Heap, k: nat, bp: nat)
    requires Inv(h) && Between(h.c, k, bp) && bp in h.live && k + 1 < |h.c| && End(h, bp) == h.c[k + 1]
    ensures var t := AbsorbRight(h, k + 1, bp);
            && t.c[..k + 1] == h.c[..k + 1] && Between(t.c, k, bp)
            && (k + 1 < |t.c| ==> t.size[bp] + bp < t.c[k + 1])
  {
    if k + 2 < |h.c| {
      assert GapOk(h, k + 2);
    }
  }

  /** free(bp), given the list position k before it: join with the next free block if they touch, then
      with the previous one if they touch. */
  ghost function Freed(h: Heap, k: nat, bp: nat): Heap
    requires Inv(h) && Between(h.c, k, bp) && bp in h.live
  {
    var t := Absorbed(h, k, bp);
    if End(t, t.c[k]) == bp then JoinLeft(t, k, bp) else Insert(t, k, bp)
  }

  /** free keeps the invariant and every unit; the other blocks in use do not change. */
  lemma FreedKeepsInv(h: Heap, k: nat, bp: nat)
    requires Inv(h) && Between(h.c, k, bp) && bp in h.live
    ensures var t := Freed(h, k, bp);
            && Inv(t) && t.c[0] == h.c[0] && k < |t.c| && t.c[k] == h.c[k]
            && t.live == h.live - {bp} && t.own.Keys == h.own.Keys
            && forall a | a in t.live :: t.size[a] == h.size[a]
  {
    var t := Absorbed(h, k, bp);
    assert t.c[k] == t.c[..k + 1][k] == h.c[k] && t.c[0] == t.c[..k + 1][0] == h.c[0];
    Around(t, k, bp);
    if End(t, t.c[k]) == bp {
      assert k > 0;
      JoinKeepsInv(t, k, bp);
      forall a | a in t.live && a != bp
        ensures a != t.c[k]
      {
        assert LiveOk(t, a);
      }
    } else {
      InsertKeepsInv(t, k, bp);
    }
  }

  /** There is exactly one place for bp. */
  lemma {:induction false} PlaceFor(c: seq<nat>, bp: nat) returns (k: nat)
    requires Rising(c) && c != [] && c[0] < bp && bp !in c
    ensures Between(c, k, bp)
  {
    var n := |c| - 1;
    if c[n] < bp {
      k := n;
    } else {
      k := PlaceFor(c[..n], bp);
    }
  }

  // ----- morecore

  /** n units at a, fresh from sbrk, as a block in use. */
  function Obtained(h: Heap, a: nat, n: nat): Heap {
    h.(size := h.size[a := n], live := h.live + {a}, own := Claim(h.own, a, n))
  }

  ghost predicate Fresh(h: Heap, a: nat, n: nat) {
    h.c != [] && a > h.c[0] && n > 0 && forall u: nat | a <= u < a + n :: u !in h.own
  }

  lemma ObtainedKeepsInv(h: Heap, a: nat, n: nat)
    requires Inv(h) && Fresh(h, a, n)
    ensures Inv(Obtained(h, a, n)) && a !in h.live && a !in h.c
    ensures Obtained(h, a, n).own.Keys == h.own.Keys + Span(a, n)
  {
    var t := Obtained(h, a, n);
    forall b: nat | IsBlock(h, b)
      ensures b in h.own
    {
      HasUnits(h, b);
      assert BlockOk(h, b);
    }
    assert a !in h.own;
    forall i: nat | 0 < i < |t.c|
      ensures GapOk(t, i)
    {
      assert GapOk(h, i);
    }
    forall b | b in t.live
      ensures LiveOk(t, b)
    {
      if b != a {
        assert LiveOk(h, b);
      }
    }
    forall u | u in t.own
      ensures UnitOk(t, u)
    {
      ObtainedUnit(h, a, n, u);
    }
    forall b: nat | IsBlock(t, b)
      ensures BlockOk(t, b)
    {
      ObtainedBlock(h, a, n, b);
    }
    ClaimKeys(h.own, a, n);
  }

  lemma ObtainedUnit(h: Heap, a: nat, n: nat, u: nat)
    requires Inv(h) && Fresh(h, a, n) && !IsBlock(h, a) && Sized(Obtained(h, a, n)) && u in Obtained(h, a, n).own
    ensures UnitOk(Obtained(h, a, n), u)
  {
    ClaimIs(h.own, a, n, u);
    if u in h.own {
      assert UnitOk(h, u);
    }
  }

  lemma ObtainedBlock(h: Heap, a: nat, n: nat, b: nat)
    requires Inv(h) && Fresh(h, a, n) && !IsBlock(h, a) && Sized(Obtained(h, a, n)) && IsBlock(Obtained(h, a, n), b)
    ensures BlockOk(Obtained(h, a, n), b)
  {
    var t := Obtained(h, a, n);
    if b != a {
      assert BlockOk(h, b);
    }
    forall u: nat | b <= u < End(t, b)
      ensures u in t.own && t.own[u] == b
    {
      ClaimIs(h.own, a, n, u);
      if b != a {
        assert u in h.own && h.own[u] == b;
      }
    }
  }

  // ----- Conservation

  function FreeTotal(h: Heap, n: nat): nat
    requires Sized(h) && n <= |h.c|
  {
    if n == 0 then 0 else FreeTotal(h, n - 1) + h.size[h.c[n - 1]]
  }

  ghost function Pick(s: set<nat>): (a: nat)
    requires s != {}
    ensures a in s
  {
    var a :| a in s;
    a
  }

  ghost function LiveTotal(h: Heap, live: set<nat>): nat
    requires Sized(h) && live <= h.live
    decreases live
  {
    if live == {} then 0
    else
      var a := Pick(live);
      h.size[a] + LiveTotal(h, live - {a})
  }

  /** The units whose block satisfies the list or set given. */
  ghost function FreeUnits(h: Heap, n: nat): set<nat>
    requires Sized(h) && n <= |h.c|
  {
    if n == 0 then {} else FreeUnits(h, n - 1) + Span(h.c[n - 1], h.size[h.c[n - 1]])
  }

  ghost function LiveUnits(h: Heap, live: set<nat>): set<nat>
    requires Sized(h) && live <= h.live
    decreases live
  {
    if live == {} then {}
    else
      var a := Pick(live);
      Span(a, h.size[a]) + LiveUnits(h, live - {a})
  }

  lemma FreeUnitsAre(h: Heap, n: nat)
    requires Inv(h) && n <= |h.c|
    ensures |FreeUnits(h, n)| == FreeTotal(h, n)
    ensures forall u :: u in FreeUnits(h, n) <==> u in h.own && h.own[u] in h.c[..n]
  {
    forall k | 0 <= k < |h.c|
      ensures SpansItsUnits(h, h.c[k])
    {
      BlockUnits(h, h.c[k]);
    }
    FreeUnitsJoin(h, n);
  }

  /** f are the units that the blocks bs own. */
  ghost predicate Collects(own: map<nat, nat>, f: set<nat>, bs: seq<nat>) {
    forall u :: u in f <==> u in own && own[u] in bs
  }

  /** The span of block a is the units it owns. */
  ghost predicate SpansItsUnits(h: Heap, a: nat) {
    a in h.size && |Span(a, h.size[a])| == h.size[a] && Collects(h.own, Span(a, h.size[a]), [a])
  }

  lemma {:induction false} FreeUnitsJoin(h: Heap, n: nat)
    requires Sized(h) && Rising(h.c) && n <= |h.c| && forall k | 0 <= k < |h.c| :: SpansItsUnits(h, h.c[k])
    ensures |FreeUnits(h, n)| == FreeTotal(h, n) && Collects(h.own, FreeUnits(h, n), h.c[..n])
  {
    if n > 0 {
      FreeUnitsJoin(h, n - 1);
      RisingIsFresh(h.c, n);
      assert SpansItsUnits(h, h.c[n - 1]);
      FreeUnitsStep(h, n, h.c[n - 1]);
    } else {
      assert FreeUnits(h, 0) == {};
    }
  }

  lemma FreeUnitsStep(h: Heap, n: nat, a: nat)
    requires Sized(h) && 0 < n <= |h.c| && a == h.c[n - 1] && a !in h.c[..n - 1] && SpansItsUnits(h, a)
    requires |FreeUnits(h, n - 1)| == FreeTotal(h, n - 1) && Collects(h.own, FreeUnits(h, n - 1), h.c[..n - 1])
    ensures |FreeUnits(h, n)| == FreeTotal(h, n) && Collects(h.own, FreeUnits(h, n), h.c[..n])
  {
    UnitsJoin(h.own, h.c, n, FreeUnits(h, n - 1), Span(a, h.size[a]), FreeUnits(h, n));
  }

  lemma RisingIsFresh(c: seq<nat>, n: nat)
    requires Rising(c) && 0 < n <= |c|
    ensures c[n - 1] !in c[..n - 1]
  {}

  /** The units of the first n - 1 blocks and those of the next are those of the first n. */
  lemma UnitsJoin(own: map<nat, nat>, c: seq<nat>, n: nat, f: set<nat>, s: set<nat>, t: set<nat>)
    requires 0 < n <= |c| && c[n - 1] !in c[..n - 1] && t == f + s
    requires Collects(own, f, c[..n - 1]) && Collects(own, s, [c[n - 1]])
    ensures |t| == |f| + |s| && Collects(own, t, c[..n])
  {
    assert c[..n] == c[..n - 1] + [c[n - 1]];
    assert f !! s;
  }

  /** A block's units are those it owns (none for the header that only closes the ring). */
  lemma BlockUnits(h: Heap, a: nat)
    requires Inv(h) && (IsBlock(h, a) || a == h.c[0])
    ensures |Span(a, h.size[a])| == h.size[a]
    ensures forall u :: u in Span(a, h.size[a]) <==> u in h.own && h.own[u] == a
  {
    SpanIs(a, h.size[a]);
    if IsBlock(h, a) {
      assert BlockOk(h, a);
    }
    forall u | u in h.own && h.own[u] == a
      ensures a <= u < a + h.size[a]
    {
      assert UnitOk(h, u);
    }
  }

  lemma {:induction false} LiveUnitsAre(h: Heap, live: set<nat>)
    requires Inv(h) && live <= h.live
    ensures |LiveUnits(h, live)| == LiveTotal(h, live)
    ensures forall u :: u in LiveUnits(h, live) <==> u in h.own && h.own[u] in live
    decreases live
  {
    if live != {} {
      var a := Pick(live);
      LiveUnitsAre(h, live - {a});
      BlockUnits(h, a);
      assert Span(a, h.size[a]) !! LiveUnits(h, live - {a});
    }
  }

  /** Free units plus units in use are the units sbrk gave. */
  lemma Conserved(h: Heap)
    requires Inv(h)
    ensures FreeTotal(h, |h.c|) + LiveTotal(h, h.live) == |h.own.Keys|
  {
    FreeUnitsAre(h, |h.c|);
    LiveUnitsAre(h, h.live);
    assert h.c[..|h.c|] == h.c;
    UnitsSplit(h, FreeUnits(h, |h.c|), LiveUnits(h, h.live));
  }

  lemma UnitsSplit(h: Heap, f: set<nat>, l: set<nat>)
    requires Inv(h)
    requires forall u :: u in f <==> u in h.own && h.own[u] in h.c
    requires forall u :: u in l <==> u in h.own && h.own[u] in h.live
    ensures |h.own.Keys| == |f| + |l|
  {
    forall u | u in h.own
      ensures u in f <==> u !in l
    {
      EitherWay(h, u);
    }
    assert h.own.Keys == f + l && f !! l;
  }

  lemma EitherWay(h: Heap, u: nat)
    requires Inv(h) && u in h.own
    ensures h.own[u] in h.c <==> h.own[u] !in h.live
  {
    assert UnitOk(h, u);
    if h.own[u] in h.live {
      assert LiveOk(h, h.own[u]);
    }
  }

  // ----- Every run

  /** What malloc, free and morecore do to the heap. */
  datatype Step =
    | Grow(a: nat, n: nat)        // sbrk gives units; they begin as a block in use
    | Whole(k: nat)               // a free block is handed out
    | Part(k: nat, n: nat)        // the end of a free block is handed out
    | Release(k: nat, bp: nat)    // free

  ghost predicate Enabled(h: Heap, s: Step)
    requires Inv(h)
  {
    match s
    case Grow(a, n) => Fresh(h, a, n)
    case Whole(k) => 0 < k < |h.c|
    case Part(k, n) => 0 < k < |h.c| && 0 < n < h.size[h.c[k]]
    case Release(k, bp) => bp in h.live && Between(h.c, k, bp)
  }

  ghost function Do(h: Heap, s: Step): Heap
    requires Inv(h) && Enabled(h, s)
  {
    match s
    case Grow(a, n) => Obtained(h, a, n)
    case Whole(k) => TakeWhole(h, k)
    case Part(k, n) => Carve(h, k, n)
    case Release(k, bp) => Freed(h, k, bp)
  }

  function Obtaining(s: Step): nat { if s.Grow? then s.n else 0 }

  lemma StepKeepsInv(h: Heap, s: Step)
    requires Inv(h) && Enabled(h, s)
    ensures Inv(Do(h, s)) && |Do(h, s).own.Keys| == |h.own.Keys| + Obtaining(s)
  {
    match s
    case Grow(a, n) =>
      ObtainedKeepsInv(h, a, n);
      SpanIs(a, n);
      assert h.own.Keys !! Span(a, n);
    case Whole(k) => TakeWholeKeepsInv(h, k);
    case Part(k, n) => CarveKeepsInv(h, k, n);
    case Release(k, bp) => FreedKeepsInv(h, k, bp);
  }

  ghost predicate Reaches(h: Heap, run: seq<Step>, t: Heap)
    decreases |run|
  {
    if run == [] then h == t else Inv(h) && Enabled(h, run[0]) && Reaches(Do(h, run[0]), run[1..], t)
  }

  function Total(run: seq<Step>): nat { if run == [] then 0 else Obtaining(run[0]) + Total(run[1..]) }

  lemma {:induction false} RunKeepsInv(h: Heap, run: seq<Step>, t: Heap)
    requires Inv(h) && Reaches(h, run, t)
    ensures Inv(t) && |t.own.Keys| == |h.own.Keys| + Total(run)
    decreases |run|
  {
    if run != [] {
      StepKeepsInv(h, run[0]);
      RunKeepsInv(Do(h, run[0]), run[1..], t);
    }
  }

  /** malloc's first act: a list of nothing but the closing header. */
  function Start(base: nat): Heap { Heap([base], map[base := 0], {}, map[]) }

  lemma ListApart(h: Heap, i: nat, j: nat)
    requires Sized(h) && Ordered(h) && i < j < |h.c|
    ensures End(h, h.c[i]) < h.c[j]
  {
    assert GapOk(h, i + 1);
    assert h.c[i + 1] <= h.c[j];
  }

  /** After any sequence of malloc and free, the free list is in order without neighbours that touch, no
      two blocks overlap, and free units plus units in use are all that sbrk ever gave. */
  lemma AnyRun(base: nat, run: seq<Step>, t: Heap)
    requires Reaches(Start(base), run, t)
    ensures Inv(t) && FreeTotal(t, |t.c|) + LiveTotal(t, t.live) == Total(run)
    ensures forall i, j | 0 <= i < j < |t.c| :: End(t, t.c[i]) < t.c[j]
    ensures forall a: nat, b: nat | IsBlock(t, a) && IsBlock(t, b) && a < b :: End(t, a) <= b
  {
    RunKeepsInv(Start(base), run, t);
    Conserved(t);
    forall i, j | 0 <= i < j < |t.c|
      ensures End(t, t.c[i]) < t.c[j]
    {
      ListApart(t, i, j);
    }
    forall a: nat, b: nat | IsBlock(t, a) && IsBlock(t, b) && a < b
      ensures End(t, a) <= b
    {
      BlocksApart(t, a, b);
    }
  }
}
