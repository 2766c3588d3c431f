/** Reference-counted evaluation with and without moving marked fields out: the same
    counts on every path. */
module TakeFieldsRuns {
  import opened Machine

  /** A word is an immediate value or a counted reference. */
  datatype Word = Imm(n: int) | Ptr(addr: nat)

  const UNIT_WORD: Word := Imm(0)

  /** Count 0 is a freed cell. */
  datatype Cell = Cell(count: nat, fields: seq<Word>)

  type Heap = seq<Cell>

  predicate Live(h: Heap, a: nat) {
    a < |h| && h[a].count > 0
  }

  function Retain(h: Heap, w: Word): Option<Heap> {
    if w.Imm? then Some(h)
    else if !Live(h, w.addr) then None
    else Some(h[w.addr := h[w.addr].(count := h[w.addr].count + 1)])
  }

  // ----- release -----

  function Total(h: Heap): nat {
    if h == [] then 0 else Total(h[..|h| - 1]) + h[|h| - 1].count
  }

  lemma {:induction false} TotalUpdate(h: Heap, a: nat, c: Cell)
    requires a < |h|
    ensures Total(h[a := c]) + h[a].count == Total(h) + c.count
  {
    var n := |h| - 1;
    if a < n {
      TotalUpdate(h[..n], a, c);
      assert h[a := c][..n] == h[..n][a := c];
    } else {
      assert h[a := c][..n] == h[..n];
    }
  }

  /** One reference less; the last one frees the cell. */
  function Drop1(h: Heap, a: nat): Heap
    requires Live(h, a)
  {
    h[a := if h[a].count == 1 then Cell(0, []) else h[a].(count := h[a].count - 1)]
  }

  /** What dropping a reference leaves to be released. */
  function Freed(h: Heap, a: nat): seq<Word>
    requires Live(h, a)
  {
    if h[a].count == 1 then h[a].fields else []
  }

  /** Releases every pending reference; `None` is the release of a dead cell. */
  function Release(h: Heap, pending: seq<Word>): Option<Heap>
    decreases Total(h), |pending|
  {
    if pending == [] then Some(h)
    else match pending[0]
      case Imm(_) => Release(h, pending[1..])
      case Ptr(a) =>
        if !Live(h, a) then None
        else
          TotalUpdate(h, a, Drop1(h, a)[a]);
          Release(Drop1(h, a), Freed(h, a) + pending[1..])
  }

  lemma {:induction false} DropTwice(h: Heap, a: nat, b: nat)
    requires Live(h, a) && Live(h, b) && a != b
    ensures Live(Drop1(h, a), b) && Live(Drop1(h, b), a)
    ensures Drop1(Drop1(h, a), b) == Drop1(Drop1(h, b), a)
    ensures Freed(Drop1(h, a), b) == Freed(h, b) && Freed(Drop1(h, b), a) == Freed(h, a)
  {
  }

  lemma RemoveOne(w: Word, p: seq<Word>) returns (rest: seq<Word>)
    requires w in p
    ensures multiset(p) == multiset([w] + rest) && |rest| + 1 == |p|
  {
    var i :| 0 <= i < |p| && p[i] == w;
    rest := p[..i] + p[i + 1..];
    assert p == p[..i] + [w] + p[i + 1..];
  }

  lemma ReleasePtr(h: Heap, a: nat, rest: seq<Word>)
    ensures Release(h, [Ptr(a)] + rest) == if Live(h, a) then Release(Drop1(h, a), Freed(h, a) + rest) else None
    ensures Live(h, a) ==> Total(Drop1(h, a)) < Total(h)
  {
    assert ([Ptr(a)] + rest)[1..] == rest;
    if Live(h, a) { TotalUpdate(h, a, Drop1(h, a)[a]); }
  }

  lemma ReleaseImm(h: Heap, w: Word, rest: seq<Word>)
    requires w.Imm?
    ensures Release(h, [w] + rest) == Release(h, rest)
  {
    assert ([w] + rest)[1..] == rest;
  }

  /** The order of releases makes no difference. */
  lemma {:induction false} ReleaseOrder(h: Heap, p: seq<Word>, q: seq<Word>)
    requires multiset(p) == multiset(q)
    ensures Release(h, p) == Release(h, q)
    decreases Total(h), |p|, 2
  {
    hide Release;
    assert |p| == |multiset(p)| == |multiset(q)| == |q|;
    if p == [] {
      assert q == [];
    } else {
      assert p == [p[0]] + p[1..] && q == [q[0]] + q[1..];
      if p[0] == q[0] {
        SameTails(p, q);
        ReleaseTail(h, p[0], p[1..], q[1..]);
      } else {
        var r := OtherTails(p, q);
        ReleaseTail(h, p[0], p[1..], [q[0]] + r);
        ReleaseTail(h, q[0], q[1..], [p[0]] + r);
        ReleaseSwap(h, p[0], q[0], r);
      }
    }
  }

  lemma SameTails(p: seq<Word>, q: seq<Word>)
    requires multiset(p) == multiset(q) && p != [] && q != [] && p[0] == q[0]
    ensures multiset(p[1..]) == multiset(q[1..])
  {
    assert p == [p[0]] + p[1..] && q == [q[0]] + q[1..];
    assert multiset(p[1..]) == multiset(p) - multiset{p[0]} && multiset(q[1..]) == multiset(q) - multiset{p[0]};
  }

  lemma OtherTails(p: seq<Word>, q: seq<Word>) returns (r: seq<Word>)
    requires multiset(p) == multiset(q) && p != [] && q != [] && p[0] != q[0]
    ensures multiset(p[1..]) == multiset([q[0]] + r) && multiset(q[1..]) == multiset([p[0]] + r) && |r| + 2 == |p|
  {
    assert p == [p[0]] + p[1..] && q == [q[0]] + q[1..];
    assert q[0] in multiset(p);
    assert q[0] in p[1..];
    r := RemoveOne(q[0], p[1..]);
    assert multiset(p) == multiset{p[0]} + (multiset{q[0]} + multiset(r));
    assert multiset(q[1..]) == multiset(q) - multiset{q[0]} == multiset{p[0]} + multiset(r);
  }

  /** The same first word, the rest in another order. */
  lemma {:induction false} ReleaseTail(h: Heap, w: Word, p: seq<Word>, q: seq<Word>)
    requires multiset(p) == multiset(q)
    ensures Release(h, [w] + p) == Release(h, [w] + q)
    decreases Total(h), |p| + 1, 0
  {
    hide Release;
    match w
    case Imm(_) =>
      ReleaseImm(h, w, p);
      ReleaseImm(h, w, q);
      ReleaseOrder(h, p, q);
    case Ptr(a) =>
      ReleasePtr(h, a, p);
      ReleasePtr(h, a, q);
      if Live(h, a) { ReleaseOrder(Drop1(h, a), Freed(h, a) + p, Freed(h, a) + q); }
  }

  lemma {:induction false} ReleaseSwap(h: Heap, x: Word, y: Word, r: seq<Word>)
    requires x != y
    ensures Release(h, [x] + ([y] + r)) == Release(h, [y] + ([x] + r))
    decreases Total(h), |r| + 2, 1
  {
    hide Release;
    if x.Imm? {
      ImmSwap(h, x, y, r);
    } else if y.Imm? {
      ImmSwap(h, y, x, r);
    } else {
      var a, b := x.addr, y.addr;
      ReleasePtr(h, a, [y] + r);
      ReleasePtr(h, b, [x] + r);
      PtrThen(h, a, b, r);
      PtrThen(h, b, a, r);
      if Live(h, a) && Live(h, b) {
        DropTwice(h, a, b);
        ReleasePtr(h, a, r);
        TotalTwice(h, a, b);
        ReleaseOrder(Drop1(Drop1(h, a), b), Freed(h, b) + (Freed(h, a) + r), Freed(h, a) + (Freed(h, b) + r));
      }
    }
  }

  lemma TotalTwice(h: Heap, a: nat, b: nat)
    requires Live(h, a) && Live(h, b) && a != b
    ensures Total(Drop1(Drop1(h, a), b)) < Total(h)
  {
    TotalUpdate(h, a, Drop1(h, a)[a]);
    TotalUpdate(Drop1(h, a), b, Drop1(Drop1(h, a), b)[b]);
  }

  /** After one reference, another. */
  lemma {:induction false} PtrThen(h: Heap, a: nat, b: nat, r: seq<Word>)
    requires a != b
    ensures Live(h, a) ==>
      (Release(Drop1(h, a), Freed(h, a) + ([Ptr(b)] + r)) ==
       if Live(h, b) then Release(Drop1(Drop1(h, a), b), Freed(h, b) + (Freed(h, a) + r)) else None)
    decreases Total(h), 0, 0
  {
    hide Release;
    if Live(h, a) {
      ReleasePtr(h, a, r);
      ReleaseOrder(Drop1(h, a), Freed(h, a) + ([Ptr(b)] + r), [Ptr(b)] + (Freed(h, a) + r));
      ReleasePtr(Drop1(h, a), b, Freed(h, a) + r);
      if Live(h, b) { DropTwice(h, a, b); }
    }
  }

  lemma {:induction false} ImmSwap(h: Heap, x: Word, y: Word, r: seq<Word>)
    requires x.Imm?
    ensures Release(h, [x] + ([y] + r)) == Release(h, [y] + ([x] + r))
    decreases Total(h), |r| + 2, 0
  {
    hide Release;
    ReleaseImm(h, x, [y] + r);
    if y.Imm? {
      ReleaseImm(h, y, r);
      ReleaseImm(h, y, [x] + r);
      ReleaseImm(h, x, r);
    } else {
      ReleasePtr(h, y.addr, r);
      ReleasePtr(h, y.addr, [x] + r);
      if Live(h, y.addr) {
        var h1, f := Drop1(h, y.addr), Freed(h, y.addr);
        ReleaseOrder(h1, f + ([x] + r), [x] + (f + r));
        ReleaseImm(h1, x, f + r);
      }
    }
  }

  // ----- a dying owner with some fields moved out -----

  /** The moved slots that held a reference to `b`. */
  function MovedTo(fields: seq<Word>, moved: set<nat>, b: nat): set<nat> {
    set i | i in moved && i < |fields| && fields[i] == Ptr(b)
  }

  /** `kept` retained every field it read, `took` moved some out of cell `a`: counts differ
      by exactly the moved references. */
  ghost predicate Moved(kept: Heap, took: Heap, a: nat, moved: set<nat>) {
    && |kept| == |took| && a < |kept| && kept[a].count == took[a].count && |kept[a].fields| == |took[a].fields|
    && (forall b :: 0 <= b < |kept| && b != a ==>
          kept[b].fields == took[b].fields && kept[b].count == took[b].count + |MovedTo(kept[a].fields, moved, b)|)
    && (forall b :: 0 <= b < |kept| && b != a && MovedTo(kept[a].fields, moved, b) != {} ==> took[b].count > 0)
    && (forall i :: 0 <= i < |kept[a].fields| ==>
          took[a].fields[i] == if i in moved then UNIT_WORD else kept[a].fields[i])
    && (forall i :: i in moved ==>
          i < |kept[a].fields| && InHeap(kept, kept[a].fields[i]) && kept[a].fields[i] != Ptr(a))
    && (moved != {} ==> kept[a].count == 1)
  }

  predicate InHeap(h: Heap, w: Word) {
    w.Ptr? ==> w.addr < |h|
  }

  /** The same for the references pending once the owner is gone. */
  ghost predicate Owed(kept: Heap, took: Heap, fk: seq<Word>, ft: seq<Word>, moved: set<nat>) {
    && |kept| == |took| && |fk| == |ft|
    && (forall b :: 0 <= b < |kept| ==>
          kept[b].fields == took[b].fields && kept[b].count == took[b].count + |MovedTo(fk, moved, b)|)
    && (forall b :: 0 <= b < |kept| && MovedTo(fk, moved, b) != {} ==> took[b].count > 0)
    && (forall i :: 0 <= i < |fk| ==> ft[i] == if i in moved then UNIT_WORD else fk[i])
    && (forall i :: i in moved ==> i < |fk| && InHeap(kept, fk[i]))
  }

  lemma Emptied(h: Heap, f: seq<Word>, i: nat)
    requires i < |f|
    ensures Release(h, f) == Release(h, [f[i]] + (f[..i] + f[i + 1..]))
    ensures Release(h, f[i := UNIT_WORD]) == Release(h, f[..i] + f[i + 1..])
  {
    var rest := f[..i] + f[i + 1..];
    assert f == f[..i] + [f[i]] + f[i + 1..];
    ReleaseOrder(h, f, [f[i]] + rest);
    assert f[i := UNIT_WORD] == f[..i] + [UNIT_WORD] + f[i + 1..];
    ReleaseOrder(h, f[i := UNIT_WORD], [UNIT_WORD] + rest);
    ReleaseImm(h, UNIT_WORD, rest);
  }

  /** Releasing everything, retained references included, is releasing the remainder. */
  lemma {:induction false} OwedSame(kept: Heap, took: Heap, fk: seq<Word>, ft: seq<Word>, moved: set<nat>)
    requires Owed(kept, took, fk, ft, moved)
    ensures Release(kept, fk) == Release(took, ft)
    decreases |moved|
  {
    if moved == {} {
      assert forall b :: 0 <= b < |kept| ==> kept[b] == took[b];
      assert kept == took && fk == ft;
    } else {
      var i :| i in moved;
      Emptied(kept, fk, i);
      var f2 := fk[i := UNIT_WORD];
      var kept2 := kept;
      if fk[i].Ptr? {
        assert i in MovedTo(fk, moved, fk[i].addr);
        kept2 := Drop1(kept, fk[i].addr);
        OnlyOne(fk, moved, i);
        ReleasePtr(kept, fk[i].addr, fk[..i] + fk[i + 1..]);
        assert Freed(kept, fk[i].addr) + (fk[..i] + fk[i + 1..]) == fk[..i] + fk[i + 1..];
        Emptied(kept2, fk, i);
      } else {
        ReleaseImm(kept, fk[i], fk[..i] + fk[i + 1..]);
      }
      OwedLess(kept, took, fk, ft, moved, i, kept2);
      OwedSame(kept2, took, f2, ft, moved - {i});
    }
  }

  /** A moved child is counted twice while its mover holds it. */
  lemma OnlyOne(f: seq<Word>, moved: set<nat>, i: nat)
    requires i in moved && i < |f| && f[i].Ptr?
    ensures |MovedTo(f, moved, f[i].addr)| > 0
  {
    assert i in MovedTo(f, moved, f[i].addr);
  }

  lemma OwedLess(kept: Heap, took: Heap, fk: seq<Word>, ft: seq<Word>, moved: set<nat>, i: nat, kept2: Heap)
    requires Owed(kept, took, fk, ft, moved) && i in moved
    requires fk[i].Ptr? ==> Live(kept, fk[i].addr) && kept[fk[i].addr].count > 1 && kept2 == Drop1(kept, fk[i].addr)
    requires fk[i].Imm? ==> kept2 == kept
    ensures Owed(kept2, took, fk[i := UNIT_WORD], ft, moved - {i})
  {
    var f2, m2 := fk[i := UNIT_WORD], moved - {i};
    forall b: nat
      ensures |MovedTo(f2, m2, b)| + (if fk[i] == Ptr(b) then 1 else 0) == |MovedTo(fk, moved, b)|
      ensures MovedTo(f2, m2, b) != {} ==> MovedTo(fk, moved, b) != {}
    {
      MovedLess(fk, moved, i, b);
    }
    hide MovedTo;
  }

  lemma MovedLess(f: seq<Word>, moved: set<nat>, i: nat, b: nat)
    requires i in moved && i < |f|
    ensures |MovedTo(f[i := UNIT_WORD], moved - {i}, b)| + (if f[i] == Ptr(b) then 1 else 0) == |MovedTo(f, moved, b)|
    ensures MovedTo(f[i := UNIT_WORD], moved - {i}, b) <= MovedTo(f, moved, b)
  {
    assert MovedTo(f[i := UNIT_WORD], moved - {i}, b) == MovedTo(f, moved, b) - {i};
    assert f[i] == Ptr(b) <==> i in MovedTo(f, moved, b);
  }

  lemma MovedMore(f: seq<Word>, moved: set<nat>, i: nat, b: nat)
    requires i !in moved && i < |f|
    ensures |MovedTo(f, moved + {i}, b)| == |MovedTo(f, moved, b)| + (if f[i] == Ptr(b) then 1 else 0)
    ensures f[i] != Ptr(b) ==> MovedTo(f, moved + {i}, b) == MovedTo(f, moved, b)
  {
    if f[i] == Ptr(b) {
      assert MovedTo(f, moved + {i}, b) == MovedTo(f, moved, b) + {i} && i !in MovedTo(f, moved, b);
    } else {
      assert MovedTo(f, moved + {i}, b) == MovedTo(f, moved, b);
    }
  }

  lemma NothingMoved(kept: Heap, took: Heap, a: nat)
    requires Moved(kept, took, a, {})
    ensures kept == took
  {
    assert forall b: nat :: MovedTo(kept[a].fields, {}, b) == {};
    assert kept[a].fields == took[a].fields;
    assert forall b :: 0 <= b < |kept| ==> kept[b] == took[b];
  }

  lemma OwnerOwes(kept: Heap, took: Heap, a: nat, moved: set<nat>)
    requires Moved(kept, took, a, moved) && moved != {}
    ensures Owed(Drop1(kept, a), Drop1(took, a), kept[a].fields, took[a].fields, moved)
  {
    assert MovedTo(kept[a].fields, moved, a) == {};
  }

  /** Releasing the owner leaves the same heap whether its fields were retained or moved. */
  lemma OwnerReleased(kept: Heap, took: Heap, a: nat, moved: set<nat>)
    requires Moved(kept, took, a, moved)
    ensures Release(kept, [Ptr(a)]) == Release(took, [Ptr(a)])
  {
    if moved == {} {
      NothingMoved(kept, took, a);
    } else {
      hide Owed, Release;
      var fk, ft := kept[a].fields, took[a].fields;
      assert [Ptr(a)] + [] == [Ptr(a)] && fk + [] == fk && ft + [] == ft;
      ReleasePtr(kept, a, []);
      ReleasePtr(took, a, []);
      OwnerOwes(kept, took, a, moved);
      OwedSame(Drop1(kept, a), Drop1(took, a), fk, ft, moved);
    }
  }

  // ----- reading a field -----

  datatype Out = Done(w: Word, heap: Heap) | Loops(ws: seq<Word>, heap: Heap) | Aborts | IllFormed | Dangling

  function Read(take: bool, h: Heap, owner: Word, i: nat): Out {
    if owner.Imm? then IllFormed
    else if !Live(h, owner.addr) then Dangling
    else
      var cell := h[owner.addr];
      if i >= |cell.fields| then IllFormed
      else if take && cell.count == 1 then Done(cell.fields[i],
        h[owner.addr := cell.(fields := cell.fields[i := UNIT_WORD])])
      else
        var r := Retain(h, cell.fields[i]);
        if r.Some? then Done(cell.fields[i], r.value) else Dangling
  }

  /** No cell refers to itself. */
  predicate NoSelf(h: Heap) {
    forall b :: 0 <= b < |h| ==> Ptr(b) !in h[b].fields
  }

  /** Reading one more field of the owner, retained here and perhaps moved there. */
  lemma ReadMoved(take: bool, kept: Heap, took: Heap, a: nat, moved: set<nat>, i: nat)
    requires Moved(kept, took, a, moved) && i !in moved && NoSelf(kept)
    requires Read(false, kept, Ptr(a), i) != Dangling
    ensures var k, t := Read(false, kept, Ptr(a), i), Read(take, took, Ptr(a), i);
      if k.Done? then t.Done? && t.w == k.w && NoSelf(k.heap)
        && (Moved(k.heap, t.heap, a, moved) || Moved(k.heap, t.heap, a, moved + {i}))
      else k == IllFormed && t == IllFormed
  {
    var k := Read(false, kept, Ptr(a), i);
    if k.Done? {
      var w := kept[a].fields[i];
      if take && took[a].count == 1 {
        MoveOne(kept, took, a, moved, i, k.heap);
      } else {
        KeepOne(kept, took, a, moved, w, k.heap);
      }
    }
  }

  lemma MoveOne(kept: Heap, took: Heap, a: nat, moved: set<nat>, i: nat, after: Heap)
    requires Moved(kept, took, a, moved) && i !in moved && NoSelf(kept) && i < |kept[a].fields| && took[a].count == 1
    requires Retain(kept, kept[a].fields[i]) == Some(after)
    ensures NoSelf(after) && Moved(after, took[a := took[a].(fields := took[a].fields[i := UNIT_WORD])], a, moved + {i})
  {
    var f := kept[a].fields;
    assert f[i] != Ptr(a) && after[a].fields == f;
    forall b: nat
      ensures |MovedTo(f, moved + {i}, b)| == |MovedTo(f, moved, b)| + (if f[i] == Ptr(b) then 1 else 0)
      ensures f[i] != Ptr(b) ==> MovedTo(f, moved + {i}, b) == MovedTo(f, moved, b)
    {
      MovedMore(f, moved, i, b);
    }
    hide MovedTo;
    if f[i].Ptr? {
      assert kept[f[i].addr].count == took[f[i].addr].count + |MovedTo(f, moved, f[i].addr)|;
      Counted(kept, took, a, moved, f[i].addr);
    }
  }

  /** A live child is live on both sides. */
  lemma Counted(kept: Heap, took: Heap, a: nat, moved: set<nat>, b: nat)
    requires Moved(kept, took, a, moved) && b != a && Live(kept, b)
    ensures took[b].count > 0
  {
    assert kept[b].count == took[b].count + |MovedTo(kept[a].fields, moved, b)|;
  }

  lemma KeepOne(kept: Heap, took: Heap, a: nat, moved: set<nat>, w: Word, after: Heap)
    requires Moved(kept, took, a, moved) && NoSelf(kept) && Retain(kept, w) == Some(after) && w != Ptr(a)
    ensures NoSelf(after) && Retain(took, w).Some? && Moved(after, Retain(took, w).value, a, moved)
  {
    if w.Ptr? {
      assert kept[w.addr].count == took[w.addr].count + |MovedTo(kept[a].fields, moved, w.addr)|;
    }
  }
}
