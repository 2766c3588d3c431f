/** Fields that may be moved out of a dying owner instead of being retained: the scan that
    marks them. */
module TakeFields {
  import opened Core

  /** A constant field of a local. */
  type Field = (nat, nat)

  const GROUP_LIMIT: nat := 8
  const VISIT_BUDGET: nat := 1024

  predicate IsRead(e: Expr) {
    e.DataField? && e.base.Local?
  }

  function FieldOf(e: Expr): Field
    requires IsRead(e)
  {
    (e.base.id, e.index)
  }

  /** `e` releases `root` at once. */
  predicate Releases(e: Expr, root: nat) {
    (e.Drop? && e.local == root) || (e.Reset? && e.value == Local(root))
  }

  /** The rest of a group: distinct reads of `root`, then its release. */
  predicate GroupRest(e: Expr, root: nat, seen: seq<nat>) {
    if e.Let? then
      && IsRead(e.value) && e.value.base.id == root && e.value.index !in seen && |seen| != GROUP_LIMIT
      && GroupRest(e.body, root, seen + [e.value.index])
    else Releases(e, root)
  }

  /** Consecutive reads of one local immediately followed by its release. */
  predicate Group(e: Expr) {
    e.Let? && IsRead(e.value) && GroupRest(e, e.value.base.id, [])
  }

  /** Reads of these fields of `root`, one after the other. */
  function ReadsThen(locals: seq<nat>, root: nat, fields: seq<nat>, last: Expr): Expr
    requires |locals| == |fields|
  {
    if locals == [] then last
    else Let(locals[0], DataField(Local(root), fields[0]), ReadsThen(locals[1..], root, fields[1..], last))
  }

  predicate NoDuplicates(fields: seq<nat>) {
    forall i, j :: 0 <= i < j < |fields| ==> fields[i] != fields[j]
  }

  /** `e` reads these fields and then drops or resets `root`. */
  ghost predicate ReadAndReleased(e: Expr, root: nat, locals: seq<nat>, fields: seq<nat>, last: Expr) {
    && |locals| == |fields| && e == ReadsThen(locals, root, fields, last)
    && ((last.Drop? && last.local == root) || (last.Reset? && last.value == Local(root)))
  }

  lemma {:induction false} GroupRestFound(e: Expr, root: nat, seen: seq<nat>) returns (locals: seq<nat>,
      fields: seq<nat>, last: Expr)
    requires GroupRest(e, root, seen) && NoDuplicates(seen) && |seen| <= 8
    ensures ReadAndReleased(e, root, locals, fields, last) && NoDuplicates(seen + fields) && |seen + fields| <= 8
    ensures e.Let? ==> fields != []
    decreases e
  {
    if e.Let? {
      var f := e.value.index;
      locals, fields, last := GroupRestFound(e.body, root, seen + [f]);
      assert seen + [f] + fields == seen + ([f] + fields);
      locals, fields := [e.local] + locals, [f] + fields;
    } else {
      locals, fields, last := [], [], e;
      assert seen + [] == seen;
    }
  }

  lemma {:induction false} GroupRestHolds(e: Expr, root: nat, seen: seq<nat>, locals: seq<nat>, fields: seq<nat>,
      last: Expr)
    requires ReadAndReleased(e, root, locals, fields, last) && NoDuplicates(seen + fields) && |seen + fields| <= 8
    ensures GroupRest(e, root, seen)
    decreases |fields|
  {
    if fields != [] {
      var f := fields[0];
      assert (seen + fields)[|seen|] == f;
      assert seen + [f] + fields[1..] == seen + fields;
      GroupRestHolds(e.body, root, seen + [f], locals[1..], fields[1..], last);
      forall i | 0 <= i < |seen| ensures seen[i] != f { assert (seen + fields)[i] == seen[i]; }
    }
  }

  /** A group is one to eight distinct fields of one local, read and then released. */
  lemma GroupExact(e: Expr)
    ensures Group(e) <==> exists root, locals, fields, last ::
      ReadAndReleased(e, root, locals, fields, last) && 1 <= |fields| <= 8 && NoDuplicates(fields)
  {
    if Group(e) {
      var root := e.value.base.id;
      var locals, fields, last := GroupRestFound(e, root, []);
      assert [] + fields == fields;
    }
    if root, locals, fields, last :|
      ReadAndReleased(e, root, locals, fields, last) && 1 <= |fields| <= 8 && NoDuplicates(fields) {
      assert [] + fields == fields;
      GroupRestHolds(e, root, [], locals, fields, last);
    }
  }

  method FindGroup(start: Expr) returns (found: bool)
    ensures found == Group(start)
  {
    if !(start.Let? && IsRead(start.value)) { return false; }
    var root := start.value.base.id;
    var fields: seq<nat> := [];
    var e := start;
    while e.Let?
      invariant GroupRest(start, root, []) == GroupRest(e, root, fields)
      decreases e
    {
      if !IsRead(e.value) { return false; }
      if e.value.base.id != root || e.value.index in fields || |fields| == GROUP_LIMIT { return false; }
      fields := fields + [e.value.index];
      e := e.body;
    }
    found := Releases(e, root);
  }

  // ----- the scan -----

  /** For every field read so far, whether each of its reads was in a group. */
  datatype Seen = Seen(flags: map<Field, bool>, budget: nat)

  function Note(s: Seen, e: Expr, grouped: bool): Seen {
    if IsRead(e) then
      var f := FieldOf(e);
      s.(flags := s.flags[f := (if f in s.flags then s.flags[f] else true) && grouped])
    else s
  }

  function Visit(s: Seen, e: Expr, grouped: bool): (r: Seen)
    ensures r.budget <= s.budget
    decreases e, 1
  {
    if s.budget == 0 then s else VisitParts(Noted(s, e, grouped), e)
  }

  /** What is left after the read itself is noted. */
  function Noted(s: Seen, e: Expr, grouped: bool): (r: Seen)
    requires s.budget > 0
    ensures r.budget == s.budget - 1
  {
    Note(s.(budget := s.budget - 1), e, grouped)
  }

  function VisitParts(s: Seen, e: Expr): (r: Seen)
    ensures r.budget <= s.budget
    decreases e, 0
  {
    match e
    case Let(_, value, body) => Visit(Visit(s, value, Group(e)), body, false)
    case Reset(value, _, body) => Visit(Visit(s, value, false), body, false)
    case If(cond, thn, els) => Visit(Visit(Visit(s, cond, false), thn, false), els, false)
    case Prim(_, args) => VisitAll(s, args)
    case Foreign(_, args) => VisitAll(s, args)
    case MakeData(_, args) => VisitAll(s, args)
    case Recur(args) => VisitAll(s, args)
    case App(func, args) => VisitAll(Visit(s, func, false), args)
    case DataField(base, _) => Visit(s, base, false)
    case DataTag(base) => Visit(s, base, false)
    case Dup(_, body) => Visit(s, body, false)
    case Drop(_, body) => Visit(s, body, false)
    case FreeReuse(_, body) => Visit(s, body, false)
    case Join(_, body) => Visit(s, body, false)
    case _ => s
  }

  function VisitAll(s: Seen, args: seq<Expr>): (r: Seen)
    ensures r.budget <= s.budget
    decreases args, 2
  {
    if args == [] then s else VisitAll(Visit(s, args[0], false), args[1..])
  }

  function Collect(body: Expr): set<Field> {
    var s := Visit(Seen(map[], VISIT_BUDGET), body, false);
    if s.budget == 0 then {} else set f | f in s.flags && s.flags[f]
  }

  // ----- the scan as the compiler runs it -----

  class Scan {
    var flags: map<Field, bool>
    var budget: nat

    function Now(): Seen
      reads this
    {
      Seen(flags, budget)
    }

    constructor ()
      ensures Now() == Seen(map[], VISIT_BUDGET)
    {
      flags, budget := map[], VISIT_BUDGET;
    }

    method NoteRead(e: Expr, grouped: bool)
      modifies this
      ensures Now() == Note(old(Now()), e, grouped)
    {
      if IsRead(e) {
        var f := FieldOf(e);
        flags := flags[f := (if f in flags then flags[f] else true) && grouped];
      }
    }

    method VisitExpr(e: Expr, grouped: bool)
      modifies this
      ensures Now() == Visit(old(Now()), e, grouped)
      decreases e, 1
    {
      hide VisitParts, Note, IsRead;
      if budget == 0 { return; }
      budget := budget - 1;
      NoteRead(e, grouped);
      VisitPartsOf(e);
    }

    method VisitPartsOf(e: Expr)
      modifies this
      ensures Now() == VisitParts(old(Now()), e)
      decreases e, 0
    {
      hide Visit, VisitAll, Group;
      match e
      case Let(_, value, body) =>
        var group := FindGroup(e);
        VisitExpr(value, group);
        VisitExpr(body, false);
      case Reset(value, _, body) => VisitExpr(value, false); VisitExpr(body, false);
      case If(cond, thn, els) => VisitExpr(cond, false); VisitExpr(thn, false); VisitExpr(els, false);
      case Prim(_, args) => VisitMany(args);
      case Foreign(_, args) => VisitMany(args);
      case MakeData(_, args) => VisitMany(args);
      case Recur(args) => VisitMany(args);
      case App(func, args) => VisitExpr(func, false); VisitMany(args);
      case DataField(base, _) => VisitExpr(base, false);
      case DataTag(base) => VisitExpr(base, false);
      case Dup(_, body) => VisitExpr(body, false);
      case Drop(_, body) => VisitExpr(body, false);
      case FreeReuse(_, body) => VisitExpr(body, false);
      case Join(_, body) => VisitExpr(body, false);
      case _ =>
    }

    method VisitMany(args: seq<Expr>)
      modifies this
      ensures Now() == VisitAll(old(Now()), args)
      decreases args, 2
    {
      if args != [] {
        VisitExpr(args[0], false);
        VisitMany(args[1..]);
      }
    }
  }

  method CollectFields(body: Expr) returns (fields: set<Field>)
    ensures fields == Collect(body)
  {
    var scan := new Scan();
    scan.VisitExpr(body, false);
    fields := if scan.budget == 0 then {} else set f | f in scan.flags && scan.flags[f];
  }

  // ----- what being marked means -----

  /** Every read of a marked field is the bound value of a group. */
  predicate Marked(taken: set<Field>, e: Expr, grouped: bool)
    decreases e, 0
  {
    && (IsRead(e) && !grouped ==> FieldOf(e) !in taken)
    && match e
       case Let(_, value, body) => Marked(taken, value, Group(e)) && Marked(taken, body, false)
       case Reset(value, _, body) => Marked(taken, value, false) && Marked(taken, body, false)
       case If(cond, thn, els) => Marked(taken, cond, false) && Marked(taken, thn, false) && Marked(taken, els, false)
       case Prim(_, args) => AllMarked(taken, args)
       case Foreign(_, args) => AllMarked(taken, args)
       case MakeData(_, args) => AllMarked(taken, args)
       case Recur(args) => AllMarked(taken, args)
       case App(func, args) => Marked(taken, func, false) && AllMarked(taken, args)
       case DataField(base, _) => Marked(taken, base, false)
       case DataTag(base) => Marked(taken, base, false)
       case Dup(_, body) => Marked(taken, body, false)
       case Drop(_, body) => Marked(taken, body, false)
       case FreeReuse(_, body) => Marked(taken, body, false)
       case Join(_, body) => Marked(taken, body, false)
       case _ => true
  }

  predicate AllMarked(taken: set<Field>, args: seq<Expr>)
    decreases args, 1
  {
    args == [] || (Marked(taken, args[0], false) && AllMarked(taken, args[1..]))
  }

  /** A refused field stays refused. */
  ghost predicate Refuses(a: Seen, b: Seen) {
    b.budget <= a.budget && forall f :: f in a.flags && !a.flags[f] ==> f in b.flags && !b.flags[f]
  }

  /** What a finished scan lets through. */
  ghost predicate Admits(taken: set<Field>, s: Seen) {
    s.budget > 0 && forall f :: f in taken ==> f in s.flags && s.flags[f]
  }

  lemma RefusesTrans(a: Seen, b: Seen, c: Seen)
    requires Refuses(a, b) && Refuses(b, c)
    ensures Refuses(a, c)
  {
  }

  lemma RefusesSelf(s: Seen)
    ensures Refuses(s, s)
  {
  }

  lemma NotedRefuses(s: Seen, e: Expr, grouped: bool)
    requires s.budget > 0
    ensures Refuses(s, Noted(s, e, grouped))
  {
  }

  lemma {:induction false} VisitRefuses(s: Seen, e: Expr, grouped: bool)
    ensures Refuses(s, Visit(s, e, grouped))
    ensures s.budget > 0 ==> Refuses(Noted(s, e, grouped), Visit(s, e, grouped))
    decreases e, 2
  {
    hide Refuses, VisitParts, Noted;
    RefusesSelf(s);
    if s.budget > 0 {
      NotedRefuses(s, e, grouped);
      PartsRefuse(Noted(s, e, grouped), e);
      RefusesTrans(s, Noted(s, e, grouped), Visit(s, e, grouped));
    }
  }

  lemma {:induction false} PartsRefuse(s: Seen, e: Expr)
    ensures Refuses(s, VisitParts(s, e))
    decreases e, 1
  {
    hide Refuses, Visit, Group;
    RefusesSelf(s);
    match e
    case Let(_, value, body) => TwoRefuse(e, s, value, Group(e), body);
    case Reset(value, _, body) => TwoRefuse(e, s, value, false, body);
    case If(cond, thn, els) =>
      var s2 := Visit(Visit(s, cond, false), thn, false);
      TwoRefuse(e, s, cond, false, thn);
      VisitRefuses(s2, els, false);
      RefusesTrans(s, s2, Visit(s2, els, false));
    case Prim(_, args) => VisitAllRefuses(s, args);
    case Foreign(_, args) => VisitAllRefuses(s, args);
    case MakeData(_, args) => VisitAllRefuses(s, args);
    case Recur(args) => VisitAllRefuses(s, args);
    case App(func, args) =>
      VisitRefuses(s, func, false);
      VisitAllRefuses(Visit(s, func, false), args);
      RefusesTrans(s, Visit(s, func, false), VisitParts(s, e));
    case DataField(base, _) => VisitRefuses(s, base, false);
    case DataTag(base) => VisitRefuses(s, base, false);
    case Dup(_, body) => VisitRefuses(s, body, false);
    case Drop(_, body) => VisitRefuses(s, body, false);
    case FreeReuse(_, body) => VisitRefuses(s, body, false);
    case Join(_, body) => VisitRefuses(s, body, false);
    case _ =>
  }

  lemma {:induction false} TwoRefuse(e: Expr, s: Seen, value: Expr, group: bool, body: Expr)
    requires value < e && body < e
    ensures Refuses(s, Visit(Visit(s, value, group), body, false))
    decreases e, 0
  {
    hide Refuses, Visit;
    VisitRefuses(s, value, group);
    VisitRefuses(Visit(s, value, group), body, false);
    RefusesTrans(s, Visit(s, value, group), Visit(Visit(s, value, group), body, false));
  }

  lemma {:induction false} VisitAllRefuses(s: Seen, args: seq<Expr>)
    ensures Refuses(s, VisitAll(s, args))
    decreases args, 3
  {
    if args != [] {
      VisitRefuses(s, args[0], false);
      VisitAllRefuses(Visit(s, args[0], false), args[1..]);
    }
  }

  /** A field read outside a group is refused for good. */
  lemma NotTaken(taken: set<Field>, s: Seen, e: Expr, grouped: bool, last: Seen)
    requires Refuses(Visit(s, e, grouped), last) && Admits(taken, last)
    ensures s.budget > 0 && Visit(s, e, grouped) == VisitParts(Noted(s, e, grouped), e)
    ensures IsRead(e) && !grouped ==> FieldOf(e) !in taken
  {
    hide VisitParts;
    VisitRefuses(s, e, grouped);
  }

  lemma {:induction false} AdmittedIsMarked(taken: set<Field>, s: Seen, e: Expr, grouped: bool, last: Seen)
    requires Refuses(Visit(s, e, grouped), last) && Admits(taken, last)
    ensures Marked(taken, e, grouped)
    decreases e, 1
  {
    hide Refuses, Admits, Visit, Noted, Group, IsRead;
    NotTaken(taken, s, e, grouped, last);
    var s1 := Noted(s, e, grouped);
    match e
    case Let(_, value, body) => TwoAdmitted(taken, e, s1, value, Group(e), body, last);
    case Reset(value, _, body) => TwoAdmitted(taken, e, s1, value, false, body, last);
    case If(cond, thn, els) =>
      var s3 := Visit(Visit(s1, cond, false), thn, false);
      VisitRefuses(s3, els, false);
      RefusesTrans(s3, Visit(s, e, grouped), last);
      TwoAdmitted(taken, e, s1, cond, false, thn, last);
      AdmittedIsMarked(taken, s3, els, false, last);
    case Prim(_, args) => AllAdmitted(taken, s1, args, last);
    case Foreign(_, args) => AllAdmitted(taken, s1, args, last);
    case MakeData(_, args) => AllAdmitted(taken, s1, args, last);
    case Recur(args) => AllAdmitted(taken, s1, args, last);
    case App(func, args) =>
      VisitAllRefuses(Visit(s1, func, false), args);
      RefusesTrans(Visit(s1, func, false), Visit(s, e, grouped), last);
      AdmittedIsMarked(taken, s1, func, false, last);
      AllAdmitted(taken, Visit(s1, func, false), args, last);
    case DataField(base, _) => AdmittedIsMarked(taken, s1, base, false, last);
    case DataTag(base) => AdmittedIsMarked(taken, s1, base, false, last);
    case Dup(_, body) => AdmittedIsMarked(taken, s1, body, false, last);
    case Drop(_, body) => AdmittedIsMarked(taken, s1, body, false, last);
    case FreeReuse(_, body) => AdmittedIsMarked(taken, s1, body, false, last);
    case Join(_, body) => AdmittedIsMarked(taken, s1, body, false, last);
    case _ =>
  }

  lemma {:induction false} TwoAdmitted(taken: set<Field>, e: Expr, s: Seen, value: Expr, group: bool, body: Expr,
      last: Seen)
    requires value < e && body < e && Admits(taken, last)
    requires Refuses(Visit(Visit(s, value, group), body, false), last)
    ensures Marked(taken, value, group) && Marked(taken, body, false)
    decreases e, 0
  {
    hide Refuses, Admits, Visit, Marked;
    var s2 := Visit(s, value, group);
    VisitRefuses(s2, body, false);
    RefusesTrans(s2, Visit(s2, body, false), last);
    AdmittedIsMarked(taken, s, value, group, last);
    AdmittedIsMarked(taken, s2, body, false, last);
  }

  lemma {:induction false} AllAdmitted(taken: set<Field>, s: Seen, args: seq<Expr>, last: Seen)
    requires Refuses(VisitAll(s, args), last) && Admits(taken, last)
    ensures AllMarked(taken, args)
    decreases args, 1
  {
    if args != [] {
      var s1 := Visit(s, args[0], false);
      VisitAllRefuses(s1, args[1..]);
      AdmittedIsMarked(taken, s, args[0], false, last);
      AllAdmitted(taken, s1, args[1..], last);
    }
  }

  /** The collected fields are read only in groups, wherever they are read. */
  lemma CollectedIsMarked(body: Expr)
    ensures Marked(Collect(body), body, false)
  {
    var s := Visit(Seen(map[], VISIT_BUDGET), body, false);
    if s.budget > 0 {
      AdmittedIsMarked(Collect(body), Seen(map[], VISIT_BUDGET), body, false, s);
    } else {
      NothingTaken(body, false);
    }
  }

  lemma {:induction false} NothingTaken(e: Expr, grouped: bool)
    ensures Marked({}, e, grouped)
    decreases e, 0
  {
    match e
    case Let(_, value, body) => NothingTaken(value, Group(e)); NothingTaken(body, false);
    case Reset(value, _, body) => NothingTaken(value, false); NothingTaken(body, false);
    case If(cond, thn, els) => NothingTaken(cond, false); NothingTaken(thn, false); NothingTaken(els, false);
    case Prim(_, args) => NothingTakenIn(args);
    case Foreign(_, args) => NothingTakenIn(args);
    case MakeData(_, args) => NothingTakenIn(args);
    case Recur(args) => NothingTakenIn(args);
    case App(func, args) => NothingTaken(func, false); NothingTakenIn(args);
    case DataField(base, _) => NothingTaken(base, false);
    case DataTag(base) => NothingTaken(base, false);
    case Dup(_, body) => NothingTaken(body, false);
    case Drop(_, body) => NothingTaken(body, false);
    case FreeReuse(_, body) => NothingTaken(body, false);
    case Join(_, body) => NothingTaken(body, false);
    case _ =>
  }

  lemma {:induction false} NothingTakenIn(args: seq<Expr>)
    ensures AllMarked({}, args)
    decreases args, 1
  {
    if args != [] { NothingTaken(args[0], false); NothingTakenIn(args[1..]); }
  }

  // ----- when a field is collected -----

  /** The fields a term reads. */
  function Reads(e: Expr): set<Field>
    decreases e, 1
  {
    if IsRead(e) then {FieldOf(e)} + PartReads(e) else PartReads(e)
  }

  function PartReads(e: Expr): set<Field>
    decreases e, 0
  {
    match e
    case Let(_, value, body) => Reads(value) + Reads(body)
    case Reset(value, _, body) => Reads(value) + Reads(body)
    case If(cond, thn, els) => Reads(cond) + Reads(thn) + Reads(els)
    case Prim(_, args) => ReadsIn(args)
    case Foreign(_, args) => ReadsIn(args)
    case MakeData(_, args) => ReadsIn(args)
    case Recur(args) => ReadsIn(args)
    case App(func, args) => Reads(func) + ReadsIn(args)
    case DataField(base, _) => Reads(base)
    case DataTag(base) => Reads(base)
    case Dup(_, body) => Reads(body)
    case Drop(_, body) => Reads(body)
    case FreeReuse(_, body) => Reads(body)
    case Join(_, body) => Reads(body)
    case _ => {}
  }

  function ReadsIn(args: seq<Expr>): set<Field>
    decreases args, 2
  {
    if args == [] then {} else Reads(args[0]) + ReadsIn(args[1..])
  }

  predicate Unrefused(s: Seen, f: Field) {
    f in s.flags ==> s.flags[f]
  }

  /** The scan spent `nodes`, saw the field if it had or was read here, and refused it unless
      every read here is grouped. */
  ghost predicate Scanned(s: Seen, r: Seen, f: Field, nodes: nat, read: bool, grouped: bool) {
    && r.budget == s.budget - nodes
    && (f in r.flags <==> f in s.flags || read)
    && (Unrefused(r, f) <==> Unrefused(s, f) && grouped)
  }

  lemma NotedExact(s: Seen, e: Expr, grouped: bool, f: Field)
    requires s.budget > 0
    ensures Scanned(s, Noted(s, e, grouped), f, 1, IsRead(e) && FieldOf(e) == f,
              IsRead(e) && !grouped ==> FieldOf(e) != f)
  {
  }

  lemma {:induction false} VisitExact(s: Seen, e: Expr, grouped: bool, f: Field)
    requires NodeCount(e) <= s.budget
    ensures Scanned(s, Visit(s, e, grouped), f, NodeCount(e), f in Reads(e), Marked({f}, e, grouped))
    decreases e, 4
  {
    hide Noted, VisitParts, Group, IsRead;
    NotedExact(s, e, grouped, f);
    PartsExact(Noted(s, e, grouped), e, f);
    MarkedParts(f, e, grouped);
  }

  lemma MarkedParts(f: Field, e: Expr, grouped: bool)
    ensures Marked({f}, e, grouped) <==> Marked({f}, e, true) && (IsRead(e) && !grouped ==> FieldOf(e) != f)
  {
    hide Group;
  }

  lemma {:induction false} PartsExact(s: Seen, e: Expr, f: Field)
    requires NodeCount(e) <= s.budget + 1
    ensures Scanned(s, VisitParts(s, e), f, NodeCount(e) - 1, f in PartReads(e), Marked({f}, e, true))
    decreases e, 3
  {
    hide *;
    match e
    case Let(_, _, _) => BindingExact(s, e, f);
    case Reset(_, _, _) => BindingExact(s, e, f);
    case If(_, _, _) => IfExact(s, e, f);
    case Prim(_, _) => OperandsExact(s, e, f);
    case Foreign(_, _) => OperandsExact(s, e, f);
    case MakeData(_, _) => OperandsExact(s, e, f);
    case Recur(_) => OperandsExact(s, e, f);
    case App(_, _) => AppExact(s, e, f);
    case DataField(_, _) => BaseExact(s, e, f);
    case DataTag(_) => BaseExact(s, e, f);
    case Dup(_, _) => WrapperExact(s, e, f);
    case Drop(_, _) => WrapperExact(s, e, f);
    case FreeReuse(_, _) => WrapperExact(s, e, f);
    case Join(_, _) => WrapperExact(s, e, f);
    case _ => LeafExact(s, e, f);
  }

  lemma LeafExact(s: Seen, e: Expr, f: Field)
    requires e.Local? || e.Lit? || e.Global? || e.Error? || e.MakeClosure?
    ensures Scanned(s, VisitParts(s, e), f, NodeCount(e) - 1, f in PartReads(e), Marked({f}, e, true))
  {
  }

  lemma {:induction false} BindingExact(s: Seen, e: Expr, f: Field)
    requires (e.Let? || e.Reset?) && NodeCount(e) <= s.budget + 1
    ensures Scanned(s, VisitParts(s, e), f, NodeCount(e) - 1, f in PartReads(e), Marked({f}, e, true))
    decreases e, 2
  {
    hide Visit, Group, IsRead, Reads, Scanned;
    TwoExact(e, s, e.value, e.Let? && Group(e), e.body, f);
  }

  lemma {:induction false} OperandsExact(s: Seen, e: Expr, f: Field)
    requires (e.Prim? || e.Foreign? || e.MakeData? || e.Recur?) && NodeCount(e) <= s.budget + 1
    ensures Scanned(s, VisitParts(s, e), f, NodeCount(e) - 1, f in PartReads(e), Marked({f}, e, true))
    decreases e, 2
  {
    hide IsRead, Scanned;
    VisitAllExact(s, e.args, f);
  }

  lemma {:induction false} WrapperExact(s: Seen, e: Expr, f: Field)
    requires (e.Dup? || e.Drop? || e.FreeReuse? || e.Join?) && NodeCount(e) <= s.budget + 1
    ensures Scanned(s, VisitParts(s, e), f, NodeCount(e) - 1, f in PartReads(e), Marked({f}, e, true))
    decreases e, 2
  {
    hide Visit, Reads, Scanned, IsRead;
    VisitExact(s, e.body, false, f);
  }

  lemma {:induction false} BaseExact(s: Seen, e: Expr, f: Field)
    requires (e.DataField? || e.DataTag?) && NodeCount(e) <= s.budget + 1
    ensures Scanned(s, VisitParts(s, e), f, NodeCount(e) - 1, f in PartReads(e), Marked({f}, e, true))
    decreases e, 2
  {
    hide Visit, Reads, Scanned, IsRead;
    VisitExact(s, e.base, false, f);
  }

  lemma {:induction false} IfExact(s: Seen, e: Expr, f: Field)
    requires e.If? && NodeCount(e) <= s.budget + 1
    ensures Scanned(s, VisitParts(s, e), f, NodeCount(e) - 1, f in PartReads(e), Marked({f}, e, true))
    decreases e, 2
  {
    hide Visit, Reads;
    TwoExact(e, s, e.cond, false, e.thn, f);
    VisitExact(Visit(Visit(s, e.cond, false), e.thn, false), e.els, false, f);
  }

  lemma {:induction false} AppExact(s: Seen, e: Expr, f: Field)
    requires e.App? && NodeCount(e) <= s.budget + 1
    ensures Scanned(s, VisitParts(s, e), f, NodeCount(e) - 1, f in PartReads(e), Marked({f}, e, true))
    decreases e, 2
  {
    hide Visit, Reads;
    VisitExact(s, e.func, false, f);
    VisitAllExact(Visit(s, e.func, false), e.args, f);
  }

  lemma {:induction false} TwoExact(e: Expr, s: Seen, value: Expr, group: bool, body: Expr, f: Field)
    requires value < e && body < e && NodeCount(value) + NodeCount(body) <= s.budget
    ensures Scanned(s, Visit(Visit(s, value, group), body, false), f, NodeCount(value) + NodeCount(body),
              f in Reads(value) || f in Reads(body), Marked({f}, value, group) && Marked({f}, body, false))
    decreases e, 0
  {
    hide Visit, Reads, Marked;
    VisitExact(s, value, group, f);
    VisitExact(Visit(s, value, group), body, false, f);
  }

  lemma {:induction false} VisitAllExact(s: Seen, args: seq<Expr>, f: Field)
    requires NodeCountAll(args) <= s.budget
    ensures Scanned(s, VisitAll(s, args), f, NodeCountAll(args), f in ReadsIn(args), AllMarked({f}, args))
    decreases args, 5
  {
    hide Visit, Reads, Marked;
    if args != [] {
      VisitExact(s, args[0], false, f);
      VisitAllExact(Visit(s, args[0], false), args[1..], f);
    }
  }

  function Remaining(budget: nat, nodes: nat): nat {
    if nodes <= budget then budget - nodes else 0
  }

  /** Every node costs one, until nothing is left. */
  lemma {:induction false} VisitBudget(s: Seen, e: Expr, grouped: bool)
    ensures Visit(s, e, grouped).budget == Remaining(s.budget, NodeCount(e))
    decreases e, 4
  {
    hide Noted, VisitParts, NodeCount;
    SomeNodes(e);
    if s.budget > 0 { PartsBudget(Noted(s, e, grouped), e); }
  }

  lemma SomeNodes(e: Expr)
    ensures NodeCount(e) >= 1
  {
  }

  lemma RemainingThen(budget: nat, m: nat, n: nat)
    ensures Remaining(Remaining(budget, m), n) == Remaining(budget, m + n)
  {
  }

  lemma {:induction false} TwoBudget(e: Expr, s: Seen, value: Expr, group: bool, body: Expr)
    requires value < e && body < e
    ensures Visit(Visit(s, value, group), body, false).budget == Remaining(s.budget, NodeCount(value) + NodeCount(body))
    decreases e, 0
  {
    hide Visit, NodeCount, Remaining;
    VisitBudget(s, value, group);
    VisitBudget(Visit(s, value, group), body, false);
    RemainingThen(s.budget, NodeCount(value), NodeCount(body));
  }

  lemma LeafBudget(s: Seen, e: Expr)
    requires e.Local? || e.Lit? || e.Global? || e.Error? || e.MakeClosure?
    ensures VisitParts(s, e).budget == Remaining(s.budget, NodeCount(e) - 1)
  {
  }

  lemma {:induction false} BindingBudget(s: Seen, e: Expr)
    requires e.Let? || e.Reset?
    ensures VisitParts(s, e).budget == Remaining(s.budget, NodeCount(e) - 1)
    decreases e, 2
  {
    hide Visit, Group, Remaining;
    TwoBudget(e, s, e.value, e.Let? && Group(e), e.body);
  }

  lemma {:induction false} OperandsBudget(s: Seen, e: Expr)
    requires e.Prim? || e.Foreign? || e.MakeData? || e.Recur?
    ensures VisitParts(s, e).budget == Remaining(s.budget, NodeCount(e) - 1)
    decreases e, 2
  {
    hide Remaining;
    VisitAllBudget(s, e.args);
  }

  lemma {:induction false} WrapperBudget(s: Seen, e: Expr)
    requires e.Dup? || e.Drop? || e.FreeReuse? || e.Join?
    ensures VisitParts(s, e).budget == Remaining(s.budget, NodeCount(e) - 1)
    decreases e, 2
  {
    hide Visit, Remaining;
    VisitBudget(s, e.body, false);
  }

  lemma {:induction false} BaseBudget(s: Seen, e: Expr)
    requires e.DataField? || e.DataTag?
    ensures VisitParts(s, e).budget == Remaining(s.budget, NodeCount(e) - 1)
    decreases e, 2
  {
    hide Visit, Remaining;
    VisitBudget(s, e.base, false);
  }

  lemma {:induction false} IfBudget(s: Seen, e: Expr)
    requires e.If?
    ensures VisitParts(s, e).budget == Remaining(s.budget, NodeCount(e) - 1)
    decreases e, 2
  {
    hide Visit, Remaining;
    TwoBudget(e, s, e.cond, false, e.thn);
    VisitBudget(Visit(Visit(s, e.cond, false), e.thn, false), e.els, false);
    RemainingThen(s.budget, NodeCount(e.cond) + NodeCount(e.thn), NodeCount(e.els));
  }

  lemma {:induction false} AppBudget(s: Seen, e: Expr)
    requires e.App?
    ensures VisitParts(s, e).budget == Remaining(s.budget, NodeCount(e) - 1)
    decreases e, 2
  {
    hide Visit, Remaining;
    VisitBudget(s, e.func, false);
    VisitAllBudget(Visit(s, e.func, false), e.args);
    RemainingThen(s.budget, NodeCount(e.func), NodeCountAll(e.args));
  }

  lemma {:induction false} PartsBudget(s: Seen, e: Expr)
    ensures VisitParts(s, e).budget == Remaining(s.budget, NodeCount(e) - 1)
    decreases e, 3
  {
    hide *;
    match e
    case Let(_, _, _) => BindingBudget(s, e);
    case Reset(_, _, _) => BindingBudget(s, e);
    case If(_, _, _) => IfBudget(s, e);
    case Prim(_, _) => OperandsBudget(s, e);
    case Foreign(_, _) => OperandsBudget(s, e);
    case MakeData(_, _) => OperandsBudget(s, e);
    case Recur(_) => OperandsBudget(s, e);
    case App(_, _) => AppBudget(s, e);
    case DataField(_, _) => BaseBudget(s, e);
    case DataTag(_) => BaseBudget(s, e);
    case Dup(_, _) => WrapperBudget(s, e);
    case Drop(_, _) => WrapperBudget(s, e);
    case FreeReuse(_, _) => WrapperBudget(s, e);
    case Join(_, _) => WrapperBudget(s, e);
    case _ => LeafBudget(s, e);
  }

  lemma {:induction false} VisitAllBudget(s: Seen, args: seq<Expr>)
    ensures VisitAll(s, args).budget == Remaining(s.budget, NodeCountAll(args))
    decreases args, 5
  {
    hide Visit;
    if args != [] {
      VisitBudget(s, args[0], false);
      VisitAllBudget(Visit(s, args[0], false), args[1..]);
    }
  }

  /** A field is collected exactly when the function has fewer nodes than the budget, reads the
      field, and reads it nowhere but in groups. */
  lemma CollectExact(body: Expr, f: Field)
    ensures f in Collect(body) <==> NodeCount(body) < 1024 && f in Reads(body) && Marked({f}, body, false)
  {
    hide Visit, NodeCount, Reads, Marked;
    var start := Seen(map[], VISIT_BUDGET);
    VisitBudget(start, body, false);
    if NodeCount(body) < 1024 { VisitExact(start, body, false, f); }
  }
}
