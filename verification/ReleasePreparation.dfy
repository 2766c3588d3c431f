/** Release preparation: a journalled update of three files that may be cut short between
    any two atomic steps and resumed. */
module ReleasePreparation {
  import opened Machine

  datatype Name = Manifest | Lock | Changelog | Other(id: nat)

  type Content = nat
  type Version = nat
  type Day = nat

  /** A release is asked for by its version, or by the part of the current one to raise. */
  datatype Request = Exact(version: Version) | Raise(part: nat)

  /** The journal records, for each file, the hash it had and the content it will have. */
  datatype Edit = Edit(before: nat, after: Content)

  datatype Journal = Journal(version: Version, files: map<Name, Edit>)

  /** `Crashed` is a run cut short; the errors are the ones the script raises. */
  datatype Outcome = Finished | Crashed | OtherVersionPending | Dirty | Refused | InvalidPath | Changed

  const NAMES: seq<Name> := [Manifest, Lock, Changelog]

  /** The three files a preparation may touch. */
  const ALLOWED: set<Name> := {Manifest, Lock, Changelog}

  type Hash = Content -> nat
  type Files = map<Name, Content>

  /** The version that raising a part of the current one gives, if any. */
  type Raising = (nat, Files) -> Option<Version>

  /** The text edits of one release, which the script computes from the committed files and
      the date, or refuses. */
  type Edits = (Version, Day, Files) -> Option<Files>

  ghost predicate Complete(files: Files) {
    files.Keys == ALLOWED
  }

  ghost predicate CompleteEdits(edits: Edits) {
    forall v, day, files :: Complete(files) && edits(v, day, files).Some? ==> Complete(edits(v, day, files).value)
  }

  /** What the journal of this release holds. */
  function JournalOf(hash: Hash, version: Version, before: Files, after: Files): Journal
    requires Complete(before) && Complete(after)
  {
    Journal(version, map n: Name | n in ALLOWED :: Edit(hash(before[n]), after[n]))
  }

  /** The working tree: committed contents, current contents and the journal. */
  class Tree {
    const hash: Hash
    const raising: Raising
    const edits: Edits
    var committed: Files
    var files: Files
    var journal: Option<Journal>
    /** The day the journal was written. */
    ghost var day: Day

    constructor (hash: Hash, raising: Raising, edits: Edits, committed: Files)
      requires Complete(committed) && CompleteEdits(edits)
      ensures this.hash == hash && this.raising == raising && this.edits == edits && this.committed == committed
      ensures Safe() && AllOld() && journal == None
    {
      this.hash, this.raising, this.edits := hash, raising, edits;
      this.committed, this.files, this.journal, this.day := committed, committed, None, 0;
    }

    ghost predicate AllOld()
      reads this
    {
      files == committed
    }

    ghost predicate AllNew(version: Version, on: Day)
      reads this
    {
      edits(version, on, committed) == Some(files)
    }

    /** No journal means the three files are all old or all new; a journal is the one this
        release wrote, and each file is in one of its two states. */
    ghost predicate Safe()
      reads this
    {
      && Complete(committed) && Complete(files) && CompleteEdits(edits)
      && (journal.None? ==> AllOld() || exists v, on :: AllNew(v, on))
      && (journal.Some? ==>
            var after := edits(journal.value.version, day, committed);
            && after.Some? && journal.value == JournalOf(hash, journal.value.version, committed, after.value)
            && forall n :: n in ALLOWED ==> files[n] == committed[n] || files[n] == after.value[n])
    }

    /** The version asked for, as far as the committed files and the edits allow it. */
    function Planned(request: Request, today: Day): Option<Version>
      reads this
    {
      var version := match request case Exact(v) => Some(v) case Raise(part) => raising(part, committed);
      if version.Some? && edits(version.value, today, committed).Some? then version else None
    }

    /** Committing makes the current contents the old ones. */
    method Commit()
      requires Safe() && journal.None?
      modifies this
      ensures Safe() && journal.None? && AllOld() && files == old(files) && day == old(day)
    {
      committed := files;
    }

    /** Every file is in a state the journal knows. */
    method Check(pending: Journal) returns (error: Option<Outcome>)
      requires Complete(files)
      ensures error.None? ==> pending.files.Keys <= ALLOWED && forall n :: n in pending.files ==> Known(n, pending)
      ensures error == Some(Changed) ==>
        pending.files.Keys <= ALLOWED && exists n :: n in pending.files && !Known(n, pending)
      ensures error == Some(InvalidPath) ==> !(pending.files.Keys <= ALLOWED)
      ensures error.None? || error == Some(Changed) || error == Some(InvalidPath)
    {
      var names := NAMES;
      if !(pending.files.Keys <= ALLOWED) { return Some(InvalidPath); }
      for i := 0 to |names|
        invariant forall j :: 0 <= j < i && names[j] in pending.files ==> Known(names[j], pending)
      {
        if names[i] in pending.files && !Known(names[i], pending) { return Some(Changed); }
      }
      error := None;
      forall n | n in pending.files ensures Known(n, pending) {
        assert n == names[0] || n == names[1] || n == names[2];
      }
    }

    /** The file is as the journal found it or as the journal leaves it. */
    predicate Known(n: Name, pending: Journal)
      requires n in pending.files && n in files
      reads this
    {
      hash(files[n]) == pending.files[n].before || hash(files[n]) == hash(pending.files[n].after)
    }

    /** Writes the journalled files, cut short after `steps` of the writes. */
    method WriteFiles(steps: nat) returns (written: bool)
      requires Complete(files) && journal.Some? && journal.value.files.Keys == ALLOWED
      modifies this`files
      ensures Complete(files) && written == (steps >= 3)
      ensures forall n :: n in ALLOWED ==> files[n] == old(files[n]) || files[n] == journal.value.files[n].after
      ensures written ==> forall n :: n in ALLOWED ==> files[n] == journal.value.files[n].after
    {
      var names, pending := NAMES, journal.value;
      for i := 0 to 3
        invariant Complete(files) && i <= steps
        invariant forall n :: n in ALLOWED ==> files[n] == old(files[n]) || files[n] == pending.files[n].after
        invariant forall j :: 0 <= j < i ==> files[names[j]] == pending.files[names[j]].after
      {
        if i == steps { return false; }
        files := files[names[i] := pending.files[names[i]].after];
      }
      forall n | n in ALLOWED ensures files[n] == pending.files[n].after {
        assert n == names[0] || n == names[1] || n == names[2];
      }
      written := true;
    }

    /** A tree somebody may have edited meanwhile; a journal names all three files, or some
        other path. */
    ghost predicate Usable()
      reads this
    {
      && Complete(committed) && Complete(files) && CompleteEdits(edits)
      && (journal.Some? ==> ALLOWED <= journal.value.files.Keys)
    }

    /** One run of the preparation, cut short after `steps` atomic writes: the journal, the
        three files, and the journal's removal. Only the exact version resumes a journal. */
    method Prepare(request: Request, today: Day, steps: nat) returns (outcome: Outcome)
      requires Usable()
      modifies this
      ensures Usable() && committed == old(committed)
      ensures old(Safe()) ==> Safe() && outcome != InvalidPath && outcome != Changed
      ensures day == if old(journal).None? && (journal.Some? || outcome == Finished) then today else old(day)
      ensures outcome == Finished ==> journal.None? && steps >= if old(journal).None? then 5 else 4
      ensures old(Safe()) && outcome == Finished ==>
        if old(journal).Some? then AllNew(old(journal.value.version), old(day))
        else old(Planned(request, today)).Some? && AllNew(old(Planned(request, today)).value, today)
      ensures outcome == Crashed ==>
        if old(journal).Some? then journal == old(journal)
        else if journal.Some? then Some(journal.value.version) == old(Planned(request, today)) else AllOld()
      ensures outcome == Crashed ==> steps < if old(journal).None? then 5 else 4
      ensures outcome == Crashed ==> (journal.Some? <==> old(journal).Some? || steps > 0)
      ensures outcome != Finished && outcome != Crashed ==> files == old(files) && journal == old(journal)
      ensures outcome == OtherVersionPending <==> old(journal).Some? && request != Exact(old(journal).value.version)
      ensures outcome == Dirty <==> old(journal).None? && !old(AllOld())
      ensures outcome == Refused <==> old(journal).None? && old(AllOld()) && old(Planned(request, today)).None?
      ensures old(journal).Some? && (outcome == Finished || outcome == Crashed) ==>
        forall n :: n in ALLOWED ==> old(n in journal.value.files && Known(n, journal.value))
      ensures outcome == Changed ==> old(journal).Some?
      ensures outcome == Changed ==>
        exists n :: n in ALLOWED && !old(n in journal.value.files && Known(n, journal.value))
    {
      var left := steps;
      if journal.Some? {
        if request != Exact(journal.value.version) { return OtherVersionPending; }
      } else {
        if files != committed { return Dirty; }
        var version := Planned(request, today);
        if version.None? { return Refused; }
        if left == 0 { return Crashed; }
        journal := Some(JournalOf(hash, version.value, committed, edits(version.value, today, committed).value));
        day := today;
        left := left - 1;
      }
      outcome := Apply(left);
    }

    /** Checks and writes what the journal says, then removes it. */
    method Apply(steps: nat) returns (outcome: Outcome)
      requires Usable() && journal.Some?
      modifies this`files, this`journal
      ensures Usable() && (journal.Some? ==> journal == old(journal))
      ensures old(Safe()) ==> Safe() && (outcome == Finished || outcome == Crashed)
      ensures old(Safe()) && outcome == Finished ==> AllNew(old(journal.value.version), day)
      ensures outcome == Finished <==> journal.None?
      ensures outcome == Finished ==> steps >= 4
      ensures outcome == Crashed ==> steps < 4
      ensures outcome == Finished || outcome == Crashed || outcome == Changed || outcome == InvalidPath
      ensures outcome != Finished && outcome != Crashed ==> files == old(files)
      ensures var known := forall n :: n in ALLOWED ==> old(n in journal.value.files && Known(n, journal.value));
        (outcome == Finished || outcome == Crashed ==> known) && (outcome == Changed ==> !known)
    {
      ghost var safe := Safe();
      if safe { NeverRefused(); }
      var error := Check(journal.value);
      if error.Some? { return error.value; }
      var written := WriteFiles(steps);
      if steps <= 3 { return Crashed; }
      if safe { Completed(journal.value.version, day); }
      journal := None;
      assert safe ==> AllNew(old(journal.value.version), day);
      outcome := Finished;
    }

    lemma Completed(version: Version, on: Day)
      requires Complete(committed) && Complete(files) && CompleteEdits(edits) && edits(version, on, committed).Some?
      requires forall n :: n in ALLOWED ==> files[n] == edits(version, on, committed).value[n]
      ensures AllNew(version, on)
    {
      var after := edits(version, on, committed).value;
      assert Complete(after) && forall n :: n in files ==> files[n] == after[n];
      assert files == after;
    }

    /** Without outside edits the check always passes. */
    lemma NeverRefused()
      requires Safe() && journal.Some?
      ensures journal.value.files.Keys == ALLOWED
      ensures forall n :: n in journal.value.files ==> Known(n, journal.value)
    {
    }
  }

  /** Every run before the `i`th is cut short before it writes anything. */
  ghost predicate NotStarted(cuts: seq<nat>, i: nat) {
    forall j :: 0 <= j < i && j < |cuts| ==> cuts[j] == 0
  }

  /** The `i`th run is long enough to finish: a run that finds the journal writes four times. */
  ghost predicate Suffices(cuts: seq<nat>, i: nat) {
    i < |cuts| && cuts[i] >= if NotStarted(cuts, i) then 5 else 4
  }

  /** The `i`th run finds nothing written, and the edits refuse its day. */
  ghost predicate RefusedAt(edits: Edits, committed: Files, version: Version, days: seq<Day>, cuts: seq<nat>, i: nat) {
    i < |cuts| == |days| && NotStarted(cuts, i) && edits(version, days[i], committed).None?
  }

  lemma Initially(cuts: seq<nat>)
    ensures NotStarted(cuts, 0)
  {
  }

  /** What the `i`th run depends on. */
  lemma AtRun(edits: Edits, committed: Files, version: Version, days: seq<Day>, cuts: seq<nat>, i: nat)
    requires i < |cuts| == |days|
    ensures NotStarted(cuts, i + 1) <==> NotStarted(cuts, i) && cuts[i] == 0
    ensures Suffices(cuts, i) <==> cuts[i] >= if NotStarted(cuts, i) then 5 else 4
    ensures RefusedAt(edits, committed, version, days, cuts, i) <==>
      NotStarted(cuts, i) && edits(version, days[i], committed).None?
  {
  }

  /** A run that finishes is the last that could have been refused. */
  lemma LaterRuns(edits: Edits, committed: Files, version: Version, days: seq<Day>, cuts: seq<nat>, i: nat)
    ensures Suffices(cuts, i) ==> forall j :: i < j ==> !RefusedAt(edits, committed, version, days, cuts, j)
  {
  }

  lemma NoMoreRuns(edits: Edits, committed: Files, version: Version, days: seq<Day>, cuts: seq<nat>)
    ensures forall j :: |cuts| <= j ==> !Suffices(cuts, j) && !RefusedAt(edits, committed, version, days, cuts, j)
  {
  }

  /** One run for the exact version, from a tree that is untouched or holds that version's journal. */
  method RunOnce(tree: Tree, version: Version, today: Day, steps: nat) returns (outcome: Outcome)
    requires tree.Safe() && (tree.journal.None? ==> tree.AllOld())
    requires tree.journal.Some? ==> tree.journal.value.version == version
    modifies tree
    ensures tree.Safe() && tree.committed == old(tree.committed)
    ensures var start := old(tree.journal).None?;
      outcome == if start && tree.edits(version, today, tree.committed).None? then Refused
        else if steps >= (if start then 5 else 4) then Finished else Crashed
    ensures tree.day == if old(tree.journal).None? && (tree.journal.Some? || outcome == Finished) then today
      else old(tree.day)
    ensures outcome == Finished ==> tree.journal.None? && tree.AllNew(version, tree.day)
    ensures outcome == Refused ==> tree.journal.None? && tree.AllOld()
    ensures outcome == Crashed ==> (tree.journal.Some? <==> old(tree.journal).Some? || steps > 0)
    ensures outcome == Crashed && tree.journal.Some? ==> tree.journal.value.version == version
    ensures outcome == Crashed && tree.journal.None? ==> tree.AllOld()
  {
    outcome := tree.Prepare(Exact(version), today, steps);
  }

  /** Runs on these days, each cut short anywhere: whenever no journal is left, the files are
      all old or all new. They are refused exactly when the edits refuse the day of a run that
      finds nothing written, and otherwise finish exactly when one of them is long enough, with
      all files new, as they were to be on the day the journal was written. */
  method Runs(tree: Tree, version: Version, days: seq<Day>, cuts: seq<nat>) returns (outcome: Outcome)
    requires tree.Safe() && tree.journal.None? && tree.AllOld() && |days| == |cuts|
    modifies tree
    ensures tree.Safe() && tree.committed == old(tree.committed)
    ensures outcome == Finished || outcome == Crashed || outcome == Refused
    ensures outcome == Finished ==> tree.journal.None? && tree.AllNew(version, tree.day) && tree.day in days
    ensures outcome == Refused ==> tree.journal.None? && tree.AllOld()
    ensures outcome == Refused <==> exists i :: RefusedAt(tree.edits, tree.committed, version, days, cuts, i)
    ensures outcome == Finished <==> outcome != Refused && exists i :: Suffices(cuts, i)
    ensures tree.journal.None? ==> tree.AllOld() || tree.AllNew(version, tree.day)
  {
    hide Suffices, RefusedAt, NotStarted, Tree.Safe, Tree.AllOld, Tree.AllNew;
    Initially(cuts);
    outcome := Crashed;
    for i := 0 to |cuts|
      invariant tree.Safe() && tree.committed == old(tree.committed) && outcome == Crashed
      invariant forall j :: 0 <= j < i ==> !Suffices(cuts, j)
      invariant forall j :: 0 <= j < i ==> !RefusedAt(tree.edits, tree.committed, version, days, cuts, j)
      invariant tree.journal.None? <==> NotStarted(cuts, i)
      invariant tree.journal.Some? ==> tree.journal.value.version == version && tree.day in days
      invariant tree.journal.None? ==> tree.AllOld()
    {
      AtRun(tree.edits, tree.committed, version, days, cuts, i);
      outcome := RunOnce(tree, version, days[i], cuts[i]);
      if outcome != Crashed {
        LaterRuns(tree.edits, tree.committed, version, days, cuts, i);
        return;
      }
    }
    NoMoreRuns(tree.edits, tree.committed, version, days, cuts);
  }

  /** A release asked for by the part to raise is not resumed by asking the same again: once
      its journal is written every such run is turned away, and naming the version ends it. */
  method RaisingIsNotResumed(tree: Tree, part: nat, today: Day, cut: nat, reruns: seq<Day>)
      returns (again: seq<Outcome>, named: Outcome)
    requires tree.Safe() && tree.journal.None? && tree.AllOld() && tree.Planned(Raise(part), today).Some?
    requires 0 < cut < 5
    modifies tree
    ensures |again| == |reruns| && forall i :: 0 <= i < |again| ==> again[i] == OtherVersionPending
    ensures named == Finished && tree.journal.None? && tree.committed == old(tree.committed)
    ensures tree.AllNew(old(tree.Planned(Raise(part), today).value), today)
  {
    var outcome := tree.Prepare(Raise(part), today, cut);
    again := [];
    for i := 0 to |reruns|
      invariant tree.Safe() && tree.committed == old(tree.committed) && tree.journal.Some? && tree.day == today
      invariant Some(tree.journal.value.version) == old(tree.Planned(Raise(part), today))
      invariant |again| == i && forall j :: 0 <= j < i ==> again[j] == OtherVersionPending
    {
      outcome := tree.Prepare(Raise(part), reruns[i], 5);
      again := again + [outcome];
    }
    named := tree.Prepare(Exact(tree.journal.value.version), today, 5);
  }

  /** The files after these releases in turn, each as it was to be on its day. */
  ghost function Released(edits: Edits, files: Files, versions: seq<Version>, days: seq<Day>): Files
    requires |days| == |versions|
  {
    if versions == [] then files
    else
      var n := |versions| - 1;
      var before := Released(edits, files, versions[..n], days[..n]);
      match edits(versions[n], days[n], before) case Some(after) => after case None => before
  }

  /** Releases one after the other, each cut short and resumed in its own way and committed
      once it is complete: the committed files are those of the completed releases. */
  method Releases(tree: Tree, versions: seq<Version>, days: seq<seq<Day>>, cuts: seq<seq<nat>>)
      returns (complete: nat, ghost written: seq<Day>)
    requires tree.Safe() && tree.journal.None? && tree.AllOld() && |cuts| == |days| == |versions|
    requires forall i :: 0 <= i < |cuts| ==> |days[i]| == |cuts[i]|
    modifies tree
    ensures tree.Safe() && complete <= |versions| && |written| == complete
    ensures forall i :: 0 <= i < complete ==> written[i] in days[i]
    ensures tree.committed == Released(tree.edits, old(tree.files), versions[..complete], written)
    ensures complete == |versions| ==> tree.journal.None? && tree.AllOld()
    ensures complete < |versions| ==>
      || (forall i :: !Suffices(cuts[complete], i))
      || (exists i :: RefusedAt(tree.edits, tree.committed, versions[complete], days[complete], cuts[complete], i))
  {
    complete, written := 0, [];
    while complete < |versions|
      invariant complete <= |versions| && |written| == complete
      invariant forall i :: 0 <= i < complete ==> written[i] in days[i]
      invariant tree.Safe() && tree.journal.None? && tree.AllOld()
      invariant tree.committed == Released(tree.edits, old(tree.files), versions[..complete], written)
    {
      var outcome := Runs(tree, versions[complete], days[complete], cuts[complete]);
      if outcome != Finished { return; }
      assert versions[..complete + 1][..complete] == versions[..complete];
      assert (written + [tree.day])[..complete] == written;
      tree.Commit();
      complete, written := complete + 1, written + [tree.day];
    }
  }
}
