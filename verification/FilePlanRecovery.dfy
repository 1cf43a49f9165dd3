/** The outcomes of a whole plan: all of it, nothing of it, or what recovery leaves. */
module FilePlanRecovery {
  import opened Wrappers
  import opened FilePlan
  import opened FilePlanSafety

  // ---------------------------------------------------------------------------------------------
  // Before anything changes
  // ---------------------------------------------------------------------------------------------

  predicate Readable(fs: Files, paths: seq<Path>) {
    forall p :: p in paths && p in fs ==> fs[p].Text?
  }

  lemma {:induction false} ReadAllFacts(s: State, paths: seq<Path>)
    requires !s.raised && !s.faulted
    ensures var s' := ReadAll(s, paths);
            && s' == s.(budget := s'.budget, raised := s'.raised, faulted := s'.faulted)
            && (!s'.raised ==> Readable(s.fs, paths) && !s'.faulted)
            && (s'.raised && Readable(s.fs, paths) ==> s'.faulted)
  {
    if paths != [] {
      var init, p := paths[..|paths| - 1], paths[|paths| - 1];
      assert forall q :: q in paths <==> q in init || q == p;
      ReadAllFacts(s, init);
    }
  }

  lemma ReadableIsDecodable(fs: Files, writes: seq<Write>, renames: seq<Rename>)
    ensures Readable(fs, ToRead(writes, renames)) <==> Decodable(fs, writes, renames)
  {
    forall p ensures p in ToRead(writes, renames) <==> Renamed(renames, p) || (Writes(writes, p) && !Targeted(renames, p)) {
      if Renamed(renames, p) {
        var r :| r in renames && r.source == p;
        var i :| 0 <= i < |renames| && renames[i] == r;
        assert Sources(renames)[i] == p;
      }
      if p in Sources(renames) {
        var i :| 0 <= i < |renames| && Sources(renames)[i] == p;
        assert renames[i] in renames;
      }
    }
  }

  // ---------------------------------------------------------------------------------------------
  // The three loops together
  // ---------------------------------------------------------------------------------------------

  /** A state in which nothing has happened yet. */
  predicate Fresh(s: State) {
    !s.raised && !s.faulted && s.left.None? && s.originals == map[]
  }

  /** If the first loop gets through, no rename has spoiled a backup. */
  predicate Spares(c: Setting, s: State, writes: seq<Write>, renames: seq<Rename>)
    requires SourcesRead(s.fs, renames)
  {
    CopyAll(c, s, writes, renames).raised || AllSpared(c, s, writes, renames)
  }

  lemma CopiesAreWritten(before: Files, s: State, writes: seq<Write>, renames: seq<Rename>)
    requires Copied(before, s, writes, renames)
    ensures Written(before, s, writes, 0, renames)
  {
    assert writes[..0] == [];
  }

  lemma AllGone(before: Files, s: State, writes: seq<Write>, renames: seq<Rename>)
    requires Emptied(before, s, writes, renames, renames) && RenamesFit(before, renames)
    ensures forall p :: !InBackups(p) ==> At(s.fs, p) == Wanted(before, writes, renames, p)
  {
    assert writes[..|writes|] == writes;
  }

  lemma FirstLoop(c: Setting, s: State, writes: seq<Write>, renames: seq<Rename>, held: bool)
    requires Fresh(s) && RenamesFit(s.fs, renames) && Decodable(s.fs, writes, renames) && SourcesRead(s.fs, renames)
    requires held ==> Spares(c, s, writes, renames)
    ensures var s1 := CopyAll(c, s, writes, renames);
            && Sound(s.fs, s1) && AllHeld(s.fs, s1.fs)
            && (!s1.raised ==> Going(s.fs, s1, renames, held) && Written(s.fs, s1, writes, 0, renames)
                               && forall r :: r in renames ==> r.source in s1.originals)
  {
    CopyAllFacts(s.fs, c, s, writes, renames);
    var s1 := CopyAll(c, s, writes, renames);
    if !s1.raised {
      CopiesAreWritten(s.fs, s1, writes, renames);
      assert Grown(s.fs, s1) by {
        forall p | p in s.fs ensures p in s1.fs {
          assert At(s1.fs, p) == At(s.fs, p);
        }
      }
      if held {
        SparedAreHeld(c, s, writes, renames);
      }
    }
  }

  lemma ExecuteFacts(c: Setting, s: State, writes: seq<Write>, renames: seq<Rename>, held: bool)
    requires Fresh(s) && RenamesFit(s.fs, renames) && Decodable(s.fs, writes, renames) && SourcesRead(s.fs, renames)
    requires DistinctPaths(writes) && (held ==> Spares(c, s, writes, renames))
    ensures var s' := Execute(c, s, writes, renames);
            && Sound(s.fs, s') && (held ==> AllHeld(s.fs, s'.fs))
            && (!s'.raised ==> forall p :: !InBackups(p) ==> At(s'.fs, p) == Wanted(s.fs, writes, renames, p))
  {
    FirstLoop(c, s, writes, renames, held);
    var s1 := CopyAll(c, s, writes, renames);
    if !s1.raised {
      assert writes[..|writes|] == writes && renames[..|renames|] == renames;
      WriteAllFacts(s.fs, c, s1, writes, |writes|, renames, held);
      var s2 := WriteAll(c, s1, writes, renames);
      if !s2.raised {
        RemoveAllFacts(s.fs, s2, writes, renames, |renames|, held);
        if !RemoveAll(s2, renames).raised {
          AllGone(s.fs, RemoveAll(s2, renames), writes, renames);
        }
      }
    }
  }

  // ---------------------------------------------------------------------------------------------
  // Plans that stay out of the backup folder
  // ---------------------------------------------------------------------------------------------

  /** No file that was already in the backup folder has changed. */
  ghost predicate OldBackupsKept(before: Files, now: Files) {
    forall p :: InBackups(p) && p in before ==> At(now, p) == At(before, p)
  }

  ghost predicate Apart(before: Files, s: State) {
    OldBackupsKept(before, s.fs) && forall p :: p in s.originals ==> !InBackups(p)
  }

  lemma PutStaysApart(before: Files, c: Setting, s: State, p: Path, text: string)
    requires Apart(before, s) && (!InBackups(p) || p !in s.fs)
    ensures Apart(before, Put(c, s, p, text))
  {
    assert p !in s.fs ==> At(s.fs, p) == None;
  }

  lemma {:induction false} CopyAllStaysApart(before: Files, c: Setting, s: State, writes: seq<Write>, renames: seq<Rename>)
    requires Apart(before, s) && AvoidsBackups(writes, renames)
    ensures Apart(before, CopyAll(c, s, writes, renames))
  {
    if renames != [] {
      var init, r := renames[..|renames| - 1], renames[|renames| - 1];
      assert r in renames && forall q :: q in init ==> q in renames;
      CopyAllStaysApart(before, c, s, writes, init);
      var s1 := Read(CopyAll(c, s, writes, init), r.source);
      if !CopyAll(c, s, writes, init).raised && !s1.raised {
        var text := s1.fs[r.source].text;
        var s2 := RecordRename(s1, r, text);
        PutStaysApart(before, c, s2, FreeName(s2.fs, r.source, c.stamp, 0), text);
        PutStaysApart(before, c, Save(c, s2, r.source, text), r.target, GivenText(writes, r, text));
      }
    }
  }

  lemma PreparedStaysApart(before: Files, c: Setting, s: State, w: Write)
    requires Apart(before, s) && !InBackups(w.path)
    ensures Apart(before, PutPrepared(c, s, w))
  {
    PutStaysApart(before, c, Spend(s), w.path, w.text);
  }

  lemma OverwriteStaysApart(before: Files, c: Setting, s: State, w: Write, renames: seq<Rename>)
    requires Apart(before, s) && !InBackups(w.path)
    ensures Apart(before, Overwrite(c, s, w, renames))
  {
    if w.path !in s.fs {
      PreparedStaysApart(before, c, RecordFirst(s, w.path, None), w);
    } else if !Read(s, w.path).raised {
      var text := s.fs[w.path].text;
      var s1 := RecordFirst(Read(s, w.path), w.path, Some(text));
      PutStaysApart(before, c, s1, FreeName(s1.fs, w.path, c.stamp, 0), text);
      PreparedStaysApart(before, c, Save(c, s1, w.path, text), w);
    }
  }

  lemma {:induction false} WriteAllStaysApart(before: Files, c: Setting, s: State, writes: seq<Write>, renames: seq<Rename>)
    requires Apart(before, s) && forall w :: w in writes ==> !InBackups(w.path)
    ensures Apart(before, WriteAll(c, s, writes, renames))
  {
    if writes != [] {
      var init, w := writes[..|writes| - 1], writes[|writes| - 1];
      assert w in writes && forall q :: q in init ==> q in writes;
      WriteAllStaysApart(before, c, s, init, renames);
      OverwriteStaysApart(before, c, WriteAll(c, s, init, renames), w, renames);
    }
  }

  lemma {:induction false} RemoveAllStaysApart(before: Files, s: State, renames: seq<Rename>)
    requires Apart(before, s) && forall r :: r in renames ==> !InBackups(r.source)
    ensures Apart(before, RemoveAll(s, renames))
  {
    if renames != [] {
      var init, r := renames[..|renames| - 1], renames[|renames| - 1];
      assert r in renames && forall q :: q in init ==> q in renames;
      RemoveAllStaysApart(before, s, init);
    }
  }

  lemma ExecuteStaysApart(c: Setting, s: State, writes: seq<Write>, renames: seq<Rename>)
    requires Fresh(s) && AvoidsBackups(writes, renames)
    ensures Apart(s.fs, Execute(c, s, writes, renames))
  {
    CopyAllStaysApart(s.fs, c, s, writes, renames);
    var s1 := CopyAll(c, s, writes, renames);
    WriteAllStaysApart(s.fs, c, s1, writes, renames);
    RemoveAllStaysApart(s.fs, WriteAll(c, s1, writes, renames), renames);
  }

  lemma {:induction false} NoneGiven(fs: Files, writes: seq<Write>, renames: seq<Rename>, i: nat, b: Path)
    requires i <= |renames| && SourcesRead(fs, renames) && InBackups(b)
    requires forall r :: r in renames ==> !InBackups(r.target)
    ensures GivenSince(fs, writes, renames, i, b).None?
  {
    if i < |renames| {
      assert renames[|renames| - 1] in renames;
      assert forall r :: r in renames[..|renames| - 1] ==> r in renames;
      NoneGiven(fs, writes, renames[..|renames| - 1], i, b);
    }
  }

  lemma AvoidingSpares(c: Setting, s: State, writes: seq<Write>, renames: seq<Rename>)
    requires SourcesRead(s.fs, renames) && AvoidsBackups(writes, renames)
    ensures AllSpared(c, s, writes, renames)
  {
    forall i | 0 <= i < |renames| ensures Spared(c, s, writes, renames, i) {
      NoneGiven(s.fs, writes, renames, i, ChosenName(c, s, writes, renames, i));
    }
  }

  // ---------------------------------------------------------------------------------------------
  // Recovery
  // ---------------------------------------------------------------------------------------------

  /** A faulting write has left bytes at this path that are no text. */
  predicate Spoiled(left: Option<Left>, p: Path) {
    left.Some? && left.value.path == p && left.value.content.Bytes?
  }

  /** A path comes back if and only if it was free or the fault has left something there that can be read. */
  lemma BackExactly(before: Files, c: Setting, s: State, p: Path)
    requires Sound(before, s) && !InBackups(p) && p !in c.stuck
    ensures BackAt(c, s, p) == At(before, p) <==> p !in before || !Spoiled(s.left, p)
  {
  }

  lemma BackKeepsBackups(before: Files, c: Setting, s: State, now: Files)
    requires Sound(before, s) && Apart(before, s) && AllHeld(before, s.fs)
    requires forall p :: At(now, p) == BackAt(c, s, p)
    ensures OldBackupsKept(before, now) && AllHeld(before, now)
  {
    forall p | InBackups(p) && p in before ensures At(now, p) == At(before, p) {
      assert At(now, p) == BackAt(c, s, p);
    }
    forall p | !InBackups(p) && p in before && At(now, p) != At(before, p) ensures Held(before, now, before[p]) {
      assert At(now, p) == BackAt(c, s, p);
      var b :| InBackups(b) && b !in before && b in s.fs && s.fs[b] == before[p];
      assert At(now, b) == BackAt(c, s, b);
    }
  }

  // ---------------------------------------------------------------------------------------------
  // A loop stops at its first exception
  // ---------------------------------------------------------------------------------------------

  lemma ReadStep(s: State, paths: seq<Path>, i: nat)
    requires i < |paths|
    ensures ReadAll(s, paths[..i + 1]) ==
            var before := ReadAll(s, paths[..i]);
            if before.raised || paths[i] !in s.fs then before else Read(before, paths[i])
  {
    assert paths[..i + 1][..i] == paths[..i];
  }

  lemma {:induction false} ReadsStopHere(s: State, paths: seq<Path>, i: nat)
    requires i <= |paths| && ReadAll(s, paths[..i]).raised
    ensures ReadAll(s, paths) == ReadAll(s, paths[..i])
    decreases |paths|
  {
    if i == |paths| {
      assert paths[..i] == paths;
    } else {
      assert paths[..|paths| - 1][..i] == paths[..i];
      ReadsStopHere(s, paths[..|paths| - 1], i);
    }
  }

  lemma {:induction false} CopiesStopHere(c: Setting, s: State, writes: seq<Write>, renames: seq<Rename>, i: nat)
    requires i <= |renames| && CopyAll(c, s, writes, renames[..i]).raised
    ensures CopyAll(c, s, writes, renames) == CopyAll(c, s, writes, renames[..i])
    decreases |renames|
  {
    if i == |renames| {
      assert renames[..i] == renames;
    } else {
      assert renames[..|renames| - 1][..i] == renames[..i];
      CopiesStopHere(c, s, writes, renames[..|renames| - 1], i);
    }
  }

  lemma {:induction false} WritesStopHere(c: Setting, s: State, writes: seq<Write>, i: nat, renames: seq<Rename>)
    requires i <= |writes| && WriteAll(c, s, writes[..i], renames).raised
    ensures WriteAll(c, s, writes, renames) == WriteAll(c, s, writes[..i], renames)
    decreases |writes|
  {
    if i == |writes| {
      assert writes[..i] == writes;
    } else {
      assert writes[..|writes| - 1][..i] == writes[..i];
      WritesStopHere(c, s, writes[..|writes| - 1], i, renames);
    }
  }

  lemma {:induction false} RemovalsStopHere(s: State, renames: seq<Rename>, i: nat)
    requires i <= |renames| && RemoveAll(s, renames[..i]).raised
    ensures RemoveAll(s, renames) == RemoveAll(s, renames[..i])
    decreases |renames|
  {
    if i == |renames| {
      assert renames[..i] == renames;
    } else {
      assert renames[..|renames| - 1][..i] == renames[..i];
      RemovalsStopHere(s, renames[..|renames| - 1], i);
    }
  }

  lemma PrefixFits(fs: Files, writes: seq<Write>, renames: seq<Rename>, i: nat)
    requires i <= |renames| && RenamesFit(fs, renames) && Decodable(fs, writes, renames)
    ensures RenamesFit(fs, renames[..i]) && Decodable(fs, writes, renames[..i])
    decreases |renames|
  {
    if i == |renames| {
      assert renames[..i] == renames;
    } else {
      var init := renames[..|renames| - 1];
      assert renames == init + [renames[|renames| - 1]] && init[..i] == renames[..i];
      InitDecodable(fs, writes, init, renames[|renames| - 1]);
      PrefixFits(fs, writes, init, i);
    }
  }

  // ---------------------------------------------------------------------------------------------
  // The whole call
  // ---------------------------------------------------------------------------------------------

  ghost predicate Ends(c: Setting, s: State, writes: seq<Write>, pairs: seq<Rename>, now: Files) {
    forall p :: At(now, p) == FinalAt(c, s, writes, pairs, p)
  }

  lemma RejectedExactly(c: Setting, s: State, writes: seq<Write>, pairs: seq<Rename>)
    requires Fresh(s)
    ensures OutcomeOf(c, s, writes, pairs) == Rejected
            <==> !Plannable(s.fs, writes, pairs)
                 || ReadAll(s, ToRead(writes, RenameMap(s.fs, pairs))).faulted
  {
    var renames := RenameMap(s.fs, pairs);
    ReadAllFacts(s, ToRead(writes, renames));
    ReadableIsDecodable(s.fs, writes, renames);
  }

  lemma AfterReading(c: Setting, s: State, writes: seq<Write>, pairs: seq<Rename>)
    requires Fresh(s) && OutcomeOf(c, s, writes, pairs) != Rejected
    ensures var renames := RenameMap(s.fs, pairs);
            var s1 := ReadAll(s, ToRead(writes, renames));
            && Plannable(s.fs, writes, pairs) && SourcesRead(s.fs, renames) && Fresh(s1) && s1.fs == s.fs
            && Tried(c, s, writes, renames) == Execute(c, s1, writes, renames)
            && (OutcomeOf(c, s, writes, pairs) == Applied <==> !Execute(c, s1, writes, renames).raised)
  {
    RejectedExactly(c, s, writes, pairs);
    var renames := RenameMap(s.fs, pairs);
    ReadAllFacts(s, ToRead(writes, renames));
    DecodableSources(s.fs, writes, renames);
  }

  /** A path whose recovery fails stays as the fault left it. */
  lemma StuckStays(c: Setting, s: State, writes: seq<Write>, pairs: seq<Rename>, p: Path)
    requires OutcomeOf(c, s, writes, pairs) == RolledBack && p in c.stuck
    ensures FinalAt(c, s, writes, pairs, p) == At(Tried(c, s, writes, RenameMap(s.fs, pairs)).fs, p)
  {
  }

  /** All of the plan: every path outside the backup folder is as wanted. */
  lemma AppliedIsWanted(c: Setting, s: State, writes: seq<Write>, pairs: seq<Rename>, p: Path)
    requires Fresh(s) && DistinctPaths(writes) && OutcomeOf(c, s, writes, pairs) == Applied && !InBackups(p)
    ensures FinalAt(c, s, writes, pairs, p) == Wanted(s.fs, writes, RenameMap(s.fs, pairs), p)
  {
    AfterReading(c, s, writes, pairs);
    var renames := RenameMap(s.fs, pairs);
    ExecuteFacts(c, ReadAll(s, ToRead(writes, renames)), writes, renames, false);
  }

  lemma {:induction false} RaisedStays(c: Setting, s: State, writes: seq<Write>, renames: seq<Rename>)
    requires s.raised
    ensures CopyAll(c, s, writes, renames) == s
  {
    if renames != [] {
      RaisedStays(c, s, writes, renames[..|renames| - 1]);
    }
  }

  /** A plan without a fault is applied, if it can be. */
  lemma FaultlessIsApplied(c: Setting, s: State, writes: seq<Write>, pairs: seq<Rename>)
    requires Fresh(s) && DistinctPaths(writes) && Plannable(s.fs, writes, pairs)
    requires !Tried(c, s, writes, RenameMap(s.fs, pairs)).faulted
    ensures OutcomeOf(c, s, writes, pairs) == Applied
  {
    var renames := RenameMap(s.fs, pairs);
    RejectedExactly(c, s, writes, pairs);
    if OutcomeOf(c, s, writes, pairs) == Rejected {
      RaisedStays(c, ReadAll(s, ToRead(writes, renames)), writes, renames);
      assert false;
    }
    AfterReading(c, s, writes, pairs);
    ExecuteFacts(c, ReadAll(s, ToRead(writes, renames)), writes, renames, false);
  }

  /**
   None of the plan: after a fault a path outside the backup folder whose recovery does not fail is back if and
   only if it was free or the fault did not leave bytes there that are no text.
   */
  lemma RolledBackExactly(c: Setting, s: State, writes: seq<Write>, pairs: seq<Rename>, p: Path)
    requires Fresh(s) && DistinctPaths(writes) && OutcomeOf(c, s, writes, pairs) == RolledBack
    requires !InBackups(p) && p !in c.stuck
    ensures FinalAt(c, s, writes, pairs, p) == At(s.fs, p)
            <==> p !in s.fs || !Spoiled(Tried(c, s, writes, RenameMap(s.fs, pairs)).left, p)
  {
    AfterReading(c, s, writes, pairs);
    var renames := RenameMap(s.fs, pairs);
    ExecuteFacts(c, ReadAll(s, ToRead(writes, renames)), writes, renames, false);
    BackExactly(s.fs, c, Tried(c, s, writes, renames), p);
  }

  /** A plan that stays out of the backup folder loses no original and no older backup, whatever faults. */
  lemma AvoidingKeepsOriginals(c: Setting, s: State, writes: seq<Write>, pairs: seq<Rename>, now: Files)
    requires Fresh(s) && DistinctPaths(writes) && AvoidsBackups(writes, pairs) && Ends(c, s, writes, pairs, now)
    ensures OldBackupsKept(s.fs, now) && AllHeld(s.fs, now)
  {
    var renames := RenameMap(s.fs, pairs);
    if OutcomeOf(c, s, writes, pairs) == Rejected {
      assert forall p :: At(now, p) == At(s.fs, p);
    } else {
      MapAvoids(s.fs, writes, pairs);
      AfterReading(c, s, writes, pairs);
      var s1 := ReadAll(s, ToRead(writes, renames));
      AvoidingSpares(c, s1, writes, renames);
      ExecuteFacts(c, s1, writes, renames, true);
      ExecuteStaysApart(c, s1, writes, renames);
      var s2 := Execute(c, s1, writes, renames);
      if s2.raised {
        BackKeepsBackups(s.fs, c, s2, now);
      } else {
        SameFiles(s2.fs, now);
      }
    }
  }

  lemma SameFiles(a: Files, b: Files)
    requires forall p :: At(b, p) == At(a, p)
    ensures a == b
  {
    assert forall p :: p in a <==> p in b by {
      forall p ensures p in a <==> p in b {
        assert At(b, p) == At(a, p);
      }
    }
    forall p | p in a ensures a[p] == b[p] {
      assert At(b, p) == At(a, p);
    }
  }

  /** No rename of the plan puts another text at a name chosen for an earlier backup or its own. */
  predicate SparesBackups(c: Setting, s: State, writes: seq<Write>, pairs: seq<Rename>) {
    var renames := RenameMap(s.fs, pairs);
    var s1 := ReadAll(s, ToRead(writes, renames));
    SourcesRead(s1.fs, renames) && AllSpared(c, s1, writes, renames)
  }

  /** An applied plan loses no original as long as no rename takes a name chosen for a backup for another text. */
  lemma SparingKeepsOriginals(c: Setting, s: State, writes: seq<Write>, pairs: seq<Rename>, now: Files)
    requires Fresh(s) && DistinctPaths(writes) && OutcomeOf(c, s, writes, pairs) == Applied
    requires SparesBackups(c, s, writes, pairs) && Ends(c, s, writes, pairs, now)
    ensures AllHeld(s.fs, now)
  {
    AfterReading(c, s, writes, pairs);
    var renames := RenameMap(s.fs, pairs);
    var s1 := ReadAll(s, ToRead(writes, renames));
    ExecuteFacts(c, s1, writes, renames, true);
    SameFiles(Execute(c, s1, writes, renames).fs, now);
  }

  /** What the outcome of a call says about the files it ends with. */
  lemma Consequences(c: Setting, s: State, writes: seq<Write>, pairs: seq<Rename>, now: Files)
    requires Fresh(s) && DistinctPaths(writes) && Ends(c, s, writes, pairs, now)
    ensures var outcome, end := OutcomeOf(c, s, writes, pairs), Tried(c, s, writes, RenameMap(s.fs, pairs));
            && (!Plannable(s.fs, writes, pairs) ==> outcome == Rejected)
            && (outcome == Applied ==>
                  forall p :: !InBackups(p) ==> At(now, p) == Wanted(s.fs, writes, RenameMap(s.fs, pairs), p))
            && (outcome == RolledBack ==>
                  forall p :: !InBackups(p) && p !in c.stuck ==>
                    (At(now, p) == At(s.fs, p) <==> p !in s.fs || !Spoiled(end.left, p)))
            && (Plannable(s.fs, writes, pairs) && !end.faulted ==> outcome == Applied)
    ensures AvoidsBackups(writes, pairs) ==> OldBackupsKept(s.fs, now) && AllHeld(s.fs, now)
    ensures OutcomeOf(c, s, writes, pairs) != Rejected ==> AllAccepted(s.fs, pairs)
  {
    RejectedExactly(c, s, writes, pairs);
    forall p | !InBackups(p) && OutcomeOf(c, s, writes, pairs) == Applied
      ensures At(now, p) == Wanted(s.fs, writes, RenameMap(s.fs, pairs), p)
    {
      AppliedIsWanted(c, s, writes, pairs, p);
    }
    forall p | !InBackups(p) && p !in c.stuck && OutcomeOf(c, s, writes, pairs) == RolledBack
      ensures At(now, p) == At(s.fs, p)
              <==> p !in s.fs || !Spoiled(Tried(c, s, writes, RenameMap(s.fs, pairs)).left, p)
    {
      RolledBackExactly(c, s, writes, pairs, p);
    }
    if Plannable(s.fs, writes, pairs) && !Tried(c, s, writes, RenameMap(s.fs, pairs)).faulted {
      FaultlessIsApplied(c, s, writes, pairs);
    }
    if AvoidsBackups(writes, pairs) {
      AvoidingKeepsOriginals(c, s, writes, pairs, now);
    }
  }
}
