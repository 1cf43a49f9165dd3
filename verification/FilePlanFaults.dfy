/** Which faults a plan can not take back, and plans that spoil their own backups. */
module FilePlanFaults {
  import opened Wrappers
  import opened FilePlan
  import opened FilePlanSafety
  import opened FilePlanRecovery

  // ---------------------------------------------------------------------------------------------
  // Where a fault can leave something at a path that was there before
  // ---------------------------------------------------------------------------------------------

  /** A write of the plan that replaces the text of a file, which is no target of a rename. */
  predicate Replaces(fs: Files, w: Write, renames: seq<Rename>) {
    !InBackups(w.path) && w.path in fs && !Targeted(renames, w.path) && fs[w.path] != Text(w.text)
  }

  /** What is left at an old path comes from the write that replaces it. */
  ghost predicate LeftByWrite(c: Setting, fs: Files, writes: seq<Write>, renames: seq<Rename>, left: Option<Left>) {
    left.Some? && !InBackups(left.value.path) && left.value.path in fs ==>
      c.torn.Some? && exists w :: w in writes && w.path == left.value.path && Replaces(fs, w, renames)
                                  && left.value.content == Cut(w.text, c.torn.value)
  }

  lemma CopyLeft(c: Setting, s: State, writes: seq<Write>, r: Rename)
    requires s.left.None?
    ensures var s' := Copy(c, s, writes, r);
            && (s'.left.Some? ==> InBackups(s'.left.value.path) || s'.left.value.path == r.target)
            && (!s'.raised ==> s'.left.None?)
  {
  }

  lemma {:induction false} CopyAllLeft(before: Files, c: Setting, s: State, writes: seq<Write>, renames: seq<Rename>)
    requires s.left.None? && RenamesFit(before, renames)
    ensures var left := CopyAll(c, s, writes, renames).left;
            left.Some? ==> InBackups(left.value.path) || left.value.path !in before
    ensures !CopyAll(c, s, writes, renames).raised ==> CopyAll(c, s, writes, renames).left.None?
  {
    if renames != [] {
      var init, r := renames[..|renames| - 1], renames[|renames| - 1];
      assert r in renames && forall q :: q in init ==> q in renames;
      CopyAllLeft(before, c, s, writes, init);
      if !CopyAll(c, s, writes, init).raised {
        CopyLeft(c, CopyAll(c, s, writes, init), writes, r);
      }
    }
  }

  lemma PreparedLeft(c: Setting, s: State, w: Write)
    requires s.left.None?
    ensures PutPrepared(c, s, w).left.Some? ==>
              c.torn.Some? && PutPrepared(c, s, w).left.value == Left(w.path, Cut(w.text, c.torn.value))
  {
  }

  lemma SaveLeft(c: Setting, s: State, p: Path, text: string)
    requires s.left.None?
    ensures Save(c, s, p, text).left.Some? ==> InBackups(Save(c, s, p, text).left.value.path) && Save(c, s, p, text).raised
  {
  }

  /** What one turn of the second loop leaves when it faults: part of a backup or of the new text. */
  lemma TurnLeft(c: Setting, s: State, w: Write, renames: seq<Rename>)
    requires Faulty(s) && !s.raised
    ensures var left := Overwrite(c, s, w, renames).left;
            left.Some? && !InBackups(left.value.path) ==>
              && c.torn.Some? && left.value == Left(w.path, Cut(w.text, c.torn.value)) && !Targeted(renames, w.path)
              && (w.path in s.fs ==> s.fs[w.path] != Text(w.text))
  {
    if !Targeted(renames, w.path) {
      if w.path !in s.fs {
        PreparedLeft(c, RecordFirst(s, w.path, None), w);
      } else if !Read(s, w.path).raised && s.fs[w.path].text != w.text {
        var text := s.fs[w.path].text;
        var s1 := RecordFirst(Read(s, w.path), w.path, Some(text));
        SaveLeft(c, s1, w.path, text);
        if !Save(c, s1, w.path, text).raised {
          PreparedLeft(c, Save(c, s1, w.path, text), w);
        }
      }
    }
  }

  lemma OverwriteLeft(before: Files, c: Setting, s: State, writes: seq<Write>, i: nat, renames: seq<Rename>)
    requires i < |writes| && DistinctPaths(writes) && Decodable(before, writes, renames)
    requires Sound(before, s) && !s.raised && Written(before, s, writes, i, renames)
    ensures LeftByWrite(c, before, writes, renames, Overwrite(c, s, writes[i], renames).left)
  {
    var w := writes[i];
    TurnLeft(c, s, w, renames);
    if !Targeted(renames, w.path) {
      StillOld(before, s, writes, i, renames);
      assert w in writes;
    }
  }

  lemma {:induction false} WriteAllLeft(before: Files, c: Setting, s: State, writes: seq<Write>, i: nat, renames: seq<Rename>)
    requires i <= |writes| && DistinctPaths(writes) && Decodable(before, writes, renames)
    requires Going(before, s, renames, false) && !s.raised && Written(before, s, writes, 0, renames)
    ensures LeftByWrite(c, before, writes, renames, WriteAll(c, s, writes[..i], renames).left)
  {
    if i > 0 {
      assert writes[..i][..i - 1] == writes[..i - 1] && writes[..i][i - 1] == writes[i - 1];
      WriteAllLeft(before, c, s, writes, i - 1, renames);
      var s1 := WriteAll(c, s, writes[..i - 1], renames);
      if !s1.raised {
        WriteAllFacts(before, c, s, writes, i - 1, renames, false);
        OverwriteLeft(before, c, s1, writes, i - 1, renames);
      }
    }
  }

  lemma {:induction false} RemoveAllLeft(s: State, renames: seq<Rename>)
    ensures RemoveAll(s, renames).left == s.left
  {
    if renames != [] {
      RemoveAllLeft(s, renames[..|renames| - 1]);
    }
  }

  lemma ExecuteLeft(c: Setting, s: State, writes: seq<Write>, renames: seq<Rename>)
    requires Fresh(s) && RenamesFit(s.fs, renames) && Decodable(s.fs, writes, renames) && DistinctPaths(writes)
    ensures LeftByWrite(c, s.fs, writes, renames, Execute(c, s, writes, renames).left)
  {
    DecodableSources(s.fs, writes, renames);
    FirstLoop(c, s, writes, renames, false);
    CopyAllLeft(s.fs, c, s, writes, renames);
    var s1 := CopyAll(c, s, writes, renames);
    if !s1.raised {
      assert writes[..|writes|] == writes;
      WriteAllLeft(s.fs, c, s1, writes, |writes|, renames);
      RemoveAllLeft(WriteAll(c, s1, writes, renames), renames);
    }
  }

  // ---------------------------------------------------------------------------------------------
  // Faults at any moment
  // ---------------------------------------------------------------------------------------------

  function More(s: State, n: nat): State {
    s.(budget := s.budget + n)
  }

  /** What a step did with some budget it does with more, and the rest is left over. */
  lemma PutShifts(c: Setting, s: State, p: Path, text: string, n: nat)
    requires !s.raised && !Put(c, s, p, text).raised
    ensures Put(c, More(s, n), p, text) == More(Put(c, s, p, text), n)
  {
  }

  lemma CopyShifts(c: Setting, s: State, writes: seq<Write>, r: Rename, n: nat)
    requires !s.raised && !Copy(c, s, writes, r).raised
    ensures Copy(c, More(s, n), writes, r) == More(Copy(c, s, writes, r), n)
  {
    var s1 := Read(s, r.source);
    var text := s.fs[r.source].text;
    var s2 := RecordRename(s1, r, text);
    PutShifts(c, s2, FreeName(s2.fs, r.source, c.stamp, 0), text, n);
    PutShifts(c, Save(c, s2, r.source, text), r.target, GivenText(writes, r, text), n);
  }

  lemma {:induction false} CopyAllShifts(c: Setting, s: State, writes: seq<Write>, renames: seq<Rename>, n: nat)
    requires !s.raised && !CopyAll(c, s, writes, renames).raised
    ensures CopyAll(c, More(s, n), writes, renames) == More(CopyAll(c, s, writes, renames), n)
  {
    if renames != [] {
      CopyAllShifts(c, s, writes, renames[..|renames| - 1], n);
      CopyShifts(c, CopyAll(c, s, writes, renames[..|renames| - 1]), writes, renames[|renames| - 1], n);
    }
  }

  lemma PreparedShifts(c: Setting, s: State, w: Write, n: nat)
    requires !s.raised && !PutPrepared(c, s, w).raised
    ensures PutPrepared(c, More(s, n), w) == More(PutPrepared(c, s, w), n)
  {
    PutShifts(c, Spend(s), w.path, w.text, n);
  }

  lemma ReplaceShifts(c: Setting, s: State, w: Write, text: string, n: nat)
    requires !s.raised && !PutPrepared(c, Save(c, RecordFirst(s, w.path, Some(text)), w.path, text), w).raised
    ensures PutPrepared(c, Save(c, RecordFirst(More(s, n), w.path, Some(text)), w.path, text), w)
            == More(PutPrepared(c, Save(c, RecordFirst(s, w.path, Some(text)), w.path, text), w), n)
  {
    var s2 := RecordFirst(s, w.path, Some(text));
    assert RecordFirst(More(s, n), w.path, Some(text)) == More(s2, n);
    PutShifts(c, s2, FreeName(s2.fs, w.path, c.stamp, 0), text, n);
    PreparedShifts(c, Save(c, s2, w.path, text), w, n);
  }

  lemma OverwriteShifts(c: Setting, s: State, w: Write, renames: seq<Rename>, n: nat)
    requires !s.raised && !Overwrite(c, s, w, renames).raised
    ensures Overwrite(c, More(s, n), w, renames) == More(Overwrite(c, s, w, renames), n)
  {
    if !Targeted(renames, w.path) {
      if w.path !in s.fs {
        PreparedShifts(c, RecordFirst(s, w.path, None), w, n);
      } else {
        assert Read(More(s, n), w.path) == More(Read(s, w.path), n);
        if s.fs[w.path].text != w.text {
          ReplaceShifts(c, Read(s, w.path), w, s.fs[w.path].text, n);
        }
      }
    }
  }

  lemma {:induction false} WriteAllShifts(c: Setting, s: State, writes: seq<Write>, renames: seq<Rename>, n: nat)
    requires !s.raised && !WriteAll(c, s, writes, renames).raised
    ensures WriteAll(c, More(s, n), writes, renames) == More(WriteAll(c, s, writes, renames), n)
  {
    if writes != [] {
      WriteAllShifts(c, s, writes[..|writes| - 1], renames, n);
      OverwriteShifts(c, WriteAll(c, s, writes[..|writes| - 1], renames), writes[|writes| - 1], renames, n);
    }
  }

  lemma {:induction false} ReadAllShifts(s: State, paths: seq<Path>, n: nat)
    requires !s.raised && !ReadAll(s, paths).raised
    ensures ReadAll(More(s, n), paths) == More(ReadAll(s, paths), n)
  {
    if paths != [] {
      ReadAllShifts(s, paths[..|paths| - 1], n);
    }
  }

  /** With just enough primitives the files are all read and none is left. */
  lemma {:induction false} ReachReading(s: State, paths: seq<Path>) returns (n: nat)
    requires !s.raised && s.budget == 0 && Readable(s.fs, paths)
    ensures ReadAll(More(s, n), paths) == s
  {
    n := 0;
    if paths != [] {
      var init, p := paths[..|paths| - 1], paths[|paths| - 1];
      assert forall q :: q in paths <==> q in init || q == p;
      n := ReachReading(s, init);
      if p in s.fs {
        ReadAllShifts(More(s, n), init, 1);
        assert More(More(s, n), 1) == More(s, n + 1);
        n := n + 1;
      }
    }
  }

  lemma CopySpends(c: Setting, s: State, writes: seq<Write>, r: Rename)
    requires !s.raised && s.budget == 3 && At(s.fs, r.source).Some? && s.fs[r.source].Text?
    ensures !Copy(c, s, writes, r).raised && Copy(c, s, writes, r).budget == 0
  {
  }

  lemma {:induction false} ReachCopies(c: Setting, s: State, writes: seq<Write>, renames: seq<Rename>) returns (n: nat)
    requires Fresh(s) && s.budget == 0 && RenamesFit(s.fs, renames) && Decodable(s.fs, writes, renames)
    ensures !CopyAll(c, More(s, n), writes, renames).raised && CopyAll(c, More(s, n), writes, renames).budget == 0
  {
    n := 0;
    if renames != [] {
      var init, r := renames[..|renames| - 1], renames[|renames| - 1];
      assert init + [r] == renames && r in renames && Renamed(renames, r.source);
      InitDecodable(s.fs, writes, init, r);
      n := ReachCopies(c, s, writes, init);
      CopyAllShifts(c, More(s, n), writes, init, 3);
      assert More(More(s, n), 3) == More(s, n + 3);
      CopyAllFacts(s.fs, c, More(s, n + 3), writes, init);
      var s1 := CopyAll(c, More(s, n + 3), writes, init);
      assert At(s1.fs, r.source) == At(s.fs, r.source);
      CopySpends(c, s1, writes, r);
      n := n + 3;
    }
  }

  /** The primitives that one turn of the second loop takes. */
  function Cost(s: State, w: Write, renames: seq<Rename>): nat {
    if Targeted(renames, w.path) then 0
    else if w.path !in s.fs then 2
    else if s.fs[w.path] == Text(w.text) then 1
    else 4
  }

  lemma OverwriteSpends(c: Setting, s: State, w: Write, renames: seq<Rename>)
    requires !s.raised && s.budget == Cost(s, w, renames) && (w.path in s.fs ==> s.fs[w.path].Text?)
    ensures !Overwrite(c, s, w, renames).raised && Overwrite(c, s, w, renames).budget == 0
  {
  }

  lemma NextWrite(before: Files, c: Setting, s: State, writes: seq<Write>, i: nat, renames: seq<Rename>) returns (k: nat)
    requires i < |writes| && DistinctPaths(writes) && Decodable(before, writes, renames)
    requires Sound(before, s) && !s.raised && s.budget == 0 && Written(before, s, writes, i, renames)
    ensures var s' := Overwrite(c, More(s, k), writes[i], renames);
            !s'.raised && s'.budget == 0
  {
    k := Cost(s, writes[i], renames);
    if Targeted(renames, writes[i].path) {
      assert More(s, k) == s;
    } else {
      StillOld(before, s, writes, i, renames);
      OverwriteSpends(c, More(s, k), writes[i], renames);
    }
  }

  lemma AnyBudget(before: Files, s: State, n: nat, writes: seq<Write>, renames: seq<Rename>)
    requires Going(before, s, renames, false) && !s.raised && Written(before, s, writes, 0, renames)
    ensures Going(before, More(s, n), renames, false) && !More(s, n).raised && Written(before, More(s, n), writes, 0, renames)
  {
    assert More(s, n).fs == s.fs;
  }

  lemma WriteMore(c: Setting, s: State, writes: seq<Write>, w: Write, renames: seq<Rename>, k: nat)
    requires !s.raised && !WriteAll(c, s, writes, renames).raised
    ensures WriteAll(c, More(s, k), writes + [w], renames)
            == Overwrite(c, More(WriteAll(c, s, writes, renames), k), w, renames)
  {
    WriteAllShifts(c, s, writes, renames, k);
    assert (writes + [w])[..|writes|] == writes;
  }

  lemma {:induction false} ReachWrites(before: Files, c: Setting, s: State, writes: seq<Write>, i: nat, renames: seq<Rename>)
    returns (n: nat)
    requires i <= |writes| && DistinctPaths(writes) && Decodable(before, writes, renames)
    requires Going(before, s, renames, false) && !s.raised && s.budget == 0 && Written(before, s, writes, 0, renames)
    ensures var s' := WriteAll(c, More(s, n), writes[..i], renames);
            !s'.raised && s'.budget == 0
  {
    n := 0;
    if i > 0 {
      var m := ReachWrites(before, c, s, writes, i - 1, renames);
      AnyBudget(before, s, m, writes, renames);
      WriteAllFacts(before, c, More(s, m), writes, i - 1, renames, false);
      var k := NextWrite(before, c, WriteAll(c, More(s, m), writes[..i - 1], renames), writes, i - 1, renames);
      WriteMore(c, More(s, m), writes[..i - 1], writes[i - 1], renames, k);
      assert writes[..i] == writes[..i - 1] + [writes[i - 1]];
      n := m + k;
      assert More(More(s, m), k) == More(s, n);
    }
  }

  /** A turn of the second loop whose last write is cut. */
  lemma TornTurn(c: Setting, s: State, w: Write, renames: seq<Rename>)
    requires c.torn.Some? && !s.raised && s.budget == 3 && !Targeted(renames, w.path)
    requires At(s.fs, w.path).Some? && s.fs[w.path].Text? && s.fs[w.path].text != w.text
    ensures var s' := Overwrite(c, s, w, renames);
            s'.raised && s'.left == Some(Left(w.path, Cut(w.text, c.torn.value)))
  {
  }

  /** Some number of primitives lets a fault hit exactly the write that replaces a text. */
  lemma TornWrites(before: Files, c: Setting, s: State, writes: seq<Write>, i: nat, renames: seq<Rename>) returns (n: nat)
    requires i < |writes| && DistinctPaths(writes) && Decodable(before, writes, renames) && c.torn.Some?
    requires Going(before, s, renames, false) && !s.raised && s.budget == 0 && Written(before, s, writes, 0, renames)
    requires Replaces(before, writes[i], renames)
    ensures var s' := WriteAll(c, More(s, n), writes, renames);
            s'.raised && s'.left == Some(Left(writes[i].path, Cut(writes[i].text, c.torn.value)))
  {
    var k := ReachWrites(before, c, s, writes, i, renames);
    AnyBudget(before, s, k, writes, renames);
    WriteAllFacts(before, c, More(s, k), writes, i, renames, false);
    var s1 := WriteAll(c, More(s, k), writes[..i], renames);
    StillOld(before, s1, writes, i, renames);
    TornTurn(c, More(s1, 3), writes[i], renames);
    WriteMore(c, More(s, k), writes[..i], writes[i], renames, 3);
    assert writes[..i + 1] == writes[..i] + [writes[i]];
    n := k + 3;
    assert More(More(s, k), 3) == More(s, n);
    WritesStopHere(c, More(s, n), writes, i + 1, renames);
  }

  lemma TornRun(c: Setting, fs: Files, writes: seq<Write>, renames: seq<Rename>, i: nat) returns (n: nat)
    requires RenamesFit(fs, renames) && Decodable(fs, writes, renames) && DistinctPaths(writes)
    requires i < |writes| && Replaces(fs, writes[i], renames) && c.torn.Some?
    ensures var s' := Execute(c, Start(fs, n), writes, renames);
            s'.raised && s'.left == Some(Left(writes[i].path, Cut(writes[i].text, c.torn.value)))
  {
    var s := Start(fs, 0);
    DecodableSources(fs, writes, renames);
    var m := ReachCopies(c, s, writes, renames);
    assert More(s, m) == Start(fs, m);
    FirstLoop(c, Start(fs, m), writes, renames, false);
    var s1 := CopyAll(c, Start(fs, m), writes, renames);
    var k := TornWrites(fs, c, s1, writes, i, renames);
    CopyAllShifts(c, Start(fs, m), writes, renames, k);
    n := m + k;
    assert More(Start(fs, m), k) == Start(fs, n);
  }

  predicate ComesBack(c: Setting, s: State, writes: seq<Write>, pairs: seq<Rename>, p: Path) {
    OutcomeOf(c, s, writes, pairs) == RolledBack ==> FinalAt(c, s, writes, pairs, p) == At(s.fs, p)
  }

  /** Whatever faults, and wherever a write is cut, everything outside the backup folder comes back. */
  ghost predicate AlwaysComesBack(fs: Files, stamp: string, writes: seq<Write>, pairs: seq<Rename>) {
    forall torn: Option<nat>, budget: nat, p :: !InBackups(p) ==>
      ComesBack(Setting(torn, {}, stamp), Start(fs, budget), writes, pairs, p)
  }

  /** Every text that replaces another one consists of single bytes. */
  predicate PlainReplacements(fs: Files, writes: seq<Write>, renames: seq<Rename>) {
    forall w :: w in writes && Replaces(fs, w, renames) ==> Ascii(w.text)
  }

  lemma PlainComesBack(c: Setting, s: State, writes: seq<Write>, pairs: seq<Rename>, p: Path)
    requires Fresh(s) && DistinctPaths(writes) && PlainReplacements(s.fs, writes, RenameMap(s.fs, pairs))
    requires !InBackups(p) && p !in c.stuck
    ensures ComesBack(c, s, writes, pairs, p)
  {
    var renames := RenameMap(s.fs, pairs);
    if OutcomeOf(c, s, writes, pairs) == RolledBack {
      AfterReading(c, s, writes, pairs);
      ExecuteLeft(c, ReadAll(s, ToRead(writes, renames)), writes, renames);
      RolledBackExactly(c, s, writes, pairs, p);
      var left := Tried(c, s, writes, renames).left;
      if left.Some? && left.value.path == p && p in s.fs {
        var w :| w in writes && w.path == p && Replaces(s.fs, w, renames) && left.value.content == Cut(w.text, c.torn.value);
        AsciiCutsRead(w.text, c.torn.value);
      }
    }
  }

  lemma CutIsNotTakenBack(fs: Files, stamp: string, writes: seq<Write>, pairs: seq<Rename>, i: nat)
    requires DistinctPaths(writes) && Plannable(fs, writes, pairs) && i < |writes|
    requires Replaces(fs, writes[i], RenameMap(fs, pairs)) && !Ascii(writes[i].text)
    ensures !AlwaysComesBack(fs, stamp, writes, pairs)
  {
    var renames := RenameMap(fs, pairs);
    var k := CutInside(writes[i].text);
    var c := Setting(Some(k), {}, stamp);
    var n := TornRun(c, fs, writes, renames, i);
    ReadableIsDecodable(fs, writes, renames);
    var m := ReachReading(Start(fs, 0), ToRead(writes, renames));
    ReadAllShifts(More(Start(fs, 0), m), ToRead(writes, renames), n);
    assert More(More(Start(fs, 0), m), n) == Start(fs, m + n) && More(Start(fs, 0), n) == Start(fs, n);
    RolledBackExactly(c, Start(fs, m + n), writes, pairs, writes[i].path);
    assert !ComesBack(Setting(Some(k), {}, stamp), Start(fs, m + n), writes, pairs, writes[i].path);
  }

  /**
   A plan that faults is taken back entirely, at whatever primitive the fault comes and wherever it cuts a write,
   if and only if every text that replaces another one is ASCII: a write cut inside a character leaves a file that
   the recovery can not read, and such a file is left as it is.
   */
  lemma ComesBackExactly(fs: Files, stamp: string, writes: seq<Write>, pairs: seq<Rename>)
    requires DistinctPaths(writes) && Plannable(fs, writes, pairs)
    ensures AlwaysComesBack(fs, stamp, writes, pairs) <==> PlainReplacements(fs, writes, RenameMap(fs, pairs))
  {
    if PlainReplacements(fs, writes, RenameMap(fs, pairs)) {
      forall torn: Option<nat>, budget: nat, p | !InBackups(p)
        ensures ComesBack(Setting(torn, {}, stamp), Start(fs, budget), writes, pairs, p)
      {
        PlainComesBack(Setting(torn, {}, stamp), Start(fs, budget), writes, pairs, p);
      }
    } else {
      var w :| w in writes && Replaces(fs, w, RenameMap(fs, pairs)) && !Ascii(w.text);
      var i :| 0 <= i < |writes| && writes[i] == w;
      CutIsNotTakenBack(fs, stamp, writes, pairs, i);
    }
  }

  // ---------------------------------------------------------------------------------------------
  // Two runs
  // ---------------------------------------------------------------------------------------------

  /** A workspace with one file, and a plan that replaces its text by one character of two bytes. */
  predicate OneCharacter(fs: Files, w: Write) {
    fs == map["a" := Text("x")] && w == Write("a", "\U{e9}")
  }

  lemma OneCharacterReads(fs: Files, w: Write)
    requires OneCharacter(fs, w)
    ensures ReadAll(Start(fs, 4), ToRead([w], [])) == Start(fs, 3)
  {
    assert PlainPaths([w][1..], []) == [] && PlainPaths([w], []) == ["a"];
    var paths := ToRead([w], []);
    assert paths == ["a"] && paths[..0] == [] && ReadAll(Start(fs, 4), paths[..0]) == Start(fs, 4);
  }

  lemma OneCharacterRuns(fs: Files, stamp: string, w: Write)
    requires OneCharacter(fs, w)
    ensures var s' := Tried(Setting(Some(1), {}, stamp), Start(fs, 4), [w], []);
            s'.raised && s'.left == Some(Left("a", Bytes(1)))
  {
    OneCharacterReads(fs, w);
    var c, s1 := Setting(Some(1), {}, stamp), Start(fs, 3);
    TornTurn(c, s1, w, []);
    assert [w][..0] == [] && [w][|[w]| - 1] == w && WriteAll(c, s1, [w][..0], []) == s1;
    assert WriteAll(c, s1, [w], []) == Overwrite(c, s1, w, []);
    assert Width(w.text[0]) == 2 && Cut(w.text, 1) == Bytes(1);
  }

  /** A write of one two-byte character over the text `x`, cut after the first byte: `x` does not come back. */
  lemma TornWriteStays(fs: Files, stamp: string, w: Write)
    requires OneCharacter(fs, w)
    ensures OutcomeOf(Setting(Some(1), {}, stamp), Start(fs, 4), [w], []) == RolledBack
    ensures FinalAt(Setting(Some(1), {}, stamp), Start(fs, 4), [w], [], "a") != At(fs, "a")
  {
    OneCharacterReads(fs, w);
    OneCharacterRuns(fs, stamp, w);
    assert "a"[0] == 'a' && !InBackups("a");
    RolledBackExactly(Setting(Some(1), {}, stamp), Start(fs, 4), [w], [], "a");
  }

  /** A workspace with one file, and a plan that renames it onto the name its own backup gets, with a new text. */
  predicate OntoItsBackup(fs: Files, stamp: string, r: Rename, w: Write) {
    && fs == map["a.js" := Text("x")] && r == Rename("a.js", BackupName("a.js", stamp, 0)) && w == Write(r.target, "y")
  }

  lemma OntoItsBackupReads(fs: Files, stamp: string, r: Rename, w: Write)
    requires OntoItsBackup(fs, stamp, r, w)
    ensures InBackups(r.target) && r.target != "a.js" && FreeName(fs, "a.js", stamp, 0) == r.target
    ensures RenameMap(fs, [r]) == [r] && AllAccepted(fs, [r]) && SourcesRead(fs, [r])
    ensures ReadAll(Start(fs, 5), ToRead([w], [r])) == Start(fs, 4)
  {
    var s, pairs, writes := Start(fs, 5), [r], [w];
    assert r.target[0] == '.' && "a.js"[0] == 'a';
    assert pairs[..0] == [] && RenameMap(fs, pairs[..0]) == [] && pairs[|pairs| - 1] == r;
    assert r in pairs && Renamed(pairs, "a.js") && Targeted(pairs, w.path);
    assert PlainPaths(writes[1..], pairs) == [] && PlainPaths(writes, pairs) == [];
    var paths := ToRead(writes, pairs);
    assert Sources(pairs) == ["a.js"] && paths == ["a.js"] && paths[..0] == [];
    assert ReadAll(s, paths[..0]) == s;
  }

  lemma OntoItsBackupCopies(fs: Files, stamp: string, r: Rename, w: Write)
    requires OntoItsBackup(fs, stamp, r, w)
    ensures var s2 := CopyAll(Setting(None, {}, stamp), Start(fs, 4), [w], [r]);
            !s2.raised && s2.budget == 1 && s2.fs == fs[r.target := Text("y")]
  {
    OntoItsBackupReads(fs, stamp, r, w);
    var c, s, pairs := Setting(None, {}, stamp), Start(fs, 4), [r];
    assert pairs[..0] == [] && pairs[|pairs| - 1] == r && CopyAll(c, s, [w], pairs[..0]) == s;
    assert GivenText([w], r, "x") == "y";
    var s2 := Copy(c, s, [w], r);
    assert s2.fs == fs[r.target := Text("x")][r.target := Text("y")];
  }

  lemma OntoItsBackupRuns(fs: Files, stamp: string, r: Rename, w: Write)
    requires OntoItsBackup(fs, stamp, r, w)
    ensures var s' := Tried(Setting(None, {}, stamp), Start(fs, 5), [w], [r]);
            !s'.raised && s'.fs == map[r.target := Text("y")]
  {
    OntoItsBackupReads(fs, stamp, r, w);
    OntoItsBackupCopies(fs, stamp, r, w);
    var c, pairs, writes := Setting(None, {}, stamp), [r], [w];
    var s2 := CopyAll(c, Start(fs, 4), writes, pairs);
    assert writes[..0] == [] && writes[|writes| - 1] == w && WriteAll(c, s2, writes[..0], pairs) == s2;
    assert r in pairs && Targeted(pairs, w.path) && WriteAll(c, s2, writes, pairs) == s2;
    assert pairs[..0] == [] && pairs[|pairs| - 1] == r && RemoveAll(s2, pairs[..0]) == s2;
    assert Remove(s2, "a.js").fs == map[r.target := Text("y")];
  }

  lemma OntoItsBackupIsNotSpared(fs: Files, stamp: string, r: Rename, w: Write)
    requires OntoItsBackup(fs, stamp, r, w)
    ensures !SparesBackups(Setting(None, {}, stamp), Start(fs, 5), [w], [r])
  {
    OntoItsBackupReads(fs, stamp, r, w);
    var c, pairs := Setting(None, {}, stamp), [r];
    assert pairs[..0] == [] && ChosenName(c, Start(fs, 4), [w], pairs, 0) == r.target;
    assert pairs[|pairs| - 1] == r && GivenText([w], r, "x") == "y";
    assert GivenSince(fs, [w], pairs, 0, r.target) == Some("y");
    assert !Spared(c, Start(fs, 4), [w], pairs, 0);
  }

  /**
   A rename of `a.js` onto the name its own backup gets, with a new text for it: the plan is applied, the backup is
   overwritten and the source deleted, and the old text is in no file any more.
   */
  lemma TargetOnBackupLosesText(fs: Files, stamp: string, r: Rename, w: Write, now: Files)
    requires OntoItsBackup(fs, stamp, r, w) && Ends(Setting(None, {}, stamp), Start(fs, 5), [w], [r], now)
    ensures OutcomeOf(Setting(None, {}, stamp), Start(fs, 5), [w], [r]) == Applied
    ensures !SparesBackups(Setting(None, {}, stamp), Start(fs, 5), [w], [r])
    ensures now == map[r.target := Text("y")] && !AllHeld(fs, now)
  {
    OntoItsBackupReads(fs, stamp, r, w);
    OntoItsBackupRuns(fs, stamp, r, w);
    OntoItsBackupIsNotSpared(fs, stamp, r, w);
    SameFiles(map[r.target := Text("y")], now);
    assert !Held(fs, now, Text("x"));
    assert At(now, "a.js") != At(fs, "a.js") && !InBackups("a.js");
  }
}
