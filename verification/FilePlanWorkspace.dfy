/** The code that applies a plan to the files of a workspace. */
module FilePlanWorkspace {
  import opened Wrappers
  import opened FilePlan
  import opened FilePlanSafety
  import opened FilePlanRecovery

  class Workspace {
    var fs: Files
    /** Primitives that still succeed; the one after them faults. */
    var budget: nat
    var faulted: bool
    /** What a faulting write has left. */
    var left: Option<Left>
    const setting: Setting

    constructor (fs: Files, budget: nat, setting: Setting)
      ensures this.fs == fs && this.budget == budget && !faulted && left.None? && this.setting == setting
    {
      this.fs, this.budget, this.faulted, this.left, this.setting := fs, budget, false, None, setting;
    }

    /** The state of a running plan, with its recovery table. */
    ghost function Now(raised: bool, o: Originals): State
      reads this
    {
      State(fs, budget, faulted, raised, left, o)
    }

    method Primitive(ghost o: Originals) returns (ok: bool)
      modifies this`budget, this`faulted
      ensures Now(!ok, o) == Spend(old(Now(false, o)))
    {
      ok := budget > 0;
      if ok {
        budget := budget - 1;
      } else {
        faulted := true;
      }
    }

    /** The text of a file; none if the read faults or the bytes are no text. */
    method ReadText(p: Path, ghost o: Originals) returns (text: Option<string>)
      requires p in fs
      modifies this`budget, this`faulted
      ensures Now(text.None?, o) == Read(old(Now(false, o)), p)
      ensures text.Some? ==> fs[p] == Text(text.value)
    {
      var ok := Primitive(o);
      text := if ok && fs[p].Text? then Some(fs[p].text) else None;
    }

    /**
     A write succeeds, or faults and leaves the file as it was or with some first bytes of the text, which are
     text again only if the cut is not inside a character.
     */
    method WriteText(p: Path, text: string, ghost o: Originals) returns (ok: bool)
      modifies this`fs, this`budget, this`faulted, this`left
      ensures Now(!ok, o) == Put(setting, old(Now(false, o)), p, text)
      ensures ok ==> fs == old(fs)[p := Text(text)] && left == old(left)
      ensures !ok ==>
                || (fs == old(fs) && left == old(left))
                || (setting.torn.Some? && fs == old(fs)[p := Cut(text, setting.torn.value)]
                    && left == Some(Left(p, Cut(text, setting.torn.value))))
    {
      ok := Primitive(o);
      if ok {
        fs := fs[p := Text(text)];
      } else if setting.torn.Some? {
        var part := Cut(text, setting.torn.value);
        fs, left := fs[p := part], Some(Left(p, part));
      }
    }

    method Unlink(p: Path, ghost o: Originals) returns (ok: bool)
      modifies this`fs, this`budget, this`faulted
      ensures Now(!ok, o) == Remove(old(Now(false, o)), p)
    {
      ok := Primitive(o);
      if ok {
        fs := fs - {p};
      }
    }

    /** Copies a text to the first free backup name. */
    method Backup(p: Path, text: string, ghost o: Originals) returns (ok: bool, b: Path)
      modifies this`fs, this`budget, this`faulted, this`left
      ensures InBackups(b) && b !in old(fs)
      ensures Now(!ok, o) == Save(setting, old(Now(false, o)), p, text)
      ensures ok ==> fs == old(fs)[b := Text(text)]
    {
      var n := 0;
      while BackupName(p, setting.stamp, n) in fs
        invariant fs == old(fs) && Now(false, o) == old(Now(false, o))
        invariant forall i :: 0 <= i < n ==> BackupName(p, setting.stamp, i) in fs
        invariant FreeName(fs, p, setting.stamp, n) == FreeName(fs, p, setting.stamp, 0)
        invariant n <= |fs.Keys|
        decreases |fs.Keys| - n
      {
        TriedFit(fs, p, setting.stamp, n + 1);
        n := n + 1;
      }
      b := BackupName(p, setting.stamp, n);
      ok := WriteText(b, text, o);
    }

    method CopyOne(writes: seq<Write>, r: Rename, o: Originals) returns (ok: bool, originals: Originals)
      requires r.source in fs
      modifies this`fs, this`budget, this`faulted, this`left
      ensures Now(!ok, originals) == Copy(setting, old(Now(false, o)), writes, r)
    {
      var text := ReadText(r.source, o);
      if text.None? {
        return false, o;
      }
      originals := o[r.source := text][r.target := None];
      var b;
      ok, b := Backup(r.source, text.value, originals);
      if ok {
        var given := TextFor(writes, r.target);
        ok := WriteText(r.target, if given.Some? then given.value else text.value, originals);
      }
    }

    /** The first loop: each rename is copied to its target. */
    method CopyTargets(writes: seq<Write>, renames: seq<Rename>, o: Originals) returns (ok: bool, originals: Originals)
      requires Fresh(Now(false, o)) && RenamesFit(fs, renames) && Decodable(fs, writes, renames)
      modifies this`fs, this`budget, this`faulted, this`left
      ensures Now(!ok, originals) == CopyAll(setting, old(Now(false, o)), writes, renames)
      ensures ok ==> Copied(old(fs), Now(false, originals), writes, renames)
    {
      ghost var start, before := Now(false, o), fs;
      originals := o;
      ok := true;
      for i := 0 to |renames|
        invariant ok && Now(false, originals) == CopyAll(setting, start, writes, renames[..i])
        invariant OldUnchanged(before, Now(false, originals))
      {
        PrefixFits(before, writes, renames, i + 1);
        CopyAllFacts(before, setting, start, writes, renames[..i + 1]);
        assert renames[i] in renames && At(fs, renames[i].source) == At(before, renames[i].source);
        assert renames[..i + 1][..i] == renames[..i] && renames[..i + 1][i] == renames[i];
        ok, originals := CopyOne(writes, renames[i], originals);
        if !ok {
          CopiesStopHere(setting, start, writes, renames, i + 1);
          return;
        }
      }
      assert renames[..|renames|] == renames;
      CopyAllFacts(before, setting, start, writes, renames);
    }

    /** Records a path's old content, unless it is recorded already, and backs it up. */
    method SaveFirst(p: Path, original: string, o: Originals) returns (ok: bool, originals: Originals)
      modifies this`fs, this`budget, this`faulted, this`left
      ensures Now(!ok, originals) == Save(setting, RecordFirst(old(Now(false, o)), p, Some(original)), p, original)
    {
      originals := if p in o then o else o[p := Some(original)];
      var b;
      ok, b := Backup(p, original, originals);
    }

    /** One turn of the second loop: a path that is no rename target gets its new text. */
    method WriteOne(w: Write, renames: seq<Rename>, o: Originals) returns (ok: bool, originals: Originals)
      modifies this`fs, this`budget, this`faulted, this`left
      ensures Now(!ok, originals) == Overwrite(setting, old(Now(false, o)), w, renames)
    {
      ok, originals := true, o;
      if Targeted(renames, w.path) {
        return;
      }
      if w.path in fs {
        var original := ReadText(w.path, o);
        if original.None? {
          return false, o;
        }
        if original.value == w.text {
          return;
        }
        ok, originals := SaveFirst(w.path, original.value, o);
        if !ok {
          return;
        }
      } else if w.path !in o {
        originals := o[w.path := None];
      }
      ok := Primitive(originals);
      if ok {
        ok := WriteText(w.path, w.text, originals);
      }
    }

    /** The second loop. */
    method WritePaths(writes: seq<Write>, renames: seq<Rename>, o: Originals) returns (ok: bool, originals: Originals)
      modifies this`fs, this`budget, this`faulted, this`left
      ensures Now(!ok, originals) == WriteAll(setting, old(Now(false, o)), writes, renames)
    {
      ghost var start := Now(false, o);
      ok, originals := true, o;
      for i := 0 to |writes|
        invariant ok && Now(false, originals) == WriteAll(setting, start, writes[..i], renames)
      {
        assert writes[..i + 1][..i] == writes[..i] && writes[..i + 1][i] == writes[i];
        ok, originals := WriteOne(writes[i], renames, originals);
        if !ok {
          WritesStopHere(setting, start, writes, i + 1, renames);
          return;
        }
      }
      assert writes[..|writes|] == writes;
    }

    /** The third loop: the sources go. */
    method DeleteSources(renames: seq<Rename>, originals: Originals) returns (ok: bool)
      modifies this`fs, this`budget, this`faulted
      ensures Now(!ok, originals) == RemoveAll(old(Now(false, originals)), renames)
    {
      ghost var start := Now(false, originals);
      ok := true;
      for i := 0 to |renames|
        invariant ok && Now(false, originals) == RemoveAll(start, renames[..i])
      {
        assert renames[..i + 1][..i] == renames[..i] && renames[..i + 1][i] == renames[i];
        ok := Unlink(renames[i].source, originals);
        if !ok {
          RemovalsStopHere(start, renames, i + 1);
          return;
        }
      }
      assert renames[..|renames|] == renames;
    }

    /** Reads those of the paths that are files, up to the first that can not be read. */
    method ReadPaths(paths: seq<Path>, ghost o: Originals) returns (readable: bool)
      modifies this`budget, this`faulted
      ensures Now(!readable, o) == ReadAll(old(Now(false, o)), paths)
    {
      ghost var start := Now(false, o);
      for i := 0 to |paths|
        invariant Now(false, o) == ReadAll(start, paths[..i])
      {
        ReadStep(start, paths, i);
        if paths[i] in fs {
          var text := ReadText(paths[i], o);
          if text.None? {
            ReadsStopHere(start, paths, i + 1);
            return false;
          }
        }
      }
      assert paths[..|paths|] == paths;
      return true;
    }

    /** Everything the plan will read is read once before anything changes. */
    method CheckReadable(writes: seq<Write>, renames: seq<Rename>, ghost o: Originals) returns (readable: bool)
      requires Fresh(Now(false, o))
      modifies this`budget, this`faulted
      ensures Now(!readable, o) == ReadAll(old(Now(false, o)), ToRead(writes, renames))
      ensures readable ==> Fresh(Now(false, o)) && Decodable(fs, writes, renames)
      ensures !readable ==> faulted || !Decodable(fs, writes, renames)
    {
      ghost var start := Now(false, o);
      readable := ReadPaths(ToRead(writes, renames), o);
      ReadAllFacts(start, ToRead(writes, renames));
      ReadableIsDecodable(fs, writes, renames);
    }

    /** The try block. */
    method RunPlan(writes: seq<Write>, renames: seq<Rename>, o: Originals) returns (ok: bool, originals: Originals)
      requires Fresh(Now(false, o)) && RenamesFit(fs, renames) && Decodable(fs, writes, renames)
      modifies this`fs, this`budget, this`faulted, this`left
      ensures Now(!ok, originals) == Execute(setting, old(Now(false, o)), writes, renames)
    {
      ok, originals := CopyTargets(writes, renames, o);
      if ok {
        ok, originals := WritePaths(writes, renames, originals);
      }
      if ok {
        ok := DeleteSources(renames, originals);
      }
    }

    /**
     Puts every recorded path back; a path whose recovery fails is left alone, and so is one whose file can not be
     read: comparing it with its old text raises, and the exception is swallowed.
     */
    method Rollback(originals: Originals)
      modifies this`fs
      ensures forall p :: At(fs, p) == BackAt(setting, old(Now(true, originals)), p)
    {
      var todo := originals.Keys;
      ghost var start := Now(true, originals);
      while todo != {}
        invariant todo <= originals.Keys
        invariant forall p :: p in todo || p !in originals ==> At(fs, p) == At(start.fs, p)
        invariant forall p :: p in originals && p !in todo ==> At(fs, p) == BackAt(setting, start, p)
        decreases |todo|
      {
        var p :| p in todo;
        if p !in setting.stuck {
          match originals[p] {
            case None =>
              if p in fs {
                fs := fs - {p};
              }
            case Some(text) =>
              var readable := p !in fs || fs[p].Text?;
              if readable && At(fs, p) != Some(Text(text)) {
                fs := fs[p := Text(text)];
              }
          }
        }
        todo := todo - {p};
      }
    }

    /** Reading, trying and, after an exception, taking back. */
    method Attempt(writes: seq<Write>, pairs: seq<Rename>) returns (outcome: Outcome)
      requires !faulted && left.None?
      modifies this`fs, this`budget, this`faulted, this`left
      ensures outcome == OutcomeOf(setting, old(Start(fs, budget)), writes, pairs)
      ensures Ends(setting, old(Start(fs, budget)), writes, pairs, fs)
      ensures AllAccepted(old(fs), pairs) ==>
                var s := Tried(setting, old(Start(fs, budget)), writes, RenameMap(old(fs), pairs));
                faulted == s.faulted && left == s.left
      ensures outcome == Rejected ==> fs == old(fs)
    {
      ghost var s := Start(fs, budget);
      var renames := RenameMap(fs, pairs);
      if !AllAccepted(fs, pairs) {
        return Rejected;
      }
      var o: Originals := map[];
      assert Now(false, o) == s;
      var readable := CheckReadable(writes, renames, o);
      if !readable {
        RaisedStays(setting, Now(true, o), writes, renames);
        return Rejected;
      }
      var ok, originals := RunPlan(writes, renames, o);
      if ok {
        return Applied;
      }
      Rollback(originals);
      return RolledBack;
    }

    /**
     The whole call.  Whatever faults, outside the backup folder the plan is either applied, all of it, or taken
     back, all but a file that a cut write has left unreadable; and no original is lost as long as the plan stays
     out of the backup folder.
     */
    method ApplyFilePlan(writes: seq<Write>, pairs: seq<Rename>) returns (outcome: Outcome)
      requires DistinctPaths(writes) && !faulted && left.None?
      modifies this`fs, this`budget, this`faulted, this`left
      ensures outcome == OutcomeOf(setting, old(Start(fs, budget)), writes, pairs)
      ensures Ends(setting, old(Start(fs, budget)), writes, pairs, fs)
      ensures outcome == Rejected ==> fs == old(fs)
      ensures outcome == Rejected <== !Plannable(old(fs), writes, pairs)
      ensures outcome == Applied ==>
                forall p :: !InBackups(p) ==> At(fs, p) == Wanted(old(fs), writes, RenameMap(old(fs), pairs), p)
      ensures outcome == RolledBack ==>
                forall p :: !InBackups(p) && p !in setting.stuck ==>
                  (At(fs, p) == At(old(fs), p) <==> p !in old(fs) || !Spoiled(left, p))
      ensures Plannable(old(fs), writes, pairs) && !faulted ==> outcome == Applied
      ensures AvoidsBackups(writes, pairs) ==> OldBackupsKept(old(fs), fs) && AllHeld(old(fs), fs)
    {
      ghost var s := Start(fs, budget);
      outcome := Attempt(writes, pairs);
      Consequences(setting, s, writes, pairs, fs);
    }
  }
}
