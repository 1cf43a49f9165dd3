/** What a running plan keeps, and what a plan that faults puts back. */
module FilePlanSafety {
  import opened Wrappers
  import opened FilePlan

  /** Outside the backup folder only recorded paths have changed, and each record is the path's old content. */
  ghost predicate Recorded(before: Files, s: State) {
    && (forall p :: !InBackups(p) && p !in s.originals ==> At(s.fs, p) == At(before, p))
    && (forall p :: !InBackups(p) && p in s.originals ==> Was(s.originals[p]) == At(before, p))
  }

  /** Undecodable content is old, or what a faulting write has left at a recorded path or a backup. */
  ghost predicate Damage(before: Files, s: State) {
    && (s.left.Some? ==>
          At(s.fs, s.left.value.path) == Some(s.left.value.content)
          && (InBackups(s.left.value.path) || s.left.value.path in s.originals))
    && (forall p :: p in s.fs && s.fs[p].Bytes? ==> At(before, p) == At(s.fs, p) || s.left == Some(Left(p, s.fs[p])))
  }

  /** An exception is a fault, and nothing is cut short without one. */
  predicate Faulty(s: State) {
    s.raised == s.faulted && (s.left.Some? ==> s.raised)
  }

  ghost predicate Sound(before: Files, s: State) {
    Faulty(s) && Recorded(before, s) && Damage(before, s)
  }

  /** No file is gone. */
  predicate Grown(before: Files, s: State) {
    before.Keys <= s.fs.Keys
  }

  /** At most the content of this path differs between the two states. */
  ghost predicate Touched(s: State, s': State, p: Path) {
    && (forall q :: q != p ==> At(s'.fs, q) == At(s.fs, q))
    && (p in s.fs ==> p in s'.fs)
  }

  lemma PutIsSound(before: Files, c: Setting, s: State, p: Path, text: string)
    requires Sound(before, s) && !s.raised && (InBackups(p) || p in s.originals)
    ensures Sound(before, Put(c, s, p, text)) && Touched(s, Put(c, s, p, text), p)
    ensures Put(c, s, p, text).originals == s.originals
  {
  }

  lemma RecordIsSound(before: Files, s: State, p: Path, original: Option<string>)
    requires Sound(before, s) && (!InBackups(p) ==> Was(original) == At(before, p))
    ensures Sound(before, s.(originals := s.originals[p := original]))
  {
  }

  // ---------------------------------------------------------------------------------------------
  // The first loop
  // ---------------------------------------------------------------------------------------------

  /** These renames have been copied: old files are all there, unchanged. */
  ghost predicate Copied(before: Files, s: State, writes: seq<Write>, renames: seq<Rename>) {
    && (forall p :: p in before ==> At(s.fs, p) == At(before, p))
    && (forall p :: !InBackups(p) ==> At(s.fs, p) == CopiedAt(before, writes, renames, p))
  }

  ghost predicate OldUnchanged(before: Files, s: State) {
    forall p :: p in before ==> At(s.fs, p) == At(before, p)
  }

  lemma TargetedAppend(renames: seq<Rename>, r: Rename, p: Path)
    ensures Targeted(renames + [r], p) <==> Targeted(renames, p) || r.target == p
    ensures Renamed(renames + [r], p) <==> Renamed(renames, p) || r.source == p
  {
    assert forall q :: q in renames + [r] <==> q in renames || q == r;
  }

  lemma CopyAdvances(before: Files, s: State, mid: State, s': State, writes: seq<Write>, renames: seq<Rename>,
                     r: Rename, b: Path)
    requires Copied(before, s, writes, renames)
    requires r.source in before && r.target !in before && before[r.source].Text?
    requires InBackups(b) && b !in s.fs && mid.fs == s.fs[b := before[r.source]]
    requires s'.fs == mid.fs[r.target := Text(GivenText(writes, r, before[r.source].text))]
    ensures Copied(before, s', writes, renames + [r])
  {
    forall p | p in before ensures At(s'.fs, p) == At(before, p) {
      assert At(s.fs, p) == At(before, p);
    }
    forall p | !InBackups(p) ensures At(s'.fs, p) == CopiedAt(before, writes, renames + [r], p) {
      TargetedAppend(renames, r, p);
      assert (renames + [r])[..|renames|] == renames;
      assert At(s.fs, p) == CopiedAt(before, writes, renames, p);
    }
  }

  lemma RecordRenameIsSound(before: Files, s: State, r: Rename, text: string)
    requires Sound(before, s) && !s.raised && At(before, r.source) == Some(Text(text)) && r.target !in before
    ensures Sound(before, RecordRename(s, r, text))
  {
    RecordIsSound(before, s, r.source, Some(text));
    RecordIsSound(before, s.(originals := s.originals[r.source := Some(text)]), r.target, None);
  }

  lemma OldStaysUnchanged(before: Files, s: State, s': State, p: Path)
    requires OldUnchanged(before, s) && Touched(s, s', p) && p !in before
    ensures OldUnchanged(before, s')
  {
    forall q | q in before ensures At(s'.fs, q) == At(before, q) {
      assert At(s.fs, q) == At(before, q);
    }
  }

  /** The two writes of one turn of the first loop. */
  lemma CopyWrites(before: Files, c: Setting, s: State, writes: seq<Write>, renames: seq<Rename>, r: Rename)
    requires Sound(before, s) && !s.raised && Copied(before, s, writes, renames) && r.target in s.originals
    requires r.source in before && r.target !in before && before[r.source].Text?
    ensures var text := before[r.source].text;
            var mid := Save(c, s, r.source, text);
            var s' := if mid.raised then mid else Put(c, mid, r.target, GivenText(writes, r, text));
            && Sound(before, s') && OldUnchanged(before, s') && s'.originals == s.originals
            && (!s'.raised ==> Copied(before, s', writes, renames + [r]))
  {
    var text := before[r.source].text;
    var b := FreeName(s.fs, r.source, c.stamp, 0);
    assert b !in before by {
      assert At(s.fs, b) == None;
    }
    var mid := Put(c, s, b, text);
    PutIsSound(before, c, s, b, text);
    OldStaysUnchanged(before, s, mid, b);
    if !mid.raised {
      var s' := Put(c, mid, r.target, GivenText(writes, r, text));
      PutIsSound(before, c, mid, r.target, GivenText(writes, r, text));
      OldStaysUnchanged(before, mid, s', r.target);
      if !s'.raised {
        CopyAdvances(before, s, mid, s', writes, renames, r, b);
      }
    }
  }

  /** One turn of the first loop, whether or not it faults. */
  lemma CopyFacts(before: Files, c: Setting, s: State, writes: seq<Write>, renames: seq<Rename>, r: Rename)
    requires Sound(before, s) && !s.raised && Copied(before, s, writes, renames)
    requires r.source in before && r.target !in before && before[r.source].Text?
    ensures var s' := Copy(c, s, writes, r);
            && Sound(before, s') && OldUnchanged(before, s') && s.originals.Keys <= s'.originals.Keys
            && (!s'.raised ==> Copied(before, s', writes, renames + [r]) && r.source in s'.originals)
  {
    var s1 := Read(s, r.source);
    assert At(s.fs, r.source) == At(before, r.source);
    if !s1.raised {
      RecordRenameIsSound(before, s1, r, before[r.source].text);
      CopyWrites(before, c, RecordRename(s1, r, before[r.source].text), writes, renames, r);
    }
  }

  lemma {:induction false} CopyAllFacts(before: Files, c: Setting, s: State, writes: seq<Write>, renames: seq<Rename>)
    requires Sound(before, s) && !s.raised && s.fs == before && RenamesFit(before, renames)
    requires Decodable(before, writes, renames)
    ensures var s' := CopyAll(c, s, writes, renames);
            && Sound(before, s') && OldUnchanged(before, s')
            && (!s'.raised ==> Copied(before, s', writes, renames) && forall r :: r in renames ==> r.source in s'.originals)
  {
    if renames != [] {
      var init, r := renames[..|renames| - 1], renames[|renames| - 1];
      assert init + [r] == renames && r in renames;
      assert forall q :: q in init ==> q in renames;
      assert forall p :: Renamed(init, p) ==> Renamed(renames, p);
      assert Renamed(renames, r.source);
      InitDecodable(before, writes, init, r);
      CopyAllFacts(before, c, s, writes, init);
      var s1 := CopyAll(c, s, writes, init);
      if !s1.raised {
        CopyFacts(before, c, s1, writes, init, r);
      }
    }
  }

  lemma InitDecodable(before: Files, writes: seq<Write>, init: seq<Rename>, r: Rename)
    requires Decodable(before, writes, init + [r]) && RenamesFit(before, init + [r])
    ensures Decodable(before, writes, init) && RenamesFit(before, init)
  {
    forall p | p in before && (Renamed(init, p) || (Writes(writes, p) && !Targeted(init, p))) ensures before[p].Text? {
      TargetedAppend(init, r, p);
      assert r in init + [r];
    }
    assert forall q :: q in init ==> q in init + [r];
  }

  // ---------------------------------------------------------------------------------------------
  // Backups that last
  // ---------------------------------------------------------------------------------------------

  /** The backup name chosen for a rename. */
  function ChosenName(c: Setting, s: State, writes: seq<Write>, renames: seq<Rename>, i: nat): Path
    requires i < |renames|
  {
    FreeName(CopyAll(c, s, writes, renames[..i]).fs, renames[i].source, c.stamp, 0)
  }

  predicate SourcesRead(fs: Files, renames: seq<Rename>) {
    forall i :: 0 <= i < |renames| ==> renames[i].source in fs && fs[renames[i].source].Text?
  }

  /** The text that the last rename onto `b`, from number `i` on, puts there. */
  function GivenSince(fs: Files, writes: seq<Write>, renames: seq<Rename>, i: nat, b: Path): Option<string>
    requires i <= |renames| && SourcesRead(fs, renames)
  {
    if |renames| == i then None
    else
      var r := renames[|renames| - 1];
      if r.target == b then Some(GivenText(writes, r, fs[r.source].text))
      else GivenSince(fs, writes, renames[..|renames| - 1], i, b)
  }

  /** No rename from this one on puts another text at the name chosen for its backup. */
  predicate Spared(c: Setting, s: State, writes: seq<Write>, renames: seq<Rename>, i: nat)
    requires i < |renames| && SourcesRead(s.fs, renames)
  {
    var given := GivenSince(s.fs, writes, renames, i, ChosenName(c, s, writes, renames, i));
    given.None? || given.value == s.fs[renames[i].source].text
  }

  predicate AllSpared(c: Setting, s: State, writes: seq<Write>, renames: seq<Rename>)
    requires SourcesRead(s.fs, renames)
  {
    forall i :: 0 <= i < |renames| ==> Spared(c, s, writes, renames, i)
  }

  /** What one turn of the first loop leaves at a path of the backup folder. */
  lemma CopiedName(before: Files, c: Setting, s: State, writes: seq<Write>, r: Rename, b: Path)
    requires !Copy(c, s, writes, r).raised && At(s.fs, r.source) == At(before, r.source) && At(before, r.source).Some?
    ensures before[r.source].Text?
    ensures At(Copy(c, s, writes, r).fs, b) ==
            if r.target == b then Some(Text(GivenText(writes, r, before[r.source].text)))
            else if b == FreeName(s.fs, r.source, c.stamp, 0) then Some(before[r.source])
            else At(s.fs, b)
  {
  }

  lemma GivenAppend(fs: Files, writes: seq<Write>, init: seq<Rename>, r: Rename, i: nat, b: Path)
    requires i <= |init| && SourcesRead(fs, init + [r])
    ensures SourcesRead(fs, init) && r.source in fs && fs[r.source].Text?
    ensures GivenSince(fs, writes, init + [r], i, b) ==
            if r.target == b then Some(GivenText(writes, r, fs[r.source].text)) else GivenSince(fs, writes, init, i, b)
  {
    assert (init + [r])[|init|] == r && (init + [r])[..|init|] == init;
    assert forall j :: 0 <= j < |init| ==> init[j] == (init + [r])[j];
  }

  lemma DecodableSources(before: Files, writes: seq<Write>, renames: seq<Rename>)
    requires RenamesFit(before, renames) && Decodable(before, writes, renames)
    ensures SourcesRead(before, renames)
  {
    forall i | 0 <= i < |renames| ensures renames[i].source in before && before[renames[i].source].Text? {
      assert renames[i] in renames && Renamed(renames, renames[i].source);
    }
  }

  /** What a name chosen for the backup of a rename should hold: its text, or that of the last rename onto the name. */
  function NameContent(fs: Files, writes: seq<Write>, renames: seq<Rename>, i: nat, b: Path): Content
    requires i < |renames| && SourcesRead(fs, renames)
  {
    var given := GivenSince(fs, writes, renames, i, b);
    if given.Some? then Text(given.value) else fs[renames[i].source]
  }

  lemma LastCopyOnName(before: Files, c: Setting, s: State, writes: seq<Write>, init: seq<Rename>, r: Rename, i: nat, b: Path)
    requires i <= |init| && SourcesRead(before, init + [r]) && At(s.fs, r.source) == At(before, r.source)
    requires !Copy(c, s, writes, r).raised
    requires if i == |init| then b == FreeName(s.fs, r.source, c.stamp, 0)
             else b in s.fs && SourcesRead(before, init) && s.fs[b] == NameContent(before, writes, init, i, b)
    ensures At(Copy(c, s, writes, r).fs, b) == Some(NameContent(before, writes, init + [r], i, b))
  {
    GivenAppend(before, writes, init, r, i, b);
    CopiedName(before, c, s, writes, r, b);
  }

  lemma BeforeLastCopy(c: Setting, s: State, writes: seq<Write>, init: seq<Rename>, r: Rename)
    requires Sound(s.fs, s) && !s.raised && RenamesFit(s.fs, init + [r]) && Decodable(s.fs, writes, init + [r])
    requires !CopyAll(c, s, writes, init + [r]).raised
    ensures SourcesRead(s.fs, init + [r]) && RenamesFit(s.fs, init) && Decodable(s.fs, writes, init)
    ensures var s1 := CopyAll(c, s, writes, init);
            && !s1.raised && OldUnchanged(s.fs, s1) && At(s1.fs, r.source) == At(s.fs, r.source)
            && CopyAll(c, s, writes, init + [r]) == Copy(c, s1, writes, r)
  {
    DecodableSources(s.fs, writes, init + [r]);
    InitDecodable(s.fs, writes, init, r);
    CopyAllFacts(s.fs, c, s, writes, init);
    assert (init + [r])[..|init|] == init && r in init + [r];
    assert At(CopyAll(c, s, writes, init).fs, r.source) == At(s.fs, r.source);
  }

  lemma NameStart(c: Setting, s: State, writes: seq<Write>, init: seq<Rename>, r: Rename)
    requires Sound(s.fs, s) && !s.raised && RenamesFit(s.fs, init + [r]) && Decodable(s.fs, writes, init + [r])
    requires !CopyAll(c, s, writes, init + [r]).raised
    ensures SourcesRead(s.fs, init + [r])
    ensures var b := FreeName(CopyAll(c, s, writes, init).fs, r.source, c.stamp, 0);
            b !in s.fs && At(CopyAll(c, s, writes, init + [r]).fs, b) == Some(NameContent(s.fs, writes, init + [r], |init|, b))
  {
    BeforeLastCopy(c, s, writes, init, r);
    var s1 := CopyAll(c, s, writes, init);
    var b := FreeName(s1.fs, r.source, c.stamp, 0);
    NewName(s.fs, s1, b);
    LastCopyOnName(s.fs, c, s1, writes, init, r, |init|, b);
  }

  lemma NameStep(c: Setting, s: State, writes: seq<Write>, init: seq<Rename>, r: Rename, i: nat, b: Path)
    requires Sound(s.fs, s) && !s.raised && RenamesFit(s.fs, init + [r]) && Decodable(s.fs, writes, init + [r])
    requires !CopyAll(c, s, writes, init + [r]).raised
    requires i < |init| && SourcesRead(s.fs, init)
    requires At(CopyAll(c, s, writes, init).fs, b) == Some(NameContent(s.fs, writes, init, i, b))
    ensures SourcesRead(s.fs, init + [r])
    ensures At(CopyAll(c, s, writes, init + [r]).fs, b) == Some(NameContent(s.fs, writes, init + [r], i, b))
  {
    BeforeLastCopy(c, s, writes, init, r);
    LastCopyOnName(s.fs, c, CopyAll(c, s, writes, init), writes, init, r, i, b);
  }

  /** The names chosen so far do not depend on a rename that is still to come. */
  lemma ChosenBefore(c: Setting, s: State, writes: seq<Write>, init: seq<Rename>, r: Rename, i: nat)
    requires i <= |init|
    ensures ChosenName(c, s, writes, init + [r], i) ==
            if i < |init| then ChosenName(c, s, writes, init, i) else FreeName(CopyAll(c, s, writes, init).fs, r.source, c.stamp, 0)
  {
    if i < |init| {
      assert (init + [r])[..i] == init[..i];
    } else {
      assert (init + [r])[..i] == init;
    }
  }

  /** What the place chosen for a backup holds after the first loop. */
  lemma {:induction false} ChosenNameHolds(c: Setting, s: State, writes: seq<Write>, renames: seq<Rename>, i: nat)
    requires i < |renames| && Sound(s.fs, s) && !s.raised && RenamesFit(s.fs, renames) && Decodable(s.fs, writes, renames)
    requires !CopyAll(c, s, writes, renames).raised
    ensures SourcesRead(s.fs, renames)
    ensures var b := ChosenName(c, s, writes, renames, i);
            && InBackups(b) && b !in s.fs
            && At(CopyAll(c, s, writes, renames).fs, b) == Some(NameContent(s.fs, writes, renames, i, b))
  {
    var init, r := renames[..|renames| - 1], renames[|renames| - 1];
    assert renames == init + [r];
    ChosenBefore(c, s, writes, init, r, i);
    if i == |init| {
      NameStart(c, s, writes, init, r);
    } else {
      BeforeLastCopy(c, s, writes, init, r);
      ChosenNameHolds(c, s, writes, init, i);
      NameStep(c, s, writes, init, r, i, ChosenName(c, s, writes, init, i));
    }
  }

  lemma NewName(before: Files, s: State, b: Path)
    requires OldUnchanged(before, s) && b !in s.fs
    ensures b !in before
  {
    assert b in before ==> At(s.fs, b) == At(before, b);
  }

  /**
   After the first loop the backup of a renamed file still holds its text if and only if no rename from that one
   on puts another text at the name chosen for the backup.
   */
  lemma BackupLasts(c: Setting, s: State, writes: seq<Write>, renames: seq<Rename>, i: nat)
    requires i < |renames| && Sound(s.fs, s) && !s.raised && RenamesFit(s.fs, renames) && Decodable(s.fs, writes, renames)
    requires !CopyAll(c, s, writes, renames).raised
    ensures SourcesRead(s.fs, renames)
    ensures At(CopyAll(c, s, writes, renames).fs, ChosenName(c, s, writes, renames, i)) == Some(s.fs[renames[i].source])
            <==> Spared(c, s, writes, renames, i)
  {
    ChosenNameHolds(c, s, writes, renames, i);
  }

  /** Some new file in the backup folder holds this content. */
  ghost predicate Held(before: Files, now: Files, c: Content) {
    exists b :: InBackups(b) && b !in before && b in now && now[b] == c
  }

  /** Every path that lost its old content has it in a new backup. */
  ghost predicate AllHeld(before: Files, now: Files) {
    forall p :: !InBackups(p) && p in before && At(now, p) != At(before, p) ==> Held(before, now, before[p])
  }

  ghost predicate SourcesHeld(before: Files, now: Files, renames: seq<Rename>) {
    forall r :: r in renames && r.source in before ==> Held(before, now, before[r.source])
  }

  lemma SparedAreHeld(c: Setting, s: State, writes: seq<Write>, renames: seq<Rename>)
    requires Sound(s.fs, s) && !s.raised && RenamesFit(s.fs, renames) && Decodable(s.fs, writes, renames)
    requires !CopyAll(c, s, writes, renames).raised
    requires SourcesRead(s.fs, renames) && AllSpared(c, s, writes, renames)
    ensures SourcesHeld(s.fs, CopyAll(c, s, writes, renames).fs, renames)
  {
    forall r | r in renames ensures Held(s.fs, CopyAll(c, s, writes, renames).fs, s.fs[r.source]) {
      var i :| 0 <= i < |renames| && renames[i] == r;
      assert Spared(c, s, writes, renames, i);
      ChosenNameHolds(c, s, writes, renames, i);
    }
  }

  // ---------------------------------------------------------------------------------------------
  // The second loop
  // ---------------------------------------------------------------------------------------------

  /** What no write of the second loop breaks; what is held is claimed when `held` says so. */
  ghost predicate Going(before: Files, s: State, renames: seq<Rename>, held: bool) {
    && Sound(before, s) && Grown(before, s)
    && (held ==> AllHeld(before, s.fs) && SourcesHeld(before, s.fs, renames))
  }

  /** A new backup about to change has a second one of its kind. */
  ghost predicate Doubled(before: Files, now: Files, q: Path) {
    InBackups(q) && q !in before && q in now ==>
      exists b :: b != q && InBackups(b) && b !in before && b in now && now[b] == now[q]
  }

  lemma HeldMoves(before: Files, s: State, s': State, q: Path, c: Content)
    requires Held(before, s.fs, c) && Touched(s, s', q) && Doubled(before, s.fs, q)
    ensures Held(before, s'.fs, c)
  {
    var b :| InBackups(b) && b !in before && b in s.fs && s.fs[b] == c;
    if b == q {
      var d :| d != q && InBackups(d) && d !in before && d in s.fs && s.fs[d] == s.fs[q];
      assert At(s'.fs, d) == At(s.fs, d);
    } else {
      assert At(s'.fs, b) == At(s.fs, b);
    }
  }

  lemma HoldingGoesOn(before: Files, s: State, s': State, q: Path, renames: seq<Rename>)
    requires AllHeld(before, s.fs) && SourcesHeld(before, s.fs, renames)
    requires Touched(s, s', q) && Doubled(before, s.fs, q)
    requires !InBackups(q) && q in before ==> Held(before, s.fs, before[q])
    ensures AllHeld(before, s'.fs) && SourcesHeld(before, s'.fs, renames)
  {
    forall p | !InBackups(p) && p in before && At(s'.fs, p) != At(before, p) ensures Held(before, s'.fs, before[p]) {
      if p != q {
        assert At(s'.fs, p) == At(s.fs, p);
      }
      HeldMoves(before, s, s', q, before[p]);
    }
    forall r | r in renames && r.source in before ensures Held(before, s'.fs, before[r.source]) {
      HeldMoves(before, s, s', q, before[r.source]);
    }
  }

  lemma PutGoesOn(before: Files, c: Setting, s: State, p: Path, text: string, renames: seq<Rename>, held: bool)
    requires Going(before, s, renames, held) && !s.raised && (InBackups(p) || p in s.originals)
    requires held ==> Doubled(before, s.fs, p) && (!InBackups(p) && p in before ==> Held(before, s.fs, before[p]))
    ensures Going(before, Put(c, s, p, text), renames, held)
  {
    PutIsSound(before, c, s, p, text);
    if held {
      HoldingGoesOn(before, s, Put(c, s, p, text), p, renames);
    }
  }

  /** A path whose old content is put away can be written. */
  lemma PutPreparedGoesOn(before: Files, c: Setting, s: State, w: Write, renames: seq<Rename>, held: bool)
    requires Going(before, s, renames, held) && (InBackups(w.path) || w.path in s.originals)
    requires held && !s.raised ==>
               Doubled(before, s.fs, w.path) && (!InBackups(w.path) && w.path in before ==> Held(before, s.fs, before[w.path]))
    ensures Going(before, PutPrepared(c, s, w), renames, held)
  {
    if !s.raised && !Spend(s).raised {
      PutGoesOn(before, c, Spend(s), w.path, w.text, renames, held);
    }
  }

  lemma SaveGoesOn(before: Files, c: Setting, s: State, p: Path, text: string, renames: seq<Rename>, held: bool)
    requires Going(before, s, renames, held) && !s.raised && At(s.fs, p) == Some(Text(text))
    ensures var s' := Save(c, s, p, text);
            && Going(before, s', renames, held) && s'.originals == s.originals
            && (!s'.raised ==> Held(before, s'.fs, Text(text)) && Doubled(before, s'.fs, p)
                               && forall q :: !InBackups(q) || q in s.fs ==> At(s'.fs, q) == At(s.fs, q))
  {
    var b := FreeName(s.fs, p, c.stamp, 0);
    PutGoesOn(before, c, s, b, text, renames, held);
    PutIsSound(before, c, s, b, text);
    var s' := Save(c, s, p, text);
    if !s'.raised {
      assert b != p && b !in before && At(s'.fs, p) == At(s.fs, p);
    }
  }

  /** The first `i` writes are done. */
  ghost predicate Written(before: Files, s: State, writes: seq<Write>, i: nat, renames: seq<Rename>)
    requires i <= |writes|
  {
    forall p :: !InBackups(p) ==> At(s.fs, p) == WrittenAt(before, writes, i, renames, p)
  }

  lemma {:induction false} TextForPrefix(writes: seq<Write>, i: nat, p: Path)
    requires i < |writes|
    ensures TextFor(writes[..i + 1], p) ==
            if TextFor(writes[..i], p).Some? then TextFor(writes[..i], p)
            else if writes[i].path == p then Some(writes[i].text) else None
  {
    if i > 0 {
      assert writes[..i + 1][1..] == writes[1..][..i] && writes[..i][1..] == writes[1..][..i - 1];
      TextForPrefix(writes[1..], i - 1, p);
    }
  }

  lemma {:induction false} TextForAbsent(writes: seq<Write>, p: Path)
    requires forall w :: w in writes ==> w.path != p
    ensures TextFor(writes, p).None?
  {
    if writes != [] {
      TextForAbsent(writes[1..], p);
    }
  }

  lemma NotYetWritten(writes: seq<Write>, i: nat)
    requires i < |writes| && DistinctPaths(writes)
    ensures TextFor(writes[..i], writes[i].path).None?
  {
    assert forall w :: w in writes[..i] ==> exists j :: 0 <= j < i && w == writes[j];
    TextForAbsent(writes[..i], writes[i].path);
  }

  /** A path about to be written for the first time still has its old content, and it is text. */
  lemma StillOld(before: Files, s: State, writes: seq<Write>, i: nat, renames: seq<Rename>)
    requires i < |writes| && DistinctPaths(writes) && Decodable(before, writes, renames)
    requires Sound(before, s) && !s.raised && Written(before, s, writes, i, renames) && !Targeted(renames, writes[i].path)
    ensures !InBackups(writes[i].path) ==> At(s.fs, writes[i].path) == At(before, writes[i].path)
    ensures writes[i].path in s.fs ==> s.fs[writes[i].path].Text?
  {
    assert writes[i] in writes && Writes(writes, writes[i].path);
    NotYetWritten(writes, i);
  }

  lemma PreparedAt(c: Setting, s: State, w: Write, p: Path)
    requires !PutPrepared(c, s, w).raised
    ensures At(PutPrepared(c, s, w).fs, p) == if p == w.path then Some(Text(w.text)) else At(s.fs, p)
  {
  }

  lemma SavedAt(c: Setting, s: State, p: Path, text: string, q: Path)
    requires !Save(c, s, p, text).raised && !InBackups(q)
    ensures At(Save(c, s, p, text).fs, q) == At(s.fs, q)
  {
  }

  /** What one turn of the second loop leaves outside the backup folder. */
  lemma OverwrittenAt(c: Setting, s: State, w: Write, renames: seq<Rename>, p: Path)
    requires !s.raised && !Overwrite(c, s, w, renames).raised && !InBackups(p)
    ensures At(Overwrite(c, s, w, renames).fs, p) ==
            if p == w.path && !Targeted(renames, p) then Some(Text(w.text)) else At(s.fs, p)
  {
    if !Targeted(renames, w.path) {
      if w.path !in s.fs {
        PreparedAt(c, RecordFirst(s, w.path, None), w, p);
      } else if s.fs[w.path].text != w.text {
        var text := s.fs[w.path].text;
        var s2 := RecordFirst(Read(s, w.path), w.path, Some(text));
        PreparedAt(c, Save(c, s2, w.path, text), w, p);
        SavedAt(c, s2, w.path, text, p);
      }
    }
  }

  lemma WriteAdvances(before: Files, c: Setting, s: State, writes: seq<Write>, i: nat, renames: seq<Rename>)
    requires i < |writes| && DistinctPaths(writes) && Written(before, s, writes, i, renames) && !s.raised
    requires !Overwrite(c, s, writes[i], renames).raised
    ensures Written(before, Overwrite(c, s, writes[i], renames), writes, i + 1, renames)
  {
    NotYetWritten(writes, i);
    forall p | !InBackups(p)
      ensures At(Overwrite(c, s, writes[i], renames).fs, p) == WrittenAt(before, writes, i + 1, renames, p)
    {
      OverwrittenAt(c, s, writes[i], renames, p);
      TextForPrefix(writes, i, p);
      assert At(s.fs, p) == WrittenAt(before, writes, i, renames, p);
    }
  }

  lemma RecordFirstGoesOn(before: Files, s: State, p: Path, original: Option<string>, renames: seq<Rename>, held: bool)
    requires Going(before, s, renames, held) && !s.raised && (!InBackups(p) ==> Was(original) == At(before, p))
    ensures Going(before, RecordFirst(s, p, original), renames, held)
  {
    RecordIsSound(before, s, p, original);
  }

  lemma SaveThenPut(before: Files, c: Setting, s: State, w: Write, text: string, renames: seq<Rename>, held: bool)
    requires Going(before, s, renames, held) && !s.raised && At(s.fs, w.path) == Some(Text(text)) && w.path in s.originals
    requires !InBackups(w.path) ==> At(s.fs, w.path) == At(before, w.path)
    ensures var s' := PutPrepared(c, Save(c, s, w.path, text), w);
            Going(before, s', renames, held) && s.originals == s'.originals
  {
    SaveGoesOn(before, c, s, w.path, text, renames, held);
    PutPreparedGoesOn(before, c, Save(c, s, w.path, text), w, renames, held);
  }

  lemma ReplaceGoesOn(before: Files, c: Setting, s: State, w: Write, text: string, renames: seq<Rename>, held: bool)
    requires Going(before, s, renames, held) && !s.raised && At(s.fs, w.path) == Some(Text(text))
    requires !InBackups(w.path) ==> At(s.fs, w.path) == At(before, w.path)
    ensures var s' := PutPrepared(c, Save(c, RecordFirst(s, w.path, Some(text)), w.path, text), w);
            Going(before, s', renames, held) && s.originals.Keys <= s'.originals.Keys
  {
    RecordFirstGoesOn(before, s, w.path, Some(text), renames, held);
    SaveThenPut(before, c, RecordFirst(s, w.path, Some(text)), w, text, renames, held);
  }

  lemma OverwriteOld(before: Files, c: Setting, s: State, w: Write, renames: seq<Rename>, held: bool)
    requires Going(before, s, renames, held) && !s.raised && w.path in s.fs && s.fs[w.path].Text? && !Targeted(renames, w.path)
    requires !InBackups(w.path) ==> At(s.fs, w.path) == At(before, w.path)
    ensures Going(before, Overwrite(c, s, w, renames), renames, held)
    ensures s.originals.Keys <= Overwrite(c, s, w, renames).originals.Keys
  {
    var s1 := Read(s, w.path);
    assert Going(before, s1, renames, held);
    if !s1.raised && s.fs[w.path].text != w.text {
      ReplaceGoesOn(before, c, s1, w, s.fs[w.path].text, renames, held);
    }
  }

  lemma OverwriteNew(before: Files, c: Setting, s: State, w: Write, renames: seq<Rename>, held: bool)
    requires Going(before, s, renames, held) && !s.raised && w.path !in s.fs && !Targeted(renames, w.path)
    ensures Going(before, Overwrite(c, s, w, renames), renames, held)
    ensures s.originals.Keys <= Overwrite(c, s, w, renames).originals.Keys
  {
    RecordFirstGoesOn(before, s, w.path, None, renames, held);
    PutPreparedGoesOn(before, c, RecordFirst(s, w.path, None), w, renames, held);
  }

  lemma {:induction false} WriteAllFacts(before: Files, c: Setting, s: State, writes: seq<Write>, i: nat,
                                         renames: seq<Rename>, held: bool)
    requires i <= |writes| && DistinctPaths(writes) && Decodable(before, writes, renames)
    requires Going(before, s, renames, held) && !s.raised && Written(before, s, writes, 0, renames)
    ensures var s' := WriteAll(c, s, writes[..i], renames);
            && Going(before, s', renames, held) && s.originals.Keys <= s'.originals.Keys
            && (!s'.raised ==> Written(before, s', writes, i, renames))
  {
    if i > 0 {
      assert writes[..i][..i - 1] == writes[..i - 1] && writes[..i][i - 1] == writes[i - 1];
      WriteAllFacts(before, c, s, writes, i - 1, renames, held);
      var s1, w := WriteAll(c, s, writes[..i - 1], renames), writes[i - 1];
      if !s1.raised {
        if !Targeted(renames, w.path) {
          StillOld(before, s1, writes, i - 1, renames);
          if w.path in s1.fs {
            OverwriteOld(before, c, s1, w, renames, held);
          } else {
            OverwriteNew(before, c, s1, w, renames, held);
          }
        }
        if !Overwrite(c, s1, w, renames).raised {
          WriteAdvances(before, c, s1, writes, i - 1, renames);
        }
      }
    }
  }

  // ---------------------------------------------------------------------------------------------
  // The third loop
  // ---------------------------------------------------------------------------------------------

  /** Everything is written and the sources of these renames are gone. */
  ghost predicate Emptied(before: Files, s: State, writes: seq<Write>, renames: seq<Rename>, gone: seq<Rename>) {
    forall p :: !InBackups(p) ==>
      At(s.fs, p) == if Renamed(gone, p) then None else WrittenAt(before, writes, |writes|, renames, p)
  }

  lemma RemoveFacts(before: Files, s: State, r: Rename, renames: seq<Rename>, held: bool)
    requires Sound(before, s) && !s.raised && r in renames && r.source in s.originals && r.source in before
    requires held ==> AllHeld(before, s.fs) && SourcesHeld(before, s.fs, renames)
    ensures Sound(before, Remove(s, r.source))
    ensures held ==> AllHeld(before, Remove(s, r.source).fs) && SourcesHeld(before, Remove(s, r.source).fs, renames)
  {
    var s' := Remove(s, r.source);
    if held && !s'.raised {
      assert forall q :: q != r.source ==> At(s'.fs, q) == At(s.fs, q);
      forall c | Held(before, s.fs, c) ensures Held(before, s'.fs, c) {
        var b :| InBackups(b) && b !in before && b in s.fs && s.fs[b] == c;
        assert At(s'.fs, b) == At(s.fs, b);
      }
      forall p | !InBackups(p) && p in before && At(s'.fs, p) != At(before, p) ensures Held(before, s'.fs, before[p]) {
        if p != r.source {
          assert At(s'.fs, p) == At(s.fs, p);
        }
      }
    }
  }

  lemma RemoveAdvances(before: Files, s: State, writes: seq<Write>, renames: seq<Rename>, gone: seq<Rename>, r: Rename)
    requires Emptied(before, s, writes, renames, gone) && !Remove(s, r.source).raised
    ensures Emptied(before, Remove(s, r.source), writes, renames, gone + [r])
  {
    var s' := Remove(s, r.source);
    forall p | !InBackups(p)
      ensures At(s'.fs, p) == if Renamed(gone + [r], p) then None else WrittenAt(before, writes, |writes|, renames, p)
    {
      TargetedAppend(gone, r, p);
      assert p != r.source ==> At(s'.fs, p) == At(s.fs, p);
    }
  }

  lemma {:induction false} RemoveAllFacts(before: Files, s: State, writes: seq<Write>, renames: seq<Rename>,
                                          i: nat, held: bool)
    requires i <= |renames| && Sound(before, s) && !s.raised
    requires forall r :: r in renames ==> r.source in s.originals && r.source in before
    requires Emptied(before, s, writes, renames, [])
    requires held ==> AllHeld(before, s.fs) && SourcesHeld(before, s.fs, renames)
    ensures var s' := RemoveAll(s, renames[..i]);
            && Sound(before, s') && s'.originals == s.originals
            && (held ==> AllHeld(before, s'.fs) && SourcesHeld(before, s'.fs, renames))
            && (!s'.raised ==> Emptied(before, s', writes, renames, renames[..i]))
  {
    if i > 0 {
      assert renames[..i] == renames[..i - 1] + [renames[i - 1]];
      RemoveAllFacts(before, s, writes, renames, i - 1, held);
      var s1 := RemoveAll(s, renames[..i - 1]);
      if !s1.raised {
        RemoveFacts(before, s1, renames[i - 1], renames, held);
        if !Remove(s1, renames[i - 1].source).raised {
          RemoveAdvances(before, s1, writes, renames, renames[..i - 1], renames[i - 1]);
        }
      }
    }
  }
}
