/**
 Applying a plan of writes and renames to a workspace: all of it or none of it.

 Renames copy to the new path first and delete the old one at the end; every original is copied to a fresh
 file under `.recoder/backups` before its path changes.  Any primitive can fault, and a write can fault
 half-way, even inside a character; the code then puts the touched paths back.

 This module holds the plan, its meaning, and each step of the code as a function of the running state.
 `FilePlanSafety` proves what the steps keep, `FilePlanWorkspace` holds the code that performs them.
 */
module FilePlan {
  import opened Wrappers
  import Decimal

  type Path = string

  /** A file holds decodable text or bytes that are not UTF-8. */
  datatype Content = Text(text: string) | Bytes(id: nat)

  type Files = map<Path, Content>

  /** Recovery table: the text a path held, or nothing. */
  type Originals = map<Path, Option<string>>

  datatype Rename = Rename(source: Path, target: Path)

  datatype Write = Write(path: Path, text: string)

  datatype Outcome = Applied | Rejected | RolledBack

  /** What a faulting write left behind, and where. */
  datatype Left = Left(path: Path, content: Content)

  /**
   How faults go: how many bytes a faulting write still stores, the paths whose recovery fails, the time in
   the names of backups.
   */
  datatype Setting = Setting(torn: Option<nat>, stuck: set<Path>, stamp: string)

  /**
   A running plan: the files, the primitives that still succeed, whether one has faulted, whether an exception
   is on its way, what a faulting write left, and the recovery table.
   */
  datatype State = State(fs: Files, budget: nat, faulted: bool, raised: bool, left: Option<Left>,
                         originals: Originals)

  const BACKUPS := ".recoder/backups/"

  predicate InBackups(p: Path) {
    BACKUPS <= p
  }

  function At(fs: Files, p: Path): Option<Content> {
    if p in fs then Some(fs[p]) else None
  }

  /** What the recovery table says a path held: its text, or nothing. */
  function Was(original: Option<string>): Option<Content> {
    match original
    case Some(text) => Some(Text(text))
    case None => None
  }

  // ---------------------------------------------------------------------------------------------
  // Bytes of a text
  // ---------------------------------------------------------------------------------------------

  /** Bytes of a character in UTF-8 (section 3 of RFC 3629). */
  function Width(c: char): nat {
    if c as int < 0x80 then 1 else if c as int < 0x800 then 2 else if c as int < 0x1_0000 then 3 else 4
  }

  predicate Ascii(text: string) {
    forall i :: 0 <= i < |text| ==> Width(text[i]) == 1
  }

  /** What reads back when only the first `k` bytes of a text were stored. */
  function Cut(text: string, k: nat): Content {
    if text == [] || k == 0 then Text("")
    else if k < Width(text[0]) then Bytes(k)
    else
      match Cut(text[1..], k - Width(text[0]))
      case Text(rest) => Text([text[0]] + rest)
      case Bytes(id) => Bytes(id)
  }

  lemma {:induction false} AsciiCutsRead(text: string, k: nat)
    requires Ascii(text)
    ensures Cut(text, k).Text?
  {
    if text != [] && k > 0 {
      assert Ascii(text[1..]);
      AsciiCutsRead(text[1..], k - Width(text[0]));
    }
  }

  lemma {:induction false} CutInside(text: string) returns (k: nat)
    requires !Ascii(text)
    ensures Cut(text, k).Bytes?
  {
    if Width(text[0]) > 1 {
      k := 1;
    } else {
      assert !Ascii(text[1..]) by {
        var i :| 0 <= i < |text| && Width(text[i]) != 1;
        assert text[1..][i - 1] == text[i];
      }
      k := CutInside(text[1..]);
      k := k + 1;
    }
  }

  /** A text is readable after every cut if and only if all its characters are single bytes. */
  lemma ReadableAfterEveryCut(text: string)
    ensures (forall k: nat :: Cut(text, k).Text?) <==> Ascii(text)
  {
    if Ascii(text) {
      forall k: nat ensures Cut(text, k).Text? {
        AsciiCutsRead(text, k);
      }
    } else {
      var k := CutInside(text);
      assert !Cut(text, k).Text?;
    }
  }

  // ---------------------------------------------------------------------------------------------
  // Backup names
  // ---------------------------------------------------------------------------------------------

  function Flat(p: Path): string {
    seq(|p|, i requires 0 <= i < |p| => if p[i] == '/' then '_' else p[i])
  }

  function BackupName(p: Path, stamp: string, n: nat): Path {
    BACKUPS + Flat(p) + "." + stamp + (if n == 0 then "" else "-" + Decimal.Format(n))
  }

  lemma BackupNamesDiffer(p: Path, stamp: string, m: nat, n: nat)
    requires m != n
    ensures BackupName(p, stamp, m) != BackupName(p, stamp, n)
  {
    var stem := BACKUPS + Flat(p) + "." + stamp;
    if BackupName(p, stamp, m) == BackupName(p, stamp, n) {
      assert BackupName(p, stamp, m)[|stem|..] == if m == 0 then "" else "-" + Decimal.Format(m);
      assert BackupName(p, stamp, n)[|stem|..] == if n == 0 then "" else "-" + Decimal.Format(n);
      if m > 0 && n > 0 {
        assert ("-" + Decimal.Format(m))[1..] == ("-" + Decimal.Format(n))[1..];
        Decimal.FormatInjective(m, n);
      }
    }
  }

  /** The name holds the path, with other separators, and the time. */
  predicate TellsPath(name: string, p: Path, stamp: string) {
    && |p| + 1 + |stamp| <= |name| && name[|p|] == '.' && name[|p| + 1..|p| + 1 + |stamp|] == stamp
    && forall i :: 0 <= i < |p| && p[i] != '/' ==> name[i] == p[i]
  }

  lemma NameTells(p: Path, stamp: string, tail: string, name: string)
    requires name == Flat(p) + "." + stamp + tail
    ensures TellsPath(name, p, stamp)
  {
    assert name[..|p|] == Flat(p);
    assert name[|p| + 1..|p| + 1 + |stamp|] == stamp;
  }

  lemma NoSeparator(p: Path, stamp: string, n: nat)
    requires '/' !in stamp
    ensures '/' !in Flat(p) + "." + stamp + (if n == 0 then "" else "-" + Decimal.Format(n))
  {
    assert '/' !in Flat(p);
    assert n > 0 ==> '/' !in Decimal.Format(n);
  }

  /** A backup is a file of the backup folder itself, and its name tells the path and the time. */
  lemma BackupIsInFolder(p: Path, stamp: string, n: nat) returns (name: string)
    requires '/' !in stamp
    ensures BackupName(p, stamp, n) == ".recoder/backups/" + name && '/' !in name && TellsPath(name, p, stamp)
  {
    var tail := if n == 0 then "" else "-" + Decimal.Format(n);
    name := Flat(p) + "." + stamp + tail;
    NoSeparator(p, stamp, n);
    NameTells(p, stamp, tail, name);
    Rejoined(BACKUPS, Flat(p), stamp, tail);
  }

  lemma Rejoined(a: string, b: string, c: string, d: string)
    ensures a + b + "." + c + d == a + (b + "." + c + d)
  {
  }

  /** Distinct members of a set are no more than its size. */
  lemma {:induction false} DistinctFit<T>(xs: seq<T>, s: set<T>)
    requires forall i :: 0 <= i < |xs| ==> xs[i] in s
    requires forall i, j :: 0 <= i < j < |xs| ==> xs[i] != xs[j]
    ensures |xs| <= |s|
  {
    if xs != [] {
      DistinctFit(xs[1..], s - {xs[0]});
    }
  }

  // ---------------------------------------------------------------------------------------------
  // What the plan asks for
  // ---------------------------------------------------------------------------------------------

  predicate DistinctPaths(writes: seq<Write>) {
    forall i, j :: 0 <= i < j < |writes| ==> writes[i].path != writes[j].path
  }

  predicate Writes(writes: seq<Write>, p: Path) {
    exists w :: w in writes && w.path == p
  }

  function TextFor(writes: seq<Write>, p: Path): Option<string> {
    if writes == [] then None
    else if writes[0].path == p then Some(writes[0].text)
    else TextFor(writes[1..], p)
  }

  predicate Renamed(renames: seq<Rename>, p: Path) {
    exists r :: r in renames && r.source == p
  }

  predicate Targeted(renames: seq<Rename>, p: Path) {
    exists r :: r in renames && r.target == p
  }

  /** Text carried to a target: that of the last rename onto it. */
  function Carried(fs: Files, renames: seq<Rename>, p: Path): Option<Content> {
    if renames == [] then None
    else
      var r := renames[|renames| - 1];
      if r.target == p then At(fs, r.source) else Carried(fs, renames[..|renames| - 1], p)
  }

  /** Path contents once the first renames have been copied. */
  function CopiedAt(fs: Files, writes: seq<Write>, renames: seq<Rename>, p: Path): Option<Content> {
    if !Targeted(renames, p) then At(fs, p)
    else if TextFor(writes, p).Some? then Some(Text(TextFor(writes, p).value))
    else Carried(fs, renames, p)
  }

  /** Path contents once all renames have been copied and the first `i` writes made. */
  function WrittenAt(fs: Files, writes: seq<Write>, i: nat, renames: seq<Rename>, p: Path): Option<Content>
    requires i <= |writes|
  {
    if !Targeted(renames, p) && TextFor(writes[..i], p).Some? then Some(Text(TextFor(writes[..i], p).value))
    else CopiedAt(fs, writes, renames, p)
  }

  /** The plan's meaning: sources go, written paths hold their new text, targets hold what they were given. */
  function Wanted(fs: Files, writes: seq<Write>, renames: seq<Rename>, p: Path): Option<Content> {
    if Renamed(renames, p) then None
    else if TextFor(writes, p).Some? then Some(Text(TextFor(writes, p).value))
    else if Targeted(renames, p) then Carried(fs, renames, p)
    else At(fs, p)
  }

  predicate DistinctSources(renames: seq<Rename>) {
    forall i, j :: 0 <= i < j < |renames| ==> renames[i].source != renames[j].source
  }

  /** The dictionary built from the rename list: fitting pairs only, a repeated source keeps its place and its last target. */
  function RenameMap(fs: Files, renames: seq<Rename>): (m: seq<Rename>)
    ensures DistinctSources(m) && RenamesFit(fs, m)
  {
    if renames == [] then []
    else
      var m := RenameMap(fs, renames[..|renames| - 1]);
      var r := renames[|renames| - 1];
      if r.source !in fs || r.target in fs then m
      else if Renamed(m, r.source) then Retarget(m, r)
      else m + [r]
  }

  function Retarget(m: seq<Rename>, r: Rename): (m': seq<Rename>)
    ensures |m'| == |m| && forall i :: 0 <= i < |m| ==> m'[i] == if m[i].source == r.source then r else m[i]
  {
    seq(|m|, i requires 0 <= i < |m| => if m[i].source == r.source then r else m[i])
  }

  /** The pair can be carried out by itself. */
  predicate Fits(fs: Files, r: Rename) {
    r.source in fs && r.target !in fs
  }

  /** A pair of the list holds if it fits and no later one with its source does. */
  predicate LastFitting(fs: Files, pairs: seq<Rename>, i: nat)
    requires i < |pairs|
  {
    Fits(fs, pairs[i]) && forall j :: i < j < |pairs| && pairs[j].source == pairs[i].source ==> !Fits(fs, pairs[j])
  }

  lemma RetargetHolds(m: seq<Rename>, r: Rename, x: Rename)
    requires Renamed(m, r.source)
    ensures x in Retarget(m, r) <==> x == r || (x in m && x.source != r.source)
  {
    var m' := Retarget(m, r);
    if x in m' {
      var i :| 0 <= i < |m| && m'[i] == x;
    }
    if x == r {
      var q :| q in m && q.source == r.source;
      var i :| 0 <= i < |m| && m[i] == q;
      assert m'[i] == r;
    }
    if x in m && x.source != r.source {
      var i :| 0 <= i < |m| && m[i] == x;
      assert m'[i] == x;
    }
  }

  lemma LastFittingSnoc(fs: Files, front: seq<Rename>, r: Rename, i: nat)
    requires i < |front|
    ensures LastFitting(fs, front + [r], i) <==> LastFitting(fs, front, i) && !(r.source == front[i].source && Fits(fs, r))
  {
    var all := front + [r];
    assert all[|front|] == r;
    assert forall j :: 0 <= j < |front| ==> all[j] == front[j];
  }

  /** The pairs that are carried out are, for each source, the last one of the list that fits. */
  lemma {:induction false} MapExactly(fs: Files, pairs: seq<Rename>, x: Rename)
    ensures x in RenameMap(fs, pairs) <==> exists i :: 0 <= i < |pairs| && pairs[i] == x && LastFitting(fs, pairs, i)
  {
    if pairs != [] {
      var front, r := pairs[..|pairs| - 1], pairs[|pairs| - 1];
      assert pairs == front + [r];
      var m := RenameMap(fs, front);
      MapExactly(fs, front, x);
      forall i | 0 <= i < |front|
        ensures pairs[i] == front[i]
        ensures LastFitting(fs, pairs, i) <==> LastFitting(fs, front, i) && !(r.source == front[i].source && Fits(fs, r))
      {
        LastFittingSnoc(fs, front, r, i);
      }
      assert LastFitting(fs, pairs, |front|) <==> Fits(fs, r);
      assert pairs[|front|] == r;
      if Fits(fs, r) && Renamed(m, r.source) {
        RetargetHolds(m, r, x);
      }
      if Fits(fs, r) && !Renamed(m, r.source) {
        assert x in m ==> x.source != r.source;
      }
    }
  }

  /** A list is accepted exactly if for each source that it names some pair fits. */
  lemma AcceptedExactly(fs: Files, pairs: seq<Rename>)
    ensures AllAccepted(fs, pairs) <==> forall r :: r in pairs ==> exists q :: q in pairs && q.source == r.source && Fits(fs, q)
  {
    forall r | r in pairs
      ensures Renamed(RenameMap(fs, pairs), r.source) <==> exists q :: q in pairs && q.source == r.source && Fits(fs, q)
    {
      if Renamed(RenameMap(fs, pairs), r.source) {
        var q :| q in RenameMap(fs, pairs) && q.source == r.source;
        MapExactly(fs, pairs, q);
      }
      if q :| q in pairs && q.source == r.source && Fits(fs, q) {
        var k :| 0 <= k < |pairs| && pairs[k] == q;
        var i := LastOf(fs, pairs, k);
        MapExactly(fs, pairs, pairs[i]);
      }
    }
  }

  lemma {:induction false} LastOf(fs: Files, pairs: seq<Rename>, k: nat) returns (i: nat)
    requires k < |pairs| && Fits(fs, pairs[k])
    ensures i < |pairs| && pairs[i].source == pairs[k].source && LastFitting(fs, pairs, i)
    decreases |pairs| - k
  {
    if LastFitting(fs, pairs, k) {
      i := k;
    } else {
      var j :| k < j < |pairs| && pairs[j].source == pairs[k].source && Fits(fs, pairs[j]);
      i := LastOf(fs, pairs, j);
    }
  }

  /** Sources are files, targets are free. */
  predicate RenamesFit(fs: Files, renames: seq<Rename>) {
    forall r :: r in renames ==> r.source in fs && r.target !in fs
  }

  /** Everything the plan would read is text. */
  predicate Decodable(fs: Files, writes: seq<Write>, renames: seq<Rename>) {
    forall p :: p in fs && (Renamed(renames, p) || (Writes(writes, p) && !Targeted(renames, p))) ==> fs[p].Text?
  }

  /** The plan itself stays out of the backup folder. */
  predicate AvoidsBackups(writes: seq<Write>, renames: seq<Rename>) {
    && (forall w :: w in writes ==> !InBackups(w.path))
    && (forall r :: r in renames ==> !InBackups(r.source) && !InBackups(r.target))
  }

  /** No pair is refused. */
  predicate AllAccepted(fs: Files, pairs: seq<Rename>) {
    forall r :: r in pairs ==> Renamed(RenameMap(fs, pairs), r.source)
  }

  /** No pair is refused, and everything to be read is text. */
  predicate Plannable(fs: Files, writes: seq<Write>, pairs: seq<Rename>) {
    && AllAccepted(fs, pairs)
    && Decodable(fs, writes, RenameMap(fs, pairs))
  }

  lemma {:induction false} MapAvoids(fs: Files, writes: seq<Write>, pairs: seq<Rename>)
    requires AvoidsBackups(writes, pairs)
    ensures AvoidsBackups(writes, RenameMap(fs, pairs))
  {
    if pairs != [] {
      assert forall q :: q in pairs[..|pairs| - 1] ==> q in pairs;
      MapAvoids(fs, writes, pairs[..|pairs| - 1]);
      assert pairs[|pairs| - 1] in pairs;
    }
  }

  // ---------------------------------------------------------------------------------------------
  // The steps
  // ---------------------------------------------------------------------------------------------

  function Start(fs: Files, budget: nat): State {
    State(fs, budget, false, false, None, map[])
  }

  /** Any primitive: it faults when the budget is used up. */
  function Spend(s: State): State {
    if s.budget > 0 then s.(budget := s.budget - 1) else s.(raised := true, faulted := true)
  }

  /** Reading a file raises when it is missing or is no text. */
  function Read(s: State, p: Path): State {
    var s1 := Spend(s);
    if s1.raised || At(s.fs, p).None? || s.fs[p].Bytes? then s1.(raised := true) else s1
  }

  /** A faulting write may leave the file as it was or cut short. */
  function Put(c: Setting, s: State, p: Path, text: string): State {
    var s1 := Spend(s);
    if !s1.raised then s1.(fs := s.fs[p := Text(text)])
    else if c.torn.None? then s1
    else
      var part := Cut(text, c.torn.value);
      s1.(fs := s.fs[p := part], left := Some(Left(p, part)))
  }

  function Remove(s: State, p: Path): State {
    var s1 := Spend(s);
    if s1.raised then s1 else s1.(fs := s.fs - {p})
  }

  lemma TriedFit(fs: Files, p: Path, stamp: string, n: nat)
    requires forall i :: 0 <= i < n ==> BackupName(p, stamp, i) in fs
    ensures n <= |fs.Keys|
  {
    var tried := seq(n, i requires 0 <= i < n => BackupName(p, stamp, i));
    forall i, j | 0 <= i < j < n ensures tried[i] != tried[j] {
      BackupNamesDiffer(p, stamp, i, j);
    }
    DistinctFit(tried, fs.Keys);
  }

  /** The first backup name from number `n` on that no file has. */
  function FreeName(fs: Files, p: Path, stamp: string, n: nat): (b: Path)
    requires forall i :: 0 <= i < n ==> BackupName(p, stamp, i) in fs
    ensures InBackups(b) && b !in fs
    decreases |fs.Keys| - n
  {
    TriedFit(fs, p, stamp, n);
    if BackupName(p, stamp, n) !in fs then BackupName(p, stamp, n)
    else
      TriedFit(fs, p, stamp, n + 1);
      FreeName(fs, p, stamp, n + 1)
  }

  function Save(c: Setting, s: State, p: Path, text: string): State {
    Put(c, s, FreeName(s.fs, p, c.stamp, 0), text)
  }

  /** What a rename puts at its target. */
  function GivenText(writes: seq<Write>, r: Rename, text: string): string {
    var given := TextFor(writes, r.target);
    if given.Some? then given.value else text
  }

  function RecordRename(s: State, r: Rename, text: string): State {
    s.(originals := s.originals[r.source := Some(text)][r.target := None])
  }

  /** One turn of the first loop. */
  function Copy(c: Setting, s: State, writes: seq<Write>, r: Rename): State {
    var s1 := Read(s, r.source);
    if s1.raised then s1
    else
      var text := s.fs[r.source].text;
      var s2 := Save(c, RecordRename(s1, r, text), r.source, text);
      if s2.raised then s2 else Put(c, s2, r.target, GivenText(writes, r, text))
  }

  function CopyAll(c: Setting, s: State, writes: seq<Write>, renames: seq<Rename>): State {
    if renames == [] then s
    else
      var s1 := CopyAll(c, s, writes, renames[..|renames| - 1]);
      if s1.raised then s1 else Copy(c, s1, writes, renames[|renames| - 1])
  }

  /** `setdefault` on the recovery table. */
  function RecordFirst(s: State, p: Path, original: Option<string>): State {
    if p in s.originals then s else s.(originals := s.originals[p := original])
  }

  /** A parent directory or a permission first, then the write. */
  function PutPrepared(c: Setting, s: State, w: Write): State {
    if s.raised then s
    else
      var s1 := Spend(s);
      if s1.raised then s1 else Put(c, s1, w.path, w.text)
  }

  /** One turn of the second loop. */
  function Overwrite(c: Setting, s: State, w: Write, renames: seq<Rename>): State {
    if Targeted(renames, w.path) then s
    else if w.path !in s.fs then PutPrepared(c, RecordFirst(s, w.path, None), w)
    else
      var s1 := Read(s, w.path);
      if s1.raised || s.fs[w.path].text == w.text then s1
      else
        var text := s.fs[w.path].text;
        PutPrepared(c, Save(c, RecordFirst(s1, w.path, Some(text)), w.path, text), w)
  }

  function WriteAll(c: Setting, s: State, writes: seq<Write>, renames: seq<Rename>): State {
    if writes == [] then s
    else
      var s1 := WriteAll(c, s, writes[..|writes| - 1], renames);
      if s1.raised then s1 else Overwrite(c, s1, writes[|writes| - 1], renames)
  }

  /** The third loop. */
  function RemoveAll(s: State, renames: seq<Rename>): State {
    if renames == [] then s
    else
      var s1 := RemoveAll(s, renames[..|renames| - 1]);
      if s1.raised then s1 else Remove(s1, renames[|renames| - 1].source)
  }

  function Execute(c: Setting, s: State, writes: seq<Write>, renames: seq<Rename>): State {
    var s1 := CopyAll(c, s, writes, renames);
    if s1.raised then s1
    else
      var s2 := WriteAll(c, s1, writes, renames);
      if s2.raised then s2 else RemoveAll(s2, renames)
  }

  /** The paths that are read before anything changes. */
  function ToRead(writes: seq<Write>, renames: seq<Rename>): seq<Path> {
    Sources(renames) + PlainPaths(writes, renames)
  }

  function Sources(renames: seq<Rename>): seq<Path> {
    seq(|renames|, i requires 0 <= i < |renames| => renames[i].source)
  }

  function PlainPaths(writes: seq<Write>, renames: seq<Rename>): (ps: seq<Path>)
    ensures forall p :: p in ps <==> Writes(writes, p) && !Targeted(renames, p)
  {
    if writes == [] then []
    else
      var ps := PlainPaths(writes[1..], renames);
      assert forall w :: w in writes <==> w == writes[0] || w in writes[1..];
      if Targeted(renames, writes[0].path) then ps else [writes[0].path] + ps
  }

  function ReadAll(s: State, paths: seq<Path>): State {
    if paths == [] then s
    else
      var s1 := ReadAll(s, paths[..|paths| - 1]);
      if s1.raised || paths[|paths| - 1] !in s.fs then s1 else Read(s1, paths[|paths| - 1])
  }

  /** What recovery leaves at a path: nothing is done where it fails or where the file can not be read. */
  function BackAt(c: Setting, s: State, p: Path): Option<Content> {
    if p !in s.originals || p in c.stuck then At(s.fs, p)
    else if s.originals[p].None? then None
    else if At(s.fs, p).Some? && s.fs[p].Bytes? then At(s.fs, p)
    else Was(s.originals[p])
  }

  // ---------------------------------------------------------------------------------------------
  // The whole call
  // ---------------------------------------------------------------------------------------------

  /** The state at the end of the try block. */
  function Tried(c: Setting, s: State, writes: seq<Write>, renames: seq<Rename>): State {
    Execute(c, ReadAll(s, ToRead(writes, renames)), writes, renames)
  }

  function OutcomeOf(c: Setting, s: State, writes: seq<Write>, pairs: seq<Rename>): Outcome {
    var renames := RenameMap(s.fs, pairs);
    if !AllAccepted(s.fs, pairs) || ReadAll(s, ToRead(writes, renames)).raised then Rejected
    else if Tried(c, s, writes, renames).raised then RolledBack
    else Applied
  }

  /** What the call leaves at a path. */
  function FinalAt(c: Setting, s: State, writes: seq<Write>, pairs: seq<Rename>, p: Path): Option<Content> {
    var s1 := Tried(c, s, writes, RenameMap(s.fs, pairs));
    match OutcomeOf(c, s, writes, pairs)
    case Rejected => At(s.fs, p)
    case Applied => At(s1.fs, p)
    case RolledBack => BackAt(c, s1, p)
  }
}
