/** Which paths are accepted and what they become, told by following their segments from the project's root. */
module PathMeaning {
  import opened Wrappers
  import opened Text
  import opened CodePaths

  // ---------------------------------------------------------------------------------------------
  // Following the segments
  // ---------------------------------------------------------------------------------------------

  /** How far below the start the segments lead; below zero if they end above it. */
  function Height(segs: seq<string>): int {
    if segs == [] then 0
    else
      var seg := segs[|segs| - 1];
      Height(segs[..|segs| - 1]) + if seg == "" || seg == "." then 0 else if seg == ".." then -1 else 1
  }

  /** On the way the segments lead out of the start. */
  predicate Climbs(segs: seq<string>) {
    exists k :: 0 <= k <= |segs| && Height(segs[..k]) < 0
  }

  lemma ClimbsSnoc(front: seq<string>, seg: string)
    ensures Climbs(front + [seg]) <==> Climbs(front) || Height(front + [seg]) < 0
  {
    var segs := front + [seg];
    assert segs[..|segs|] == segs && forall k :: 0 <= k <= |front| ==> segs[..k] == front[..k];
    if Climbs(segs) {
      var k :| 0 <= k <= |segs| && Height(segs[..k]) < 0;
      assert k <= |front| || segs[..k] == segs;
    }
    if Climbs(front) {
      var k :| 0 <= k <= |front| && Height(front[..k]) < 0;
      assert Height(segs[..k]) < 0;
    }
    if Height(segs) < 0 {
      assert Height(segs[..|segs|]) < 0;
    }
  }

  lemma WalkSnoc(dir: seq<string>, front: seq<string>, seg: string)
    ensures var at := Walk(dir, front);
            Walk(dir, front + [seg]) == if seg == "" || seg == "." then at
                                        else if seg != ".." then at + [seg] else if at == [] then [] else at[..|at| - 1]
  {
    assert (front + [seg])[..|front|] == front;
  }

  lemma HeightSnoc(front: seq<string>, seg: string)
    ensures Height(front + [seg]) == Height(front) + if seg == "" || seg == "." then 0 else if seg == ".." then -1 else 1
  {
    assert (front + [seg])[..|front|] == front;
  }

  /** Segments that never lead out of the start are normalised to the place that they name. */
  lemma {:induction false} StaysInside(segs: seq<string>)
    requires !Climbs(segs)
    ensures Stack(segs) == Walk([], segs) && |Stack(segs)| == Height(segs) && Down(Stack(segs))
  {
    if segs != [] {
      var front, seg := segs[..|segs| - 1], segs[|segs| - 1];
      assert segs == front + [seg];
      ClimbsSnoc(front, seg);
      StaysInside(front);
      StackStep(front, seg);
      WalkSnoc([], front, seg);
      HeightSnoc(front, seg);
    } else {
      assert Walk([], segs) == [];
    }
  }

  lemma NoSegments()
    ensures !Climbs([])
  {
    var segs: seq<string> := [];
    assert forall k :: 0 <= k <= |segs| ==> segs[..k] == segs;
  }

  /** Segments that do lead out keep a ".." in front. */
  lemma {:induction false} LeadsOut(segs: seq<string>)
    requires Climbs(segs)
    ensures Stack(segs) != [] && Stack(segs)[0] == ".."
  {
    NoSegments();
    if segs != [] {
      var front, seg := segs[..|segs| - 1], segs[|segs| - 1];
      assert segs == front + [seg];
      ClimbsSnoc(front, seg);
      StackStep(front, seg);
      HeightSnoc(front, seg);
      if Climbs(front) {
        LeadsOut(front);
      } else {
        StaysInside(front);
      }
    }
  }

  // ---------------------------------------------------------------------------------------------
  // The check
  // ---------------------------------------------------------------------------------------------

  /** A relative path without a drive or stream, in the code's spelling. */
  predicate IsRelative(file: string) {
    file != "" && file[0] != '/' && ':' !in file
  }

  predicate HasForbidden(fold: Folding, segs: seq<string>) {
    exists i :: 0 <= i < |segs| && (fold(segs[i]) == ".git" || fold(segs[i]) == ".vscode")
  }

  lemma Dots(norm: string)
    ensures "../" <= norm ==> |norm| >= 3 && norm[0] == '.' && norm[1] == '.' && norm[2] == '/' && '/' in norm
  {
  }

  lemma FirstOfPath(norm: string, first: string)
    requires '/' !in first && |first| < |norm| && norm[..|first|] == first && norm[|first|] == '/'
    ensures "../" <= norm ==> first == ".."
  {
    Dots(norm);
    assert forall i :: 0 <= i < |first| ==> norm[i] == first[i];
    if |first| == 2 {
      assert first == [norm[0], norm[1]];
    }
  }

  lemma PlainName(name: string)
    requires '/' !in name
    ensures !("../" <= name)
  {
    Dots(name);
  }

  lemma StartsOut(stack: seq<string>)
    requires stack != [] && AllPlain(stack, '/')
    ensures Join(stack, '/') == ".." || "../" <= Join(stack, '/') <==> stack[0] == ".."
  {
    assert Plain(stack[0], '/');
    if stack[0] == ".." {
      FirstSegment(stack);
    } else if |stack| > 1 {
      JoinPrefix(stack, 1);
      var norm, first := Join(stack, '/'), stack[0];
      assert stack[..1] == [first] && Join(stack[..1], '/') == first;
      assert norm[|first|] == (first + "/")[|first|] && norm[..|first|] == first;
      FirstOfPath(norm, first);
      assert '/' in norm;
    } else {
      PlainName(stack[0]);
    }
  }

  /** What the loop makes of a path: where its segments lead decides. */
  lemma JudgeExactly(fold: Folding, path: string)
    ensures var file := Slashes(Strip(path));
            var segs := Split(file, '/');
            && (!IsRelative(file) || Climbs(segs) ==> Judge(fold, path) == Bad)
            && (IsRelative(file) && !Climbs(segs) && Walk([], segs) != [] ==>
                  Judge(fold, path) == if HasForbidden(fold, Walk([], segs)) then Skipped else Good(Join(Walk([], segs), '/')))
            && (IsRelative(file) && !Climbs(segs) && Walk([], segs) == [] ==> !Judge(fold, path).Good?)
  {
    var file := Slashes(Strip(path));
    var segs := Split(file, '/');
    SplitIsPlain(file, '/');
    StackIsLeading(segs);
    assert IsRelative(file) <==> !NotRelative(file);
    if IsRelative(file) {
      if Climbs(segs) {
        LeadsOut(segs);
        StartsOut(Stack(segs));
      } else {
        StaysInside(segs);
        if Stack(segs) != [] {
          InsideIsJudged(fold, path, file, Stack(segs));
        }
      }
    }
  }

  lemma InsideIsJudged(fold: Folding, path: string, file: string, stack: seq<string>)
    requires file == Slashes(Strip(path)) && !NotRelative(file) && stack == Stack(Split(file, '/'))
    requires stack != [] && Down(stack) && AllPlain(stack, '/')
    ensures Judge(fold, path) == if HasForbidden(fold, stack) then Skipped else Good(Join(stack, '/'))
  {
    var norm := Join(stack, '/');
    StartsOut(stack);
    SplitOfJoin(stack, '/');
    NotDot(stack, norm);
    assert NormPath(file) == norm;
    JudgedBy(fold, path, file, norm);
    ForbiddenIs(fold, norm, stack);
  }

  lemma JudgedBy(fold: Folding, path: string, file: string, norm: string)
    requires file == Slashes(Strip(path)) && !NotRelative(file) && norm == NormPath(file)
    requires norm != "." && norm != ".." && !("../" <= norm)
    ensures Judge(fold, path) == if Forbidden(fold, norm) then Skipped else Good(norm)
  {
  }

  lemma ForbiddenIs(fold: Folding, norm: string, stack: seq<string>)
    requires Split(norm, '/') == stack
    ensures Forbidden(fold, norm) <==> HasForbidden(fold, stack)
  {
  }

  lemma NotDot(stack: seq<string>, norm: string)
    requires stack != [] && Down(stack) && AllPlain(stack, '/') && norm == Join(stack, '/')
    ensures norm != "."
  {
    if |stack| > 1 {
      JoinPrefix(stack, 1);
      assert stack[..1] == [stack[0]] && Join(stack[..1], '/') == stack[0];
      assert |norm| > 1;
    }
  }

  /**
   A path is accepted exactly if it is relative, its segments never lead out of the root and end below it, and none
   of the segments that are left is a forbidden directory; it becomes the place that its segments lead to.
   */
  lemma AcceptedExactly(fold: Folding, path: string)
    ensures var file := Slashes(Strip(path));
            var segs := Split(file, '/');
            SafeRelPath(fold, path) ==
            if IsRelative(file) && !Climbs(segs) && Walk([], segs) != [] && !HasForbidden(fold, Walk([], segs))
            then Some(Join(Walk([], segs), '/')) else None
  {
    JudgeExactly(fold, path);
    if SafeRelPath(fold, path).Some? {
      SamePaths(fold, path, SafeRelPath(fold, path).value);
    } else if Judge(fold, path).Good? {
      SamePaths(fold, path, Judge(fold, path).path);
    }
  }

  /** So every plain path of real names that are not forbidden is accepted as itself, however many segments it has. */
  lemma PlainPathIsAccepted(fold: Folding, segs: seq<string>)
    requires segs != [] && Down(segs) && AllPlain(segs, '/') && AllPlain(segs, '\\') && AllPlain(segs, ':')
    requires !HasForbidden(fold, segs) && Strip(Join(segs, '/')) == Join(segs, '/')
    ensures SafeRelPath(fold, Join(segs, '/')) == Some(Join(segs, '/'))
  {
    var path := Join(segs, '/');
    PlainJoin(segs, '\\');
    PlainJoin(segs, ':');
    SlashesFixed(path);
    SplitOfJoin(segs, '/');
    FirstOfJoin(segs, '/');
    NeverUp(segs);
    WalkDown([], segs);
    assert [] + segs == segs;
    AcceptedExactly(fold, path);
  }

  lemma {:induction false} NeverUp(segs: seq<string>)
    requires Down(segs)
    ensures !Climbs(segs) && Height(segs) == |segs|
  {
    if segs != [] {
      var front, seg := segs[..|segs| - 1], segs[|segs| - 1];
      assert segs == front + [seg];
      NeverUp(front);
      ClimbsSnoc(front, seg);
      HeightSnoc(front, seg);
    } else {
      forall k | 0 <= k <= |segs| ensures Height(segs[..k]) >= 0 {
        assert segs[..k] == [];
      }
    }
  }

  // ---------------------------------------------------------------------------------------------
  // The operations of a proposal
  // ---------------------------------------------------------------------------------------------

  /** An operation is refused if it has no path or no content, a path that is not accepted for another reason than a
      forbidden directory, or an unknown action; one below a forbidden directory is passed over. */
  lemma WishExactly(fold: Folding, raw: RawOp)
    ensures raw.Broken? ==> WishOf(fold, raw) == Refused
    ensures raw.RawOp? ==>
              var file := Slashes(Strip(raw.file));
              var segs := Split(file, '/');
              && (!IsRelative(file) || Climbs(segs) ==> WishOf(fold, raw) == Refused)
              && (IsRelative(file) && !Climbs(segs) && Walk([], segs) != [] ==>
                    WishOf(fold, raw) ==
                    if HasForbidden(fold, Walk([], segs)) then PassedOver
                    else if raw.action.None? then Refused
                    else Wants(Op(raw.action.value, Join(Walk([], segs), '/'), raw.content)))
  {
    if raw.RawOp? {
      JudgeExactly(fold, raw.file);
      WishByJudge(fold, raw, Judge(fold, raw.file));
    }
  }

  lemma WishByJudge(fold: Folding, raw: RawOp, verdict: Verdict)
    requires raw.RawOp? && verdict == Judge(fold, raw.file)
    ensures WishOf(fold, raw) ==
            match verdict
            case Bad => Refused
            case Skipped => PassedOver
            case Good(path) => if raw.action.None? then Refused else Wants(Op(raw.action.value, path, raw.content))
  {
  }

  lemma {:induction false} KeysAre(fold: Folding, ops: seq<Op>, key: string)
    ensures key in KeysOf(fold, ops) <==> exists i :: 0 <= i < |ops| && fold(ops[i].file) == key
  {
    if ops != [] {
      KeysAre(fold, ops[..|ops| - 1], key);
    }
  }

  /** The bad operations are the refused ones and those that write a path, up to case, that an earlier one writes. */
  lemma WrongExactly(fold: Folding, ws: seq<Wish>, n: nat)
    requires n < |ws|
    ensures Wrong(fold, ws, n) <==>
            ws[n].Refused? || (ws[n].Wants? && exists k :: 0 <= k < n && ws[k].Wants? && fold(ws[k].op.file) == fold(ws[n].op.file))
  {
    if ws[n].Wants? {
      var key := fold(ws[n].op.file);
      KeysAre(fold, Kept(ws, n), key);
      if i :| 0 <= i < |Kept(ws, n)| && fold(Kept(ws, n)[i].file) == key {
        var k := KeptFrom(ws, n, i);
      }
      if k :| 0 <= k < n && ws[k].Wants? && fold(ws[k].op.file) == key {
        var i := KeptHolds(ws, n, k);
      }
    }
  }
}
