/**
 Paths that a model may write: the check for one path, and the loop that reads a whole proposal.
 Case folding is a parameter.
 */
module CodePaths {
  import opened Wrappers
  import opened Text

  type Folding = string -> string

  // ---------------------------------------------------------------------------------------------
  // posixpath.normpath for relative paths
  // ---------------------------------------------------------------------------------------------

  /** One segment onto the stack. */
  function Push(stack: seq<string>, seg: string): seq<string> {
    if seg == "" || seg == "." then stack
    else if seg != ".." || stack == [] || stack[|stack| - 1] == ".." then stack + [seg]
    else stack[..|stack| - 1]
  }

  function Stack(segs: seq<string>): seq<string> {
    if segs == [] then [] else Push(Stack(segs[..|segs| - 1]), segs[|segs| - 1])
  }

  function NormPath(path: string): string {
    var stack := Stack(Split(path, '/'));
    if stack == [] then "." else Join(stack, '/')
  }

  function Slashes(s: string): (r: string)
    ensures |r| == |s| && forall i :: 0 <= i < |s| ==> r[i] == if s[i] == '\\' then '/' else s[i]
  {
    if s == "" then "" else Slashes(s[..|s| - 1]) + [if s[|s| - 1] == '\\' then '/' else s[|s| - 1]]
  }

  /** Empty, absolute, or with a drive or stream in it. */
  predicate NotRelative(file: string) {
    file == "" || file[0] == '/' || !Plain(file, ':')
  }

  predicate Forbidden(fold: Folding, file: string) {
    exists i :: 0 <= i < |Split(file, '/')| && fold(Split(file, '/')[i]) in {".git", ".vscode"}
  }

  function SafeRelPath(fold: Folding, path: string): Option<string> {
    var file := Slashes(Strip(path));
    if NotRelative(file) then None
    else
      var norm := NormPath(file);
      if norm == "." || norm == ".." || "../" <= norm || Forbidden(fold, norm) then None else Some(norm)
  }

  // ---------------------------------------------------------------------------------------------
  // What normalisation leaves
  // ---------------------------------------------------------------------------------------------

  /** Real segments, with ".." in front only. */
  predicate Leading(stack: seq<string>) {
    && (forall i :: 0 <= i < |stack| ==> stack[i] != "" && stack[i] != "." && Plain(stack[i], '/'))
    && (forall i :: 0 < i < |stack| && stack[i] == ".." ==> stack[i - 1] == "..")
  }

  lemma {:induction false} StackIsLeading(segs: seq<string>)
    requires AllPlain(segs, '/')
    ensures Leading(Stack(segs))
  {
    if segs != [] {
      StackIsLeading(segs[..|segs| - 1]);
    }
  }

  lemma {:induction false} LeadingFirst(stack: seq<string>, i: nat)
    requires Leading(stack) && i < |stack| && stack[i] == ".."
    ensures stack[0] == ".."
  {
    if i > 0 {
      LeadingFirst(stack, i - 1);
    }
  }

  lemma {:induction false} LeadingIsFixed(stack: seq<string>)
    requires Leading(stack)
    ensures Stack(stack) == stack
  {
    if stack != [] {
      LeadingIsFixed(stack[..|stack| - 1]);
    }
  }

  lemma NormalSegments(path: string)
    requires NormPath(path) != "."
    ensures Leading(Split(NormPath(path), '/')) && Split(NormPath(path), '/') == Stack(Split(path, '/'))
  {
    var stack := Stack(Split(path, '/'));
    SplitIsPlain(path, '/');
    StackIsLeading(Split(path, '/'));
    SplitOfJoin(stack, '/');
  }

  lemma FirstSegment(parts: seq<string>)
    requires parts != [] && parts[0] == ".."
    ensures Join(parts, '/') == ".." || "../" <= Join(parts, '/')
  {
    if |parts| > 1 {
      JoinPrefix(parts, 1);
      assert Join(parts[..1], '/') == "..";
    }
  }

  lemma {:induction false} JoinPrefix(parts: seq<string>, k: nat)
    requires 0 < k < |parts|
    ensures Join(parts[..k], '/') + "/" <= Join(parts, '/')
  {
    var n := |parts| - 1;
    if k < n {
      JoinPrefix(parts[..n], k);
      assert parts[..n][..k] == parts[..k];
    }
  }

  /** Following segments from a directory; ".." leaves the last one entered. */
  function Walk(dir: seq<string>, segs: seq<string>): seq<string> {
    if segs == [] then dir
    else
      var at := Walk(dir, segs[..|segs| - 1]);
      var seg := segs[|segs| - 1];
      if seg == "" || seg == "." then at
      else if seg != ".." then at + [seg]
      else if at == [] then [] else at[..|at| - 1]
  }

  predicate Down(segs: seq<string>) {
    forall i :: 0 <= i < |segs| ==> segs[i] != "" && segs[i] != "." && segs[i] != ".."
  }

  predicate NoneForbidden(fold: Folding, segs: seq<string>) {
    forall i :: 0 <= i < |segs| ==> fold(segs[i]) !in {".git", ".vscode"}
  }

  /** No part of an accepted path leads up, is empty, or is a forbidden directory. */
  lemma AcceptedSegments(fold: Folding, path: string)
    requires SafeRelPath(fold, path).Some?
    ensures Down(Split(SafeRelPath(fold, path).value, '/')) && NoneForbidden(fold, Split(SafeRelPath(fold, path).value, '/'))
  {
    var file := Slashes(Strip(path));
    var norm := NormPath(file);
    NormalSegments(file);
    var segs := Split(norm, '/');
    forall i | 0 <= i < |segs| ensures segs[i] != ".." {
      if segs[i] == ".." {
        LeadingFirst(segs, i);
        FirstSegment(segs);
      }
    }
  }

  lemma {:induction false} WalkDown(dir: seq<string>, segs: seq<string>)
    requires Down(segs)
    ensures Walk(dir, segs) == dir + segs
  {
    if segs != [] {
      WalkDown(dir, segs[..|segs| - 1]);
      assert segs == segs[..|segs| - 1] + [segs[|segs| - 1]];
    }
  }

  /** Joined to any root, an accepted path names a place strictly under that root. */
  lemma StaysUnderRoot(fold: Folding, path: string, root: seq<string>)
    requires SafeRelPath(fold, path).Some?
    ensures root < Walk(root, Split(SafeRelPath(fold, path).value, '/'))
  {
    AcceptedSegments(fold, path);
    WalkDown(root, Split(SafeRelPath(fold, path).value, '/'));
  }

  // ---------------------------------------------------------------------------------------------
  // Checking an accepted path again
  // ---------------------------------------------------------------------------------------------

  lemma {:induction false} StackWeight(segs: seq<string>)
    ensures Weight(Stack(segs)) <= Weight(segs)
  {
    if segs != [] {
      var front := segs[..|segs| - 1];
      StackWeight(front);
      PushWeight(Stack(front), segs[|segs| - 1]);
    }
  }

  lemma PushWeight(stack: seq<string>, seg: string)
    ensures Weight(Push(stack, seg)) <= Weight(stack) + |seg| + 1
  {
    WeightSnoc(stack, seg);
  }

  lemma NormPathShorter(path: string)
    requires NormPath(path) != "."
    ensures |NormPath(path)| <= |path|
  {
    StackWeight(Split(path, '/'));
    JoinOfSplit(path, '/');
    WeightOfJoin(Split(path, '/'), '/');
    WeightOfJoin(Stack(Split(path, '/')), '/');
  }

  lemma {:induction false} PlainJoin(parts: seq<string>, c: char)
    requires c != '/' && AllPlain(parts, c)
    ensures Plain(Join(parts, '/'), c)
  {
    if |parts| > 1 {
      PlainJoin(parts[..|parts| - 1], c);
    }
  }

  lemma {:induction false} SplitKeepsOut(s: string, c: char)
    requires Plain(s, c)
    ensures AllPlain(Split(s, '/'), c)
  {
    if s != "" {
      SplitKeepsOut(s[..|s| - 1], c);
    }
  }

  lemma {:induction false} StackKeepsOut(segs: seq<string>, c: char)
    requires AllPlain(segs, c)
    ensures AllPlain(Stack(segs), c)
  {
    if segs != [] {
      StackKeepsOut(segs[..|segs| - 1], c);
    }
  }

  lemma NormKeepsOut(path: string, c: char)
    requires c != '/' && c != '.' && Plain(path, c)
    ensures Plain(NormPath(path), c)
  {
    SplitKeepsOut(path, c);
    StackKeepsOut(Split(path, '/'), c);
    PlainJoin(Stack(Split(path, '/')), c);
  }

  lemma SlashesFixed(s: string)
    requires Plain(s, '\\')
    ensures Slashes(s) == s
  {
  }

  lemma NormIsFixed(path: string)
    requires NormPath(path) != "."
    ensures NormPath(NormPath(path)) == NormPath(path)
  {
    NormalSegments(path);
    LeadingIsFixed(Split(NormPath(path), '/'));
    JoinOfSplit(NormPath(path), '/');
  }

  lemma NormIsRelative(path: string)
    requires NormPath(path) != "." && Plain(path, ':')
    ensures !NotRelative(NormPath(path))
  {
    NormKeepsOut(path, ':');
    NormalSegments(path);
    var norm := NormPath(path);
    var segs := Split(norm, '/');
    JoinOfSplit(norm, '/');
    FirstOfJoin(segs, '/');
  }

  lemma {:induction false} FirstOfJoin(parts: seq<string>, sep: char)
    requires parts != [] && parts[0] != ""
    ensures Join(parts, sep) != "" && Join(parts, sep)[0] == parts[0][0]
  {
    if |parts| > 1 {
      FirstOfJoin(parts[..|parts| - 1], sep);
    }
  }

  lemma AcceptedIsPlain(fold: Folding, path: string)
    requires SafeRelPath(fold, path).Some?
    ensures var r := SafeRelPath(fold, path).value;
            Slashes(r) == r && NormPath(r) == r && !NotRelative(r)
  {
    var file := Slashes(Strip(path));
    NormIsFixed(file);
    NormIsRelative(file);
    NormKeepsOut(file, '\\');
    SlashesFixed(SafeRelPath(fold, path).value);
  }

  /** The check never gives back more characters than it leaves after trimming. */
  lemma ResultIsTrimmed(fold: Folding, path: string)
    requires SafeRelPath(fold, path).Some?
    ensures |SafeRelPath(fold, path).value| <= |Strip(path)|
  {
    NormPathShorter(Slashes(Strip(path)));
  }

  lemma StripsSomething(s: string)
    ensures Strip(s) == s || |Strip(s)| < |s|
  {
    var a, b := StripInside(s);
    if a == "" && b == "" {
      assert "" + Strip(s) + "" == Strip(s);
    }
  }

  /**
   An accepted path passes the check again as itself exactly if it neither starts nor ends with white space; a name
   such as " b", left over from "x/../ b", does not.
   */
  lemma AcceptedAgain(fold: Folding, path: string)
    requires SafeRelPath(fold, path).Some?
    ensures var r := SafeRelPath(fold, path).value;
            SafeRelPath(fold, r) == Some(r) <==> Strip(r) == r
  {
    var r := SafeRelPath(fold, path).value;
    AcceptedIsPlain(fold, path);
    StripsSomething(r);
    if SafeRelPath(fold, r).Some? {
      ResultIsTrimmed(fold, r);
    }
  }

  lemma StackStep(front: seq<string>, seg: string)
    ensures Stack(front + [seg]) == Push(Stack(front), seg)
  {
    assert (front + [seg])[..|front|] == front;
  }

  lemma LeftoverStack()
    ensures Stack(["x", "..", " b"]) == [" b"]
  {
    StackStep([], "x");
    StackStep(["x"], "..");
    StackStep(["x", ".."], " b");
    assert [] + ["x"] == ["x"] && ["x"] + [".."] == ["x", ".."] && ["x", ".."] + [" b"] == ["x", "..", " b"];
    assert Push([], "x") == ["x"] && Push(["x"], "..") == [] && Push([], " b") == [" b"];
  }

  lemma LeftoverSegments()
    ensures NormPath("x/../ b") == " b"
  {
    JoinSnoc([], "x", '/');
    JoinSnoc(["x"], "..", '/');
    JoinSnoc(["x", ".."], " b", '/');
    assert [] + ["x"] == ["x"] && ["x"] + [".."] == ["x", ".."] && ["x", ".."] + [" b"] == ["x", "..", " b"];
    assert Join(["x", "..", " b"], '/') == "x/../ b";
    SplitOfJoin(["x", "..", " b"], '/');
    LeftoverStack();
  }

  lemma LeftoverText()
    ensures Slashes(Strip("x/../ b")) == "x/../ b" && !NotRelative("x/../ b")
  {
    var path := "x/../ b";
    assert StripLeft(path) == path && StripRight(path) == path;
    SlashesFixed(path);
  }

  lemma AcceptedBecause(fold: Folding, path: string, r: string)
    requires Slashes(Strip(path)) == path && !NotRelative(path) && NormPath(path) == r
    requires r != "." && r != ".." && !("../" <= r) && Plain(r, '/') && fold(r) !in {".git", ".vscode"}
    ensures SafeRelPath(fold, path) == Some(r)
  {
    SplitOfOne(r, '/');
  }

  lemma StripLeadingBlank(s: string)
    requires s != "" && IsSpace(s[0])
    ensures Strip(s) != s
  {
    StripLeftShorter(s);
    var b := StripRightInside(StripLeft(s));
  }

  /** The name that is left over here is accepted, and would not be accepted again as itself. */
  lemma LeftoverBlank(fold: Folding)
    requires fold(" b") !in {".git", ".vscode"}
    ensures SafeRelPath(fold, "x/../ b") == Some(" b") && SafeRelPath(fold, " b") != Some(" b")
  {
    var path, r := "x/../ b", " b";
    LeftoverSegments();
    LeftoverText();
    AcceptedBecause(fold, path, r);
    AcceptedAgain(fold, path);
    StripLeadingBlank(r);
  }

  // ---------------------------------------------------------------------------------------------
  // The operations of a proposal
  // ---------------------------------------------------------------------------------------------

  datatype Action = Create | Edit

  /** `Broken` has no path or no content; an action that is no known word is `None`. */
  datatype RawOp = Broken | RawOp(file: string, content: string, action: Option<Action>)

  datatype Op = Op(action: Action, file: string, content: string)

  /** The number of the first bad operation, counted from one; zero if nothing is left to apply. */
  datatype OutputError = At(index: nat) | NothingToApply

  datatype Verdict = Bad | Skipped | Good(path: string)

  /** What the loop makes of one path: here the empty path is refused only after the forbidden directories are skipped. */
  function Judge(fold: Folding, path: string): Verdict {
    var file := Slashes(Strip(path));
    if NotRelative(file) then Bad
    else
      var norm := NormPath(file);
      if norm == ".." || "../" <= norm then Bad
      else if Forbidden(fold, norm) then Skipped
      else if norm == "." then Bad
      else Good(norm)
  }

  /** Both checks accept the same paths, in the same form. */
  lemma SamePaths(fold: Folding, path: string, r: string)
    ensures Judge(fold, path) == Good(r) <==> SafeRelPath(fold, path) == Some(r)
  {
  }

  /** What one raw operation asks for: to be refused, to be passed over, or to be written. */
  datatype Wish = Refused | PassedOver | Wants(op: Op)

  function WishOf(fold: Folding, raw: RawOp): Wish {
    if raw.Broken? then Refused
    else
      match Judge(fold, raw.file)
      case Bad => Refused
      case Skipped => PassedOver
      case Good(path) => if raw.action.None? then Refused else Wants(Op(raw.action.value, path, raw.content))
  }

  function Wishes(fold: Folding, raws: seq<RawOp>): (ws: seq<Wish>)
    ensures |ws| == |raws| && forall i :: 0 <= i < |raws| ==> ws[i] == WishOf(fold, raws[i])
  {
    if raws == [] then [] else Wishes(fold, raws[..|raws| - 1]) + [WishOf(fold, raws[|raws| - 1])]
  }

  /** The keys under which paths are compared. */
  function KeysOf(fold: Folding, ops: seq<Op>): set<string> {
    if ops == [] then {} else KeysOf(fold, ops[..|ops| - 1]) + {fold(ops[|ops| - 1].file)}
  }

  /** The operations among the first `n` wishes, in order. */
  function Kept(ws: seq<Wish>, n: nat): (ops: seq<Op>)
    requires n <= |ws|
  {
    if n == 0 then [] else Kept(ws, n - 1) + if ws[n - 1].Wants? then [ws[n - 1].op] else []
  }

  /** Refused, or a path that an earlier operation writes. */
  predicate Wrong(fold: Folding, ws: seq<Wish>, n: nat)
    requires n < |ws|
  {
    ws[n].Refused? || (ws[n].Wants? && fold(ws[n].op.file) in KeysOf(fold, Kept(ws, n)))
  }

  predicate AllRight(fold: Folding, ws: seq<Wish>, n: nat)
    requires n <= |ws|
  {
    forall i :: 0 <= i < n ==> !Wrong(fold, ws, i)
  }

  lemma KeysSnoc(fold: Folding, ops: seq<Op>, op: Op)
    ensures KeysOf(fold, ops + [op]) == KeysOf(fold, ops) + {fold(op.file)}
  {
    assert (ops + [op])[..|ops|] == ops;
  }

  lemma {:induction false} KeysHold(fold: Folding, ops: seq<Op>, i: nat)
    requires i < |ops|
    ensures fold(ops[i].file) in KeysOf(fold, ops)
  {
    if i < |ops| - 1 {
      KeysHold(fold, ops[..|ops| - 1], i);
    }
  }

  lemma RightStep(fold: Folding, ws: seq<Wish>, i: nat)
    requires i < |ws| && AllRight(fold, ws, i) && !Wrong(fold, ws, i)
    ensures AllRight(fold, ws, i + 1)
  {
  }

  /** One turn of the loop, on the operations kept and the keys seen so far. */
  lemma WishStep(fold: Folding, ws: seq<Wish>, i: nat, ops: seq<Op>, seen: set<string>)
    requires i < |ws| && ops == Kept(ws, i) && seen == KeysOf(fold, ops)
    ensures Wrong(fold, ws, i) <==> ws[i].Refused? || (ws[i].Wants? && fold(ws[i].op.file) in seen)
    ensures ws[i].Wants? ==>
              Kept(ws, i + 1) == ops + [ws[i].op] && KeysOf(fold, ops + [ws[i].op]) == seen + {fold(ws[i].op.file)}
    ensures ws[i].PassedOver? ==> Kept(ws, i + 1) == ops
  {
    if ws[i].Wants? {
      KeysSnoc(fold, ops, ws[i].op);
    }
  }

  /** One turn of the loop, or `bad` for an operation that is refused. */
  method TakeWish(fold: Folding, wish: Wish, ops: seq<Op>, seen: set<string>, ghost ws: seq<Wish>, ghost i: nat)
    returns (bad: bool, ops': seq<Op>, seen': set<string>)
    requires i < |ws| && ws[i] == wish && AllRight(fold, ws, i) && ops == Kept(ws, i) && seen == KeysOf(fold, ops)
    ensures bad <==> Wrong(fold, ws, i)
    ensures !bad ==> ops' == Kept(ws, i + 1) && seen' == KeysOf(fold, ops') && AllRight(fold, ws, i + 1)
  {
    bad, ops', seen' := wish.Refused?, ops, seen;
    WishStep(fold, ws, i, ops, seen);
    if wish.Wants? {
      var key := fold(wish.op.file);
      if key in seen {
        return true, ops, seen;
      }
      ops', seen' := ops + [wish.op], seen + {key};
    }
    if !bad {
      RightStep(fold, ws, i);
    }
  }

  method ParseOps(fold: Folding, raws: seq<RawOp>) returns (r: Result<seq<Op>, OutputError>)
    ensures var ws := Wishes(fold, raws);
            match r
            case Ok(ops) => AllRight(fold, ws, |ws|) && ops == Kept(ws, |ws|) && ops != []
            case Err(At(index)) => 0 < index <= |ws| && Wrong(fold, ws, index - 1) && AllRight(fold, ws, index - 1)
            case Err(NothingToApply) => AllRight(fold, ws, |ws|) && Kept(ws, |ws|) == []
  {
    ghost var ws := Wishes(fold, raws);
    var ops: seq<Op> := [];
    var seen: set<string> := {};
    for i := 0 to |raws|
      invariant ops == Kept(ws, i) && AllRight(fold, ws, i) && seen == KeysOf(fold, ops)
    {
      var bad, ops', seen' := TakeWish(fold, WishOf(fold, raws[i]), ops, seen, ws, i);
      if bad {
        return Err(At(i + 1));
      }
      ops, seen := ops', seen';
    }
    if ops == [] {
      return Err(NothingToApply);
    }
    return Ok(ops);
  }

  predicate DistinctFiles(fold: Folding, ops: seq<Op>) {
    forall i, j :: 0 <= i < j < |ops| ==> fold(ops[i].file) != fold(ops[j].file)
  }

  /** No two operations of a proposal that is taken write one path, whatever its case. */
  lemma {:induction false} KeptAreDistinct(fold: Folding, ws: seq<Wish>, n: nat)
    requires n <= |ws| && AllRight(fold, ws, n)
    ensures DistinctFiles(fold, Kept(ws, n))
  {
    if n > 0 {
      KeptAreDistinct(fold, ws, n - 1);
      assert !Wrong(fold, ws, n - 1);
      var before, now := Kept(ws, n - 1), Kept(ws, n);
      forall i | 0 <= i < |before| ensures fold(before[i].file) in KeysOf(fold, before) {
        KeysHold(fold, before, i);
      }
    }
  }

  lemma {:induction false} KeptFrom(ws: seq<Wish>, n: nat, i: nat) returns (k: nat)
    requires n <= |ws| && i < |Kept(ws, n)|
    ensures k < n && ws[k] == Wants(Kept(ws, n)[i])
  {
    if i < |Kept(ws, n - 1)| {
      k := KeptFrom(ws, n - 1, i);
    } else {
      k := n - 1;
    }
  }

  lemma {:induction false} KeptHolds(ws: seq<Wish>, n: nat, k: nat) returns (i: nat)
    requires k < n <= |ws| && ws[k].Wants?
    ensures i < |Kept(ws, n)| && Kept(ws, n)[i] == ws[k].op
  {
    if k == n - 1 {
      i := |Kept(ws, n - 1)|;
    } else {
      i := KeptHolds(ws, n - 1, k);
    }
  }

  /** Each operation of a proposal writes a path that the other check accepts, with the content it came with. */
  lemma OpsAreSafe(fold: Folding, raws: seq<RawOp>, i: nat) returns (k: nat)
    requires i < |Kept(Wishes(fold, raws), |raws|)|
    ensures var op := Kept(Wishes(fold, raws), |raws|)[i];
            && k < |raws| && raws[k].RawOp? && raws[k].content == op.content && raws[k].action == Some(op.action)
            && SafeRelPath(fold, raws[k].file) == Some(op.file)
  {
    k := KeptFrom(Wishes(fold, raws), |raws|, i);
    SamePaths(fold, raws[k].file, Kept(Wishes(fold, raws), |raws|)[i].file);
  }

  /** And no safe one is dropped from a proposal without refusals. */
  lemma SafeOpsAreKept(fold: Folding, raws: seq<RawOp>, k: nat) returns (i: nat)
    requires AllRight(fold, Wishes(fold, raws), |raws|)
    requires k < |raws| && raws[k].RawOp? && SafeRelPath(fold, raws[k].file).Some?
    ensures raws[k].action.Some? && i < |Kept(Wishes(fold, raws), |raws|)|
    ensures Kept(Wishes(fold, raws), |raws|)[i] == Op(raws[k].action.value, SafeRelPath(fold, raws[k].file).value, raws[k].content)
  {
    var ws := Wishes(fold, raws);
    SamePaths(fold, raws[k].file, SafeRelPath(fold, raws[k].file).value);
    assert !Wrong(fold, ws, k) && ws[k] == WishOf(fold, raws[k]);
    i := KeptHolds(ws, |raws|, k);
  }
}
