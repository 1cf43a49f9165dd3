/**
 Taking instruction-like lines out of a file before it is shown to a model, and putting them back.
 The patterns are predicates on lines.
 */
module Neutralize {
  import opened Text

  /** `comment` and `instruction` judge a raw line, `bare` is the line without its string literals. */
  datatype Rules = Rules(comment: string -> bool, instruction: string -> bool, bare: string -> string)

  /** What stands for a removed line: one line, no white space at its ends. */
  type Mark = s: string | s != "" && !IsSpace(s[0]) && !IsSpace(s[|s| - 1]) && OneLine(s) witness "[ReCoder]"

  const BEGINNING := "[ReCoder: AI 에게 하는 "
  const MIDDLE := "지시처럼 보이는 줄이라 "
  const ENDING := "빼고 보냈습니다]"

  lemma PlainParts(a: string, b: string, c: string, sep: char)
    requires Plain(a, sep) && Plain(b, sep) && Plain(c, sep)
    ensures Plain(a + b + c, sep)
  {
  }

  const NEUTRALIZED: Mark := (PlainParts(BEGINNING, MIDDLE, ENDING, '\n'); BEGINNING + MIDDLE + ENDING)

  function Lines(content: string): seq<string> {
    Split(content, '\n')
  }

  function Unlines(lines: seq<string>): string {
    Join(lines, '\n')
  }

  predicate OneLine(s: string) {
    Plain(s, '\n')
  }

  // ---------------------------------------------------------------------------------------------
  // Which lines go
  // ---------------------------------------------------------------------------------------------

  /** A block comment starts on this line and does not end after its first opening. */
  predicate Opens(code: string) {
    exists i :: 0 <= i <= |code| && OccursAt(code, "/*", i) && Lacks(code[..i + 1], "/*") && Lacks(code[i + 2..], "*/")
  }

  /** Whether line `i` starts inside a block comment. */
  function InBlock(rules: Rules, lines: seq<string>, i: nat): bool
    requires i <= |lines|
  {
    if i == 0 then false
    else if InBlock(rules, lines, i - 1) then Lacks(Strip(lines[i - 1]), "*/")
    else Opens(rules.bare(Strip(lines[i - 1])))
  }

  /** Documents are read line by line, code only in its comments. */
  predicate Goes(rules: Rules, doc: bool, lines: seq<string>, i: nat)
    requires i < |lines|
  {
    (doc || InBlock(rules, lines, i) || rules.comment(lines[i])) && rules.instruction(lines[i])
  }

  /** Which lines go. */
  function Gone(rules: Rules, doc: bool, lines: seq<string>): (gone: seq<bool>)
    ensures |gone| == |lines|
  {
    seq(|lines|, i requires 0 <= i < |lines| => Goes(rules, doc, lines, i))
  }

  function Shown(mark: Mark, gone: seq<bool>, lines: seq<string>, i: nat): string
    requires |gone| == |lines|
    requires i < |lines|
  {
    if gone[i] then LeadingSpace(lines[i]) + mark else lines[i]
  }

  function ShownLines(mark: Mark, gone: seq<bool>, lines: seq<string>, n: nat): (r: seq<string>)
    requires |gone| == |lines|
    requires n <= |lines|
    ensures |r| == n && forall k :: 0 <= k < n ==> r[k] == Shown(mark, gone, lines, k)
  {
    if n == 0 then [] else ShownLines(mark, gone, lines, n - 1) + [Shown(mark, gone, lines, n - 1)]
  }

  function RemovedLines(gone: seq<bool>, lines: seq<string>, n: nat): seq<string>
    requires |gone| == |lines|
    requires n <= |lines|
  {
    if n == 0 then []
    else RemovedLines(gone, lines, n - 1) + if gone[n - 1] then [lines[n - 1]] else []
  }

  method Scan(mark: Mark, rules: Rules, doc: bool, raw: seq<string>) returns (lines: seq<string>, removed: seq<string>)
    ensures lines == ShownLines(mark, Gone(rules, doc, raw), raw, |raw|)
    ensures removed == RemovedLines(Gone(rules, doc, raw), raw, |raw|)
  {
    lines, removed := raw, [];
    var inBlock := false;
    for i := 0 to |raw|
      invariant |lines| == |raw|
      invariant forall k :: 0 <= k < i ==> lines[k] == Shown(mark, Gone(rules, doc, raw), raw, k)
      invariant forall k :: i <= k < |raw| ==> lines[k] == raw[k]
      invariant removed == RemovedLines(Gone(rules, doc, raw), raw, i)
      invariant inBlock == (!doc && InBlock(rules, raw, i))
    {
      var line := lines[i];
      var stripped := Strip(line);
      var comment := inBlock || rules.comment(line);
      if !doc {
        if !inBlock && Opens(rules.bare(stripped)) {
          inBlock := true;
        } else if inBlock && !Lacks(stripped, "*/") {
          inBlock := false;
        }
      }
      if (doc || comment) && rules.instruction(line) {
        removed := removed + [line];
        lines := lines[i := LeadingSpace(line) + mark];
      }
    }
  }

  /** A prompt file is left alone: there the instructions are the data. */
  method NeutralizeInstructions(mark: Mark, rules: Rules, promptFile: bool, doc: bool, content: string)
    returns (shown: string, removed: seq<string>)
    ensures content == "" || promptFile ==> shown == content && removed == []
    ensures content != "" && !promptFile ==>
              var lines := Lines(content);
              && shown == Unlines(ShownLines(mark, Gone(rules, doc, lines), lines, |lines|))
              && removed == RemovedLines(Gone(rules, doc, lines), lines, |lines|)
  {
    if content == "" || promptFile {
      return content, [];
    }
    var lines, gone := Scan(mark, rules, doc, Lines(content));
    return Unlines(lines), gone;
  }

  // ---------------------------------------------------------------------------------------------
  // Putting them back
  // ---------------------------------------------------------------------------------------------

  predicate IsMarker(mark: Mark, line: string) {
    Strip(line) == mark
  }

  function Markers(mark: Mark, lines: seq<string>): (n: nat)
    ensures n <= |lines|
  {
    if lines == [] then 0 else Markers(mark, lines[..|lines| - 1]) + if IsMarker(mark, lines[|lines| - 1]) then 1 else 0
  }

  /** What comes back for the first `n` lines; each marker takes the next pending line, if any is left. */
  function Back(mark: Mark, lines: seq<string>, pending: seq<string>, n: nat): seq<string>
    requires n <= |lines|
  {
    if n == 0 then []
    else
      var line := lines[n - 1];
      Back(mark, lines, pending, n - 1) +
      if !IsMarker(mark, line) then [Replace(line, mark, "")]
      else if Markers(mark, lines[..n - 1]) < |pending| then [pending[Markers(mark, lines[..n - 1])]]
      else []
  }

  function Restored(mark: Mark, content: string, removed: seq<string>): string {
    if Lacks(content, mark) then content
    else
      var lines := Lines(content);
      Unlines(Back(mark, lines, if Markers(mark, lines) == |removed| then removed else [], |lines|))
  }

  method CountMarkers(mark: Mark, lines: seq<string>) returns (markers: nat)
    ensures markers == Markers(mark, lines)
  {
    markers := 0;
    for i := 0 to |lines|
      invariant markers == Markers(mark, lines[..i])
    {
      MarkersStep(mark, lines, i);
      if IsMarker(mark, lines[i]) {
        markers := markers + 1;
      }
    }
    assert lines[..|lines|] == lines;
  }

  function Rest(all: seq<string>, k: nat): seq<string> {
    if k <= |all| then all[k..] else []
  }

  lemma RestStep(all: seq<string>, k: nat)
    ensures Rest(all, k) != [] <==> k < |all|
    ensures k < |all| ==> Rest(all, k)[0] == all[k] && Rest(all, k)[1..] == Rest(all, k + 1)
    ensures k >= |all| ==> Rest(all, k) == Rest(all, k + 1) == []
  {
  }

  lemma MarkersStep(mark: Mark, lines: seq<string>, i: nat)
    requires i < |lines|
    ensures Markers(mark, lines[..i + 1]) == Markers(mark, lines[..i]) + if IsMarker(mark, lines[i]) then 1 else 0
  {
    assert lines[..i + 1][..i] == lines[..i];
  }

  /** What one line adds to the text that is put back. */
  function OneBack(mark: Mark, line: string, pending: seq<string>): seq<string> {
    if !IsMarker(mark, line) then [Replace(line, mark, "")] else if pending == [] then [] else [pending[0]]
  }

  lemma BackStep(mark: Mark, lines: seq<string>, all: seq<string>, i: nat)
    requires i < |lines|
    ensures Back(mark, lines, all, i + 1) ==
            Back(mark, lines, all, i) + OneBack(mark, lines[i], Rest(all, Markers(mark, lines[..i])))
  {
    RestStep(all, Markers(mark, lines[..i]));
  }

  method PutBack(mark: Mark, lines: seq<string>, all: seq<string>) returns (out: seq<string>)
    ensures out == Back(mark, lines, all, |lines|)
  {
    out := [];
    var pending := all;
    ghost var used: nat := 0;
    for i := 0 to |lines|
      invariant out == Back(mark, lines, all, i)
      invariant used == Markers(mark, lines[..i]) && pending == Rest(all, used)
    {
      MarkersStep(mark, lines, i);
      BackStep(mark, lines, all, i);
      RestStep(all, used);
      if IsMarker(mark, lines[i]) {
        if pending != [] {
          out := out + [pending[0]];
          pending := pending[1..];
        }
        used := used + 1;
      } else {
        out := out + [Replace(lines[i], mark, "")];
      }
    }
  }

  method RestoreNeutralized(mark: Mark, content: string, removed: seq<string>) returns (r: string)
    ensures r == Restored(mark, content, removed)
  {
    if Lacks(content, mark) {
      return content;
    }
    var lines := Lines(content);
    var markers := CountMarkers(mark, lines);
    var out := PutBack(mark, lines, if markers == |removed| then removed else []);
    return Unlines(out);
  }

  // ---------------------------------------------------------------------------------------------
  // The round trip
  // ---------------------------------------------------------------------------------------------

  /** If the markers do not match the removed lines in number, none of those lines comes back. */
  lemma CountMismatch(mark: Mark, content: string, removed: seq<string>)
    requires Markers(mark, Lines(content)) != |removed|
    ensures Restored(mark, content, removed) == Unlines(Back(mark, Lines(content), [], |Lines(content)|))
  {
    if Lacks(content, mark) {
      JoinOfSplit(content, '\n');
      CleanContentBack(mark, content, []);
    }
  }

  /** Without pending lines, only lines that are no markers come out, cleared of the mark. */
  lemma {:induction false} NothingPending(mark: Mark, lines: seq<string>, n: nat)
    requires n <= |lines|
    ensures forall x :: x in Back(mark, lines, [], n) ==>
              exists k :: 0 <= k < n && !IsMarker(mark, lines[k]) && x == Replace(lines[k], mark, "")
  {
    if n > 0 {
      NothingPending(mark, lines, n - 1);
    }
  }

  lemma CleanContentBack(mark: Mark, content: string, pending: seq<string>)
    requires Lacks(content, mark)
    ensures Back(mark, Lines(content), pending, |Lines(content)|) == Lines(content)
  {
    var lines := Lines(content);
    JoinOfSplit(content, '\n');
    forall k | 0 <= k < |lines| ensures Lacks(lines[k], mark) {
      PartLacksToo(lines, k, '\n', mark);
    }
    CleanBack(mark, lines, pending, |lines|);
    assert lines[..|lines|] == lines;
  }

  lemma MarkerInside(mark: Mark, line: string)
    requires IsMarker(mark, line)
    ensures !Lacks(line, mark)
  {
    var a, b := StripInside(line);
    OccursInside(a, mark, b, mark, 0);
  }

  lemma {:induction false} CleanBack(mark: Mark, lines: seq<string>, pending: seq<string>, n: nat)
    requires n <= |lines| && forall k :: 0 <= k < n ==> Lacks(lines[k], mark)
    ensures Back(mark, lines, pending, n) == lines[..n]
  {
    if n > 0 {
      CleanBack(mark, lines, pending, n - 1);
      if IsMarker(mark, lines[n - 1]) {
        MarkerInside(mark, lines[n - 1]);
      }
      ReplaceNothing(lines[n - 1], mark, "");
      assert lines[..n] == lines[..n - 1] + [lines[n - 1]];
    }
  }

  /** No line that stays in the text holds the mark. */
  predicate KeptClean(mark: Mark, gone: seq<bool>, lines: seq<string>)
    requires |gone| == |lines|
  {
    forall i :: 0 <= i < |lines| && !gone[i] ==> Lacks(lines[i], mark)
  }

  /** Markers that were in the text before and stay there. */
  function KeptMarkers(mark: Mark, gone: seq<bool>, lines: seq<string>, n: nat): nat
    requires |gone| == |lines| && n <= |lines|
  {
    if n == 0 then 0
    else KeptMarkers(mark, gone, lines, n - 1) + if !gone[n - 1] && IsMarker(mark, lines[n - 1]) then 1 else 0
  }

  lemma {:induction false} LeadingSpaceFacts(line: string)
    ensures LeadingSpace(line) <= line
  {
    if line != "" && IsSpace(line[0]) {
      LeadingSpaceFacts(line[1..]);
    }
  }

  lemma ShownIsMarker(mark: Mark, gone: seq<bool>, lines: seq<string>, i: nat)
    requires |gone| == |lines| && i < |lines|
    ensures IsMarker(mark, Shown(mark, gone, lines, i)) <==> gone[i] || IsMarker(mark, lines[i])
  {
    if gone[i] {
      StripAfterSpace(lines[i], mark);
    }
  }

  lemma ShownHoldsMark(mark: Mark, gone: seq<bool>, lines: seq<string>, i: nat)
    requires |gone| == |lines| && i < |lines| && gone[i]
    ensures !Lacks(Shown(mark, gone, lines, i), mark)
  {
    ShownIsMarker(mark, gone, lines, i);
    MarkerInside(mark, Shown(mark, gone, lines, i));
  }

  lemma ShownIsOneLine(mark: Mark, gone: seq<bool>, lines: seq<string>, i: nat)
    requires |gone| == |lines| && i < |lines| && OneLine(lines[i])
    ensures OneLine(Shown(mark, gone, lines, i))
  {
    LeadingSpaceFacts(lines[i]);
  }

  lemma {:induction false} RemovedPrefix(gone: seq<bool>, lines: seq<string>, m: nat, n: nat)
    requires |gone| == |lines|
    requires m <= n <= |lines|
    ensures RemovedLines(gone, lines, m) <= RemovedLines(gone, lines, n)
  {
    if m < n {
      RemovedPrefix(gone, lines, m, n - 1);
    }
  }

  /** What putting back needs to know: a removed line shows as a marker, any other line as itself. */
  ghost predicate Stands(mark: Mark, gone: seq<bool>, lines: seq<string>, shown: seq<string>) {
    && |gone| == |lines| == |shown|
    && (forall i :: 0 <= i < |lines| && gone[i] ==> IsMarker(mark, shown[i]))
    && (forall i :: 0 <= i < |lines| && !gone[i] ==> shown[i] == lines[i])
  }

  lemma ShownStands(mark: Mark, gone: seq<bool>, lines: seq<string>)
    requires |gone| == |lines|
    ensures Stands(mark, gone, lines, ShownLines(mark, gone, lines, |lines|))
  {
    var shown := ShownLines(mark, gone, lines, |lines|);
    forall i | 0 <= i < |lines| && gone[i] ensures IsMarker(mark, shown[i]) {
      ShownIsMarker(mark, gone, lines, i);
    }
  }

  /** As many markers as removed lines, plus the markers that were there. */
  lemma {:induction false} MarkersOfShown(mark: Mark, gone: seq<bool>, lines: seq<string>, shown: seq<string>, n: nat)
    requires Stands(mark, gone, lines, shown) && n <= |lines|
    ensures Markers(mark, shown[..n]) == |RemovedLines(gone, lines, n)| + KeptMarkers(mark, gone, lines, n)
  {
    if n > 0 {
      MarkersOfShown(mark, gone, lines, shown, n - 1);
      assert shown[..n][..n - 1] == shown[..n - 1];
    }
  }

  /** What line `i` becomes when every marker finds its own line again. */
  function Again(mark: Mark, gone: seq<bool>, lines: seq<string>, i: nat): string
    requires |gone| == |lines|
    requires i < |lines|
  {
    if gone[i] then lines[i] else Replace(lines[i], mark, "")
  }

  function AgainLines(mark: Mark, gone: seq<bool>, lines: seq<string>, n: nat): (r: seq<string>)
    requires |gone| == |lines| && n <= |lines|
    ensures |r| == n && forall k :: 0 <= k < n ==> r[k] == Again(mark, gone, lines, k)
  {
    if n == 0 then [] else AgainLines(mark, gone, lines, n - 1) + [Again(mark, gone, lines, n - 1)]
  }

  lemma {:induction false} Aligned(mark: Mark, gone: seq<bool>, lines: seq<string>, shown: seq<string>, removed: seq<string>, n: nat)
    requires Stands(mark, gone, lines, shown) && n <= |lines| && KeptMarkers(mark, gone, lines, n) == 0
    requires RemovedLines(gone, lines, n) <= removed
    ensures Back(mark, shown, removed, n) == AgainLines(mark, gone, lines, n)
  {
    if n > 0 {
      RemovedPrefix(gone, lines, n - 1, n);
      Aligned(mark, gone, lines, shown, removed, n - 1);
      MarkersOfShown(mark, gone, lines, shown, n - 1);
    }
  }

  lemma {:induction false} WeightOrder(a: seq<string>, b: seq<string>)
    requires |a| == |b| && forall k :: 0 <= k < |a| ==> |a[k]| <= |b[k]|
    ensures Weight(a) <= Weight(b)
    ensures (exists k :: 0 <= k < |a| && |a[k]| < |b[k]|) ==> Weight(a) < Weight(b)
  {
    if a != [] {
      var n := |a| - 1;
      WeightOrder(a[..n], b[..n]);
      if k :| 0 <= k < |a| && |a[k]| < |b[k]| {
        if k < n {
          assert a[..n][k] == a[k] && b[..n][k] == b[k];
        }
      }
    }
  }

  /** With a marker of its own in the text the numbers do not match and every marker line is dropped. */
  lemma {:induction false} DroppedWeight(mark: Mark, gone: seq<bool>, lines: seq<string>, shown: seq<string>, n: nat)
    requires Stands(mark, gone, lines, shown) && n <= |lines|
    ensures Weight(Back(mark, shown, [], n)) + KeptMarkers(mark, gone, lines, n) <= Weight(lines[..n])
  {
    if n > 0 {
      DroppedWeight(mark, gone, lines, shown, n - 1);
      DroppedLine(mark, shown, n);
      WeightStep(lines, n);
    }
  }

  lemma WeightStep(lines: seq<string>, n: nat)
    requires 0 < n <= |lines|
    ensures Weight(lines[..n]) == Weight(lines[..n - 1]) + |lines[n - 1]| + 1
  {
    assert lines[..n] == lines[..n - 1] + [lines[n - 1]];
    WeightSnoc(lines[..n - 1], lines[n - 1]);
  }

  lemma DroppedLine(mark: Mark, shown: seq<string>, n: nat)
    requires 0 < n <= |shown|
    ensures IsMarker(mark, shown[n - 1]) ==> Weight(Back(mark, shown, [], n)) == Weight(Back(mark, shown, [], n - 1))
    ensures !IsMarker(mark, shown[n - 1]) ==>
              Weight(Back(mark, shown, [], n)) <= Weight(Back(mark, shown, [], n - 1)) + |shown[n - 1]| + 1
  {
    var before := Back(mark, shown, [], n - 1);
    if IsMarker(mark, shown[n - 1]) {
      assert Back(mark, shown, [], n) == before + [] == before;
    } else {
      ReplaceShortens(shown[n - 1], mark);
      WeightSnoc(before, Replace(shown[n - 1], mark, ""));
    }
  }

  lemma LighterDiffers(back: seq<string>, lines: seq<string>)
    requires Weight(back) < Weight(lines) && Unlines(lines) != ""
    ensures Unlines(back) != Unlines(lines)
  {
    WeightOfJoin(back, '\n');
    WeightOfJoin(lines, '\n');
  }

  lemma ShownText(mark: Mark, gone: seq<bool>, lines: seq<string>)
    requires |gone| == |lines|
    requires lines != [] && AllPlain(lines, '\n')
    ensures Lines(Unlines(ShownLines(mark, gone, lines, |lines|))) == ShownLines(mark, gone, lines, |lines|)
  {
    var shown := ShownLines(mark, gone, lines, |lines|);
    forall i | 0 <= i < |shown| ensures OneLine(shown[i]) {
      ShownIsOneLine(mark, gone, lines, i);
    }
    SplitOfJoin(shown, '\n');
  }

  lemma NothingGone(mark: Mark, gone: seq<bool>, lines: seq<string>)
    requires |gone| == |lines|
    requires Lacks(Unlines(ShownLines(mark, gone, lines, |lines|)), mark)
    ensures ShownLines(mark, gone, lines, |lines|) == lines && KeptClean(mark, gone, lines)
  {
    var shown := ShownLines(mark, gone, lines, |lines|);
    forall i | 0 <= i < |lines| ensures !gone[i] && Lacks(lines[i], mark) {
      PartLacksToo(shown, i, '\n', mark);
      if gone[i] {
        ShownHoldsMark(mark, gone, lines, i);
      }
    }
  }

  lemma {:induction false} NoKeptMarkers(mark: Mark, gone: seq<bool>, lines: seq<string>, n: nat)
    requires |gone| == |lines| && n <= |lines| && KeptClean(mark, gone, lines)
    ensures KeptMarkers(mark, gone, lines, n) == 0
  {
    if n > 0 {
      NoKeptMarkers(mark, gone, lines, n - 1);
      if IsMarker(mark, lines[n - 1]) {
        MarkerInside(mark, lines[n - 1]);
      }
    }
  }

  lemma CleanComesBack(mark: Mark, gone: seq<bool>, lines: seq<string>)
    requires |gone| == |lines|
    requires KeptClean(mark, gone, lines)
    ensures var shown := ShownLines(mark, gone, lines, |lines|);
            var removed := RemovedLines(gone, lines, |lines|);
            Markers(mark, shown) == |removed| && Back(mark, shown, removed, |lines|) == lines
  {
    NoKeptMarkers(mark, gone, lines, |lines|);
    var shown := ShownLines(mark, gone, lines, |lines|);
    ShownStands(mark, gone, lines);
    MarkersOfShown(mark, gone, lines, shown, |lines|);
    assert shown[..|lines|] == shown;
    Aligned(mark, gone, lines, shown, RemovedLines(gone, lines, |lines|), |lines|);
    forall i | 0 <= i < |lines| ensures Again(mark, gone, lines, i) == lines[i] {
      if !gone[i] {
        ReplaceNothing(lines[i], mark, "");
      }
    }
  }

  lemma AgainIsLighter(mark: Mark, gone: seq<bool>, lines: seq<string>, back: seq<string>)
    requires |gone| == |lines| == |back| && !KeptClean(mark, gone, lines)
    requires forall k :: 0 <= k < |lines| ==> back[k] == Again(mark, gone, lines, k)
    ensures Weight(back) < Weight(lines)
  {
    forall i | 0 <= i < |lines| ensures |back[i]| <= |lines[i]| {
      ReplaceShortens(lines[i], mark);
    }
    var k :| 0 <= k < |lines| && !gone[k] && !Lacks(lines[k], mark);
    ReplaceShortens(lines[k], mark);
    WeightOrder(back, lines);
  }

  lemma MarkedIsLighter(mark: Mark, gone: seq<bool>, lines: seq<string>, shown: seq<string>, removed: seq<string>)
    requires |gone| == |lines| && !KeptClean(mark, gone, lines)
    requires Stands(mark, gone, lines, shown) && removed == RemovedLines(gone, lines, |lines|)
    ensures Weight(Back(mark, shown, if Markers(mark, shown) == |removed| then removed else [], |lines|)) < Weight(lines)
  {
    MarkersOfShown(mark, gone, lines, shown, |lines|);
    assert shown[..|lines|] == shown && lines[..|lines|] == lines;
    if Markers(mark, shown) == |removed| {
      Aligned(mark, gone, lines, shown, removed, |lines|);
      AgainIsLighter(mark, gone, lines, Back(mark, shown, removed, |lines|));
    } else {
      DroppedWeight(mark, gone, lines, shown, |lines|);
    }
  }

  /**
   Whatever lines were taken out: they come back and the text is the old one, exactly if no line that stayed holds
   the mark.
   */
  lemma RoundTrip(mark: Mark, gone: seq<bool>, content: string)
    requires |gone| == |Lines(content)|
    ensures var lines := Lines(content);
            Restored(mark, Unlines(ShownLines(mark, gone, lines, |lines|)), RemovedLines(gone, lines, |lines|)) == content
            <==> KeptClean(mark, gone, lines)
  {
    var lines := Lines(content);
    var shown, removed := ShownLines(mark, gone, lines, |lines|), RemovedLines(gone, lines, |lines|);
    JoinOfSplit(content, '\n');
    SplitIsPlain(content, '\n');
    ShownText(mark, gone, lines);
    if Lacks(Unlines(shown), mark) {
      NothingGone(mark, gone, lines);
    } else if KeptClean(mark, gone, lines) {
      CleanComesBack(mark, gone, lines);
    } else {
      ShownStands(mark, gone, lines);
      MarkedIsLighter(mark, gone, lines, shown, removed);
      var k :| 0 <= k < |lines| && !gone[k] && !Lacks(lines[k], mark);
      if content == "" {
        PartLacksToo(lines, k, '\n', mark);
      }
      LighterDiffers(Back(mark, shown, if Markers(mark, shown) == |removed| then removed else [], |lines|), lines);
    }
  }

  /** In particular for every input without the mark, under every set of rules. */
  lemma CleanInputComesBack(mark: Mark, rules: Rules, doc: bool, content: string)
    requires Lacks(content, mark)
    ensures var lines := Lines(content);
            Restored(mark, Unlines(ShownLines(mark, Gone(rules, doc, lines), lines, |lines|)),
                     RemovedLines(Gone(rules, doc, lines), lines, |lines|)) == content
  {
    var lines := Lines(content);
    JoinOfSplit(content, '\n');
    forall i | 0 <= i < |lines| ensures Lacks(lines[i], mark) {
      PartLacksToo(lines, i, '\n', mark);
    }
    RoundTrip(mark, Gone(rules, doc, lines), content);
  }
}
