/** Which lines are taken out of a file before it is shown, and what is shown in their place. */
module NeutralizedLines {
  import opened Text
  import opened Neutralize

  // ---------------------------------------------------------------------------------------------
  // Block comments
  // ---------------------------------------------------------------------------------------------

  /** The first opening of the line has no closing behind it. */
  ghost predicate OpensAfter(code: string, a: string, b: string) {
    code == a + "/*" + b && (forall j :: 0 <= j < |a| ==> !OccursAt(code, "/*", j)) && Lacks(b, "*/")
  }

  lemma BeforeFirst(code: string, i: nat)
    requires i <= |code|
    ensures Lacks(code[..if i + 1 <= |code| then i + 1 else i], "/*") <==> forall j :: 0 <= j < i ==> !OccursAt(code, "/*", j)
  {
    var front := code[..if i + 1 <= |code| then i + 1 else i];
    forall j | 0 <= j < i ensures OccursAt(front, "/*", j) <==> OccursAt(code, "/*", j) {
      if j + 2 <= |front| {
        assert front[j..j + 2] == code[j..j + 2];
      }
    }
    forall j | i <= j <= |front| ensures !OccursAt(front, "/*", j) {
    }
  }

  lemma OpensExactly(code: string)
    ensures Opens(code) <==> exists a, b :: OpensAfter(code, a, b)
  {
    if Opens(code) {
      var i :| 0 <= i <= |code| && OccursAt(code, "/*", i) && Lacks(code[..i + 1], "/*") && Lacks(code[i + 2..], "*/");
      BeforeFirst(code, i);
      assert code == code[..i] + code[i..i + 2] + code[i + 2..];
      assert OpensAfter(code, code[..i], code[i + 2..]);
    }
    if a, b :| OpensAfter(code, a, b) {
      var i := |a|;
      assert code[i..i + 2] == "/*" && code[i + 2..] == b;
      BeforeFirst(code, i);
      assert OccursAt(code, "/*", i);
    }
  }

  /** Some line before opened a block comment, and no line since has closed it. */
  ghost predicate OpenedAt(rules: Rules, lines: seq<string>, h: nat, i: nat)
    requires i <= |lines|
  {
    && h < i && !InBlock(rules, lines, h) && Opens(rules.bare(Strip(lines[h])))
    && forall j :: h < j < i ==> Lacks(Strip(lines[j]), "*/")
  }

  /** A line starts inside a block comment exactly if an earlier one outside of any opened one that is not closed since. */
  lemma {:induction false} BlockExactly(rules: Rules, lines: seq<string>, i: nat)
    requires i <= |lines|
    ensures InBlock(rules, lines, i) <==> exists h: nat :: OpenedAt(rules, lines, h, i)
  {
    if i > 0 {
      BlockExactly(rules, lines, i - 1);
      if InBlock(rules, lines, i) {
        if InBlock(rules, lines, i - 1) {
          var h: nat :| OpenedAt(rules, lines, h, i - 1);
          assert OpenedAt(rules, lines, h, i);
        } else {
          assert OpenedAt(rules, lines, i - 1, i);
        }
      }
      if h: nat :| OpenedAt(rules, lines, h, i) {
        if h < i - 1 {
          assert OpenedAt(rules, lines, h, i - 1);
        }
      }
    }
  }

  // ---------------------------------------------------------------------------------------------
  // The lines of the output
  // ---------------------------------------------------------------------------------------------

  /** A line goes exactly if it reads like an instruction and stands in a document or in a comment. */
  lemma GoesExactly(rules: Rules, doc: bool, lines: seq<string>, i: nat)
    requires i < |lines|
    ensures Gone(rules, doc, lines)[i] <==>
            rules.instruction(lines[i]) && (doc || rules.comment(lines[i]) || exists h: nat :: OpenedAt(rules, lines, h, i))
  {
    BlockExactly(rules, lines, i);
  }

  lemma {:induction false} IndentOf(line: string) returns (rest: string)
    ensures line == LeadingSpace(line) + rest && (rest == "" || !IsSpace(rest[0]))
    ensures forall k :: 0 <= k < |LeadingSpace(line)| ==> IsSpace(LeadingSpace(line)[k])
  {
    if line == "" || !IsSpace(line[0]) {
      rest := line;
      assert line == "" + line;
    } else {
      rest := IndentOf(line[1..]);
      assert line == [line[0]] + line[1..];
    }
  }

  /** Each line is shown as it is, or as its indentation with the mark if it goes. */
  lemma ShownExactly(mark: Mark, gone: seq<bool>, lines: seq<string>, i: nat) returns (indent: string, rest: string)
    requires |gone| == |lines| && i < |lines|
    ensures var shown := ShownLines(mark, gone, lines, |lines|);
            |shown| == |lines| && shown[i] == if gone[i] then indent + mark else lines[i]
    ensures lines[i] == indent + rest && (forall k :: 0 <= k < |indent| ==> IsSpace(indent[k])) && (rest == "" || !IsSpace(rest[0]))
  {
    rest := IndentOf(lines[i]);
    indent := LeadingSpace(lines[i]);
  }

  /** These places, in order, are those of the lines that go among the first n. */
  ghost predicate ArePlaces(gone: seq<bool>, n: nat, places: seq<nat>)
    requires n <= |gone|
  {
    && (forall k :: 0 <= k < |places| ==> places[k] < n && gone[places[k]])
    && (forall k, l :: 0 <= k < l < |places| ==> places[k] < places[l])
    && forall i :: 0 <= i < n && gone[i] ==> i in places
  }

  ghost predicate AreLinesAt(lines: seq<string>, removed: seq<string>, places: seq<nat>) {
    |removed| == |places| && forall k :: 0 <= k < |places| ==> places[k] < |lines| && removed[k] == lines[places[k]]
  }

  function PlacesOf(gone: seq<bool>, n: nat): seq<nat>
    requires n <= |gone|
  {
    if n == 0 then [] else PlacesOf(gone, n - 1) + if gone[n - 1] then [n - 1] else []
  }

  lemma OneMorePlace(gone: seq<bool>, n: nat, places: seq<nat>)
    requires n < |gone| && ArePlaces(gone, n, places)
    ensures ArePlaces(gone, n + 1, places + if gone[n] then [n] else [])
  {
    forall i | 0 <= i <= n && gone[i] ensures i in places + if gone[n] then [n] else [] {
      assert i in places || i == n;
    }
  }

  lemma {:induction false} PlacesFacts(gone: seq<bool>, n: nat)
    requires n <= |gone|
    ensures ArePlaces(gone, n, PlacesOf(gone, n))
  {
    if n > 0 {
      PlacesFacts(gone, n - 1);
      OneMorePlace(gone, n - 1, PlacesOf(gone, n - 1));
    }
  }

  lemma {:induction false} LinesAtPlaces(gone: seq<bool>, lines: seq<string>, n: nat)
    requires |gone| == |lines| && n <= |lines|
    ensures AreLinesAt(lines, RemovedLines(gone, lines, n), PlacesOf(gone, n))
  {
    if n > 0 {
      LinesAtPlaces(gone, lines, n - 1);
    }
  }

  /** The removed lines are the raw lines that went, all of them and in order. */
  lemma RemovedExactly(gone: seq<bool>, lines: seq<string>, n: nat) returns (places: seq<nat>)
    requires |gone| == |lines| && n <= |lines|
    ensures ArePlaces(gone, n, places) && AreLinesAt(lines, RemovedLines(gone, lines, n), places)
  {
    places := PlacesOf(gone, n);
    PlacesFacts(gone, n);
    LinesAtPlaces(gone, lines, n);
  }

  /** The mark as the code writes it. */
  lemma MarkIs()
    ensures NEUTRALIZED == "[ReCoder: AI 에게 하는 지시처럼 보이는 줄이라 빼고 보냈습니다]"
  {
  }
}
