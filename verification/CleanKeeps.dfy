/**
 What cleaning keeps of a text: all but control characters, white space, the output marker, leading bullets and what
 lies beyond the limit.
 */
module CleanKeeps {
  import opened Wrappers
  import opened Text
  import opened CleanText

  /** The characters that are taken out, and those that count as line breaks and as bullets. */
  const CONTROLS := "\U{0}\U{1}\U{2}\U{3}\U{4}\U{5}\U{6}\U{7}\U{8}\U{E}\U{F}\U{10}\U{11}\U{12}\U{13}\U{14}\U{15}\U{16}\U{17}\U{18}\U{19}\U{1A}\U{1B}\U{1C}\U{1D}\U{1E}\U{1F}\U{7F}"
  const BREAKS := "\r\n\t\U{B}\U{C}\U{85}\U{2028}\U{2029}"
  const BULLETS := "-*\U{2022}"

  lemma CharactersAre(c: char)
    ensures IsControl(c) <==> c in CONTROLS
    ensures IsBreak(c) <==> c in BREAKS
    ensures IsBullet(c) <==> c in BULLETS
    ensures IsAsciiBreak(c) <==> c in "\r\n\t"
  {
  }

  /** The character unless it is white space. */
  function Letter(c: char): string {
    if IsSpace(c) then "" else [c]
  }

  /** The text without its white space. */
  function Letters(s: string): string {
    if s == "" then "" else Letter(s[0]) + Letters(s[1..])
  }

  /** The text without the characters of `bad`. */
  function Without(s: string, bad: string): string {
    if s == "" then "" else (if s[0] in bad then "" else [s[0]]) + Without(s[1..], bad)
  }

  lemma {:induction false} LettersAre(s: string)
    ensures Letters(s) == Without(s, SPACES)
  {
    if s != "" {
      LettersAre(s[1..]);
      SpacesAre(s[0]);
    }
  }

  // ---------------------------------------------------------------------------------------------
  // Words
  // ---------------------------------------------------------------------------------------------

  /** Each stretch of white space as one blank, but none at the end; `gap` if white space stands in front of the text. */
  function Spaced(s: string, gap: bool): string {
    if s == "" then ""
    else if IsSpace(s[0]) then Spaced(s[1..], true)
    else (if gap then " " else "") + [s[0]] + Spaced(s[1..], false)
  }

  /** The words of the text, each with one blank in front. */
  function WordsOf(s: string): string {
    Spaced(s, true)
  }

  predicate SameWords(a: string, b: string) {
    WordsOf(a) == WordsOf(b)
  }

  lemma SpacedCons(c: char, rest: string, gap: bool)
    ensures Spaced([c] + rest, gap) ==
            if IsSpace(c) then Spaced(rest, true) else (if gap then " " else "") + [c] + Spaced(rest, false)
  {
    assert ([c] + rest)[1..] == rest;
  }

  // ---------------------------------------------------------------------------------------------
  // Passes that touch white space only
  // ---------------------------------------------------------------------------------------------

  lemma {:induction false} StripLeftKeeps(s: string)
    ensures SameWords(StripLeft(s), s)
  {
    if s != "" && IsSpace(s[0]) {
      StripLeftKeeps(s[1..]);
    }
  }

  lemma {:induction false} BlankAtEnd(s: string, c: char, gap: bool)
    requires IsSpace(c)
    ensures Spaced(s + [c], gap) == Spaced(s, gap)
  {
    if s == "" {
      SpacedCons(c, "", gap);
      assert "" + [c] == [c] + "";
    } else {
      BlankAtEnd(s[1..], c, if IsSpace(s[0]) then true else false);
      assert s + [c] == [s[0]] + (s[1..] + [c]);
      SpacedCons(s[0], s[1..] + [c], gap);
    }
  }

  lemma {:induction false} StripRightKeeps(s: string)
    ensures SameWords(StripRight(s), s)
  {
    if s != "" && IsSpace(s[|s| - 1]) {
      var front, last := s[..|s| - 1], s[|s| - 1];
      assert s == front + [last];
      StripRightKeeps(front);
      BlankAtEnd(front, last, true);
    }
  }

  lemma StripKeeps(s: string)
    ensures SameWords(Strip(s), s)
  {
    StripLeftKeeps(s);
    StripRightKeeps(StripLeft(s));
  }

  lemma {:induction false} SkipBreaksKeeps(s: string, isBreak: char -> bool)
    requires forall c :: isBreak(c) ==> IsSpace(c)
    ensures SameWords(SkipBreaks(s, isBreak), s)
  {
    if s != "" && isBreak(s[0]) {
      SkipBreaksKeeps(s[1..], isBreak);
    }
  }

  lemma {:induction false} JoinLinesKeeps(s: string, isBreak: char -> bool, gap: bool)
    requires forall c :: isBreak(c) ==> IsSpace(c)
    ensures Spaced(JoinLines(s, isBreak), gap) == Spaced(s, gap)
    decreases |s|
  {
    if s != "" {
      if isBreak(s[0]) {
        var rest := SkipBreaks(s, isBreak);
        SkipBreaksKeeps(s, isBreak);
        JoinLinesKeeps(rest, isBreak, true);
        SpacedCons(' ', JoinLines(rest, isBreak), gap);
      } else {
        JoinLinesKeeps(s[1..], isBreak, IsSpace(s[0]));
        SpacedCons(s[0], JoinLines(s[1..], isBreak), gap);
      }
    }
  }

  lemma {:induction false} FoldKeeps(s: string, gap: bool)
    ensures Spaced(Fold(s), gap) == Spaced(s, gap)
    decreases |s|
  {
    if s != "" {
      if |s| >= 2 && IsSpace(s[0]) && IsSpace(s[1]) {
        StripLeftShorter(s);
        StripLeftKeeps(s);
        FoldKeeps(StripLeft(s), true);
        SpacedCons(' ', Fold(StripLeft(s)), gap);
      } else {
        FoldKeeps(s[1..], IsSpace(s[0]));
        SpacedCons(s[0], Fold(s[1..]), gap);
      }
    }
  }

  // ---------------------------------------------------------------------------------------------
  // The marker
  // ---------------------------------------------------------------------------------------------

  /** The words of a phrase with these stretches of white space between them. */
  function Spread(ws: seq<string>, gaps: seq<string>): string
    requires ws != [] && |gaps| == |ws| - 1
  {
    if |ws| == 1 then ws[0] else ws[0] + gaps[0] + Spread(ws[1..], gaps[1..])
  }

  predicate Blank(s: string) {
    forall i :: 0 <= i < |s| ==> IsSpace(s[i])
  }

  predicate AllBlank(gaps: seq<string>) {
    forall i :: 0 <= i < |gaps| ==> Blank(gaps[i])
  }

  predicate Words(ws: seq<string>) {
    ws != [] && forall i :: 0 <= i < |ws| ==> ws[i] != "" && !IsSpace(ws[i][0])
  }

  lemma BlankCons(c: char, gap: string, rest: string)
    requires IsSpace(c) && Blank(gap)
    ensures Blank([c] + gap) && [c] + (gap + rest) == [c] + gap + rest
  {
  }

  lemma {:induction false} StripLeftSplits(s: string) returns (gap: string)
    ensures s == gap + StripLeft(s) && Blank(gap)
  {
    if s == "" || !IsSpace(s[0]) {
      gap := "";
    } else {
      var more := StripLeftSplits(s[1..]);
      BlankCons(s[0], more, StripLeft(s[1..]));
      gap := [s[0]] + more;
      assert s == [s[0]] + s[1..];
    }
  }

  lemma {:induction false} StripLeftOfBlank(gap: string, s: string)
    requires Blank(gap) && (s == "" || !IsSpace(s[0]))
    ensures StripLeft(gap + s) == s
  {
    if gap == "" {
      assert gap + s == s;
    } else {
      assert (gap + s)[1..] == gap[1..] + s;
      StripLeftOfBlank(gap[1..], s);
    }
  }

  function Behind(s: string, next: string, more: Option<nat>): Option<nat>
    requires |next| <= |s|
  {
    if more.Some? then Some(|s| - |next| + more.value) else None
  }

  lemma MatchStep(s: string, ws: seq<string>)
    requires |ws| > 1 && ws[0] <= s
    ensures var next := AfterWord(s, ws[0], false); Match(s, ws) == Behind(s, next, Match(next, ws[1..]))
  {
    var next := AfterWord(s, ws[0], |ws| == 1);
    var more := Match(next, ws[1..]);
    assert Match(s, ws) == Behind(s, next, more);
  }

  lemma MatchOne(s: string, ws: seq<string>)
    requires |ws| == 1
    ensures Match(s, ws) == if ws[0] <= s then Some(|ws[0]|) else None
  {
    if ws[0] <= s {
      assert Match(s[|ws[0]|..], ws[1..]) == Some(0);
    }
  }

  lemma PrefixOfThree(a: string, b: string, c: string, k: nat)
    requires k <= |c|
    ensures (a + b + c)[..|a| + |b| + k] == a + b + c[..k]
  {
  }

  lemma SpreadStep(ws: seq<string>, gap: string, more: seq<string>, next: string, n: nat)
    requires |ws| > 1 && |more| == |ws| - 2 && n <= |next| && next[..n] == Spread(ws[1..], more)
    ensures (ws[0] + gap + next)[..|ws[0]| + |gap| + n] == Spread(ws, [gap] + more)
  {
    PrefixOfThree(ws[0], gap, next, n);
    assert ([gap] + more)[1..] == more;
  }

  /** A first word, the white space behind it, and the rest. */
  lemma WordInFront(s: string, w: string) returns (gap: string)
    requires w <= s
    ensures s == w + gap + StripLeft(s[|w|..]) && Blank(gap) && |s| == |w| + |gap| + |StripLeft(s[|w|..])|
  {
    gap := StripLeftSplits(s[|w|..]);
  }

  /** What is matched is the words with white space between them. */
  lemma {:induction false} MatchIsSpread(s: string, ws: seq<string>) returns (gaps: seq<string>)
    requires Words(ws) && Match(s, ws).Some?
    ensures |gaps| == |ws| - 1 && AllBlank(gaps) && s[..Match(s, ws).value] == Spread(ws, gaps)
    decreases |ws|
  {
    if |ws| == 1 {
      gaps := [];
      MatchOne(s, ws);
    } else {
      var gap := WordInFront(s, ws[0]);
      var next := StripLeft(s[|ws[0]|..]);
      MatchStep(s, ws);
      var more := MatchIsSpread(next, ws[1..]);
      SpreadStep(ws, gap, more, next, Match(next, ws[1..]).value);
      gaps := [gap] + more;
    }
  }

  /** And wherever a text starts like that, it matches. */
  lemma {:induction false} SpreadMatches(ws: seq<string>, gaps: seq<string>, tail: string)
    requires Words(ws) && |gaps| == |ws| - 1 && AllBlank(gaps)
    ensures Match(Spread(ws, gaps) + tail, ws) == Some(|Spread(ws, gaps)|)
    decreases |ws|
  {
    var s := Spread(ws, gaps) + tail;
    if |ws| == 1 {
      assert ws[0] <= s;
      MatchOne(s, ws);
    } else {
      var next := Spread(ws[1..], gaps[1..]) + tail;
      SpreadMatches(ws[1..], gaps[1..], tail);
      assert ws[0] <= s && s[|ws[0]|..] == gaps[0] + next;
      FirstOfSpread(ws[1..], gaps[1..], tail);
      StripLeftOfBlank(gaps[0], next);
      MatchStep(s, ws);
    }
  }

  lemma FirstOfSpread(ws: seq<string>, gaps: seq<string>, tail: string)
    requires Words(ws) && |gaps| == |ws| - 1
    ensures var s := Spread(ws, gaps) + tail; s != "" && !IsSpace(s[0])
  {
    assert ws[0] <= Spread(ws, gaps) + tail;
    assert (Spread(ws, gaps) + tail)[0] == ws[0][0];
  }

  /** A text starts with the phrase exactly if it starts with its words, any white space or none between them. */
  lemma MatchExactly(s: string, ws: seq<string>, n: nat)
    requires Words(ws)
    ensures Match(s, ws) == Some(n) <==>
            exists gaps :: |gaps| == |ws| - 1 && AllBlank(gaps) && n <= |s| && s[..n] == Spread(ws, gaps)
  {
    if Match(s, ws) == Some(n) {
      var gaps := MatchIsSpread(s, ws);
    }
    if gaps :| |gaps| == |ws| - 1 && AllBlank(gaps) && n <= |s| && s[..n] == Spread(ws, gaps) {
      SpreadMatches(ws, gaps, s[n..]);
      assert s == Spread(ws, gaps) + s[n..];
    }
  }

  /** An occurrence of a phrase: what stands in front of it, the white space between its words, and what follows. */
  datatype Found = Found(front: string, gaps: seq<string>, back: string)
  {
    predicate Fits(p: Phrase) { |gaps| == |p| - 1 && AllBlank(gaps) }
    function With(p: Phrase): string requires Fits(p) { front + Spread(p, gaps) + back }
    function Rest(): string { front + back }
  }

  /** Taking these occurrences out, one after the other, turns `x` into `y`. */
  predicate Drops(x: string, y: string, p: Phrase, found: seq<Found>)
    decreases |found|
  {
    if found == [] then x == y
    else found[0].Fits(p) && x == found[0].With(p) && Drops(found[0].Rest(), y, p, found[1..])
  }

  lemma DropFirst(f: Found, y: string, p: Phrase, found: seq<Found>)
    requires f.Fits(p) && Drops(f.Rest(), y, p, found)
    ensures Drops(f.With(p), y, p, [f] + found)
  {
    assert ([f] + found)[1..] == found;
  }

  lemma Behind3(c: string, a: string, m: string, b: string)
    ensures c + (a + m + b) == (c + a) + m + b
  {
  }

  lemma {:induction false} DropsBehind(c: string, x: string, y: string, p: Phrase, found: seq<Found>) returns (found': seq<Found>)
    requires Drops(x, y, p, found)
    ensures Drops(c + x, c + y, p, found')
    decreases |found|
  {
    if found == [] {
      found' := [];
    } else {
      var f := found[0];
      var more := DropsBehind(c, f.Rest(), y, p, found[1..]);
      var f' := f.(front := c + f.front);
      Behind3(c, f.front, Spread(p, f.gaps), f.back);
      Behind3(c, f.front, "", f.back);
      assert f.front + "" == f.front && f'.front + "" == f'.front;
      DropFirst(f', c + y, p, more);
      found' := [f'] + more;
    }
  }

  lemma InFront(s: string, n: nat, w: string)
    requires n <= |s| && s[..n] == w
    ensures s == "" + w + s[n..] && "" + s[n..] == s[n..]
  {
  }

  /** One step of the removal, where the phrase stands and where it does not. */
  lemma RemovalStep(s: string, p: Phrase, n: nat)
    requires s != "" && Match(s, p) == Some(n)
    ensures 0 < n <= |s| && RemovePhrase(s, p) == RemovePhrase(s[n..], p)
  {
  }

  lemma RemovalMatched(s: string, p: Phrase) returns (f: Found)
    requires s != "" && Match(s, p).Some?
    ensures f.Fits(p) && s == f.With(p) && |f.Rest()| < |s| && RemovePhrase(s, p) == RemovePhrase(f.Rest(), p)
  {
    var n := Match(s, p).value;
    var gaps := MatchIsSpread(s, p);
    RemovalStep(s, p, n);
    InFront(s, n, Spread(p, gaps));
    f := Found("", gaps, s[n..]);
  }

  lemma RemovalKept(s: string, p: Phrase)
    requires s != "" && Match(s, p).None?
    ensures RemovePhrase(s, p) == [s[0]] + RemovePhrase(s[1..], p)
  {
  }

  lemma FirstAndRest(s: string)
    requires s != ""
    ensures s == [s[0]] + s[1..]
  {
  }

  lemma {:induction false} RemovePhraseDrops(s: string, p: Phrase) returns (found: seq<Found>)
    ensures Drops(s, RemovePhrase(s, p), p, found)
    decreases |s|
  {
    if s == "" {
      found := [];
    } else if Match(s, p).Some? {
      var f := RemovalMatched(s, p);
      var more := RemovePhraseDrops(f.Rest(), p);
      DropFirst(f, RemovePhrase(s, p), p, more);
      found := [f] + more;
    } else {
      RemovalKept(s, p);
      FirstAndRest(s);
      var rest := RemovePhraseDrops(s[1..], p);
      found := DropsBehind([s[0]], s[1..], RemovePhrase(s[1..], p), p, rest);
    }
  }

  /** Up to white space, taking these occurrences out, one after the other, turns `x` into `y`. */
  predicate Reduces(x: string, y: string, p: Phrase, found: seq<Found>)
    decreases |found|
  {
    if found == [] then SameWords(x, y)
    else found[0].Fits(p) && SameWords(x, found[0].With(p)) && Reduces(found[0].Rest(), y, p, found[1..])
  }

  lemma {:induction false} DropsReduces(x: string, y: string, p: Phrase, found: seq<Found>)
    requires Drops(x, y, p, found)
    ensures Reduces(x, y, p, found)
    decreases |found|
  {
    if found != [] {
      DropsReduces(found[0].Rest(), y, p, found[1..]);
    }
  }

  lemma SameReduces(x: string, y: string, z: string, p: Phrase, found: seq<Found>)
    requires SameWords(x, y) && Reduces(y, z, p, found)
    ensures Reduces(x, z, p, found)
  {
  }

  lemma {:induction false} ReducesOn(x: string, y: string, z: string, p: Phrase, found: seq<Found>, more: seq<Found>)
    requires Reduces(x, y, p, found) && Reduces(y, z, p, more)
    ensures Reduces(x, z, p, found + more)
    decreases |found|
  {
    if found == [] {
      SameReduces(x, y, z, p, more);
      assert found + more == more;
    } else {
      ReducesOn(found[0].Rest(), y, z, p, found[1..], more);
      assert (found + more)[1..] == found[1..] + more;
    }
  }

  lemma ReducesToSame(x: string, y: string, z: string, p: Phrase, found: seq<Found>)
    requires Reduces(x, y, p, found) && SameWords(y, z)
    ensures Reduces(x, z, p, found)
  {
    ReducesOn(x, y, z, p, found, []);
    assert found + [] == found;
  }

  lemma PassReduces(s: string, p: Phrase) returns (found: seq<Found>)
    ensures Reduces(s, Pass(s, p), p, found)
  {
    var joined := JoinLines(s, IsBreak);
    var removed := RemovePhrase(joined, p);
    JoinLinesKeeps(s, IsBreak, true);
    found := RemovePhraseDrops(joined, p);
    DropsReduces(joined, removed, p, found);
    SameReduces(s, joined, removed, p, found);
    FoldKeeps(removed, true);
    ReducesToSame(s, removed, Pass(s, p), p, found);
  }

  lemma SettleStep(s: string, p: Phrase, t: string)
    requires t == Pass(s, p)
    ensures t == s ==> Settle(s, p) == s
    ensures t != s ==> Settle(s, p) == Settle(t, p) && (|t| < |s| || (|t| == |s| && Breaks(t) < Breaks(s)))
  {
    PassShrinks(s, p);
  }

  lemma {:induction false} SettleReduces(s: string, p: Phrase) returns (found: seq<Found>)
    ensures Reduces(s, Settle(s, p), p, found)
    decreases |s|, Breaks(s)
  {
    var t := Pass(s, p);
    SettleStep(s, p, t);
    if t == s {
      found := [];
    } else {
      var first := PassReduces(s, p);
      var more := SettleReduces(t, p);
      ReducesOn(s, t, Settle(t, p), p, first, more);
      found := first + more;
    }
  }

  // ---------------------------------------------------------------------------------------------
  // Bullets and the limit
  // ---------------------------------------------------------------------------------------------

  /** Bullets, white space behind each of them, and nothing else. */
  predicate OnlyBullets(b: string) {
    && (forall i :: 0 <= i < |b| ==> b[i] in BULLETS || IsSpace(b[i]))
    && forall i :: 0 <= i < |b| && b[i] in BULLETS ==> i + 1 < |b| && IsSpace(b[i + 1])
  }

  lemma BulletInFront(c: char, gap: string, b: string)
    requires IsBullet(c) && gap != "" && Blank(gap) && OnlyBullets(b)
    ensures OnlyBullets([c] + gap + b)
  {
    var all := [c] + gap + b;
    CharactersAre(c);
    forall i | 0 <= i < |all| && all[i] in BULLETS ensures i + 1 < |all| && IsSpace(all[i + 1]) {
      if i == 0 {
        assert all[1] == gap[0];
      } else if i <= |gap| {
        assert all[i] == gap[i - 1];
        BulletIsNoSpace(all[i]);
      } else {
        assert all[i] == b[i - 1 - |gap|] && all[i + 1] == b[i - |gap|];
      }
    }
    forall i | 0 <= i < |all| ensures all[i] in BULLETS || IsSpace(all[i]) {
      if 0 < i <= |gap| {
        assert all[i] == gap[i - 1];
      } else if i > |gap| {
        assert all[i] == b[i - 1 - |gap|];
      }
    }
  }

  lemma BulletIsNoSpace(c: char)
    ensures c in BULLETS ==> !IsSpace(c)
  {
  }

  /** White space in front, some if the text starts with it. */
  lemma GapInFront(s: string) returns (gap: string)
    requires s != "" && IsSpace(s[0])
    ensures s == gap + StripLeft(s) && Blank(gap) && gap != ""
  {
    var more := StripLeftSplits(s[1..]);
    BlankCons(s[0], more, StripLeft(s[1..]));
    gap := [s[0]] + more;
    assert s == [s[0]] + s[1..];
  }

  lemma UnbulletStep(s: string) returns (gap: string)
    requires |s| >= 2 && IsBullet(s[0]) && IsSpace(s[1])
    ensures var t := StripLeft(s[1..]);
            |t| < |s| && Unbullet(s) == Unbullet(t) && gap != "" && Blank(gap) && s == [s[0]] + gap + t
  {
    StripLeftShorter(s[1..]);
    gap := GapInFront(s[1..]);
    BulletThen(s, gap, StripLeft(s[1..]));
  }

  lemma BulletThen(s: string, gap: string, t: string)
    requires s != "" && s[1..] == gap + t
    ensures s == [s[0]] + gap + t
  {
    assert s == [s[0]] + s[1..];
  }

  lemma {:induction false} UnbulletDrops(s: string) returns (b: string)
    ensures s == b + Unbullet(s) && OnlyBullets(b)
    decreases |s|
  {
    if |s| >= 2 && IsBullet(s[0]) && IsSpace(s[1]) {
      var gap := UnbulletStep(s);
      var more := UnbulletDrops(StripLeft(s[1..]));
      BulletInFront(s[0], gap, more);
      b := [s[0]] + gap + more;
    } else {
      b := "";
    }
  }

  /** Cutting a trimmed text without double blanks costs at most the blank at the cut. */
  lemma CutKeeps(u: string, limit: nat)
    requires Trimmed(u) && NoDouble(u)
    ensures var r := Strip(Take(u, limit));
            r <= u && (|u| <= limit ==> r == u) && (|u| > limit > 0 ==> |r| == limit || (|r| == limit - 1 && IsSpace(u[limit - 1])))
  {
    var t := Take(u, limit);
    if |u| <= limit {
      StripFacts(u);
    } else if limit > 0 {
      assert StripLeft(t) == t;
      if IsSpace(t[limit - 1]) {
        assert limit > 1;
        assert !IsSpace(t[limit - 2]);
        assert StripRight(t) == StripRight(t[..limit - 1]) == t[..limit - 1];
      }
    }
  }

  lemma EndsAlike(t: string, a: string, u: string)
    requires t == a + u && Trimmed(t) && (u == "" || !IsSpace(u[0]))
    ensures Trimmed(u)
  {
    assert u != "" ==> u[|u| - 1] == t[|t| - 1];
  }

  lemma UncutIsTrimmed(s: string, p: Phrase)
    ensures var u := Unbullet(Strip(Settle(s, p)));
            Trimmed(u) && NoDouble(u)
  {
    var settled := Settle(s, p);
    var t := Strip(settled);
    StripFacts(settled);
    SettleSettles(s, p);
    var a := UnbulletInside(t);
    EndsAlike(t, a, Unbullet(t));
    NoDoubleInside(settled, p, t, a, Unbullet(t));
  }

  lemma NoDoubleInside(s: string, p: Phrase, t: string, a: string, u: string)
    requires NoDouble(s) && t == Strip(s) && t == a + u
    ensures NoDouble(u)
  {
    var x, y := StripSplits(s);
    forall i | 0 <= i < |u| - 1 ensures !(IsSpace(u[i]) && IsSpace(u[i + 1])) {
      var k := |x| + |a| + i;
      assert s[k] == u[i] && s[k + 1] == u[i + 1];
    }
  }

  lemma Rejoined(x: string, r: string, y: string)
    ensures x + (r + y) == x + r + y
  {
  }

  lemma RightSplits(t: string) returns (y: string)
    ensures t == StripRight(t) + y
  {
    StripRightFacts(t);
    y := t[|StripRight(t)|..];
  }

  lemma StripSplits(s: string) returns (x: string, y: string)
    ensures s == x + Strip(s) + y
  {
    x := StripLeftSplits(s);
    y := RightSplits(StripLeft(s));
    Rejoined(x, Strip(s), y);
  }

  /**
   What cleaning keeps.  Without its control characters the text loses occurrences of the marker, which are taken out
   one after the other, and bullets in front; words stay apart or together as they were.  Of the rest `u` the result is
   all of it, or as much as the limit lets in, less a blank at the cut.
   */
  lemma CleanKeepsTheRest(s: string, limit: nat, p: Phrase) returns (found: seq<Found>, b: string, u: string)
    ensures Reduces(RemoveControls(s), b + u, p, found) && OnlyBullets(b)
    ensures var r := Clean(s, limit, p);
            && r <= u && (|u| <= limit ==> r == u)
            && (|u| > limit > 0 ==> |r| == limit || (|r| == limit - 1 && IsSpace(u[limit - 1])))
  {
    var t := RemoveControls(s);
    var settled := Settle(t, p);
    found := SettleReduces(t, p);
    StripKeeps(settled);
    ReducesToSame(t, settled, Strip(settled), p, found);
    b := UnbulletDrops(Strip(settled));
    u := Unbullet(Strip(settled));
    UncutIsTrimmed(t, p);
    CutKeeps(u, limit);
  }

  /** Taking out control characters leaves all others in order. */
  lemma {:induction false} ControlsOnly(s: string)
    ensures RemoveControls(s) == Without(s, CONTROLS)
  {
    if s != "" {
      ControlsOnly(s[1..]);
      CharactersAre(s[0]);
    }
  }

  /** The words of the marker that cleaning takes out. */
  lemma MarkerIs()
    ensures OUTPUT_MARKER == ["아래", "JSON", "형식으로만", "응답하세요"]
  {
  }

  /** A decision field keeps its words, up to the limit. */
  lemma FieldKeepsTheRest(s: string, limit: nat) returns (u: string)
    ensures SameWords(u, s)
    ensures var r := CleanField(s, limit);
            && r <= u && (|u| <= limit ==> r == u)
            && (|u| > limit > 0 ==> |r| == limit || (|r| == limit - 1 && IsSpace(u[limit - 1])))
  {
    JoinLinesKeeps(s, IsAsciiBreak, true);
    FoldKeeps(JoinLines(s, IsAsciiBreak), true);
    var f := Fold(JoinLines(s, IsAsciiBreak));
    StripKeeps(f);
    u := Strip(f);
    StripFacts(f);
    FoldFacts(JoinLines(s, IsAsciiBreak));
    NoDoubleOfStrip(f, u);
    CutKeeps(u, limit);
  }

  lemma NoDoubleOfStrip(s: string, u: string)
    requires NoDouble(s) && u == Strip(s)
    ensures NoDouble(u)
  {
    var x, y := StripSplits(s);
    forall i | 0 <= i < |u| - 1 ensures !(IsSpace(u[i]) && IsSpace(u[i + 1])) {
      assert s[|x| + i] == u[i] && s[|x| + i + 1] == u[i + 1];
    }
  }
}
