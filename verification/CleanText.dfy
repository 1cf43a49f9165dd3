/**
 The normal forms for untrusted text: one line, white space folded, bullets and the output marker gone, cut to a limit.
 Both of them are idempotent.
 */
module CleanText {
  import opened Wrappers
  import opened Text

  // ---------------------------------------------------------------------------------------------
  // The single passes
  // ---------------------------------------------------------------------------------------------

  /** Everything that acts as a line break, Unicode separators included. */
  predicate IsBreak(c: char) {
    var n := c as int;
    9 <= n <= 13 || n == 0x85 || n == 0x2028 || n == 0x2029
  }

  /** The breaks that decisions are cleaned of. */
  predicate IsAsciiBreak(c: char) {
    c == '\r' || c == '\n' || c == '\t'
  }

  predicate IsControl(c: char) {
    var n := c as int;
    n <= 8 || 14 <= n <= 31 || n == 127
  }

  predicate IsBullet(c: char) {
    c == '-' || c == '*' || c == '•'
  }

  predicate Free(s: string, bad: char -> bool) {
    forall i :: 0 <= i < |s| ==> !bad(s[i])
  }

  function RemoveControls(s: string): string {
    if s == "" then "" else (if IsControl(s[0]) then "" else [s[0]]) + RemoveControls(s[1..])
  }

  function SkipBreaks(s: string, isBreak: char -> bool): (r: string)
    ensures |r| <= |s|
    ensures s != "" && isBreak(s[0]) ==> |r| < |s|
  {
    if s == "" || !isBreak(s[0]) then s else SkipBreaks(s[1..], isBreak)
  }

  /** Each run of breaks becomes one blank. */
  function JoinLines(s: string, isBreak: char -> bool): string
    decreases |s|
  {
    if s == "" then ""
    else if isBreak(s[0]) then " " + JoinLines(SkipBreaks(s, isBreak), isBreak)
    else [s[0]] + JoinLines(s[1..], isBreak)
  }

  /** Each run of two or more white-space characters becomes one blank. */
  function Fold(s: string): string
    decreases |s|
  {
    if s == "" then ""
    else if |s| >= 2 && IsSpace(s[0]) && IsSpace(s[1]) then
      StripLeftShorter(s);
      " " + Fold(StripLeft(s))
    else [s[0]] + Fold(s[1..])
  }

  /** Words of a phrase: white space between them may differ or be missing. */
  type Phrase = ws: seq<string> | ws != [] && forall i :: 0 <= i < |ws| ==> ws[i] != "" && !IsSpace(ws[i][0]) witness ["x"]

  const OUTPUT_MARKER: Phrase := ["아래", "JSON", "형식으로만", "응답하세요"]

  /** What is left behind a word and, if more words follow, behind the white space after it. */
  function AfterWord(s: string, w: string, last: bool): (rest: string)
    requires w <= s
    ensures |rest| <= |s| - |w|
  {
    StripLeftShorter(s[|w|..]);
    if last then s[|w|..] else StripLeft(s[|w|..])
  }

  /** How much of the text, from its start, is the phrase. */
  function Match(s: string, ws: seq<string>): (r: Option<nat>)
    ensures r.Some? ==> r.value <= |s|
    ensures r.Some? && ws != [] ==> |ws[0]| <= r.value
    decreases |ws|
  {
    if ws == [] then Some(0)
    else if !(ws[0] <= s) then None
    else
      var next := AfterWord(s, ws[0], |ws| == 1);
      match Match(next, ws[1..])
      case Some(n) => Some(|s| - |next| + n)
      case None => None
  }

  function RemovePhrase(s: string, p: Phrase): string
    decreases |s|
  {
    if s == "" then ""
    else
      match Match(s, p)
      case Some(n) => RemovePhrase(s[n..], p)
      case None => [s[0]] + RemovePhrase(s[1..], p)
  }

  /** `^(?:[-*•]\s+)+` at the start. */
  function Unbullet(s: string): string
    decreases |s|
  {
    if |s| >= 2 && IsBullet(s[0]) && IsSpace(s[1]) then
      StripLeftShorter(s[1..]);
      Unbullet(StripLeft(s[1..]))
    else s
  }

  function Take(s: string, limit: nat): string {
    if |s| <= limit then s else s[..limit]
  }

  // ---------------------------------------------------------------------------------------------
  // The cleaning functions
  // ---------------------------------------------------------------------------------------------

  function Pass(s: string, p: Phrase): string {
    Fold(RemovePhrase(JoinLines(s, IsBreak), p))
  }

  function Breaks(s: string): nat {
    if s == "" then 0 else (if IsBreak(s[0]) then 1 else 0) + Breaks(s[1..])
  }

  /** Passes until one changes nothing: each that changes something shortens the text or takes breaks out of it. */
  function Settle(s: string, p: Phrase): string
    decreases |s|, Breaks(s)
  {
    PassShrinks(s, p);
    if Pass(s, p) == s then s else Settle(Pass(s, p), p)
  }

  function Clean(s: string, limit: nat, p: Phrase): string {
    Strip(Take(Unbullet(Strip(Settle(RemoveControls(s), p))), limit))
  }

  method CleanOnce(value: string, limit: nat, p: Phrase) returns (text: string)
    ensures text == Clean(value, limit, p)
  {
    text := RemoveControls(value);
    var changed := true;
    while changed
      invariant Settle(text, p) == Settle(RemoveControls(value), p)
      invariant !changed ==> Settle(text, p) == text
      decreases changed, |text|, Breaks(text)
    {
      var before := text;
      PassShrinks(text, p);
      text := JoinLines(text, IsBreak);
      text := RemovePhrase(text, p);
      text := Fold(text);
      changed := before != text;
    }
    text := Unbullet(Strip(text));
    text := Strip(Take(text, limit));
  }

  /** The cleaning of decision fields and option keys. */
  function CleanField(s: string, limit: nat): string {
    Strip(Take(Strip(Fold(JoinLines(s, IsAsciiBreak))), limit))
  }

  // ---------------------------------------------------------------------------------------------
  // What each pass does to the length
  // ---------------------------------------------------------------------------------------------

  predicate NoPhrase(s: string, p: Phrase) {
    forall i :: 0 <= i < |s| ==> Match(s[i..], p).None?
  }

  predicate NoDouble(s: string) {
    forall i :: 0 <= i < |s| - 1 ==> !(IsSpace(s[i]) && IsSpace(s[i + 1]))
  }

  lemma {:induction false} JoinLinesFacts(s: string, isBreak: char -> bool)
    requires !isBreak(' ')
    ensures |JoinLines(s, isBreak)| <= |s| && Free(JoinLines(s, isBreak), isBreak)
    ensures Free(s, isBreak) ==> JoinLines(s, isBreak) == s
    decreases |s|
  {
    if s != "" {
      if isBreak(s[0]) {
        JoinLinesFacts(SkipBreaks(s, isBreak), isBreak);
      } else {
        JoinLinesFacts(s[1..], isBreak);
      }
    }
  }

  lemma {:induction false} RemovePhraseFacts(s: string, p: Phrase)
    ensures |RemovePhrase(s, p)| <= |s|
    ensures |RemovePhrase(s, p)| == |s| ==> RemovePhrase(s, p) == s && NoPhrase(s, p)
    ensures NoPhrase(s, p) ==> RemovePhrase(s, p) == s
    decreases |s|
  {
    if s != "" {
      assert s[0..] == s;
      match Match(s, p)
      case Some(n) =>
        RemovePhraseFacts(s[n..], p);
      case None =>
        RemovePhraseFacts(s[1..], p);
        assert forall i :: 1 <= i < |s| ==> s[i..] == s[1..][i - 1..];
        assert NoPhrase(s, p) ==> NoPhrase(s[1..], p) by {
          forall i | 0 <= i < |s[1..]| ensures s[1..][i..] == s[i + 1..] {
          }
        }
    }
  }

  lemma {:induction false} FoldFacts(s: string)
    ensures |Fold(s)| <= |s| && (|Fold(s)| == |s| ==> Fold(s) == s)
    ensures NoDouble(s) ==> Fold(s) == s
    ensures NoDouble(Fold(s))
    ensures s != "" && !IsSpace(s[0]) ==> Fold(s) != "" && Fold(s)[0] == s[0]
    ensures s == "" ==> Fold(s) == ""
    decreases |s|
  {
    if s != "" {
      if |s| >= 2 && IsSpace(s[0]) && IsSpace(s[1]) {
        StripLeftShorter(s);
        FoldFacts(StripLeft(s));
      } else {
        FoldFacts(s[1..]);
      }
    }
  }

  lemma {:induction false} NoBreaks(s: string)
    ensures Breaks(s) == 0 <==> Free(s, IsBreak)
  {
    if s != "" {
      NoBreaks(s[1..]);
      assert forall i :: 1 <= i < |s| ==> s[i] == s[1..][i - 1];
    }
  }

  /** A pass that changes the text shortens it, or keeps its length and takes every break out of it. */
  lemma PassShrinks(s: string, p: Phrase)
    ensures Pass(s, p) == s || |Pass(s, p)| < |s| || (|Pass(s, p)| == |s| && Breaks(Pass(s, p)) < Breaks(s))
  {
    var a := JoinLines(s, IsBreak);
    JoinLinesFacts(s, IsBreak);
    RemovePhraseFacts(a, p);
    FoldFacts(RemovePhrase(a, p));
    if |Pass(s, p)| == |s| {
      NoBreaks(a);
      NoBreaks(s);
    }
  }

  // ---------------------------------------------------------------------------------------------
  // Settled text
  // ---------------------------------------------------------------------------------------------

  predicate Settled(s: string, p: Phrase) {
    Free(s, IsBreak) && NoPhrase(s, p) && NoDouble(s)
  }

  lemma SettledIsFixed(s: string, p: Phrase)
    ensures Settled(s, p) <==> Pass(s, p) == s
    ensures Settled(s, p) ==> Settle(s, p) == s
  {
    var a := JoinLines(s, IsBreak);
    JoinLinesFacts(s, IsBreak);
    RemovePhraseFacts(a, p);
    FoldFacts(RemovePhrase(a, p));
  }

  lemma {:induction false} SettleSettles(s: string, p: Phrase)
    ensures Settled(Settle(s, p), p)
    decreases |s|, Breaks(s)
  {
    PassShrinks(s, p);
    if Pass(s, p) == s {
      SettledIsFixed(s, p);
    } else {
      SettleSettles(Pass(s, p), p);
    }
  }

  lemma {:induction false} MatchInLonger(x: string, y: string, ws: seq<string>)
    requires Match(x, ws).Some? && forall i :: 0 <= i < |ws| ==> ws[i] != "" && !IsSpace(ws[i][0])
    ensures Match(x + y, ws).Some?
    decreases |ws|
  {
    if ws != [] {
      assert ws[0] <= x + y;
      var rest := x[|ws[0]|..];
      assert (x + y)[|ws[0]|..] == rest + y;
      if |ws| > 1 {
        MatchInLonger(StripLeft(rest), y, ws[1..]);
        assert ws[1] <= StripLeft(rest);
        StripLeftOf(rest, y);
      } else {
        MatchInLonger(rest, y, ws[1..]);
      }
    }
  }

  lemma {:induction false} StripLeftOf(x: string, y: string)
    requires StripLeft(x) != ""
    ensures StripLeft(x + y) == StripLeft(x) + y
  {
    if IsSpace(x[0]) {
      assert (x + y)[1..] == x[1..] + y;
      StripLeftOf(x[1..], y);
    }
  }

  /** Part of a settled text is settled. */
  lemma PartIsSettled(a: string, s: string, b: string, p: Phrase)
    requires Settled(a + s + b, p)
    ensures Settled(s, p)
  {
    var t := a + s + b;
    assert forall i :: 0 <= i < |s| ==> s[i] == t[|a| + i];
    forall i | 0 <= i < |s| ensures Match(s[i..], p).None? {
      assert t[|a| + i..] == s[i..] + b;
      if Match(s[i..], p).Some? {
        MatchInLonger(s[i..], b, p);
      }
    }
    forall i | 0 <= i < |s| - 1 ensures !(IsSpace(s[i]) && IsSpace(s[i + 1])) {
      assert s[i] == t[|a| + i] && s[i + 1] == t[|a| + i + 1];
    }
  }

  // ---------------------------------------------------------------------------------------------
  // Control characters
  // ---------------------------------------------------------------------------------------------

  lemma {:induction false} RemoveControlsFacts(s: string)
    ensures Free(RemoveControls(s), IsControl) && (Free(s, IsControl) ==> RemoveControls(s) == s)
  {
    if s != "" {
      RemoveControlsFacts(s[1..]);
      assert Free(s, IsControl) ==> Free(s[1..], IsControl);
    }
  }

  /** The passes bring in no characters but blanks. */
  predicate From(s: string, t: string) {
    forall i :: 0 <= i < |s| ==> s[i] == ' ' || s[i] in t
  }

  lemma {:induction false} SkipBreaksFrom(s: string, isBreak: char -> bool)
    ensures From(SkipBreaks(s, isBreak), s)
  {
    if s != "" && isBreak(s[0]) {
      SkipBreaksFrom(s[1..], isBreak);
    }
  }

  lemma {:induction false} StripLeftFrom(s: string)
    ensures From(StripLeft(s), s)
  {
    if s != "" && IsSpace(s[0]) {
      StripLeftFrom(s[1..]);
    }
  }

  lemma {:induction false} JoinLinesFrom(s: string, isBreak: char -> bool)
    ensures From(JoinLines(s, isBreak), s)
    decreases |s|
  {
    if s != "" {
      if isBreak(s[0]) {
        SkipBreaksFrom(s, isBreak);
        JoinLinesFrom(SkipBreaks(s, isBreak), isBreak);
      } else {
        JoinLinesFrom(s[1..], isBreak);
      }
    }
  }

  lemma {:induction false} RemovePhraseFrom(s: string, p: Phrase)
    ensures From(RemovePhrase(s, p), s)
    decreases |s|
  {
    if s != "" {
      match Match(s, p)
      case Some(n) => RemovePhraseFrom(s[n..], p);
      case None => RemovePhraseFrom(s[1..], p);
    }
  }

  lemma {:induction false} FoldFrom(s: string)
    ensures From(Fold(s), s)
    decreases |s|
  {
    if s != "" {
      if |s| >= 2 && IsSpace(s[0]) && IsSpace(s[1]) {
        StripLeftShorter(s);
        StripLeftFrom(s);
        FoldFrom(StripLeft(s));
      } else {
        FoldFrom(s[1..]);
      }
    }
  }

  lemma {:induction false} SettleKeepsOut(s: string, p: Phrase)
    requires Free(s, IsControl)
    ensures Free(Settle(s, p), IsControl)
    decreases |s|, Breaks(s)
  {
    PassShrinks(s, p);
    if Pass(s, p) != s {
      JoinLinesFrom(s, IsBreak);
      RemovePhraseFrom(JoinLines(s, IsBreak), p);
      FoldFrom(RemovePhrase(JoinLines(s, IsBreak), p));
      SettleKeepsOut(Pass(s, p), p);
    }
  }

  // ---------------------------------------------------------------------------------------------
  // Idempotence
  // ---------------------------------------------------------------------------------------------

  lemma Regrouped(x: char, rest: string, b: string, mid: string, c: string, u: string)
    requires rest == b + mid && mid == c + u
    ensures [x] + rest == ([x] + b + c) + u
  {
  }

  /** Taking off one bullet and the spaces behind it. */
  lemma OneBullet(s: string)
    requires |s| >= 2 && IsBullet(s[0]) && IsSpace(s[1])
    ensures |StripLeft(s[1..])| < |s| && Unbullet(s) == Unbullet(StripLeft(s[1..]))
    ensures StripLeft(s[1..]) == "" || !IsSpace(StripLeft(s[1..])[0])
    ensures s == [s[0]] + s[1..]
  {
    StripLeftShorter(s[1..]);
  }

  lemma {:induction false} UnbulletedStaysSo(s: string)
    requires s == "" || !IsSpace(s[0])
    ensures Unbullet(s) == "" || !IsSpace(Unbullet(s)[0])
    ensures Unbullet(Unbullet(s)) == Unbullet(s)
    decreases |s|
  {
    if |s| >= 2 && IsBullet(s[0]) && IsSpace(s[1]) {
      OneBullet(s);
      UnbulletedStaysSo(StripLeft(s[1..]));
    }
  }

  lemma {:induction false} UnbulletCuts(s: string) returns (a: string)
    requires s == "" || !IsSpace(s[0])
    ensures s == a + Unbullet(s)
    decreases |s|
  {
    a := "";
    if |s| >= 2 && IsBullet(s[0]) && IsSpace(s[1]) {
      OneBullet(s);
      var b := StripLeftInside(s[1..]);
      var c := UnbulletCuts(StripLeft(s[1..]));
      Regrouped(s[0], s[1..], b, StripLeft(s[1..]), c, Unbullet(s));
      a := [s[0]] + b + c;
    }
  }

  lemma UnbulletInside(s: string) returns (a: string)
    requires s == "" || !IsSpace(s[0])
    ensures s == a + Unbullet(s)
    ensures Unbullet(s) == "" || !IsSpace(Unbullet(s)[0])
    ensures Unbullet(Unbullet(s)) == Unbullet(s)
  {
    a := UnbulletCuts(s);
    UnbulletedStaysSo(s);
  }

  predicate Trimmed(s: string) {
    s == "" || (!IsSpace(s[0]) && !IsSpace(s[|s| - 1]))
  }

  lemma {:induction false} StripRightFacts(s: string)
    ensures StripRight(s) <= s && (StripRight(s) == "" || !IsSpace(StripRight(s)[|StripRight(s)| - 1]))
  {
    if s != "" && IsSpace(s[|s| - 1]) {
      StripRightFacts(s[..|s| - 1]);
    }
  }

  lemma StripFacts(s: string)
    ensures Trimmed(Strip(s)) && (Trimmed(s) ==> Strip(s) == s)
    ensures s == "" || !IsSpace(s[0]) ==> Strip(s) <= s
  {
    StripLeftShorter(s);
    StripRightFacts(StripLeft(s));
    if Strip(s) != "" {
      assert Strip(s)[0] == StripLeft(s)[0];
    }
  }

  /** The normal form: settled, without controls, trimmed, no bullet in front, within the limit. */
  predicate Normal(s: string, limit: nat, p: Phrase) {
    Settled(s, p) && Free(s, IsControl) && Trimmed(s) && Unbullet(s) == s && |s| <= limit
  }

  lemma NormalIsFixed(s: string, limit: nat, p: Phrase)
    requires Normal(s, limit, p)
    ensures Clean(s, limit, p) == s
  {
    RemoveControlsFacts(s);
    SettledIsFixed(s, p);
    StripFacts(s);
  }

  /** Cutting a text without bullet in front leaves none. */
  lemma UnbulletOfPrefix(s: string, t: string)
    requires t <= s && Unbullet(s) == s
    ensures Unbullet(t) == t
  {
    if |s| >= 2 && IsBullet(s[0]) && IsSpace(s[1]) {
      StripLeftShorter(s[1..]);
      UnbulletShorter(StripLeft(s[1..]));
    }
  }

  lemma {:induction false} UnbulletShorter(s: string)
    ensures |Unbullet(s)| <= |s|
    decreases |s|
  {
    if |s| >= 2 && IsBullet(s[0]) && IsSpace(s[1]) {
      StripLeftShorter(s[1..]);
      UnbulletShorter(StripLeft(s[1..]));
    }
  }

  /** Cutting to the limit and trimming keeps a prefix. */
  lemma TakeKeepsPrefix(u: string, limit: nat) returns (d: string)
    requires u == "" || !IsSpace(u[0])
    ensures var r := Strip(Take(u, limit));
            r <= u && u == r + d && Trimmed(r) && |r| <= limit
  {
    StripFacts(Take(u, limit));
    d := u[|Strip(Take(u, limit))|..];
  }

  lemma Regroup(a: string, c: string, r: string, d: string, b: string)
    ensures a + (c + (r + d)) + b == (a + c) + r + (d + b)
  {
  }

  /** The end of the work only cuts at both sides. */
  lemma CutsOnly(t: string, limit: nat) returns (before: string, after: string)
    ensures var r := Strip(Take(Unbullet(Strip(t)), limit));
            t == before + r + after && Trimmed(r) && Unbullet(r) == r && |r| <= limit
  {
    StripFacts(t);
    var a, b := StripInside(t);
    var c := UnbulletInside(Strip(t));
    var v := Unbullet(Strip(t));
    var d := TakeKeepsPrefix(v, limit);
    UnbulletOfPrefix(v, Strip(Take(v, limit)));
    Regroup(a, c, Strip(Take(v, limit)), d, b);
    before, after := a + c, d + b;
  }

  lemma PartIsFree(a: string, s: string, b: string)
    requires Free(a + s + b, IsControl)
    ensures Free(s, IsControl)
  {
    assert forall i :: 0 <= i < |s| ==> s[i] == (a + s + b)[|a| + i];
  }

  lemma CleanIsNormal(s: string, limit: nat, p: Phrase)
    ensures Normal(Clean(s, limit, p), limit, p)
  {
    RemoveControlsFacts(s);
    SettleSettles(RemoveControls(s), p);
    SettleKeepsOut(RemoveControls(s), p);
    var before, after := CutsOnly(Settle(RemoveControls(s), p), limit);
    PartIsSettled(before, Clean(s, limit, p), after, p);
    PartIsFree(before, Clean(s, limit, p), after);
  }

  /** Cleaning twice is cleaning once. */
  lemma CleanIsIdempotent(s: string, limit: nat, p: Phrase)
    ensures Clean(Clean(s, limit, p), limit, p) == Clean(s, limit, p)
  {
    CleanIsNormal(s, limit, p);
    NormalIsFixed(Clean(s, limit, p), limit, p);
  }

  predicate NormalField(s: string, limit: nat) {
    Free(s, IsAsciiBreak) && NoDouble(s) && Trimmed(s) && |s| <= limit
  }

  lemma PartIsField(a: string, s: string, b: string)
    requires Free(a + s + b, IsAsciiBreak) && NoDouble(a + s + b)
    ensures Free(s, IsAsciiBreak) && NoDouble(s)
  {
    var t := a + s + b;
    assert forall i :: 0 <= i < |s| ==> s[i] == t[|a| + i];
    forall i | 0 <= i < |s| - 1 ensures !(IsSpace(s[i]) && IsSpace(s[i + 1])) {
      assert s[i] == t[|a| + i] && s[i + 1] == t[|a| + i + 1];
    }
  }

  lemma CleanFieldIsNormal(s: string, limit: nat)
    ensures NormalField(CleanField(s, limit), limit)
  {
    JoinLinesFacts(s, IsAsciiBreak);
    FoldFacts(JoinLines(s, IsAsciiBreak));
    FoldFrom(JoinLines(s, IsAsciiBreak));
    var t := Fold(JoinLines(s, IsAsciiBreak));
    FieldOfFolded(t, limit);
  }

  lemma FieldOfFolded(t: string, limit: nat)
    requires Free(t, IsAsciiBreak) && NoDouble(t)
    ensures NormalField(Strip(Take(Strip(t), limit)), limit)
  {
    StripFacts(t);
    var x, y := StripInside(t);
    var d := TakeKeepsPrefix(Strip(t), limit);
    var r := Strip(Take(Strip(t), limit));
    Regroup(x, "", r, d, y);
    assert "" + (r + d) == r + d && x + "" == x;
    PartIsField(x, r, d + y);
  }

  /** The canonical form of keys is stable: a key that was canonical when it was issued is the same when it comes back. */
  lemma CleanFieldIsIdempotent(s: string, limit: nat)
    ensures CleanField(CleanField(s, limit), limit) == CleanField(s, limit)
  {
    var r := CleanField(s, limit);
    CleanFieldIsNormal(s, limit);
    JoinLinesFacts(r, IsAsciiBreak);
    FoldFacts(r);
    StripFacts(r);
  }
}
