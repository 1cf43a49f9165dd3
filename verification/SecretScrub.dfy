/**
 Masking secrets in a file before it goes to a model, and putting them back into what comes out.
 Where the patterns match is chosen from outside: each hit names a match and the secret part inside it.
 */
module SecretScrub {
  import opened Wrappers
  import opened Text
  import Decimal

  /** Placeholders and the text each one stands for, in the order in which they were made. */
  type Table = seq<(string, string)>

  /** A match `[start, end)` of the pattern with this tag; `[lo, hi)` is the part that the pattern masks. */
  datatype Hit = Hit(tag: string, start: nat, lo: nat, hi: nat, end: nat)

  datatype State = State(text: string, table: Table)

  const MARK := "[MASKED"

  // ---------------------------------------------------------------------------------------------
  // Labels and placeholders
  // ---------------------------------------------------------------------------------------------

  predicate IsLabel(tag: string) {
    "MASKED" <= tag && forall i :: 0 <= i < |tag| ==> 'A' <= tag[i] <= 'Z' || tag[i] == '_'
  }

  function Placeholder(tag: string, number: nat): string {
    "[" + tag + "_" + Decimal.Format(number) + "]"
  }

  // ---------------------------------------------------------------------------------------------
  // Masking and restoring
  // ---------------------------------------------------------------------------------------------

  /** The first placeholder made for this text. */
  function PlaceholderFor(table: Table, text: string): Option<string> {
    if table == [] then None
    else if table[0].1 == text then Some(table[0].0)
    else PlaceholderFor(table[1..], text)
  }

  predicate Fits(text: string, h: Hit) {
    h.start <= h.lo < h.hi <= h.end <= |text| && IsLabel(h.tag)
  }

  /**
   A match whose whole text is already a recorded secret takes its placeholder again, or the bare tag if that one was
   made under another tag; otherwise the masked part gets the next number.
   */
  function Mask(s: State, h: Hit): State
    requires Fits(s.text, h)
  {
    var known := PlaceholderFor(s.table, s.text[h.start..h.end]);
    var next := Placeholder(h.tag, |s.table| + 1);
    var sign :=
      if known.None? then next
      else if "[" + h.tag <= known.value then known.value
      else "[" + h.tag + "]";
    State(s.text[..h.lo] + sign + s.text[h.hi..],
          if known.None? then s.table + [(next, s.text[h.lo..h.hi])] else s.table)
  }

  predicate AllFit(s: State, hits: seq<Hit>)
    decreases |hits|
  {
    hits == [] || (Fits(s.text, hits[0]) && AllFit(Mask(s, hits[0]), hits[1..]))
  }

  function MaskAll(s: State, hits: seq<Hit>): State
    requires AllFit(s, hits)
    decreases |hits|
  {
    if hits == [] then s else MaskAll(Mask(s, hits[0]), hits[1..])
  }

  /**
   One file; `secrets` is shared by the files of a request.  An empty file stays as it is; of a file withheld by its
   name only a notice is shown.
   */
  method ScrubCodeContext(content: string, withheld: Option<string>, secrets: Table, hits: seq<Hit>) returns (s: State)
    requires content != "" && withheld.None? ==> AllFit(State(content, secrets), hits)
    ensures content == "" ==> s == State("", secrets)
    ensures content != "" && withheld.Some? ==> s == State(withheld.value, secrets)
    ensures content != "" && withheld.None? ==> s == MaskAll(State(content, secrets), hits)
  {
    if content == "" {
      return State(content, secrets);
    }
    if withheld.Some? {
      return State(withheld.value, secrets);
    }
    s := State(content, secrets);
    for i := 0 to |hits|
      invariant AllFit(s, hits[i..]) && MaskAll(s, hits[i..]) == MaskAll(State(content, secrets), hits)
    {
      assert hits[i..][1..] == hits[i + 1..];
      s := Mask(s, hits[i]);
    }
  }

  /** Labels are what the pattern `MASKED[A-Z_]*` matches. */
  lemma LabelsAre(tag: string)
    ensures IsLabel(tag) <==>
            |tag| >= 6 && tag[..6] == "MASKED" && forall i :: 6 <= i < |tag| ==> 65 <= tag[i] as int <= 90 || tag[i] as int == 95
  {
    if |tag| >= 6 && tag[..6] == "MASKED" {
      forall i | 0 <= i < 6 ensures 'A' <= tag[i] <= 'Z' {
        assert tag[i] == tag[..6][i];
      }
    }
  }

  /** The i-th entry is the first one that stands for this text. */
  ghost predicate FirstFor(table: Table, text: string, i: nat) {
    i < |table| && table[i].1 == text && forall j :: 0 <= j < i ==> table[j].1 != text
  }

  lemma {:induction false} PlaceholderForExactly(table: Table, text: string)
    ensures PlaceholderFor(table, text).None? ==> forall j :: 0 <= j < |table| ==> table[j].1 != text
    ensures forall i: nat :: FirstFor(table, text, i) ==> PlaceholderFor(table, text) == Some(table[i].0)
  {
    if table != [] && table[0].1 != text {
      PlaceholderForExactly(table[1..], text);
      forall i: nat | FirstFor(table, text, i) ensures PlaceholderFor(table, text) == Some(table[i].0) {
        assert FirstFor(table[1..], text, i - 1);
      }
    }
  }

  /**
   Of a match only the masked part is taken out.  A match not recorded yet gets its label with the next number, and
   the masked part is recorded; for one recorded before, the first of its placeholders if its label is the same.
   */
  lemma MaskShows(s: State, h: Hit) returns (sign: string)
    requires Fits(s.text, h)
    ensures Mask(s, h).text == s.text[..h.lo] + sign + s.text[h.hi..]
    ensures var whole := s.text[h.start..h.end];
            && ((forall j :: 0 <= j < |s.table| ==> s.table[j].1 != whole) ==>
                 && sign == "[" + h.tag + "_" + Decimal.Format(|s.table| + 1) + "]"
                 && Mask(s, h).table == s.table + [(sign, s.text[h.lo..h.hi])])
            && forall i: nat :: FirstFor(s.table, whole, i) ==>
                 && sign == (if "[" + h.tag <= s.table[i].0 then s.table[i].0 else "[" + h.tag + "]")
                 && Mask(s, h).table == s.table
  {
    var whole := s.text[h.start..h.end];
    PlaceholderForExactly(s.table, whole);
    var known := PlaceholderFor(s.table, whole);
    if known.Some? {
      var i := PlaceholderForFacts(s.table, whole);
      assert s.table[i].1 == whole;
      sign := if "[" + h.tag <= known.value then known.value else "[" + h.tag + "]";
    } else {
      sign := Placeholder(h.tag, |s.table| + 1);
    }
  }

  predicate NonEmptyKeys(table: Table) {
    forall i :: 0 <= i < |table| ==> table[i].0 != ""
  }

  function Restore(text: string, table: Table): string
    requires NonEmptyKeys(table)
    decreases |table|
  {
    if table == [] then text else Restore(Replace(text, table[0].0, table[0].1), table[1..])
  }

  method RestoreCodeSecrets(text: string, secrets: Table) returns (r: string)
    requires NonEmptyKeys(secrets)
    ensures r == Restore(text, secrets)
  {
    r := text;
    for i := 0 to |secrets|
      invariant Restore(r, secrets[i..]) == Restore(text, secrets)
    {
      assert secrets[i..][1..] == secrets[i + 1..];
      r := Replace(r, secrets[i].0, secrets[i].1);
    }
  }

  // ---------------------------------------------------------------------------------------------
  // Placeholders: one bracket at each end, one number each
  // ---------------------------------------------------------------------------------------------

  predicate Bracketed(p: string) {
    && MARK < p && p[|p| - 1] == ']'
    && (forall i :: 1 <= i < |p| ==> p[i] != '[')
    && (forall i :: 0 <= i < |p| - 1 ==> p[i] != ']')
  }

  ghost predicate Carries(p: string, number: nat) {
    exists tag :: IsLabel(tag) && p == Placeholder(tag, number)
  }

  /** The i-th entry carries number i + 1. */
  ghost predicate Numbered(table: Table) {
    forall i :: 0 <= i < |table| ==> Carries(table[i].0, i + 1)
  }

  lemma PlaceholderIsBracketed(tag: string, number: nat)
    requires IsLabel(tag)
    ensures Bracketed(Placeholder(tag, number))
  {
    var p := Placeholder(tag, number);
    var digits := Decimal.Format(number);
    forall i | 1 <= i < |p| - 1 ensures p[i] != '[' && p[i] != ']' {
      if i <= |tag| {
        assert p[i] == tag[i - 1];
      } else if i > |tag| + 1 {
        assert p[i] == digits[i - |tag| - 2];
      }
    }
    assert p[..|MARK|] == "[" + tag[..6];
  }

  function TrailingDigits(s: string): string {
    if s == "" || !Decimal.IsDigit(s[|s| - 1]) then "" else TrailingDigits(s[..|s| - 1]) + [s[|s| - 1]]
  }

  lemma {:induction false} TrailingDigitsOf(front: string, digits: string)
    requires Decimal.AllDigits(digits)
    ensures TrailingDigits(front + "_" + digits) == digits
  {
    var s := front + "_" + digits;
    if digits != "" {
      var n := |digits| - 1;
      assert s[|s| - 1] == digits[n] && s[..|s| - 1] == front + "_" + digits[..n];
      TrailingDigitsOf(front, digits[..n]);
    }
  }

  lemma PlaceholderNumber(a: string, m: nat, b: string, n: nat)
    requires Placeholder(a, m) == Placeholder(b, n)
    ensures m == n
  {
    var p := Placeholder(a, m);
    assert p[..|p| - 1] == "[" + a + "_" + Decimal.Format(m);
    assert p[..|p| - 1] == "[" + b + "_" + Decimal.Format(n);
    TrailingDigitsOf("[" + a, Decimal.Format(m));
    TrailingDigitsOf("[" + b, Decimal.Format(n));
    Decimal.FormatInjective(m, n);
  }

  lemma NumbersAreUnique(table: Table, i: nat, j: nat)
    requires Numbered(table) && i < j < |table|
    ensures table[i].0 != table[j].0
  {
    assert Carries(table[i].0, i + 1) && Carries(table[j].0, j + 1);
    var a :| IsLabel(a) && table[i].0 == Placeholder(a, i + 1);
    var b :| IsLabel(b) && table[j].0 == Placeholder(b, j + 1);
    if table[i].0 == table[j].0 {
      PlaceholderNumber(a, i + 1, b, j + 1);
    }
  }

  lemma NumberedKeys(table: Table, i: nat)
    requires Numbered(table) && i < |table|
    ensures Bracketed(table[i].0)
  {
    assert Carries(table[i].0, i + 1);
    var tag :| IsLabel(tag) && table[i].0 == Placeholder(tag, i + 1);
    PlaceholderIsBracketed(tag, i + 1);
  }

  // ---------------------------------------------------------------------------------------------
  // The masked text as plain characters and placeholders
  // ---------------------------------------------------------------------------------------------

  datatype Tok = C(c: char) | P(sign: string)

  function TextOf(t: Tok): string {
    match t
    case C(c) => [c]
    case P(p) => p
  }

  function Render(ts: seq<Tok>): string {
    if ts == [] then "" else TextOf(ts[0]) + Render(ts[1..])
  }

  function ValueOf(table: Table, p: string): string {
    if table == [] then "" else if table[0].0 == p then table[0].1 else ValueOf(table[1..], p)
  }

  function MeaningOf(t: Tok, table: Table): string {
    match t
    case C(c) => [c]
    case P(p) => ValueOf(table, p)
  }

  /** The text that the placeholders stand for. */
  function Expand(ts: seq<Tok>, table: Table): string {
    if ts == [] then "" else MeaningOf(ts[0], table) + Expand(ts[1..], table)
  }

  function Chars(s: string): seq<Tok> {
    if s == "" then [] else [C(s[0])] + Chars(s[1..])
  }

  function SubstTok(t: Tok, p: string, v: string): seq<Tok> {
    if t == P(p) then Chars(v) else [t]
  }

  function Subst(ts: seq<Tok>, p: string, v: string): seq<Tok> {
    if ts == [] then [] else SubstTok(ts[0], p, v) + Subst(ts[1..], p, v)
  }

  predicate Known(ts: seq<Tok>, table: Table) {
    forall k :: 0 <= k < |ts| && ts[k].P? ==> exists i :: 0 <= i < |table| && table[i].0 == ts[k].sign
  }

  predicate Signs(ts: seq<Tok>) {
    forall k :: 0 <= k < |ts| && ts[k].P? ==> Bracketed(ts[k].sign)
  }

  lemma {:induction false} RenderAppend(a: seq<Tok>, b: seq<Tok>)
    ensures Render(a + b) == Render(a) + Render(b)
  {
    if a == [] {
      assert a + b == b;
    } else {
      RenderAppend(a[1..], b);
      assert (a + b)[1..] == a[1..] + b && (a + b)[0] == a[0];
      assert TextOf(a[0]) + (Render(a[1..]) + Render(b)) == (TextOf(a[0]) + Render(a[1..])) + Render(b);
    }
  }

  lemma {:induction false} ExpandAppend(a: seq<Tok>, b: seq<Tok>, table: Table)
    ensures Expand(a + b, table) == Expand(a, table) + Expand(b, table)
  {
    if a == [] {
      assert a + b == b;
    } else {
      ExpandAppend(a[1..], b, table);
      assert (a + b)[1..] == a[1..] + b;
    }
  }

  lemma {:induction false} CharsFacts(s: string, table: Table)
    ensures Render(Chars(s)) == s && Expand(Chars(s), table) == s
    ensures forall k :: 0 <= k < |Chars(s)| ==> Chars(s)[k].C?
  {
    if s != "" {
      CharsFacts(s[1..], table);
    }
  }

  // ---------------------------------------------------------------------------------------------
  // Replacing a placeholder in the text is substituting it among the tokens
  // ---------------------------------------------------------------------------------------------

  lemma Glue(head: char, tail: string, rest: string, p: string, v: string)
    requires p != "" && !(p <= [head] + tail + rest) && Replace(tail + rest, p, v) == tail + Replace(rest, p, v)
    ensures Replace([head] + tail + rest, p, v) == [head] + tail + Replace(rest, p, v)
  {
    var s := [head] + tail + rest;
    assert s[1..] == tail + rest;
    assert [head] + (tail + Replace(rest, p, v)) == [head] + tail + Replace(rest, p, v);
  }

  lemma {:induction false} SkipPlain(u: string, rest: string, p: string, v: string)
    requires Bracketed(p) && forall i :: 0 <= i < |u| ==> u[i] != '['
    ensures Replace(u + rest, p, v) == u + Replace(rest, p, v)
  {
    if u == "" {
      assert u + rest == rest;
    } else {
      SkipPlain(u[1..], rest, p, v);
      assert p[0] == '[' && (u + rest)[0] == u[0];
      assert u == [u[0]] + u[1..];
      Glue(u[0], u[1..], rest, p, v);
    }
  }

  /** Where the first closing bracket stands. */
  function FirstClose(s: string): nat {
    if s == "" || s[0] == ']' then 0 else 1 + FirstClose(s[1..])
  }

  lemma {:induction false} FirstCloseOf(p: string, rest: string)
    requires p != "" && p[|p| - 1] == ']' && forall i :: 0 <= i < |p| - 1 ==> p[i] != ']'
    ensures FirstClose(p + rest) == |p| - 1
  {
    if |p| > 1 {
      FirstCloseOf(p[1..], rest);
      assert (p + rest)[1..] == p[1..] + rest;
    }
  }

  /** Two placeholders that start at one place are the same one. */
  lemma SamePlace(q: string, rest: string, p: string)
    requires Bracketed(p) && Bracketed(q) && p <= q + rest
    ensures p == q
  {
    var s := q + rest;
    assert s == p + s[|p|..];
    FirstCloseOf(p, s[|p|..]);
    FirstCloseOf(q, rest);
    assert p == s[..|p|] && q == s[..|q|];
  }

  lemma SkipTail(q: string, rest: string, p: string, v: string)
    requires Bracketed(p) && Bracketed(q)
    ensures Replace(q[1..] + rest, p, v) == q[1..] + Replace(rest, p, v)
  {
    SkipPlain(q[1..], rest, p, v);
  }

  lemma SkipOther(q: string, rest: string, p: string, v: string)
    requires Bracketed(p) && Bracketed(q) && p != q
    ensures Replace(q + rest, p, v) == q + Replace(rest, p, v)
  {
    assert q == [q[0]] + q[1..];
    DifferentPlace(q, rest, p);
    SkipTail(q, rest, p, v);
    Glue(q[0], q[1..], rest, p, v);
  }

  lemma DifferentPlace(q: string, rest: string, p: string)
    requires Bracketed(p) && Bracketed(q) && p != q
    ensures !(p <= q + rest)
  {
    if p <= q + rest {
      SamePlace(q, rest, p);
    }
  }

  ghost predicate PlainClean(ts: seq<Tok>) {
    forall k :: 0 <= k < |ts| && ts[k].C? ==> !(MARK <= Render(ts[k..]))
  }

  lemma MarkFirst(p: string, s: string)
    requires Bracketed(p)
    ensures p <= s ==> MARK <= s
  {
  }

  lemma {:induction false} ReplaceIsSubst(ts: seq<Tok>, p: string, v: string)
    requires Signs(ts) && PlainClean(ts) && Bracketed(p)
    ensures Replace(Render(ts), p, v) == Render(Subst(ts, p, v))
  {
    if ts != [] {
      var rest := ts[1..];
      assert forall k :: 0 <= k < |rest| ==> rest[k..] == ts[k + 1..];
      ReplaceIsSubst(rest, p, v);
      assert ts[0..] == ts;
      CharsFacts(v, []);
      if ts[0] == P(p) {
        RenderAppend(Chars(v), Subst(rest, p, v));
      } else {
        assert Subst(ts, p, v) == [ts[0]] + Subst(rest, p, v);
        match ts[0]
        case C(c) =>
          MarkFirst(p, Render(ts));
        case P(q) =>
          SkipOther(q, Render(rest), p, v);
      }
    }
  }

  lemma SignFirst(ts: seq<Tok>)
    requires ts != [] && Signs(ts) && Render(ts) != ""
    ensures ts[0].P? ==> Render(ts)[0] == '['
  {
  }

  lemma {:induction false} PlainPrefix(ts: seq<Tok>, u: string, table: Table)
    requires Signs(ts) && u <= Render(ts) && forall i :: 0 <= i < |u| ==> u[i] != '['
    ensures u <= Expand(ts, table)
  {
    if u != "" {
      var first, rest := ts[0], ts[1..];
      SignFirst(ts);
      assert u[0] == Render(ts)[0] && first.C?;
      TailPrefix(u, first.c, Render(rest));
      PlainPrefix(rest, u[1..], table);
      assert u == [first.c] + u[1..];
    }
  }

  lemma TailPrefix(u: string, c: char, rest: string)
    requires u != "" && u <= [c] + rest
    ensures u[0] == c && u[1..] <= rest
  {
  }

  /** If the text behind the placeholders is clean, so is what lies between them. */
  lemma CleanBehind(ts: seq<Tok>, table: Table)
    requires Signs(ts) && Lacks(Expand(ts, table), MARK)
    ensures PlainClean(ts)
  {
    forall k | 0 <= k < |ts| && ts[k].C? ensures !(MARK <= Render(ts[k..])) {
      if MARK <= Render(ts[k..]) {
        MarkShows(ts[k..], table);
        assert ts == ts[..k] + ts[k..];
        ExpandAppend(ts[..k], ts[k..], table);
        OccursAfter(Expand(ts[..k], table), Expand(ts[k..], table), MARK);
      }
    }
  }

  lemma OccursAfter(front: string, back: string, pat: string)
    requires pat <= back
    ensures OccursAt(front + back, pat, |front|)
  {
  }

  lemma MarkShows(ts: seq<Tok>, table: Table)
    requires ts != [] && ts[0].C? && Signs(ts) && MARK <= Render(ts)
    ensures MARK <= Expand(ts, table)
  {
    var c, after := ts[0].c, ts[1..];
    assert Render(ts) == [c] + Render(after) && Expand(ts, table) == [c] + Expand(after, table);
    assert c == Render(ts)[0] == MARK[0];
    assert MARK[1..] <= Render(after) by {
      assert Render(ts)[..7] == MARK && Render(ts)[1..7] == Render(after)[..6];
    }
    PlainPrefix(after, MARK[1..], table);
    assert Expand(ts, table)[..7] == [c] + Expand(after, table)[..6];
  }

  lemma SubstOther(t: Tok, e: (string, string), table: Table)
    requires t != P(e.0)
    ensures MeaningOf(t, [e] + table) == MeaningOf(t, table)
    ensures Known([t], [e] + table) ==> Known([t], table)
  {
    assert ([e] + table)[1..] == table;
    if Known([t], [e] + table) && t.P? {
      assert [t][0].sign == t.sign;
      var i :| 0 <= i < |[e] + table| && ([e] + table)[i].0 == t.sign;
      assert table[i - 1].0 == t.sign;
    }
  }

  lemma KnownAppend(a: seq<Tok>, b: seq<Tok>, table: Table)
    ensures Known(a + b, table) <==> Known(a, table) && Known(b, table)
    ensures Signs(a + b) <==> Signs(a) && Signs(b)
  {
    var ab := a + b;
    assert forall k :: 0 <= k < |a| ==> ab[k] == a[k];
    assert forall k :: 0 <= k < |b| ==> ab[|a| + k] == b[k];
  }

  lemma {:induction false} SubstFacts(ts: seq<Tok>, e: (string, string), table: Table)
    requires Signs(ts) && Known(ts, [e] + table)
    ensures Expand(Subst(ts, e.0, e.1), table) == Expand(ts, [e] + table)
    ensures Signs(Subst(ts, e.0, e.1)) && Known(Subst(ts, e.0, e.1), table)
  {
    if ts != [] {
      var first, rest := ts[0], ts[1..];
      assert ts == [first] + rest;
      KnownAppend([first], rest, [e] + table);
      SubstFacts(rest, e, table);
      var after := Subst(rest, e.0, e.1);
      CharsFacts(e.1, table);
      if first == P(e.0) {
        ExpandAppend(Chars(e.1), after, table);
        KnownAppend(Chars(e.1), after, table);
      } else {
        SubstOther(first, e, table);
        KnownAppend([first], after, table);
      }
    }
  }

  lemma {:induction false} NoSignsLeft(ts: seq<Tok>)
    requires Known(ts, [])
    ensures Render(ts) == Expand(ts, [])
  {
    if ts != [] {
      assert ts[0].C?;
      NoSignsLeft(ts[1..]);
    }
  }

  /** Putting back entry by entry gives the text behind the placeholders. */
  lemma {:induction false} RestoreExpands(ts: seq<Tok>, table: Table)
    requires NonEmptyKeys(table) && forall i :: 0 <= i < |table| ==> Bracketed(table[i].0)
    requires Signs(ts) && Known(ts, table) && Lacks(Expand(ts, table), MARK)
    ensures Restore(Render(ts), table) == Expand(ts, table)
    decreases |table|
  {
    CleanBehind(ts, table);
    if table == [] {
      NoSignsLeft(ts);
    } else {
      var e := table[0];
      assert [e] + table[1..] == table;
      ReplaceIsSubst(ts, e.0, e.1);
      SubstFacts(ts, e, table[1..]);
      RestoreExpands(Subst(ts, e.0, e.1), table[1..]);
    }
  }

  // ---------------------------------------------------------------------------------------------
  // The round trip
  // ---------------------------------------------------------------------------------------------

  /** The masked part does not overlap a placeholder that is already in the text. */
  predicate Apart(s: State, h: Hit) {
    forall k, i :: 0 <= k < |s.table| && 0 <= i <= |s.text| && OccursAt(s.text, s.table[k].0, i) ==>
      i + |s.table[k].0| <= h.lo || h.hi <= i
  }

  /** A match whose whole text is a recorded secret is masked as a whole, under the label of that secret. */
  predicate OneLabel(s: State, h: Hit)
    requires Fits(s.text, h)
  {
    var known := PlaceholderFor(s.table, s.text[h.start..h.end]);
    known.Some? ==> "[" + h.tag <= known.value && h.lo == h.start && h.hi == h.end
  }

  predicate AllGood(s: State, hits: seq<Hit>)
    requires AllFit(s, hits)
    decreases |hits|
  {
    hits == [] || (Apart(s, hits[0]) && OneLabel(s, hits[0]) && AllGood(Mask(s, hits[0]), hits[1..]))
  }

  ghost predicate StandsFor(ts: seq<Tok>, s: State, content: string) {
    Render(ts) == s.text && Signs(ts) && Known(ts, s.table) && Numbered(s.table) && Expand(ts, s.table) == content
  }

  lemma {:induction false} ValueAt(table: Table, i: nat)
    requires i < |table| && forall a, b :: 0 <= a < b < |table| ==> table[a].0 != table[b].0
    ensures ValueOf(table, table[i].0) == table[i].1
  {
    if i > 0 {
      assert table[0].0 != table[i].0;
      ValueAt(table[1..], i - 1);
    }
  }

  lemma NumberedValue(table: Table, i: nat)
    requires Numbered(table) && i < |table|
    ensures ValueOf(table, table[i].0) == table[i].1
  {
    forall a, b | 0 <= a < b < |table| ensures table[a].0 != table[b].0 {
      NumbersAreUnique(table, a, b);
    }
    ValueAt(table, i);
  }

  lemma {:induction false} PlaceholderForFacts(table: Table, text: string) returns (i: nat)
    requires PlaceholderFor(table, text).Some?
    ensures i < |table| && table[i] == (PlaceholderFor(table, text).value, text)
  {
    if table[0].1 == text {
      i := 0;
    } else {
      var j := PlaceholderForFacts(table[1..], text);
      i := j + 1;
    }
  }

  /** Where the k-th token stands in the text. */
  function Offset(ts: seq<Tok>, k: nat): nat
    requires k <= |ts|
  {
    |Render(ts[..k])|
  }

  lemma OffsetStep(ts: seq<Tok>, k: nat)
    requires k < |ts|
    ensures Offset(ts, k + 1) == Offset(ts, k) + |TextOf(ts[k])|
    ensures OccursAt(Render(ts), TextOf(ts[k]), Offset(ts, k))
  {
    var front, back := ts[..k], ts[k + 1..];
    assert ts[..k + 1] == front + [ts[k]] && ts == front + [ts[k]] + back;
    RenderAppend(front, [ts[k]]);
    RenderAppend(front + [ts[k]], back);
    RenderOne(ts[k]);
    OccursInside(Render(front), TextOf(ts[k]), Render(back), TextOf(ts[k]), 0);
  }

  lemma RenderOne(t: Tok)
    ensures Render([t]) == TextOf(t)
  {
    assert [t][1..] == [] && Render([t]) == TextOf(t) + Render([]);
  }

  /** A place that no placeholder stands across is the start of a token. */
  lemma {:induction false} CutAt(ts: seq<Tok>, n: nat, pos: nat) returns (k: nat)
    requires n <= |ts| && pos <= Offset(ts, n)
    requires forall j :: 0 <= j < n && ts[j].P? ==> Offset(ts, j) + |ts[j].sign| <= pos || pos <= Offset(ts, j)
    ensures k <= n && Offset(ts, k) == pos
  {
    if pos == Offset(ts, n) {
      return n;
    }
    OffsetStep(ts, n - 1);
    k := CutAt(ts, n - 1, pos);
  }

  lemma {:induction false} OffsetGrows(ts: seq<Tok>, i: nat, j: nat)
    requires i <= j <= |ts|
    ensures Offset(ts, i) <= Offset(ts, j)
  {
    if i < j {
      OffsetGrows(ts, i, j - 1);
      OffsetStep(ts, j - 1);
    }
  }

  lemma {:induction false} PlainTokens(ts: seq<Tok>)
    requires forall k :: 0 <= k < |ts| ==> ts[k].C?
    ensures ts == Chars(Render(ts))
  {
    if ts != [] {
      PlainTokens(ts[1..]);
    }
  }

  lemma SignsApart(ts: seq<Tok>, s: State, h: Hit, content: string)
    requires StandsFor(ts, s, content) && Apart(s, h)
    ensures forall j :: 0 <= j < |ts| && ts[j].P? ==> Offset(ts, j) + |ts[j].sign| <= h.lo || h.hi <= Offset(ts, j)
  {
    forall j | 0 <= j < |ts| && ts[j].P? ensures Offset(ts, j) + |ts[j].sign| <= h.lo || h.hi <= Offset(ts, j) {
      OffsetStep(ts, j);
      var i :| 0 <= i < |s.table| && s.table[i].0 == ts[j].sign;
    }
  }

  /** The masked part, as tokens, is a run of plain characters. */
  lemma SecretIsPlain(ts: seq<Tok>, s: State, h: Hit, content: string) returns (a: seq<Tok>, b: seq<Tok>)
    requires StandsFor(ts, s, content) && Fits(s.text, h) && Apart(s, h)
    ensures ts == a + Chars(s.text[h.lo..h.hi]) + b
    ensures Render(a) == s.text[..h.lo] && Render(b) == s.text[h.hi..]
  {
    assert ts[..|ts|] == ts;
    SignsApart(ts, s, h, content);
    var m := CutAt(ts, |ts|, h.lo);
    var n := CutAt(ts, |ts|, h.hi);
    PlainBetween(ts, m, n);
    a, b := ts[..m], ts[n..];
    assert ts == a + ts[m..n] + b && ts[..n] == a + ts[m..n];
    Around(a, ts[m..n], b, s.table);
    RenderAppend(a, ts[m..n]);
    PlainTokens(ts[m..n]);
    Slices(s.text, Render(a), Render(ts[m..n]), Render(b), h.lo, h.hi);
  }

  lemma Slices(text: string, a: string, m: string, b: string, lo: nat, hi: nat)
    requires text == a + m + b && |a| == lo && |a| + |m| == hi
    ensures text[..lo] == a && text[lo..hi] == m && text[hi..] == b
  {
  }

  lemma PlainBetween(ts: seq<Tok>, m: nat, n: nat)
    requires m <= |ts| && n <= |ts| && Offset(ts, m) < Offset(ts, n)
    requires forall j :: 0 <= j < |ts| && ts[j].P? ==>
               Offset(ts, j) + |ts[j].sign| <= Offset(ts, m) || Offset(ts, n) <= Offset(ts, j)
    requires Signs(ts)
    ensures m <= n && forall k :: 0 <= k < n - m ==> ts[m..n][k].C?
  {
    if n < m {
      OffsetGrows(ts, n, m);
    }
    forall k | m <= k < n ensures ts[k].C? {
      OffsetStep(ts, k);
      OffsetGrows(ts, m, k);
      OffsetGrows(ts, k + 1, n);
    }
  }

  /** Replacing plain characters by a placeholder that stands for them changes nothing behind the text. */
  lemma SignForSecret(a: seq<Tok>, secret: string, b: seq<Tok>, sign: string, table: Table)
    requires ValueOf(table, sign) == secret
    ensures Expand(a + [P(sign)] + b, table) == Expand(a + Chars(secret) + b, table)
    ensures Render(a + [P(sign)] + b) == Render(a) + sign + Render(b)
  {
    CharsFacts(secret, table);
    Around(a, [P(sign)], b, table);
    Around(a, Chars(secret), b, table);
    OneSign(sign, table);
  }

  lemma OneSign(sign: string, table: Table)
    ensures Expand([P(sign)], table) == ValueOf(table, sign) && Render([P(sign)]) == sign
  {
    assert [P(sign)][1..] == [];
    assert Expand([P(sign)], table) == ValueOf(table, sign) + Expand([], table);
    assert Render([P(sign)]) == sign + Render([]);
  }

  lemma Around(a: seq<Tok>, mid: seq<Tok>, b: seq<Tok>, table: Table)
    ensures Render(a + mid + b) == Render(a) + Render(mid) + Render(b)
    ensures Expand(a + mid + b, table) == Expand(a, table) + Expand(mid, table) + Expand(b, table)
  {
    RenderAppend(a + mid, b);
    RenderAppend(a, mid);
    ExpandAppend(a + mid, b, table);
    ExpandAppend(a, mid, table);
  }

  lemma {:induction false} ValueInLonger(table: Table, e: (string, string), p: string)
    requires exists i :: 0 <= i < |table| && table[i].0 == p
    ensures ValueOf(table + [e], p) == ValueOf(table, p)
  {
    assert (table + [e])[0] == table[0];
    if table[0].0 != p {
      var i :| 0 <= i < |table| && table[i].0 == p;
      assert table[1..][i - 1].0 == p;
      ValueInLonger(table[1..], e, p);
      assert (table + [e])[1..] == table[1..] + [e];
    }
  }

  lemma {:induction false} ExpandInLonger(ts: seq<Tok>, table: Table, e: (string, string))
    requires Known(ts, table)
    ensures Expand(ts, table + [e]) == Expand(ts, table) && Known(ts, table + [e])
  {
    if ts != [] {
      ExpandInLonger(ts[1..], table, e);
      if ts[0].P? {
        ValueInLonger(table, e, ts[0].sign);
      }
    }
    forall k | 0 <= k < |ts| && ts[k].P? ensures exists i :: 0 <= i < |table + [e]| && (table + [e])[i].0 == ts[k].sign {
      var i :| 0 <= i < |table| && table[i].0 == ts[k].sign;
      assert (table + [e])[i].0 == ts[k].sign;
    }
  }

  lemma MaskStep(ts: seq<Tok>, s: State, h: Hit, content: string) returns (ts': seq<Tok>)
    requires StandsFor(ts, s, content) && Fits(s.text, h) && Apart(s, h) && OneLabel(s, h)
    ensures StandsFor(ts', Mask(s, h), content)
  {
    var secret := s.text[h.lo..h.hi];
    var a, b := SecretIsPlain(ts, s, h, content);
    var known := PlaceholderFor(s.table, s.text[h.start..h.end]);
    var table := Mask(s, h).table;
    var sign, i;
    if known.Some? {
      i := PlaceholderForFacts(s.table, s.text[h.start..h.end]);
      sign := known.value;
    } else {
      i := |s.table|;
      sign := Placeholder(h.tag, i + 1);
      ExpandInLonger(ts, s.table, (sign, secret));
    }
    NumberedValue(table, i);
    NumberedKeys(table, i);
    assert table[i] == (sign, secret);
    SignForSecret(a, secret, b, sign, table);
    ts' := a + [P(sign)] + b;
    TokensOf(a, Chars(secret), b, sign, table, i);
  }

  lemma TokensOf(a: seq<Tok>, mid: seq<Tok>, b: seq<Tok>, sign: string, table: Table, i: nat)
    requires Signs(a + mid + b) && Known(a + mid + b, table) && Bracketed(sign) && i < |table| && table[i].0 == sign
    ensures Signs(a + [P(sign)] + b) && Known(a + [P(sign)] + b, table)
  {
    var was, now := a + mid + b, a + [P(sign)] + b;
    forall k | 0 <= k < |now| && now[k].P?
      ensures Bracketed(now[k].sign) && exists n :: 0 <= n < |table| && table[n].0 == now[k].sign
    {
      if k != |a| {
        var j := if k < |a| then k else k - 1 + |mid|;
        assert now[k] == was[j];
      }
    }
  }

  lemma {:induction false} MaskAllStandsFor(ts: seq<Tok>, s: State, hits: seq<Hit>, content: string) returns (ts': seq<Tok>)
    requires StandsFor(ts, s, content) && AllFit(s, hits) && AllGood(s, hits)
    ensures StandsFor(ts', MaskAll(s, hits), content)
    decreases |hits|
  {
    if hits == [] {
      ts' := ts;
    } else {
      ts' := MaskStep(ts, s, hits[0], content);
      ts' := MaskAllStandsFor(ts', Mask(s, hits[0]), hits[1..], content);
    }
  }

  /**
   One file: with no mark of its own, secrets clear of placeholders and one label for each, what was masked comes back
   exactly, also from a table that later files have made longer.
   */
  lemma RoundTrip(content: string, secrets: Table, hits: seq<Hit>, later: Table)
    requires Lacks(content, MARK) && Numbered(secrets)
    requires AllFit(State(content, secrets), hits) && AllGood(State(content, secrets), hits)
    requires MaskAll(State(content, secrets), hits).table <= later && Numbered(later)
    ensures NonEmptyKeys(later) && Restore(MaskAll(State(content, secrets), hits).text, later) == content
  {
    var s := MaskAll(State(content, secrets), hits);
    CharsFacts(content, secrets);
    var ts := MaskAllStandsFor(Chars(content), State(content, secrets), hits, content);
    assert later == s.table + later[|s.table|..];
    ExpandInTable(ts, s.table, later[|s.table|..]);
    forall i | 0 <= i < |later| ensures Bracketed(later[i].0) {
      NumberedKeys(later, i);
    }
    RestoreExpands(ts, later);
  }

  lemma {:induction false} ExpandInTable(ts: seq<Tok>, table: Table, more: Table)
    requires Known(ts, table)
    ensures Expand(ts, table + more) == Expand(ts, table) && Known(ts, table + more)
  {
    if more == [] {
      assert table + more == table;
    } else {
      var front, e := more[..|more| - 1], more[|more| - 1];
      ExpandInTable(ts, table, front);
      ExpandInLonger(ts, table + front, e);
      assert table + front + [e] == table + more;
    }
  }

  // ---------------------------------------------------------------------------------------------
  // Several files, one table
  // ---------------------------------------------------------------------------------------------

  datatype File = File(content: string, hits: seq<Hit>)

  /** The tables as the files are masked one after the other. */
  ghost predicate FilesFit(files: seq<File>, table: Table)
    decreases |files|
  {
    files == [] || (AllFit(State(files[0].content, table), files[0].hits) && AllGood(State(files[0].content, table), files[0].hits)
                    && Lacks(files[0].content, MARK)
                    && FilesFit(files[1..], MaskAll(State(files[0].content, table), files[0].hits).table))
  }

  function MaskFiles(files: seq<File>, table: Table): (r: (seq<string>, Table))
    requires FilesFit(files, table)
    ensures |r.0| == |files|
    decreases |files|
  {
    if files == [] then ([], table)
    else
      var s := MaskAll(State(files[0].content, table), files[0].hits);
      var rest := MaskFiles(files[1..], s.table);
      ([s.text] + rest.0, rest.1)
  }

  lemma {:induction false} MaskAllGrows(s: State, hits: seq<Hit>)
    requires AllFit(s, hits) && Numbered(s.table)
    ensures s.table <= MaskAll(s, hits).table && Numbered(MaskAll(s, hits).table)
    decreases |hits|
  {
    if hits != [] {
      MaskAllGrows(Mask(s, hits[0]), hits[1..]);
    }
  }

  lemma {:induction false} MaskFilesGrows(files: seq<File>, table: Table)
    requires FilesFit(files, table) && Numbered(table)
    ensures table <= MaskFiles(files, table).1 && Numbered(MaskFiles(files, table).1)
    decreases |files|
  {
    if files != [] {
      var s := State(files[0].content, table);
      MaskAllGrows(s, files[0].hits);
      MaskFilesGrows(files[1..], MaskAll(s, files[0].hits).table);
    }
  }

  /** Every file of a request comes back from the shared table, and every number in it is used once. */
  lemma {:induction false} FilesRoundTrip(files: seq<File>, table: Table, i: nat)
    requires FilesFit(files, table) && Numbered(table) && i < |files|
    ensures var r := MaskFiles(files, table);
            NonEmptyKeys(r.1) && Restore(r.0[i], r.1) == files[i].content
    ensures var all := MaskFiles(files, table).1;
            forall a, b :: 0 <= a < b < |all| ==> all[a].0 != all[b].0
    decreases |files|
  {
    var s := State(files[0].content, table);
    var masked := MaskAll(s, files[0].hits);
    MaskAllGrows(s, files[0].hits);
    MaskFilesGrows(files[1..], masked.table);
    MaskFilesGrows(files, table);
    var all := MaskFiles(files, table).1;
    forall a, b | 0 <= a < b < |all| ensures all[a].0 != all[b].0 {
      NumbersAreUnique(all, a, b);
    }
    if i == 0 {
      RoundTrip(files[0].content, table, files[0].hits, all);
    } else {
      FilesRoundTrip(files[1..], masked.table, i - 1);
    }
  }

  function FirstHit(a: string, key: string, tag: string): Hit {
    Hit(tag, |a|, |a|, |a| + |key|, |a| + |key|)
  }

  /** The whole text is the match, the placeholder is its masked part. */
  function SecondHit(a: string, p: string, b: string, tag: string): Hit {
    Hit(tag, 0, |a|, |a| + |p|, |a| + |p| + |b|)
  }

  /**
   A key that a later pattern masks again as part of a longer match, such as an access key used as a database password:
   the second entry holds the first placeholder, and the entries are put back in the order in which they were made.
   */
  lemma MaskedTwiceIsLost(a: string, key: string, b: string, first: string, second: string)
    requires IsLabel(first) && IsLabel(second) && key != "" && Lacks(a + key + b, MARK)
    ensures var p, s := Placeholder(first, 1), State(a + key + b, []);
            var hits := [FirstHit(a, key, first), SecondHit(a, p, b, second)];
            && AllFit(s, hits) && NonEmptyKeys(MaskAll(s, hits).table)
            && Restore(MaskAll(s, hits).text, MaskAll(s, hits).table) == a + p + b != a + key + b
  {
    var p, q, s := Placeholder(first, 1), Placeholder(second, 2), State(a + key + b, []);
    var h1, h2 := FirstHit(a, key, first), SecondHit(a, p, b, second);
    PlaceholderIsBracketed(first, 1);
    PlaceholderIsBracketed(second, 2);
    if p == q {
      PlaceholderNumber(first, 1, second, 2);
    }
    MarkInside(a, p, b);
    KeyIsNotText(a, key, b, a + p + b, |a|);
    MaskFirst(a, key, b, first);
    MaskSecond(a, key, b, p, second);
    TwoHits(s, h1, h2);
    RestoreTwice(a, key, b, p, q);
  }

  lemma TwoHits(s: State, h1: Hit, h2: Hit)
    requires Fits(s.text, h1) && Fits(Mask(s, h1).text, h2)
    ensures AllFit(s, [h1, h2]) && MaskAll(s, [h1, h2]) == Mask(Mask(s, h1), h2)
  {
    assert [h1, h2][1..] == [h2] && [h2][1..] == [];
    assert MaskAll(Mask(s, h1), [h2]) == MaskAll(Mask(Mask(s, h1), h2), []);
  }

  lemma KeyIsNotText(a: string, key: string, b: string, text: string, i: nat)
    requires Lacks(a + key + b, MARK) && OccursAt(text, MARK, i)
    ensures key != text
  {
    if key == text {
      assert (a + key + b)[|a| + i..|a| + i + |MARK|] == key[i..i + |MARK|];
      assert OccursAt(a + key + b, MARK, |a| + i);
    }
  }

  lemma MaskFirst(a: string, key: string, b: string, tag: string)
    requires IsLabel(tag) && key != ""
    ensures Fits(a + key + b, FirstHit(a, key, tag))
    ensures Mask(State(a + key + b, []), FirstHit(a, key, tag)) == State(a + Placeholder(tag, 1) + b, [(Placeholder(tag, 1), key)])
  {
    Slices(a + key + b, a, key, b, |a|, |a| + |key|);
  }

  lemma MaskSecond(a: string, key: string, b: string, p: string, tag: string)
    requires IsLabel(tag) && p != "" && key != a + p + b
    ensures Fits(a + p + b, SecondHit(a, p, b, tag))
    ensures Mask(State(a + p + b, [(p, key)]), SecondHit(a, p, b, tag)) ==
            State(a + Placeholder(tag, 2) + b, [(p, key), (Placeholder(tag, 2), p)])
  {
    var text, table := a + p + b, [(p, key)];
    Slices(text, a, p, b, |a|, |a| + |p|);
    assert text[0..|text|] == text;
    assert table[1..] == [] && PlaceholderFor([], text).None?;
  }

  lemma RestoreTwice(a: string, key: string, b: string, p: string, q: string)
    requires Bracketed(p) && Bracketed(q) && p != q && Lacks(a + key + b, MARK)
    ensures Restore(a + q + b, [(p, key), (q, p)]) == a + p + b
  {
    ReplaceAround(a, key, b, q, p, key);
    ReplaceAround(a, key, b, q, q, p);
    var table: Table := [(p, key), (q, p)];
    assert table[1..] == [(q, p)] && table[1..][1..] == [];
    assert Restore(a + p + b, []) == a + p + b;
  }

  lemma SignBetween(a: string, key: string, b: string, q: string)
    requires Bracketed(q) && Lacks(a + key + b, MARK)
    ensures var ts := Chars(a) + [P(q)] + Chars(b);
            Signs(ts) && PlainClean(ts) && Render(ts) == a + q + b
  {
    var ts, table := Chars(a) + [P(q)] + Chars(b), [(q, key)];
    CharsFacts(a, table);
    CharsFacts(b, table);
    OneSign(q, table);
    Around(Chars(a), [P(q)], Chars(b), table);
    CleanBehind(ts, table);
  }

  /** A placeholder between clean pieces: only its own replacement touches it. */
  lemma ReplaceAround(a: string, key: string, b: string, q: string, p: string, v: string)
    requires Bracketed(p) && Bracketed(q) && Lacks(a + key + b, MARK)
    ensures Replace(a + q + b, p, v) == a + (if p == q then v else q) + b
  {
    SignBetween(a, key, b, q);
    ReplaceIsSubst(Chars(a) + [P(q)] + Chars(b), p, v);
    SubstAround(a, b, q, p, v);
    CharsFacts(a, []);
    CharsFacts(b, []);
    CharsFacts(v, []);
    OneSign(q, []);
    Around(Chars(a), if p == q then Chars(v) else [P(q)], Chars(b), []);
  }

  lemma MarkInside(a: string, p: string, b: string)
    requires Bracketed(p)
    ensures OccursAt(a + p + b, MARK, |a|)
  {
    assert (a + p + b)[|a|..|a| + |MARK|] == p[..|MARK|];
  }

  lemma SubstOne(t: Tok, p: string, v: string)
    ensures Subst([t], p, v) == if t == P(p) then Chars(v) else [t]
  {
    assert [t][1..] == [] && Subst([t], p, v) == (if t == P(p) then Chars(v) else [t]) + Subst([], p, v);
  }

  lemma SubstAround(a: string, b: string, q: string, p: string, v: string)
    ensures Subst(Chars(a) + [P(q)] + Chars(b), p, v) == Chars(a) + (if p == q then Chars(v) else [P(q)]) + Chars(b)
  {
    SubstAppend(Chars(a) + [P(q)], Chars(b), p, v);
    SubstAppend(Chars(a), [P(q)], p, v);
    SubstPlain(a, p, v);
    SubstPlain(b, p, v);
    SubstOne(P(q), p, v);
  }

  lemma {:induction false} SubstPlain(s: string, p: string, v: string)
    ensures Subst(Chars(s), p, v) == Chars(s)
  {
    if s != "" {
      SubstPlain(s[1..], p, v);
    }
  }

  lemma Associative(a: seq<Tok>, b: seq<Tok>, c: seq<Tok>)
    ensures a + (b + c) == a + b + c
  {
  }

  lemma {:induction false} SubstAppend(a: seq<Tok>, b: seq<Tok>, p: string, v: string)
    ensures Subst(a + b, p, v) == Subst(a, p, v) + Subst(b, p, v)
  {
    if a == [] {
      assert a + b == b;
    } else {
      SubstAppend(a[1..], b, p, v);
      assert (a + b)[0] == a[0] && (a + b)[1..] == a[1..] + b;
      Associative(SubstTok(a[0], p, v), Subst(a[1..], p, v), Subst(b, p, v));
    }
  }
}
