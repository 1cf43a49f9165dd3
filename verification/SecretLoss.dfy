/**
 When a masked secret does not come back: one more hit on a text that stands for a content without a mark of its own.
 A hit that is not clear of the placeholders in the text leaves a piece of one in front of its own placeholder and a
 piece of one behind it; the pieces stay until their neighbour is put back.
 */
module SecretLoss {
  import opened Wrappers
  import opened Text
  import opened SecretScrub
  import Decimal

  // ---------------------------------------------------------------------------------------------
  // A placeholder between two pieces of placeholders
  // ---------------------------------------------------------------------------------------------

  /** The first characters of a placeholder, or nothing. */
  predicate FrontPiece(f: string) {
    (f != "" ==> f[0] == '[') && forall i :: 0 <= i < |f| ==> f[i] != ']' && (i > 0 ==> f[i] != '[')
  }

  /** The last characters of a placeholder, or nothing. */
  predicate BackPiece(f: string) {
    forall i :: 0 <= i < |f| ==> f[i] != '['
  }

  lemma PrefixChar(p: string, s: string, i: nat)
    ensures p <= s && i < |p| ==> i < |s| && p[i] == s[i]
  {
  }

  lemma NotInFront(f: string, rest: string, p: string)
    requires FrontPiece(f) && f != "" && rest != "" && rest[0] == '[' && Bracketed(p)
    ensures !(p <= f + rest)
  {
    assert (f + rest)[|f|] == '[';
    assert forall i :: 0 <= i < |f| ==> (f + rest)[i] == f[i];
    PrefixChar(p, f + rest, |f|);
    PrefixChar(p, f + rest, |p| - 1);
  }

  lemma SkipFront(f: string, rest: string, p: string, v: string)
    requires FrontPiece(f) && Bracketed(p) && rest != "" && rest[0] == '['
    ensures Replace(f + rest, p, v) == f + Replace(rest, p, v)
  {
    if f == "" {
      assert f + rest == rest;
    } else {
      NotInFront(f, rest, p);
      assert f == [f[0]] + f[1..];
      SkipPlain(f[1..], rest, p, v);
      Glue(f[0], f[1..], rest, p, v);
    }
  }

  lemma NotAcross(p: string, x: string, y: string)
    requires Bracketed(p) && p <= x + y && x != "" && y != "" && y[0] == '['
    ensures p <= x
  {
    assert (x + y)[|x|] == '[';
    PrefixChar(p, x + y, |x|);
    assert |p| <= |x| && p == (x + y)[..|p|] == x[..|p|];
  }

  lemma ConsFacts(t: Tok, rest: seq<Tok>, p: string, v: string)
    ensures Render([t] + rest) == TextOf(t) + Render(rest)
    ensures Render(Subst([t] + rest, p, v)) == Render(SubstTok(t, p, v)) + Render(Subst(rest, p, v))
  {
    assert ([t] + rest)[1..] == rest;
    RenderAppend(SubstTok(t, p, v), Subst(rest, p, v));
  }

  lemma Joined(a: string, b: string, c: string)
    ensures (a + b) + c == a + (b + c)
  {
  }

  lemma FrontStep(t: Tok, rest: seq<Tok>, y: string, p: string, v: string)
    requires Bracketed(p) && y != "" && y[0] == '['
    requires Replace(Render(rest) + y, p, v) == Render(Subst(rest, p, v)) + Replace(y, p, v)
    requires match t case C(c) => !(MARK <= TextOf(t) + Render(rest)) case P(q) => Bracketed(q)
    ensures Replace(Render([t] + rest) + y, p, v) == Render(Subst([t] + rest, p, v)) + Replace(y, p, v)
  {
    var after := Render(Subst(rest, p, v)) + Replace(y, p, v);
    ReplaceFirst(t, Render(rest), y, p, v, after);
    ConsFacts(t, rest, p, v);
    Joined(TextOf(t), Render(rest), y);
    Joined(Render(SubstTok(t, p, v)), Render(Subst(rest, p, v)), Replace(y, p, v));
  }

  lemma PlainCleanTail(ts: seq<Tok>)
    requires ts != [] && Signs(ts) && PlainClean(ts)
    ensures Signs(ts[1..]) && PlainClean(ts[1..])
    ensures ts[0].C? ==> !(MARK <= TextOf(ts[0]) + Render(ts[1..]))
  {
    var rest := ts[1..];
    assert forall k :: 0 <= k < |rest| ==> rest[k..] == ts[k + 1..];
    assert ts[0..] == ts;
  }

  /** Replacing in front of an opening bracket. */
  lemma {:induction false} ReplaceFront(ts: seq<Tok>, y: string, p: string, v: string)
    requires Signs(ts) && PlainClean(ts) && Bracketed(p) && y != "" && y[0] == '['
    ensures Replace(Render(ts) + y, p, v) == Render(Subst(ts, p, v)) + Replace(y, p, v)
  {
    if ts == [] {
      assert Render(ts) + y == y;
    } else {
      PlainCleanTail(ts);
      ReplaceFront(ts[1..], y, p, v);
      FrontStep(ts[0], ts[1..], y, p, v);
      assert [ts[0]] + ts[1..] == ts;
    }
  }

  lemma ReplaceFirst(t: Tok, rest: string, y: string, p: string, v: string, after: string)
    requires Bracketed(p) && y != "" && y[0] == '[' && Replace(rest + y, p, v) == after
    requires match t case C(c) => !(MARK <= TextOf(t) + rest) case P(q) => Bracketed(q)
    ensures Replace(TextOf(t) + (rest + y), p, v) == Render(SubstTok(t, p, v)) + after
  {
    match t
    case C(c) =>
      var s := [c] + (rest + y);
      assert s == ([c] + rest) + y && s[1..] == rest + y;
      if p <= s {
        NotAcross(p, [c] + rest, y);
        MarkFirst(p, [c] + rest);
      }
      RenderOne(t);
    case P(q) =>
      if p == q {
        assert (q + (rest + y))[|p|..] == rest + y;
        CharsFacts(v, []);
      } else {
        SkipOther(q, rest + y, p, v);
        RenderOne(t);
      }
  }

  /** One replacement on pieces around a placeholder. */
  lemma ReplaceShape(a: seq<Tok>, f1: string, c: string, f2: string, b: seq<Tok>, p: string, v: string)
    requires Signs(a) && PlainClean(a) && Signs(b) && PlainClean(b) && Bracketed(p) && Bracketed(c)
    requires FrontPiece(f1) && BackPiece(f2)
    ensures Replace(Shape(Render(a), f1, c, f2, Render(b)), p, v)
            == Shape(Render(Subst(a, p, v)), f1, if p == c then v else c, f2, Render(Subst(b, p, v)))
  {
    var tail := f2 + Render(b);
    var now := if p == c then v else c;
    ReplaceIsSubst(b, p, v);
    SkipPlain(f2, Render(b), p, v);
    if p == c {
      assert (c + tail)[|p|..] == tail;
    } else {
      SkipOther(c, tail, p, v);
    }
    SkipFront(f1, c + tail, p, v);
    var y := f1 + (c + tail);
    ReplaceFront(a, y, p, v);
    ShapeIs(Render(a), f1, c, f2, Render(b));
    ShapeIs(Render(Subst(a, p, v)), f1, now, f2, Render(Subst(b, p, v)));
  }

  function Shape(a: string, f1: string, c: string, f2: string, b: string): string {
    a + f1 + c + f2 + b
  }

  lemma ShapeIs(a: string, f1: string, c: string, f2: string, b: string)
    ensures Shape(a, f1, c, f2, b) == a + (f1 + (c + (f2 + b)))
  {
  }

  // ---------------------------------------------------------------------------------------------
  // Many replacements
  // ---------------------------------------------------------------------------------------------

  function SubstAll(ts: seq<Tok>, table: Table): seq<Tok>
    decreases |table|
  {
    if table == [] then ts else SubstAll(Subst(ts, table[0].0, table[0].1), table[1..])
  }

  /** These entries are placeholders with the values that `all` gives them. */
  ghost predicate PartOf(table: Table, all: Table) {
    forall i :: 0 <= i < |table| ==> Bracketed(table[i].0) && ValueOf(all, table[i].0) == table[i].1
  }

  lemma {:induction false} SubstMeans(ts: seq<Tok>, p: string, v: string, all: Table)
    requires Signs(ts) && ValueOf(all, p) == v
    ensures Expand(Subst(ts, p, v), all) == Expand(ts, all) && Signs(Subst(ts, p, v))
  {
    if ts != [] {
      var first, rest := ts[0], ts[1..];
      assert ts == [first] + rest;
      KnownAppend([first], rest, all);
      SubstMeans(rest, p, v, all);
      CharsFacts(v, all);
      ExpandAppend(SubstTok(first, p, v), Subst(rest, p, v), all);
      KnownAppend(SubstTok(first, p, v), Subst(rest, p, v), all);
      ExpandOne(first, all);
    }
  }

  lemma ExpandOne(t: Tok, all: Table)
    ensures Expand([t], all) == MeaningOf(t, all)
  {
    assert [t][1..] == [] && Expand([t], all) == MeaningOf(t, all) + Expand([], all);
  }

  /** Tokens whose meaning holds no mark. */
  ghost predicate Clean(ts: seq<Tok>, all: Table) {
    Signs(ts) && Lacks(Expand(ts, all), MARK)
  }

  /** Entries other than that of the placeholder in the middle leave the pieces as they are. */
  lemma {:induction false} RestoreShape(a: seq<Tok>, f1: string, c: string, f2: string, b: seq<Tok>, table: Table, all: Table)
    requires Clean(a, all) && Clean(b, all) && PartOf(table, all) && NonEmptyKeys(table)
    requires FrontPiece(f1) && BackPiece(f2) && Bracketed(c) && forall i :: 0 <= i < |table| ==> table[i].0 != c
    ensures Restore(Shape(Render(a), f1, c, f2, Render(b)), table)
            == Shape(Render(SubstAll(a, table)), f1, c, f2, Render(SubstAll(b, table)))
    ensures Clean(SubstAll(a, table), all) && Expand(SubstAll(a, table), all) == Expand(a, all)
    ensures Clean(SubstAll(b, table), all) && Expand(SubstAll(b, table), all) == Expand(b, all)
    decreases |table|
  {
    if table != [] {
      var e := table[0];
      CleanBehind(a, all);
      CleanBehind(b, all);
      ReplaceShape(a, f1, c, f2, b, e.0, e.1);
      SubstMeans(a, e.0, e.1, all);
      SubstMeans(b, e.0, e.1, all);
      RestoreShape(Subst(a, e.0, e.1), f1, c, f2, Subst(b, e.0, e.1), table[1..], all);
    }
  }

  /** A text with a mark does not stand for a content without one. */
  lemma MarkStays(a: string, f1: string, c: string, f2: string, b: string, content: string)
    requires MARK <= c && Lacks(content, MARK)
    ensures Shape(a, f1, c, f2, b) != content
  {
    var s := Shape(a, f1, c, f2, b);
    ShapeIs(a, f1, c, f2, b);
    assert s == (a + f1) + (c + (f2 + b));
    assert OccursAt(s, MARK, |a + f1|);
  }

  // ---------------------------------------------------------------------------------------------
  // Where a hit cuts the tokens
  // ---------------------------------------------------------------------------------------------

  /** The token that holds a place of the text. */
  lemma {:induction false} TokenAt(ts: seq<Tok>, n: nat, pos: nat) returns (k: nat)
    requires n <= |ts| && pos < Offset(ts, n)
    ensures k < n && Offset(ts, k) <= pos < Offset(ts, k + 1)
  {
    assert ts[..0] == [];
    if pos >= Offset(ts, n - 1) {
      return n - 1;
    }
    k := TokenAt(ts, n - 1, pos);
  }

  lemma TextAround(ts: seq<Tok>, k: nat)
    requires k < |ts|
    ensures Render(ts) == Render(ts[..k]) + TextOf(ts[k]) + Render(ts[k + 1..])
    ensures Offset(ts, k) == |Render(ts[..k])| && Offset(ts, k + 1) == |Render(ts[..k])| + |TextOf(ts[k])|
  {
    OffsetStep(ts, k);
    assert ts == ts[..k] + [ts[k]] + ts[k + 1..];
    RenderAppend(ts[..k] + [ts[k]], ts[k + 1..]);
    RenderAppend(ts[..k], [ts[k]]);
    RenderOne(ts[k]);
  }

  lemma FrontOf(t: Tok, n: nat)
    requires n < |TextOf(t)| && (t.P? ==> Bracketed(t.sign))
    ensures FrontPiece(TextOf(t)[..n])
  {
  }

  lemma BackOf(t: Tok, n: nat)
    requires 0 < n <= |TextOf(t)| && (t.P? ==> Bracketed(t.sign))
    ensures BackPiece(TextOf(t)[n..])
  {
  }

  lemma CutFront(ts: seq<Tok>, pos: nat) returns (m: nat, f: string)
    requires Signs(ts) && pos < |Render(ts)|
    ensures m < |ts| && Offset(ts, m) <= pos < Offset(ts, m + 1)
    ensures Render(ts)[..pos] == Render(ts[..m]) + f && FrontPiece(f)
  {
    assert ts[..|ts|] == ts;
    m := TokenAt(ts, |ts|, pos);
    TextAround(ts, m);
    f := TextOf(ts[m])[..pos - Offset(ts, m)];
    FrontOf(ts[m], pos - Offset(ts, m));
  }

  lemma CutBack(ts: seq<Tok>, pos: nat) returns (n: nat, f: string)
    requires Signs(ts) && 0 < pos <= |Render(ts)|
    ensures 0 < n <= |ts| && Offset(ts, n - 1) < pos <= Offset(ts, n)
    ensures Render(ts)[pos..] == f + Render(ts[n..]) && BackPiece(f)
  {
    assert ts[..|ts|] == ts;
    var k := TokenAt(ts, |ts|, pos - 1);
    TextAround(ts, k);
    n, f := k + 1, TextOf(ts[k])[pos - Offset(ts, k)..];
    BackOf(ts[k], pos - Offset(ts, k));
    DropInto(Render(ts[..k]), TextOf(ts[k]), Render(ts[n..]), pos);
  }

  lemma DropInto(a: string, t: string, b: string, pos: nat)
    requires |a| <= pos <= |a| + |t|
    ensures (a + t + b)[pos..] == t[pos - |a|..] + b
  {
  }

  /** The tokens from number `m` to below `n` are those that the hit touches. */
  ghost predicate Spans(ts: seq<Tok>, h: Hit, m: nat, n: nat) {
    m < n <= |ts| && Offset(ts, m) <= h.lo < Offset(ts, m + 1) && Offset(ts, n - 1) < h.hi <= Offset(ts, n)
  }

  /** A hit touches the tokens `mid` between the others, and leaves these pieces of the first and the last. */
  ghost predicate CutBy(a: seq<Tok>, mid: seq<Tok>, b: seq<Tok>, text: string, h: Hit, f1: string, f2: string) {
    && Fits(text, h) && FrontPiece(f1) && BackPiece(f2)
    && text[..h.lo] == Render(a) + f1 && text[h.hi..] == f2 + Render(b) && Render(mid) == f1 + text[h.lo..h.hi] + f2
  }

  lemma CutTokens(ts: seq<Tok>, text: string, h: Hit) returns (m: nat, n: nat, f1: string, f2: string)
    requires Signs(ts) && Render(ts) == text && Fits(text, h)
    ensures Spans(ts, h, m, n) && CutBy(ts[..m], ts[m..n], ts[n..], text, h, f1, f2) && ts == ts[..m] + ts[m..n] + ts[n..]
  {
    m, f1 := CutFront(ts, h.lo);
    n, f2 := CutBack(ts, h.hi);
    if n <= m {
      OffsetGrows(ts, n, m);
    }
    assert ts == ts[..m] + ts[m..n] + ts[n..];
    RenderAppend(ts[..m] + ts[m..n], ts[n..]);
    RenderAppend(ts[..m], ts[m..n]);
    Middle(Render(ts[..m]), Render(ts[m..n]), Render(ts[n..]), text, h.lo, h.hi, f1, f2);
  }

  lemma Middle(a: string, mid: string, b: string, text: string, lo: nat, hi: nat, f1: string, f2: string)
    requires text == a + mid + b && lo <= hi <= |text| && text[..lo] == a + f1 && text[hi..] == f2 + b
    requires |a| + |mid| >= hi
    ensures mid == f1 + text[lo..hi] + f2
  {
    var x := f1 + text[lo..hi] + f2;
    assert text == text[..lo] + text[lo..hi] + text[hi..];
    assert text == a + x + b;
    assert mid == text[|a|..|text| - |b|] && x == text[|a|..|text| - |b|];
  }

  /** A placeholder that starts inside a token is that token. */
  lemma StartsSign(t: Tok, back: string, p: string, d: nat)
    requires Bracketed(p) && d < |TextOf(t)| && (t.P? ==> Bracketed(t.sign)) && (t.C? ==> !(MARK <= TextOf(t) + back))
    requires p <= (TextOf(t) + back)[d..] && p[0] == TextOf(t)[d]
    ensures d == 0 && t == P(p)
  {
    assert d == 0;
    assert p <= TextOf(t) + back;
    MarkFirst(p, TextOf(t) + back);
    SamePlace(t.sign, back, p);
  }

  lemma PlainAt(ts: seq<Tok>, j: nat)
    requires PlainClean(ts) && j < |ts| && ts[j].C?
    ensures !(MARK <= TextOf(ts[j]) + Render(ts[j + 1..]))
  {
    assert ts[j..] == [ts[j]] + ts[j + 1..];
  }

  /** A placeholder in the text is one of its tokens. */
  lemma OccurrenceIsToken(ts: seq<Tok>, p: string, i: nat) returns (j: nat)
    requires Signs(ts) && PlainClean(ts) && Bracketed(p) && OccursAt(Render(ts), p, i)
    ensures j < |ts| && ts[j] == P(p) && Offset(ts, j) == i
  {
    assert ts[..|ts|] == ts;
    j := TokenAt(ts, |ts|, i);
    TextAround(ts, j);
    Rest(Render(ts[..j]), TextOf(ts[j]), Render(ts[j + 1..]), p, i);
    if ts[j].C? {
      PlainAt(ts, j);
    }
    StartsSign(ts[j], Render(ts[j + 1..]), p, i - Offset(ts, j));
  }

  lemma Rest(a: string, t: string, b: string, p: string, i: nat)
    requires OccursAt(a + t + b, p, i) && |a| <= i < |a| + |t| && p != ""
    ensures p <= (t + b)[i - |a|..] && p[0] == t[i - |a|]
  {
    var s := a + t + b;
    assert s[|a|..] == t + b;
    assert s[i..i + |p|] == (t + b)[i - |a|..][..|p|];
    assert p[0] == s[i] == t[i - |a|];
  }

  /** The hit is clear of the placeholders of the first `n` entries. */
  predicate ClearOf(s: State, h: Hit, n: nat)
    requires n <= |s.table|
  {
    forall k, i :: 0 <= k < n && 0 <= i <= |s.text| && OccursAt(s.text, s.table[k].0, i) ==>
      i + |s.table[k].0| <= h.lo || h.hi <= i
  }

  lemma OffsetsInside(ts: seq<Tok>, h: Hit, m: nat, n: nat, j: nat)
    requires Spans(ts, h, m, n) && m <= j < n
    ensures Offset(ts, j) < h.hi && h.lo < Offset(ts, j + 1)
  {
    OffsetGrows(ts, j, n - 1);
    OffsetGrows(ts, m + 1, j + 1);
  }

  lemma TouchedOverlaps(ts: seq<Tok>, h: Hit, m: nat, n: nat, j: nat)
    requires Spans(ts, h, m, n) && m <= j < n
    ensures OccursAt(Render(ts), TextOf(ts[j]), Offset(ts, j))
    ensures Offset(ts, j) < h.hi && h.lo < Offset(ts, j) + |TextOf(ts[j])|
  {
    OffsetsInside(ts, h, m, n, j);
    OffsetStep(ts, j);
  }

  lemma OverlappingIsTouched(ts: seq<Tok>, h: Hit, m: nat, n: nat, j: nat)
    requires Spans(ts, h, m, n) && j < |ts| && Offset(ts, j) < h.hi && h.lo < Offset(ts, j + 1)
    ensures m <= j < n
  {
    if j < m {
      OffsetGrows(ts, j + 1, m);
    }
    if n <= j {
      OffsetGrows(ts, n, j);
    }
  }

  lemma TouchedIsNotClear(ts: seq<Tok>, s: State, h: Hit, m: nat, n: nat, k: nat, i: nat)
    requires Render(ts) == s.text && Spans(ts, h, m, n) && i < k <= |s.table| && P(s.table[i].0) in ts[m..n]
    ensures !ClearOf(s, h, k)
  {
    var j :| 0 <= j < n - m && ts[m..n][j] == P(s.table[i].0);
    assert ts[m + j] == P(s.table[i].0);
    TouchedOverlaps(ts, h, m, n, m + j);
  }

  lemma NotClearTouches(ts: seq<Tok>, s: State, h: Hit, m: nat, n: nat, k: nat) returns (i: nat)
    requires Render(ts) == s.text && Signs(ts) && PlainClean(ts) && Numbered(s.table)
    requires Spans(ts, h, m, n) && k <= |s.table| && !ClearOf(s, h, k)
    ensures i < k && P(s.table[i].0) in ts[m..n]
  {
    var at;
    i, at :| 0 <= i < k && 0 <= at <= |s.text| && OccursAt(s.text, s.table[i].0, at)
             && !(at + |s.table[i].0| <= h.lo || h.hi <= at);
    NumberedKeys(s.table, i);
    var j := OccurrenceIsToken(ts, s.table[i].0, at);
    OffsetStep(ts, j);
    OverlappingIsTouched(ts, h, m, n, j);
    assert ts[m..n][j - m] == P(s.table[i].0);
  }

  /** A hit is clear of the first entries exactly if it touches none of their placeholders. */
  lemma ClearExactly(ts: seq<Tok>, s: State, h: Hit, content: string, m: nat, n: nat, k: nat)
    requires StandsFor(ts, s, content) && Lacks(content, MARK) && Spans(ts, h, m, n) && k <= |s.table|
    ensures ClearOf(s, h, k) <==> forall i :: 0 <= i < k ==> P(s.table[i].0) !in ts[m..n]
  {
    CleanBehind(ts, s.table);
    if i :| 0 <= i < k && P(s.table[i].0) in ts[m..n] {
      TouchedIsNotClear(ts, s, h, m, n, k, i);
    } else if !ClearOf(s, h, k) {
      var i := NotClearTouches(ts, s, h, m, n, k);
    }
  }

  // ---------------------------------------------------------------------------------------------
  // The text after the hit
  // ---------------------------------------------------------------------------------------------

  lemma PartsClean(a: seq<Tok>, mid: seq<Tok>, b: seq<Tok>, all: Table)
    requires Clean(a + mid + b, all)
    ensures Clean(a, all) && Clean(mid, all) && Clean(b, all)
    ensures Expand(a + mid + b, all) == Expand(a, all) + Expand(mid, all) + Expand(b, all)
  {
    Around(a, mid, b, all);
    KnownAppend(a + mid, b, all);
    KnownAppend(a, mid, all);
    LacksParts(Expand(a, all), Expand(mid, all), Expand(b, all), MARK);
  }

  lemma LacksParts(x: string, y: string, z: string, pat: string)
    requires Lacks(x + y + z, pat)
    ensures Lacks(x, pat) && Lacks(y, pat) && Lacks(z, pat)
  {
    PartLacks(x, y, z, pat);
    assert "" + x + (y + z) == x + y + z && (x + y) + z + "" == x + y + z;
    PartLacks("", x, y + z, pat);
    PartLacks(x + y, z, "", pat);
  }

  lemma TableFacts(table: Table)
    requires Numbered(table)
    ensures PartOf(table, table) && NonEmptyKeys(table)
  {
    forall i | 0 <= i < |table| ensures Bracketed(table[i].0) && ValueOf(table, table[i].0) == table[i].1 {
      NumberedKeys(table, i);
      NumberedValue(table, i);
    }
  }

  function SignOf(s: State, h: Hit): string
    requires Fits(s.text, h)
  {
    var known := PlaceholderFor(s.table, s.text[h.start..h.end]);
    if known.None? then Placeholder(h.tag, |s.table| + 1)
    else if "[" + h.tag <= known.value then known.value
    else "[" + h.tag + "]"
  }

  lemma MaskedShape(a: seq<Tok>, mid: seq<Tok>, b: seq<Tok>, s: State, h: Hit, f1: string, f2: string)
    requires CutBy(a, mid, b, s.text, h, f1, f2)
    ensures Mask(s, h).text == Shape(Render(a), f1, SignOf(s, h), f2, Render(b))
  {
    ShapeIs(Render(a), f1, SignOf(s, h), f2, Render(b));
  }

  lemma {:induction false} RestoreSplit(text: string, first: Table, second: Table)
    requires NonEmptyKeys(first) && NonEmptyKeys(second)
    ensures NonEmptyKeys(first + second) && Restore(text, first + second) == Restore(Restore(text, first), second)
    decreases |first|
  {
    if first == [] {
      assert first + second == second;
    } else {
      assert (first + second)[1..] == first[1..] + second;
      RestoreSplit(Replace(text, first[0].0, first[0].1), first[1..], second);
    }
  }

  lemma RestoreLast(text: string, first: Table, e: (string, string))
    requires NonEmptyKeys(first) && e.0 != ""
    ensures NonEmptyKeys(first + [e]) && Restore(text, first + [e]) == Replace(Restore(text, first), e.0, e.1)
  {
    RestoreSplit(text, first, [e]);
    assert [e][1..] == [];
  }

  /** A touched placeholder shows in the text that the touched tokens make. */
  lemma TouchedShows(mid: seq<Tok>, sign: string) returns (x: seq<Tok>, y: seq<Tok>)
    requires P(sign) in mid
    ensures mid == x + [P(sign)] + y && Render(mid) == Render(x) + sign + Render(y)
  {
    var j :| 0 <= j < |mid| && mid[j] == P(sign);
    x, y := mid[..j], mid[j + 1..];
    assert mid == x + [P(sign)] + y;
    OneSign(sign, []);
    Around(x, [P(sign)], y, []);
  }

  // ---------------------------------------------------------------------------------------------
  // A new secret
  // ---------------------------------------------------------------------------------------------

  lemma NewPlaceholder(tag: string, table: Table)
    requires IsLabel(tag) && Numbered(table)
    ensures var p := Placeholder(tag, |table| + 1);
            Bracketed(p) && (forall i :: 0 <= i < |table| ==> table[i].0 != p) && Numbered(table + [(p, "")])
  {
    var p := Placeholder(tag, |table| + 1);
    PlaceholderIsBracketed(tag, |table| + 1);
    var longer := table + [(p, "")];
    forall i | 0 <= i < |longer| ensures Carries(longer[i].0, i + 1) {
      assert i < |table| ==> Carries(table[i].0, i + 1);
    }
    forall i | 0 <= i < |table| ensures table[i].0 != p {
      NumbersAreUnique(longer, i, |table|);
      assert longer[i].0 == table[i].0;
    }
  }

  /** A new secret is put back last, between the pieces that it has left. */
  lemma NewRestores(a: seq<Tok>, f1: string, c: string, f2: string, b: seq<Tok>, table: Table, v: string)
    returns (a1: seq<Tok>, b1: seq<Tok>)
    requires Clean(a, table) && Clean(b, table) && PartOf(table, table) && NonEmptyKeys(table)
    requires FrontPiece(f1) && BackPiece(f2) && Bracketed(c) && forall i :: 0 <= i < |table| ==> table[i].0 != c
    ensures NonEmptyKeys(table + [(c, v)])
    ensures Restore(Shape(Render(a), f1, c, f2, Render(b)), table + [(c, v)]) == Shape(Render(a1), f1, v, f2, Render(b1))
  {
    RestoreLast(Shape(Render(a), f1, c, f2, Render(b)), table, (c, v));
    RestoreShape(a, f1, c, f2, b, table, table);
    var a0, b0 := SubstAll(a, table), SubstAll(b, table);
    CleanBehind(a0, table);
    CleanBehind(b0, table);
    ReplaceShape(a0, f1, c, f2, b0, c, v);
    a1, b1 := Subst(a0, c, v), Subst(b0, c, v);
  }

  lemma NewText(a: seq<Tok>, mid: seq<Tok>, b: seq<Tok>, s: State, h: Hit, f1: string, f2: string)
    returns (a1: seq<Tok>, b1: seq<Tok>)
    requires Clean(a, s.table) && Clean(b, s.table) && Numbered(s.table) && CutBy(a, mid, b, s.text, h, f1, f2)
    requires PlaceholderFor(s.table, s.text[h.start..h.end]).None?
    ensures NonEmptyKeys(Mask(s, h).table)
    ensures Restore(Mask(s, h).text, Mask(s, h).table) == Shape(Render(a1), f1, s.text[h.lo..h.hi], f2, Render(b1))
  {
    TableFacts(s.table);
    NewPlaceholder(h.tag, s.table);
    MaskedShape(a, mid, b, s, h, f1, f2);
    a1, b1 := NewRestores(a, f1, SignOf(s, h), f2, b, s.table, s.text[h.lo..h.hi]);
  }

  /** A new secret that holds part of a placeholder is not put back. */
  lemma NewIsLost(a: seq<Tok>, mid: seq<Tok>, b: seq<Tok>, s: State, h: Hit, content: string, f1: string, f2: string, sign: string)
    requires StandsFor(a + mid + b, s, content) && Lacks(content, MARK) && CutBy(a, mid, b, s.text, h, f1, f2)
    requires PlaceholderFor(s.table, s.text[h.start..h.end]).None?
    requires P(sign) in mid && Bracketed(sign)
    ensures NonEmptyKeys(Mask(s, h).table) && Restore(Mask(s, h).text, Mask(s, h).table) != content
  {
    PartsClean(a, mid, b, s.table);
    var a1, b1 := NewText(a, mid, b, s, h, f1, f2);
    var x, y := TouchedShows(mid, sign);
    PiecesMakeSign(Render(a1), f1, s.text[h.lo..h.hi], f2, Render(b1), Render(x), sign, Render(y));
    MarkStays(Render(a1), Render(x), sign, Render(y), Render(b1), content);
  }

  lemma PiecesMakeSign(a: string, f1: string, v: string, f2: string, b: string, x: string, sign: string, y: string)
    requires f1 + v + f2 == x + sign + y
    ensures Shape(a, f1, v, f2, b) == Shape(a, x, sign, y, b)
  {
    assert Shape(a, f1, v, f2, b) == a + (f1 + v + f2) + b;
    assert Shape(a, x, sign, y, b) == a + (x + sign + y) + b;
  }

  // ---------------------------------------------------------------------------------------------
  // A recorded secret under another tag
  // ---------------------------------------------------------------------------------------------

  lemma BareTag(tag: string, other: string, number: nat)
    requires IsLabel(tag) && IsLabel(other)
    ensures Bracketed("[" + tag + "]") && "[" + tag + "]" != Placeholder(other, number)
  {
    var p := "[" + tag + "]";
    assert p[..|MARK|] == "[" + tag[..6];
    forall i | 1 <= i < |p| - 1 ensures 'A' <= p[i] <= 'Z' || p[i] == '_' {
      assert p[i] == tag[i - 1];
    }
    var q, digits := Placeholder(other, number), Decimal.Format(number);
    assert q[|q| - 2] == digits[|digits| - 1];
  }

  /** A recorded secret found under another tag is masked by the bare tag, which nothing puts back. */
  lemma BareTagIsLost(a: seq<Tok>, mid: seq<Tok>, b: seq<Tok>, s: State, h: Hit, content: string, f1: string, f2: string)
    requires StandsFor(a + mid + b, s, content) && Lacks(content, MARK) && CutBy(a, mid, b, s.text, h, f1, f2)
    requires var known := PlaceholderFor(s.table, s.text[h.start..h.end]);
             known.Some? && !("[" + h.tag <= known.value)
    ensures NonEmptyKeys(Mask(s, h).table) && Restore(Mask(s, h).text, Mask(s, h).table) != content
  {
    var c := "[" + h.tag + "]";
    TableFacts(s.table);
    PartsClean(a, mid, b, s.table);
    MaskedShape(a, mid, b, s, h, f1, f2);
    BareTag(h.tag, h.tag, 0);
    forall i | 0 <= i < |s.table| ensures s.table[i].0 != c {
      assert Carries(s.table[i].0, i + 1);
      var tag :| IsLabel(tag) && s.table[i].0 == Placeholder(tag, i + 1);
      BareTag(h.tag, tag, i + 1);
    }
    RestoreShape(a, f1, c, f2, b, s.table, s.table);
    MarkStays(Render(SubstAll(a, s.table)), f1, c, f2, Render(SubstAll(b, s.table)), content);
  }

  // ---------------------------------------------------------------------------------------------
  // A recorded secret found again
  // ---------------------------------------------------------------------------------------------

  /** The first entry made for this text. */
  function EntryFor(table: Table, text: string): (i: nat)
    requires PlaceholderFor(table, text).Some?
    ensures i < |table| && table[i] == (PlaceholderFor(table, text).value, text)
  {
    if table[0].1 == text then 0 else EntryFor(table[1..], text) + 1
  }

  lemma TableAround(table: Table, i: nat)
    requires i < |table| && Numbered(table)
    ensures table == table[..i] + [table[i]] + table[i + 1..]
    ensures PartOf(table[..i], table) && PartOf([table[i]], table) && PartOf(table[i + 1..], table)
    ensures NonEmptyKeys(table) && NonEmptyKeys(table[..i]) && NonEmptyKeys(table[i + 1..])
    ensures forall k :: 0 <= k < i ==> table[..i][k].0 != table[i].0
  {
    TableFacts(table);
    forall k | 0 <= k < i ensures table[..i][k].0 != table[i].0 {
      NumbersAreUnique(table, k, i);
    }
  }

  lemma LaterEntriesDiffer(table: Table, i: nat, k: nat, later: Table)
    requires Numbered(table) && k <= i < |table| && later == table[i + 1..]
    ensures forall j :: 0 <= j < |later| ==> later[j].0 != table[k].0
  {
    forall j | 0 <= j < |later| ensures later[j].0 != table[k].0 {
      NumbersAreUnique(table, k, i + 1 + j);
    }
  }

  /** The text once the entries up to the recorded one have been put back, the text of the match in its place. */
  lemma UpToEntry(a: seq<Tok>, f1: string, f2: string, b: seq<Tok>, table: Table, i: nat) returns (a1: seq<Tok>, b1: seq<Tok>)
    requires Numbered(table) && i < |table| && Clean(a, table) && Clean(b, table) && FrontPiece(f1) && BackPiece(f2)
    ensures NonEmptyKeys(table) && NonEmptyKeys(table[i + 1..])
    ensures Restore(Shape(Render(a), f1, table[i].0, f2, Render(b)), table)
            == Restore(Shape(Render(a1), f1, table[i].1, f2, Render(b1)), table[i + 1..])
    ensures a1 == SubstAll(a, table[..i + 1]) && b1 == SubstAll(b, table[..i + 1])
    ensures Clean(a1, table) && Expand(a1, table) == Expand(a, table)
    ensures Clean(b1, table) && Expand(b1, table) == Expand(b, table)
  {
    TableAround(table, i);
    var e, first, text := table[i], table[..i], Shape(Render(a), f1, table[i].0, f2, Render(b));
    RestoreSplit(text, first + [e], table[i + 1..]);
    RestoreLast(text, first, e);
    RestoreShape(a, f1, e.0, f2, b, first, table);
    var a0, b0 := SubstAll(a, first), SubstAll(b, first);
    CleanBehind(a0, table);
    CleanBehind(b0, table);
    ReplaceShape(a0, f1, e.0, f2, b0, e.0, e.1);
    SubstMeans(a0, e.0, e.1, table);
    SubstMeans(b0, e.0, e.1, table);
    a1, b1 := Subst(a0, e.0, e.1), Subst(b0, e.0, e.1);
    SubstAllLast(a, first, e);
    SubstAllLast(b, first, e);
    assert table[..i + 1] == first + [e];
  }

  lemma {:induction false} SubstAllLast(ts: seq<Tok>, first: Table, e: (string, string))
    ensures SubstAll(ts, first + [e]) == Subst(SubstAll(ts, first), e.0, e.1)
    decreases |first|
  {
    if first == [] {
      assert first + [e] == [e] && [e][1..] == [];
    } else {
      assert (first + [e])[1..] == first[1..] + [e];
      SubstAllLast(Subst(ts, first[0].0, first[0].1), first[1..], e);
    }
  }

  /** The match is a recorded secret, is masked as a whole, and takes the placeholder of that secret. */
  predicate FoundAgain(s: State, h: Hit)
    requires Fits(s.text, h)
  {
    var known := PlaceholderFor(s.table, s.text[h.start..h.end]);
    known.Some? && "[" + h.tag <= known.value && h.lo == h.start && h.hi == h.end
  }

  lemma FoundAgainIsLost(a: seq<Tok>, mid: seq<Tok>, b: seq<Tok>, s: State, h: Hit, content: string, f1: string, f2: string, k: nat)
    requires StandsFor(a + mid + b, s, content) && Lacks(content, MARK) && CutBy(a, mid, b, s.text, h, f1, f2) && FoundAgain(s, h)
    requires k <= EntryFor(s.table, s.text[h.start..h.end]) && P(s.table[k].0) in mid
    ensures NonEmptyKeys(Mask(s, h).table) && Restore(Mask(s, h).text, Mask(s, h).table) != content
  {
    var i, sign := EntryFor(s.table, s.text[h.start..h.end]), s.table[k].0;
    MaskedShape(a, mid, b, s, h, f1, f2);
    PartsClean(a, mid, b, s.table);
    var a1, b1 := UpToEntry(a, f1, f2, b, s.table, i);
    var x, y := TouchedShows(mid, sign);
    PiecesMakeSign(Render(a1), f1, s.table[i].1, f2, Render(b1), Render(x), sign, Render(y));
    NumberedKeys(s.table, k);
    MiddleClean(a, mid, b, a1, x, P(sign), y, b1, s.table);
    SignAmong(a1, x, sign, y, b1);
    TableAround(s.table, i);
    LaterEntriesDiffer(s.table, i, k, s.table[i + 1..]);
    RestoreShape(a1 + x, "", sign, "", y + b1, s.table[i + 1..], s.table);
    MarkStays(Render(SubstAll(a1 + x, s.table[i + 1..])), "", sign, "", Render(SubstAll(y + b1, s.table[i + 1..])), content);
  }

  lemma SignAmong(a: seq<Tok>, x: seq<Tok>, sign: string, y: seq<Tok>, b: seq<Tok>)
    ensures Shape(Render(a), Render(x), sign, Render(y), Render(b)) == Shape(Render(a + x), "", sign, "", Render(y + b))
  {
    RenderAppend(a, x);
    RenderAppend(y, b);
    ShapeWide(Render(a), Render(x), sign, Render(y), Render(b));
  }

  lemma ShapeWide(a: string, x: string, sign: string, y: string, b: string)
    ensures Shape(a, x, sign, y, b) == Shape(a + x, "", sign, "", y + b)
  {
    assert Shape(a, x, sign, y, b) == (a + x) + sign + (y + b);
    assert Shape(a + x, "", sign, "", y + b) == (a + x) + sign + (y + b);
  }

  lemma CleanAppend(a: seq<Tok>, b: seq<Tok>, all: Table)
    requires Signs(a) && Signs(b) && Lacks(Expand(a, all) + Expand(b, all), MARK)
    ensures Clean(a + b, all)
  {
    KnownAppend(a, b, all);
    ExpandAppend(a, b, all);
  }

  lemma LacksEnds(a: string, x: string, t: string, y: string, b: string, pat: string)
    requires Lacks(a + (x + t + y) + b, pat)
    ensures Lacks(a + x, pat) && Lacks(y + b, pat)
  {
    assert a + (x + t + y) + b == (a + x) + t + (y + b);
    LacksParts(a + x, t, y + b, pat);
  }

  lemma MiddleClean(a: seq<Tok>, mid: seq<Tok>, b: seq<Tok>, a1: seq<Tok>, x: seq<Tok>, t: Tok, y: seq<Tok>, b1: seq<Tok>,
                    all: Table)
    requires mid == x + [t] + y && Clean(a + mid + b, all)
    requires Clean(a1, all) && Expand(a1, all) == Expand(a, all) && Clean(b1, all) && Expand(b1, all) == Expand(b, all)
    ensures Clean(a1 + x, all) && Clean(y + b1, all)
  {
    PartsClean(a, mid, b, all);
    Around(x, [t], y, all);
    KnownAppend(x + [t], y, all);
    KnownAppend(x, [t], all);
    LacksEnds(Expand(a1, all), Expand(x, all), Expand([t], all), Expand(y, all), Expand(b1, all), MARK);
    CleanAppend(a1, x, all);
    CleanAppend(y, b1, all);
  }

  lemma {:induction false} UntouchedStay(ts: seq<Tok>, p: string, v: string)
    requires P(p) !in ts
    ensures Subst(ts, p, v) == ts
  {
    if ts != [] {
      assert ts[0] in ts && forall t :: t in ts[1..] ==> t in ts;
      UntouchedStay(ts[1..], p, v);
    }
  }

  lemma {:induction false} AllUntouchedStay(ts: seq<Tok>, table: Table)
    requires forall i :: 0 <= i < |table| ==> P(table[i].0) !in ts
    ensures SubstAll(ts, table) == ts
    decreases |table|
  {
    if table != [] {
      UntouchedStay(ts, table[0].0, table[0].1);
      AllUntouchedStay(ts, table[1..]);
    }
  }

  lemma {:induction false} SubstAllAppend(a: seq<Tok>, b: seq<Tok>, table: Table)
    ensures SubstAll(a + b, table) == SubstAll(a, table) + SubstAll(b, table)
    decreases |table|
  {
    if table != [] {
      SubstAppend(a, b, table[0].0, table[0].1);
      SubstAllAppend(Subst(a, table[0].0, table[0].1), Subst(b, table[0].0, table[0].1), table[1..]);
    }
  }

  lemma {:induction false} RestoreIsSubstAll(ts: seq<Tok>, table: Table, all: Table)
    requires Clean(ts, all) && PartOf(table, all) && NonEmptyKeys(table)
    ensures Restore(Render(ts), table) == Render(SubstAll(ts, table))
    decreases |table|
  {
    if table != [] {
      CleanBehind(ts, all);
      ReplaceIsSubst(ts, table[0].0, table[0].1);
      SubstMeans(ts, table[0].0, table[0].1, all);
      RestoreIsSubstAll(Subst(ts, table[0].0, table[0].1), table[1..], all);
    }
  }

  lemma SubstAroundUntouched(a: seq<Tok>, mid: seq<Tok>, b: seq<Tok>, table: Table)
    requires forall k :: 0 <= k < |table| ==> P(table[k].0) !in mid
    ensures Render(SubstAll(a + mid + b, table)) == Render(SubstAll(a, table)) + Render(mid) + Render(SubstAll(b, table))
  {
    SubstAllAround(a, mid, b, table);
    AllUntouchedStay(mid, table);
  }

  lemma SplitTable(table: Table, n: nat, first: Table, later: Table)
    requires Numbered(table) && n <= |table| && first == table[..n] && later == table[n..]
    ensures first + later == table && NonEmptyKeys(first) && NonEmptyKeys(later) && PartOf(first, table)
  {
    TableFacts(table);
  }

  /** What the first entries make of the old text, when they touch none of the middle. */
  lemma OldUpToEntry(a: seq<Tok>, mid: seq<Tok>, b: seq<Tok>, table: Table, first: Table, later: Table)
    requires Clean(a + mid + b, table) && first + later == table && PartOf(first, table)
    requires NonEmptyKeys(first) && NonEmptyKeys(later) && forall k :: 0 <= k < |first| ==> P(first[k].0) !in mid
    ensures NonEmptyKeys(table)
    ensures Restore(Render(a + mid + b), table)
            == Restore(Render(SubstAll(a, first)) + Render(mid) + Render(SubstAll(b, first)), later)
  {
    RestoreSplit(Render(a + mid + b), first, later);
    RestoreIsSubstAll(a + mid + b, first, table);
    SubstAroundUntouched(a, mid, b, first);
  }

  lemma SubstAllAround(a: seq<Tok>, mid: seq<Tok>, b: seq<Tok>, table: Table)
    ensures Render(SubstAll(a + mid + b, table))
            == Render(SubstAll(a, table)) + Render(SubstAll(mid, table)) + Render(SubstAll(b, table))
  {
    SubstAllAppend(a + mid, b, table);
    SubstAllAppend(a, mid, table);
    RenderAppend(SubstAll(a, table) + SubstAll(mid, table), SubstAll(b, table));
    RenderAppend(SubstAll(a, table), SubstAll(mid, table));
  }

  lemma FoundAgainRestores(a: seq<Tok>, mid: seq<Tok>, b: seq<Tok>, f1: string, f2: string, table: Table, i: nat)
    requires Clean(a + mid + b, table) && Clean(a, table) && Clean(b, table) && Numbered(table) && i < |table|
    requires FrontPiece(f1) && BackPiece(f2) && Render(mid) == f1 + table[i].1 + f2
    requires forall k :: 0 <= k <= i ==> P(table[k].0) !in mid
    ensures NonEmptyKeys(table)
    ensures Restore(Shape(Render(a), f1, table[i].0, f2, Render(b)), table) == Restore(Render(a + mid + b), table)
  {
    var a1, b1 := UpToEntry(a, f1, f2, b, table, i);
    MiddleText(Render(a1), f1, table[i].1, f2, Render(b1), Render(mid));
    var first, later := table[..i + 1], table[i + 1..];
    SplitTable(table, i + 1, first, later);
    OldUpToEntry(a, mid, b, table, first, later);
  }

  lemma FoundAgainComesBack(a: seq<Tok>, mid: seq<Tok>, b: seq<Tok>, s: State, h: Hit, content: string, f1: string, f2: string)
    requires StandsFor(a + mid + b, s, content) && Lacks(content, MARK) && CutBy(a, mid, b, s.text, h, f1, f2) && FoundAgain(s, h)
    requires forall k :: 0 <= k <= EntryFor(s.table, s.text[h.start..h.end]) ==> P(s.table[k].0) !in mid
    ensures NonEmptyKeys(Mask(s, h).table) && Restore(Mask(s, h).text, Mask(s, h).table) == content
  {
    var i := EntryFor(s.table, s.text[h.start..h.end]);
    MaskedShape(a, mid, b, s, h, f1, f2);
    PartsClean(a, mid, b, s.table);
    FoundAgainRestores(a, mid, b, f1, f2, s.table, i);
    StandsForComesBack(a + mid + b, s, content);
  }

  lemma MiddleText(a: string, f1: string, v: string, f2: string, b: string, mid: string)
    requires mid == f1 + v + f2
    ensures Shape(a, f1, v, f2, b) == a + mid + b
  {
  }

  // ---------------------------------------------------------------------------------------------
  // Exactly when the content comes back
  // ---------------------------------------------------------------------------------------------

  /** The match is a recorded secret under its label, of which only a part is masked. */
  predicate FoundInPart(s: State, h: Hit)
    requires Fits(s.text, h)
  {
    var known := PlaceholderFor(s.table, s.text[h.start..h.end]);
    known.Some? && "[" + h.tag <= known.value && !(h.lo == h.start && h.hi == h.end)
  }

  /** The hit that masks the whole match. */
  function WholeOf(h: Hit): Hit {
    h.(lo := h.start, hi := h.end)
  }

  /** What stands in the match before the masked part, and behind it. */
  function Head(s: State, h: Hit): string
    requires Fits(s.text, h)
  {
    s.text[h.start..h.lo]
  }

  function Tail(s: State, h: Hit): string
    requires Fits(s.text, h)
  {
    s.text[h.hi..h.end]
  }

  /**
   The match is clear of the placeholders, and neither what stands before the masked part nor what stands behind it
   makes a mark when it is written twice.
   */
  predicate MakesNoMark(s: State, h: Hit)
    requires Fits(s.text, h)
  {
    Apart(s, WholeOf(h)) && Lacks(Head(s, h) + Head(s, h), MARK) && Lacks(Tail(s, h) + Tail(s, h), MARK)
  }

  /** No character of the mark repeats. */
  lemma MarkIsDistinct(i: nat, j: nat)
    requires i < j < |MARK|
    ensures MARK[i] != MARK[j]
  {
  }

  lemma OccurrenceChar(s: string, pat: string, i: nat, k: nat)
    requires OccursAt(s, pat, i) && i <= k < i + |pat|
    ensures s[k] == pat[k - i]
  {
    assert s[i..i + |pat|][k - i] == s[k];
  }

  lemma NoRepeat(s: string, i: nat, j: nat, k: nat)
    requires OccursAt(s, MARK, i) && i <= j < k < i + |MARK|
    ensures s[j] != s[k]
  {
    OccurrenceChar(s, MARK, i, j);
    OccurrenceChar(s, MARK, i, k);
    MarkIsDistinct(j - i, k - i);
  }

  /** Where a mark can be when a piece of a text without one is doubled: nowhere but in the two pieces. */
  lemma MarkInDoubled(a: string, x: string, r: string, i: nat)
    requires x != "" && OccursAt(a + x + (x + r), MARK, i)
    ensures OccursAt(a + x + r, MARK, i)
            || (i >= |a| + |x| && OccursAt(a + x + r, MARK, i - |x|))
            || (i >= |a| && OccursAt(x + x, MARK, i - |a|))
  {
    var s, n := a + x + (x + r), |a| + |x|;
    if i + |MARK| <= n {
      assert s[i..i + |MARK|] == (a + x)[i..i + |MARK|] == (a + x + r)[i..i + |MARK|];
    } else if i >= n {
      assert s[i..i + |MARK|] == (x + r)[i - n..i - n + |MARK|];
      assert (a + x + r)[i - |x|..i - |x| + |MARK|] == (x + r)[i - n..i - n + |MARK|] by {
        assert a + x + r == a + (x + r);
      }
    } else {
      FirstRepeats(a, x, r, i);
      LastRepeats(a, x, r, i);
      assert s[i..i + |MARK|] == (x + x)[i - |a|..i - |a| + |MARK|];
    }
  }

  lemma FirstRepeats(a: string, x: string, r: string, i: nat)
    requires x != "" && OccursAt(a + x + (x + r), MARK, i) && i < |a| + |x| < i + |MARK|
    ensures i >= |a|
  {
    var s := a + x + (x + r);
    assert s[|a|] == x[0] == s[|a| + |x|];
    if i < |a| {
      NoRepeat(s, i, |a|, |a| + |x|);
    }
  }

  lemma LastRepeats(a: string, x: string, r: string, i: nat)
    requires x != "" && OccursAt(a + x + (x + r), MARK, i) && i < |a| + |x| < i + |MARK|
    ensures i + |MARK| <= |a| + |x| + |x|
  {
    var s, n := a + x + (x + r), |a| + |x|;
    assert s[n - 1] == x[|x| - 1] == s[n + |x| - 1];
    if i + |MARK| > n + |x| {
      NoRepeat(s, i, n - 1, n + |x| - 1);
    }
  }

  lemma DoubledLacks(a: string, x: string, r: string)
    requires Lacks(a + x + r, MARK) && Lacks(x + x, MARK)
    ensures Lacks(a + x + (x + r), MARK)
  {
    if x == "" {
      assert a + x + (x + r) == a + x + r;
    } else {
      forall i | 0 <= i <= |a + x + (x + r)| ensures !OccursAt(a + x + (x + r), MARK, i) {
        if OccursAt(a + x + (x + r), MARK, i) {
          MarkInDoubled(a, x, r, i);
        }
      }
    }
  }

  lemma BothDoubled(a: string, x: string, secret: string, y: string, b: string)
    requires Lacks(a + (x + secret + y) + b, MARK) && Lacks(x + x, MARK) && Lacks(y + y, MARK)
    ensures Lacks((a + x) + (x + secret + y) + (y + b), MARK)
  {
    assert a + (x + secret + y) + b == a + x + (secret + y + b);
    DoubledLacks(a, x, secret + y + b);
    assert a + x + (x + (secret + y + b)) == (a + x + x + secret) + y + b;
    DoubledLacks(a + x + x + secret, y, b);
    assert (a + x + x + secret) + y + (y + b) == (a + x) + (x + secret + y) + (y + b);
  }

  /**
   A new secret has to be clear of all placeholders.  A recorded one has to be found under its label and masked as a
   whole, and clear of the placeholders that are put back no later than its own.
   */
  predicate ComesBack(s: State, h: Hit)
    requires Fits(s.text, h)
  {
    var whole := s.text[h.start..h.end];
    if PlaceholderFor(s.table, whole).None? then ClearOf(s, h, |s.table|)
    else FoundAgain(s, h) && ClearOf(s, h, EntryFor(s.table, whole) + 1)
  }

  /** What a text stands for is what comes back. */
  lemma StandsForComesBack(ts: seq<Tok>, s: State, content: string)
    requires StandsFor(ts, s, content) && Lacks(content, MARK)
    ensures NonEmptyKeys(s.table) && Restore(s.text, s.table) == content
  {
    TableFacts(s.table);
    RestoreExpands(ts, s.table);
  }

  lemma MatchParts(s: State, h: Hit)
    requires Fits(s.text, h)
    ensures s.text[h.start..h.end] == Head(s, h) + s.text[h.lo..h.hi] + Tail(s, h)
    ensures s.text[..h.lo] == s.text[..h.start] + Head(s, h) && s.text[h.hi..] == Tail(s, h) + s.text[h.end..]
  {
  }

  /** The tokens around a match that is clear of the placeholders: the ends of the match are plain characters. */
  lemma MatchIsPlain(ts: seq<Tok>, s: State, h: Hit, content: string) returns (a: seq<Tok>, b: seq<Tok>)
    requires StandsFor(ts, s, content) && Fits(s.text, h) && Apart(s, WholeOf(h))
    ensures Render(a) == s.text[..h.start] && Render(b) == s.text[h.end..]
    ensures Signs(a) && Signs(b) && Known(a, s.table) && Known(b, s.table)
    ensures content == Expand(a, s.table) + s.text[h.start..h.end] + Expand(b, s.table)
  {
    var whole := s.text[h.start..h.end];
    assert Fits(s.text, WholeOf(h));
    a, b := SecretIsPlain(ts, s, WholeOf(h), content);
    CharsFacts(whole, s.table);
    Around(a, Chars(whole), b, s.table);
    KnownAppend(a + Chars(whole), b, s.table);
    KnownAppend(a, Chars(whole), s.table);
  }

  function Widened(a: seq<Tok>, x: string, sign: string, y: string, b: seq<Tok>): seq<Tok> {
    (a + Chars(x)) + [P(sign)] + (Chars(y) + b)
  }

  lemma WithChars(a: seq<Tok>, x: string, y: string, b: seq<Tok>, table: Table)
    requires Signs(a) && Signs(b) && Known(a, table) && Known(b, table)
    ensures Signs(a + Chars(x)) && Known(a + Chars(x), table) && Signs(Chars(y) + b) && Known(Chars(y) + b, table)
    ensures Render(a + Chars(x)) == Render(a) + x && Expand(a + Chars(x), table) == Expand(a, table) + x
    ensures Render(Chars(y) + b) == y + Render(b) && Expand(Chars(y) + b, table) == y + Expand(b, table)
  {
    CharsFacts(x, table);
    CharsFacts(y, table);
    RenderAppend(a, Chars(x));
    ExpandAppend(a, Chars(x), table);
    RenderAppend(Chars(y), b);
    ExpandAppend(Chars(y), b, table);
    KnownAppend(a, Chars(x), table);
    KnownAppend(Chars(y), b, table);
  }

  lemma WithSign(a: seq<Tok>, sign: string, b: seq<Tok>, table: Table, i: nat)
    requires Signs(a) && Signs(b) && Known(a, table) && Known(b, table) && i < |table| && table[i].0 == sign && Bracketed(sign)
    ensures var ts := a + [P(sign)] + b;
            && Signs(ts) && Known(ts, table) && Render(ts) == Render(a) + sign + Render(b)
            && Expand(ts, table) == Expand(a, table) + ValueOf(table, sign) + Expand(b, table)
  {
    OneSign(sign, table);
    Around(a, [P(sign)], b, table);
    KnownAppend(a, [P(sign)], table);
    KnownAppend(a + [P(sign)], b, table);
  }

  lemma WidenedFacts(a: seq<Tok>, x: string, sign: string, y: string, b: seq<Tok>, table: Table, i: nat)
    requires Signs(a) && Signs(b) && Known(a, table) && Known(b, table) && i < |table| && table[i].0 == sign && Bracketed(sign)
    ensures var ts := Widened(a, x, sign, y, b);
            && Signs(ts) && Known(ts, table) && Render(ts) == (Render(a) + x) + sign + (y + Render(b))
            && Expand(ts, table) == (Expand(a, table) + x) + ValueOf(table, sign) + (y + Expand(b, table))
  {
    WithChars(a, x, y, b, table);
    WithSign(a + Chars(x), sign, Chars(y) + b, table, i);
  }

  /** A recorded match of which only a part is masked comes back with its ends doubled. */
  lemma PartIsLost(ts: seq<Tok>, s: State, h: Hit, content: string)
    requires StandsFor(ts, s, content) && Lacks(content, MARK) && Fits(s.text, h) && FoundInPart(s, h) && MakesNoMark(s, h)
    ensures NonEmptyKeys(Mask(s, h).table) && Restore(Mask(s, h).text, Mask(s, h).table) != content
  {
    var x, y, secret, whole := Head(s, h), Tail(s, h), s.text[h.lo..h.hi], s.text[h.start..h.end];
    var a, b := MatchIsPlain(ts, s, h, content);
    var i := EntryFor(s.table, whole);
    var sign := s.table[i].0;
    NumberedValue(s.table, i);
    NumberedKeys(s.table, i);
    TableFacts(s.table);
    MatchParts(s, h);
    WidenedFacts(a, x, sign, y, b, s.table, i);
    BothDoubled(Expand(a, s.table), x, secret, y, Expand(b, s.table));
    RestoreExpands(Widened(a, x, sign, y, b), s.table);
  }

  lemma NewComesBack(ts: seq<Tok>, s: State, h: Hit, content: string)
    requires StandsFor(ts, s, content) && Lacks(content, MARK) && Fits(s.text, h)
    requires PlaceholderFor(s.table, s.text[h.start..h.end]).None? && ClearOf(s, h, |s.table|)
    ensures NonEmptyKeys(Mask(s, h).table) && Restore(Mask(s, h).text, Mask(s, h).table) == content
  {
    assert Apart(s, h);
    var ts' := MaskStep(ts, s, h, content);
    StandsForComesBack(ts', Mask(s, h), content);
  }

  lemma NewExactly(ts: seq<Tok>, s: State, h: Hit, content: string)
    requires StandsFor(ts, s, content) && Lacks(content, MARK) && Fits(s.text, h)
    requires PlaceholderFor(s.table, s.text[h.start..h.end]).None?
    ensures NonEmptyKeys(Mask(s, h).table)
    ensures Restore(Mask(s, h).text, Mask(s, h).table) == content <==> ClearOf(s, h, |s.table|)
  {
    if ClearOf(s, h, |s.table|) {
      NewComesBack(ts, s, h, content);
    } else {
      var m, n, f1, f2 := CutTokens(ts, s.text, h);
      ClearExactly(ts, s, h, content, m, n, |s.table|);
      var i :| 0 <= i < |s.table| && P(s.table[i].0) in ts[m..n];
      NumberedKeys(s.table, i);
      NewIsLost(ts[..m], ts[m..n], ts[n..], s, h, content, f1, f2, s.table[i].0);
    }
  }

  lemma FoundAgainExactly(ts: seq<Tok>, s: State, h: Hit, content: string)
    requires StandsFor(ts, s, content) && Lacks(content, MARK) && Fits(s.text, h) && FoundAgain(s, h)
    ensures NonEmptyKeys(Mask(s, h).table)
    ensures Restore(Mask(s, h).text, Mask(s, h).table) == content
            <==> ClearOf(s, h, EntryFor(s.table, s.text[h.start..h.end]) + 1)
  {
    var m, n, f1, f2 := CutTokens(ts, s.text, h);
    var k := EntryFor(s.table, s.text[h.start..h.end]);
    ClearExactly(ts, s, h, content, m, n, k + 1);
    if ClearOf(s, h, k + 1) {
      forall i | 0 <= i <= k ensures P(s.table[i].0) !in ts[m..n] {
        assert P(s.table[i].0) !in ts[m..n];
      }
      FoundAgainComesBack(ts[..m], ts[m..n], ts[n..], s, h, content, f1, f2);
    } else {
      var i :| 0 <= i < k + 1 && P(s.table[i].0) in ts[m..n];
      FoundAgainIsLost(ts[..m], ts[m..n], ts[n..], s, h, content, f1, f2, i);
    }
  }

  /**
   One more hit on a text that stands for a content without a mark: the content still comes back if and only if the
   hit is of the kind that `ComesBack` describes.  Of a recorded match that is masked only in part this is said when
   the match is clear of the placeholders and its ends make no mark when doubled.
   */
  lemma ComesBackExactly(ts: seq<Tok>, s: State, h: Hit, content: string)
    requires StandsFor(ts, s, content) && Lacks(content, MARK) && Fits(s.text, h)
    requires FoundInPart(s, h) ==> MakesNoMark(s, h)
    ensures NonEmptyKeys(Mask(s, h).table)
    ensures Restore(Mask(s, h).text, Mask(s, h).table) == content <==> ComesBack(s, h)
  {
    var known := PlaceholderFor(s.table, s.text[h.start..h.end]);
    if known.None? {
      NewExactly(ts, s, h, content);
    } else if FoundAgain(s, h) {
      FoundAgainExactly(ts, s, h, content);
    } else if FoundInPart(s, h) {
      PartIsLost(ts, s, h, content);
    } else {
      var m, n, f1, f2 := CutTokens(ts, s.text, h);
      BareTagIsLost(ts[..m], ts[m..n], ts[n..], s, h, content, f1, f2);
    }
  }

  // ---------------------------------------------------------------------------------------------
  // Two inputs
  // ---------------------------------------------------------------------------------------------

  /** The hit that masks a string standing behind another one. */
  function HitBehind(before: string, key: string, tag: string): Hit {
    Hit(tag, |before|, |before|, |before| + |key|, |before| + |key|)
  }

  lemma HitFits(before: string, key: string, after: string, tag: string)
    requires IsLabel(tag) && key != ""
    ensures var h := HitBehind(before, key, tag);
            Fits(before + key + after, h) && (before + key + after)[h.start..h.end] == key
  {
    Slices(before + key + after, before, key, after, |before|, |before| + |key|);
  }

  lemma FirstMasked(a: string, key: string, rest: string, tag: string) returns (ts: seq<Tok>)
    requires IsLabel(tag) && key != "" && Lacks(a + key + rest, MARK)
    ensures var s, h := State(a + key + rest, []), HitBehind(a, key, tag);
            && Fits(s.text, h) && Mask(s, h) == State(a + Placeholder(tag, 1) + rest, [(Placeholder(tag, 1), key)])
            && StandsFor(ts, Mask(s, h), a + key + rest)
  {
    HitFits(a, key, rest, tag);
    MaskFirst(a, key, rest, tag);
    CharsFacts(a + key + rest, []);
    ts := MaskStep(Chars(a + key + rest), State(a + key + rest, []), HitBehind(a, key, tag), a + key + rest);
  }

  lemma Regroup(a: string, mid: string, key: string, b: string)
    ensures a + (mid + key + b) == (a + mid) + key + b
  {
  }

  lemma FoundUnderOtherTag(ts: seq<Tok>, s: State, content: string, before: string, key: string, after: string,
                           p: string, tag: string)
    requires StandsFor(ts, s, content) && Lacks(content, MARK) && s.text == before + key + after && s.table == [(p, key)]
    requires IsLabel(tag) && key != "" && !("[" + tag <= p)
    ensures var h := HitBehind(before, key, tag);
            Fits(s.text, h) && NonEmptyKeys(Mask(s, h).table) && Restore(Mask(s, h).text, Mask(s, h).table) != content
  {
    HitFits(before, key, after, tag);
    TableFacts(s.table);
    ComesBackExactly(ts, s, HitBehind(before, key, tag), content);
  }

  /** A secret that stands twice in a file, masked under one tag and found again under another, is not restored. */
  lemma OtherTagIsLost(a: string, key: string, mid: string, b: string, first: string, second: string, rest: string)
    requires IsLabel(first) && IsLabel(second) && key != "" && rest == mid + key + b && Lacks(a + key + rest, MARK)
    requires !("[" + second <= Placeholder(first, 1))
    ensures var s, h1 := State(a + key + rest, []), HitBehind(a, key, first);
            var h2 := HitBehind(a + Placeholder(first, 1) + mid, key, second);
            && AllFit(s, [h1, h2]) && NonEmptyKeys(MaskAll(s, [h1, h2]).table)
            && Restore(MaskAll(s, [h1, h2]).text, MaskAll(s, [h1, h2]).table) != a + key + rest
  {
    var p := Placeholder(first, 1);
    var s, h1, h2 := State(a + key + rest, []), HitBehind(a, key, first), HitBehind(a + p + mid, key, second);
    var ts := FirstMasked(a, key, rest, first);
    Regroup(a + p, mid, key, b);
    FoundUnderOtherTag(ts, Mask(s, h1), a + key + rest, a + p + mid, key, b, p, second);
    TwoHits(s, h1, h2);
  }

  lemma ThreeTokens(p: string, q: string, x: string, table: Table)
    requires |table| == 2 && table[0].0 == p && table[1].0 == q && Bracketed(p) && Bracketed(q)
    ensures var ts := [P(p)] + [P(q)] + Chars(x);
            && Signs(ts) && Known(ts, table) && Render(ts) == p + q + x
            && Expand(ts, table) == ValueOf(table, p) + ValueOf(table, q) + x
  {
    OneSign(p, table);
    OneSign(q, table);
    CharsFacts(x, table);
    Around([P(p)], [P(q)], Chars(x), table);
  }

  lemma TwoEntries(first: string, v: string, second: string, w: string)
    requires IsLabel(first) && IsLabel(second)
    ensures var p, q := Placeholder(first, 1), Placeholder(second, 2);
            var table := [(p, v), (q, w)];
            && Numbered(table) && NonEmptyKeys(table) && Bracketed(p) && Bracketed(q) && p != q
            && ValueOf(table, p) == v && ValueOf(table, q) == w
  {
    var table := [(Placeholder(first, 1), v), (Placeholder(second, 2), w)];
    assert Carries(table[0].0, 1) && Carries(table[1].0, 2);
    NumbersAreUnique(table, 0, 1);
    TableFacts(table);
    NumberedValue(table, 0);
    NumberedValue(table, 1);
    NumberedKeys(table, 0);
    NumberedKeys(table, 1);
  }

  lemma OnlyAtStart(ts: seq<Tok>, p: string, q: string, x: string, i: nat)
    requires ts == [P(p)] + [P(q)] + Chars(x) && p != q && Signs(ts) && PlainClean(ts) && OccursAt(Render(ts), p, i)
    ensures i == 0
  {
    var j := OccurrenceIsToken(ts, p, i);
    CharsFacts(x, []);
    forall k | 2 <= k < |ts| ensures ts[k].C? {
      assert ts[k] == Chars(x)[k - 2];
    }
    assert j == 0 && ts[..0] == [];
  }

  /**
   A recorded secret that cuts a placeholder put back later than its own: the pieces meet again in time.  The table
   holds the end of the second placeholder with what follows it as the first secret.
   */
  lemma CutPlaceholderHeals(first: string, second: string, key: string, x: string, d: nat, v: string)
    requires IsLabel(first) && IsLabel(second) && 0 < d < |Placeholder(second, 2)| && v == Placeholder(second, 2)[d..] + x
    requires Lacks(v + key + x, MARK)
    ensures var p, q := Placeholder(first, 1), Placeholder(second, 2);
            var s, h := State(p + q + x, [(p, v), (q, key)]), HitBehind(p + q[..d], v, first);
            && Fits(s.text, h) && !Apart(s, h) && NonEmptyKeys(Mask(s, h).table)
            && Restore(Mask(s, h).text, Mask(s, h).table) == v + key + x
  {
    var p, q := Placeholder(first, 1), Placeholder(second, 2);
    TwoEntries(first, v, second, key);
    EndOfText(p, q, x, d);
    HitFits(p + q[..d], v, "", first);
    TagInFront(first, 1);
    Heals(State(p + q + x, [(p, v), (q, key)]), HitBehind(p + q[..d], v, first), p, q, x, v, key);
  }

  lemma TagInFront(tag: string, number: nat)
    ensures "[" + tag <= Placeholder(tag, number)
  {
  }

  lemma EndOfText(p: string, q: string, x: string, d: nat)
    requires d <= |q|
    ensures p + q + x == (p + q[..d]) + (q[d..] + x) + "" && OccursAt(p + q + x, q, |p|)
  {
    assert q == q[..d] + q[d..];
    assert (p + q + x)[|p|..|p| + |q|] == q;
  }

  lemma Heals(s: State, h: Hit, p: string, q: string, x: string, v: string, key: string)
    requires s == State(p + q + x, [(p, v), (q, key)]) && Fits(s.text, h) && s.text[h.start..h.end] == v
    requires Numbered(s.table) && NonEmptyKeys(s.table) && Bracketed(p) && Bracketed(q) && p != q
    requires ValueOf(s.table, p) == v && ValueOf(s.table, q) == key
    requires Lacks(v + key + x, MARK) && OccursAt(s.text, q, |p|)
    requires "[" + h.tag <= p && h.lo == h.start && h.hi == h.end == |s.text| && |p| < h.lo < |p| + |q|
    ensures !Apart(s, h) && NonEmptyKeys(Mask(s, h).table) && Restore(Mask(s, h).text, Mask(s, h).table) == v + key + x
  {
    var ts := [P(p)] + [P(q)] + Chars(x);
    ThreeTokens(p, q, x, s.table);
    CleanBehind(ts, s.table);
    HealsExactly(ts, s, h, p, q, x, v, key);
  }

  lemma HealsExactly(ts: seq<Tok>, s: State, h: Hit, p: string, q: string, x: string, v: string, key: string)
    requires s == State(p + q + x, [(p, v), (q, key)]) && Fits(s.text, h) && s.text[h.start..h.end] == v
    requires ts == [P(p)] + [P(q)] + Chars(x) && p != q && PlainClean(ts) && StandsFor(ts, s, v + key + x)
    requires Lacks(v + key + x, MARK) && NonEmptyKeys(s.table) && OccursAt(s.text, q, |p|)
    requires "[" + h.tag <= p && h.lo == h.start && h.hi == h.end == |s.text| && |p| < h.lo < |p| + |q|
    ensures !Apart(s, h) && NonEmptyKeys(Mask(s, h).table) && Restore(Mask(s, h).text, Mask(s, h).table) == v + key + x
  {
    assert s.table[1].0 == q && s.table[0] == (p, v);
    forall i | 0 <= i <= |s.text| && OccursAt(s.text, p, i) ensures i + |p| <= h.lo {
      OnlyAtStart(ts, p, q, x, i);
    }
    assert FoundAgain(s, h) && EntryFor(s.table, v) == 0;
    assert ClearOf(s, h, 1);
    ComesBackExactly(ts, s, h, v + key + x);
  }
}
