/**
 The normal form of a specification: goal, scope lists and numbered acceptance criteria.
 Values that are no text, no list or no record appear as `Junk`; case folding is a parameter.
 */
module Spec {
  import opened Wrappers
  import opened Text
  import opened CleanText
  import CleanKeeps
  import Decimal

  const MAX_GOAL_CHARS := 200
  const MAX_SCOPE_ITEMS := 8
  const MAX_SCOPE_CHARS := 160
  const MAX_CRITERIA := 15
  const MAX_CRITERION_CHARS := 240
  const MAX_CHECK_CHARS := 200

  datatype Kind = Feature | Api | Screen | Data | Security | Quality
  datatype Source = Ai | User

  /** One raw criterion; an unknown kind or source is `None`. */
  datatype RawItem =
    | Plain(text: string)
    | Record(excluded: bool, text: string, kind: Option<Kind>, check: string, source: Option<Source>)
    | Junk

  datatype RawSpec = RawSpec(goal: string, inScope: seq<string>, outScope: seq<string>, criteria: seq<RawItem>)

  datatype Criterion = Criterion(id: string, text: string, kind: Kind, check: string, source: Source)

  datatype Spec = Spec(goal: string, inScope: seq<string>, outScope: seq<string>, criteria: seq<Criterion>)

  /** The phrase to take out and the case folding to compare with. */
  datatype Setting = Setting(phrase: Phrase, fold: string -> string)

  // ---------------------------------------------------------------------------------------------
  // Lists of sentences
  // ---------------------------------------------------------------------------------------------

  predicate Seen(fold: string -> string, out: seq<string>, text: string) {
    exists i :: 0 <= i < |out| && fold(out[i]) == fold(text)
  }

  function CleanItems(st: Setting, values: seq<string>): (r: seq<string>)
    ensures |r| <= MAX_SCOPE_ITEMS
  {
    if values == [] then []
    else
      var before := CleanItems(st, values[..|values| - 1]);
      var text := Clean(values[|values| - 1], MAX_SCOPE_CHARS, st.phrase);
      if |before| >= MAX_SCOPE_ITEMS || text == "" || Seen(st.fold, before, text) then before else before + [text]
  }

  method CleanList(st: Setting, values: seq<string>) returns (out: seq<string>)
    ensures out == CleanItems(st, values)
  {
    out := [];
    var seen: set<string> := {};
    for i := 0 to |values|
      invariant out == CleanItems(st, values[..i]) && |out| < MAX_SCOPE_ITEMS
      invariant forall text :: st.fold(text) in seen <==> Seen(st.fold, out, text)
    {
      assert values[..i + 1][..i] == values[..i];
      var text := Clean(values[i], MAX_SCOPE_CHARS, st.phrase);
      var key := st.fold(text);
      if text != "" && key !in seen {
        SeenSnoc(st.fold, out, text);
        seen := seen + {key};
        out := out + [text];
      }
      if |out| >= MAX_SCOPE_ITEMS {
        FullItems(st, values, i + 1);
        return;
      }
    }
    assert values[..|values|] == values;
  }

  lemma SeenSnoc(fold: string -> string, out: seq<string>, text: string)
    ensures forall other :: Seen(fold, out + [text], other) <==> Seen(fold, out, other) || fold(text) == fold(other)
  {
    forall other ensures Seen(fold, out + [text], other) <==> Seen(fold, out, other) || fold(text) == fold(other) {
      var more := out + [text];
      assert more[|out|] == text;
      if Seen(fold, out, other) {
        var i :| 0 <= i < |out| && fold(out[i]) == fold(other);
        assert more[i] == out[i];
      }
    }
  }

  lemma {:induction false} FullItems(st: Setting, values: seq<string>, n: nat)
    requires n <= |values| && |CleanItems(st, values[..n])| >= MAX_SCOPE_ITEMS
    ensures CleanItems(st, values) == CleanItems(st, values[..n])
    decreases |values| - n
  {
    if n < |values| {
      assert values[..n + 1][..n] == values[..n];
      FullItems(st, values, n + 1);
    } else {
      assert values[..n] == values;
    }
  }

  /** Clean sentences, none empty, no two the same up to case, no more than the limit. */
  predicate NormalItems(st: Setting, values: seq<string>) {
    && |values| <= MAX_SCOPE_ITEMS
    && (forall i :: 0 <= i < |values| ==> values[i] != "" && Normal(values[i], MAX_SCOPE_CHARS, st.phrase))
    && (forall i, j :: 0 <= i < j < |values| ==> st.fold(values[i]) != st.fold(values[j]))
  }

  lemma {:induction false} CleanItemsAreNormal(st: Setting, values: seq<string>)
    ensures NormalItems(st, CleanItems(st, values))
  {
    if values != [] {
      CleanItemsAreNormal(st, values[..|values| - 1]);
      CleanIsNormal(values[|values| - 1], MAX_SCOPE_CHARS, st.phrase);
    }
  }

  lemma NormalItemIsTaken(st: Setting, before: seq<string>, text: string)
    requires NormalItems(st, before + [text])
    ensures NormalItems(st, before) && !Seen(st.fold, before, text) && text != "" && |before| < MAX_SCOPE_ITEMS
    ensures Clean(text, MAX_SCOPE_CHARS, st.phrase) == text
  {
    var values := before + [text];
    assert values[|before|] == text;
    assert forall i :: 0 <= i < |before| ==> values[i] == before[i];
    NormalIsFixed(text, MAX_SCOPE_CHARS, st.phrase);
  }

  lemma {:induction false} NormalItemsAreFixed(st: Setting, values: seq<string>)
    requires NormalItems(st, values)
    ensures CleanItems(st, values) == values
  {
    if values != [] {
      var front, last := values[..|values| - 1], values[|values| - 1];
      assert values == front + [last];
      NormalItemIsTaken(st, front, last);
      NormalItemsAreFixed(st, front);
    }
  }

  // ---------------------------------------------------------------------------------------------
  // Criteria
  // ---------------------------------------------------------------------------------------------

  function KeyOf(st: Setting, text: string): string {
    st.fold(CleanKeeps.Letters(text))
  }

  predicate KeySeen(st: Setting, out: seq<Criterion>, text: string) {
    exists i :: 0 <= i < |out| && KeyOf(st, out[i].text) == KeyOf(st, text)
  }

  function AsRecord(item: RawItem): RawItem {
    if item.Plain? then Record(false, item.text, None, "", None) else item
  }

  function IdOf(n: nat): string {
    "AC-" + Decimal.Format(n)
  }

  /** The criterion that an item becomes after the ones already taken, if it becomes one. */
  function Take1(st: Setting, out: seq<Criterion>, item: RawItem): seq<Criterion> {
    var r := AsRecord(item);
    if !r.Record? || r.excluded then []
    else
      var text := Clean(r.text, MAX_CRITERION_CHARS, st.phrase);
      if text == "" || KeySeen(st, out, text) then []
      else
        [Criterion(IdOf(|out| + 1), text, if r.kind.Some? then r.kind.value else Feature,
                   Clean(r.check, MAX_CHECK_CHARS, st.phrase), if r.source.Some? then r.source.value else User)]
  }

  function Criteria(st: Setting, items: seq<RawItem>): (r: seq<Criterion>)
    ensures |r| <= MAX_CRITERIA
  {
    if items == [] then []
    else
      var before := Criteria(st, items[..|items| - 1]);
      if |before| >= MAX_CRITERIA then before else before + Take1(st, before, items[|items| - 1])
  }

  lemma {:induction false} FullCriteria(st: Setting, items: seq<RawItem>, n: nat)
    requires n <= |items| && |Criteria(st, items[..n])| >= MAX_CRITERIA
    ensures Criteria(st, items) == Criteria(st, items[..n])
    decreases |items| - n
  {
    if n < |items| {
      assert items[..n + 1][..n] == items[..n];
      FullCriteria(st, items, n + 1);
    } else {
      assert items[..n] == items;
    }
  }

  function Normalized(st: Setting, raw: RawSpec): Option<Spec> {
    var criteria := Criteria(st, raw.criteria);
    if criteria == [] then None
    else Some(Spec(Clean(raw.goal, MAX_GOAL_CHARS, st.phrase), CleanItems(st, raw.inScope), CleanItems(st, raw.outScope), criteria))
  }

  method CollectCriteria(st: Setting, items: seq<RawItem>) returns (criteria: seq<Criterion>)
    ensures criteria == Criteria(st, items)
  {
    criteria := [];
    var seen: set<string> := {};
    for i := 0 to |items|
      invariant criteria == Criteria(st, items[..i]) && |criteria| < MAX_CRITERIA
      invariant forall text :: KeyOf(st, text) in seen <==> KeySeen(st, criteria, text)
    {
      assert items[..i + 1][..i] == items[..i];
      var item := AsRecord(items[i]);
      if !item.Record? || item.excluded {
        continue;
      }
      var text := Clean(item.text, MAX_CRITERION_CHARS, st.phrase);
      var key := KeyOf(st, text);
      if text == "" || key in seen {
        continue;
      }
      var c := Criterion(IdOf(|criteria| + 1), text, if item.kind.Some? then item.kind.value else Feature,
                         Clean(item.check, MAX_CHECK_CHARS, st.phrase), if item.source.Some? then item.source.value else User);
      KeySeenSnoc(st, criteria, c);
      seen := seen + {key};
      criteria := criteria + [c];
      if |criteria| >= MAX_CRITERIA {
        FullCriteria(st, items, i + 1);
        return;
      }
    }
    assert items[..|items|] == items;
  }

  lemma KeySeenSnoc(st: Setting, out: seq<Criterion>, c: Criterion)
    ensures forall other :: KeySeen(st, out + [c], other) <==> KeySeen(st, out, other) || KeyOf(st, c.text) == KeyOf(st, other)
  {
    forall other ensures KeySeen(st, out + [c], other) <==> KeySeen(st, out, other) || KeyOf(st, c.text) == KeyOf(st, other) {
      var more := out + [c];
      assert more[|out|] == c;
      if KeySeen(st, out, other) {
        var i :| 0 <= i < |out| && KeyOf(st, out[i].text) == KeyOf(st, other);
        assert more[i] == out[i];
      }
    }
  }

  method NormalizeSpec(st: Setting, raw: RawSpec) returns (r: Option<Spec>)
    ensures r == Normalized(st, raw)
  {
    var criteria := CollectCriteria(st, raw.criteria);
    if criteria == [] {
      return None;
    }
    var goal := CleanOnce(raw.goal, MAX_GOAL_CHARS, st.phrase);
    var inScope := CleanList(st, raw.inScope);
    var outScope := CleanList(st, raw.outScope);
    return Some(Spec(goal, inScope, outScope, criteria));
  }

  // ---------------------------------------------------------------------------------------------
  // The normal form
  // ---------------------------------------------------------------------------------------------

  predicate NormalCriterion(st: Setting, c: Criterion, number: nat) {
    && c.id == IdOf(number) && c.text != ""
    && Normal(c.text, MAX_CRITERION_CHARS, st.phrase) && Normal(c.check, MAX_CHECK_CHARS, st.phrase)
  }

  predicate NormalCriteria(st: Setting, cs: seq<Criterion>) {
    && |cs| <= MAX_CRITERIA
    && (forall i :: 0 <= i < |cs| ==> NormalCriterion(st, cs[i], i + 1))
    && (forall i, j :: 0 <= i < j < |cs| ==> KeyOf(st, cs[i].text) != KeyOf(st, cs[j].text))
  }

  lemma TakenIsNormal(st: Setting, out: seq<Criterion>, item: RawItem)
    ensures var r := Take1(st, out, item);
            |r| <= 1 && (r != [] ==> NormalCriterion(st, r[0], |out| + 1) && !KeySeen(st, out, r[0].text))
  {
    var r := AsRecord(item);
    if r.Record? {
      CleanIsNormal(r.text, MAX_CRITERION_CHARS, st.phrase);
      CleanIsNormal(r.check, MAX_CHECK_CHARS, st.phrase);
    }
  }

  lemma OneMoreCriterion(st: Setting, before: seq<Criterion>, c: Criterion)
    requires NormalCriteria(st, before) && |before| < MAX_CRITERIA
    requires NormalCriterion(st, c, |before| + 1) && !KeySeen(st, before, c.text)
    ensures NormalCriteria(st, before + [c])
  {
  }

  /** Identifiers AC-1, AC-2, ... without gaps, clean texts, and no two with one key. */
  lemma {:induction false} CriteriaAreNormal(st: Setting, items: seq<RawItem>)
    ensures NormalCriteria(st, Criteria(st, items))
  {
    if items != [] {
      var before := Criteria(st, items[..|items| - 1]);
      CriteriaAreNormal(st, items[..|items| - 1]);
      TakenIsNormal(st, before, items[|items| - 1]);
      var taken := Take1(st, before, items[|items| - 1]);
      if |before| < MAX_CRITERIA && taken != [] {
        assert taken == [taken[0]];
        OneMoreCriterion(st, before, taken[0]);
      }
    }
  }

  /** A normal form as it comes back from the screen. */
  function RawOf(s: Spec): RawSpec {
    RawSpec(s.goal, s.inScope, s.outScope, RawCriteria(s.criteria))
  }

  function RawCriteria(cs: seq<Criterion>): (r: seq<RawItem>)
    ensures |r| == |cs|
  {
    if cs == [] then []
    else
      var c := cs[|cs| - 1];
      RawCriteria(cs[..|cs| - 1]) + [Record(false, c.text, Some(c.kind), c.check, Some(c.source))]
  }

  lemma NormalIsTaken(st: Setting, out: seq<Criterion>, c: Criterion)
    requires NormalCriterion(st, c, |out| + 1) && !KeySeen(st, out, c.text)
    ensures Take1(st, out, Record(false, c.text, Some(c.kind), c.check, Some(c.source))) == [c]
  {
    NormalIsFixed(c.text, MAX_CRITERION_CHARS, st.phrase);
    NormalIsFixed(c.check, MAX_CHECK_CHARS, st.phrase);
  }

  lemma {:induction false} NormalCriteriaAreFixed(st: Setting, cs: seq<Criterion>)
    requires NormalCriteria(st, cs)
    ensures Criteria(st, RawCriteria(cs)) == cs
  {
    if cs != [] {
      var front, c := cs[..|cs| - 1], cs[|cs| - 1];
      assert cs == front + [c];
      FrontIsNormal(st, front, c);
      NormalCriteriaAreFixed(st, front);
      NormalIsTaken(st, front, c);
      var raw := RawCriteria(cs);
      assert raw[..|raw| - 1] == RawCriteria(front);
    }
  }

  lemma FrontIsNormal(st: Setting, front: seq<Criterion>, c: Criterion)
    requires NormalCriteria(st, front + [c])
    ensures NormalCriteria(st, front) && NormalCriterion(st, c, |front| + 1) && !KeySeen(st, front, c.text)
  {
    var cs := front + [c];
    assert cs[|front|] == c;
    assert forall i :: 0 <= i < |front| ==> cs[i] == front[i];
  }

  /** Normalising a normal form gives it back, identifiers included. */
  lemma NormalizeIsIdempotent(st: Setting, raw: RawSpec)
    requires Normalized(st, raw).Some?
    ensures Normalized(st, RawOf(Normalized(st, raw).value)) == Normalized(st, raw)
  {
    CriteriaAreNormal(st, raw.criteria);
    NormalCriteriaAreFixed(st, Criteria(st, raw.criteria));
    CleanIsIdempotent(raw.goal, MAX_GOAL_CHARS, st.phrase);
    CleanItemsAreNormal(st, raw.inScope);
    NormalItemsAreFixed(st, CleanItems(st, raw.inScope));
    CleanItemsAreNormal(st, raw.outScope);
    NormalItemsAreFixed(st, CleanItems(st, raw.outScope));
  }

  lemma IdInjective(m: nat, n: nat)
    requires IdOf(m) == IdOf(n)
    ensures m == n
  {
    assert IdOf(m)[|"AC-"|..] == Decimal.Format(m) && IdOf(n)[|"AC-"|..] == Decimal.Format(n);
    Decimal.FormatInjective(m, n);
  }

  /** Identifiers do not repeat. */
  lemma IdsDiffer(st: Setting, items: seq<RawItem>, i: nat, j: nat)
    requires i < j < |Criteria(st, items)|
    ensures Criteria(st, items)[i].id != Criteria(st, items)[j].id
  {
    CriteriaAreNormal(st, items);
    assert NormalCriterion(st, Criteria(st, items)[i], i + 1) && NormalCriterion(st, Criteria(st, items)[j], j + 1);
    if Criteria(st, items)[i].id == Criteria(st, items)[j].id {
      IdInjective(i + 1, j + 1);
    }
  }
}
