/** What the normal form of a specification keeps: where each sentence and each criterion comes from, and which are left. */
module SpecKeeps {
  import opened Wrappers
  import opened Text
  import opened CleanText
  import opened Spec
  import CleanKeeps
  import Decimal

  predicate Increasing(places: seq<nat>, n: nat) {
    (forall k :: 0 <= k < |places| ==> places[k] < n) && forall k, l :: 0 <= k < l < |places| ==> places[k] < places[l]
  }

  // ---------------------------------------------------------------------------------------------
  // Lists of sentences
  // ---------------------------------------------------------------------------------------------

  ghost predicate ItemsFrom(st: Setting, values: seq<string>, out: seq<string>, places: seq<nat>) {
    && |places| == |out| && Increasing(places, |values|)
    && forall k :: 0 <= k < |out| ==> out[k] == Clean(values[places[k]], 160, st.phrase)
  }

  lemma ItemsFromLonger(st: Setting, front: seq<string>, last: string, out: seq<string>, places: seq<nat>)
    requires ItemsFrom(st, front, out, places)
    ensures ItemsFrom(st, front + [last], out, places)
    ensures ItemsFrom(st, front + [last], out + [Clean(last, 160, st.phrase)], places + [|front|])
  {
  }

  /** The sentences of a list are those given, cleaned, in their order. */
  lemma {:induction false} ItemsCome(st: Setting, values: seq<string>) returns (places: seq<nat>)
    ensures ItemsFrom(st, values, CleanItems(st, values), places)
  {
    if values == [] {
      places := [];
    } else {
      var front, last := values[..|values| - 1], values[|values| - 1];
      assert values == front + [last];
      places := ItemsCome(st, front);
      ItemsFromLonger(st, front, last, CleanItems(st, front), places);
      if CleanItems(st, values) != CleanItems(st, front) {
        places := places + [|front|];
      }
    }
  }

  lemma SeenInMore(fold: string -> string, out: seq<string>, more: seq<string>, text: string)
    requires Seen(fold, out, text) && out <= more
    ensures Seen(fold, more, text)
  {
    var i :| 0 <= i < |out| && fold(out[i]) == fold(text);
    assert more[i] == out[i];
  }

  /** No sentence is dropped but an empty one, one that is there up to case, or one beyond the eighth. */
  lemma {:induction false} ItemIsKept(st: Setting, values: seq<string>, i: nat)
    requires i < |values| && Clean(values[i], 160, st.phrase) != ""
    ensures |CleanItems(st, values)| == 8 || Seen(st.fold, CleanItems(st, values), Clean(values[i], 160, st.phrase))
  {
    var front, last := values[..|values| - 1], values[|values| - 1];
    var before, text := CleanItems(st, front), Clean(values[i], 160, st.phrase);
    if i == |front| {
      SeenSnoc(st.fold, before, text);
    } else {
      ItemIsKept(st, front, i);
      if Seen(st.fold, before, text) {
        SeenInMore(st.fold, before, CleanItems(st, values), text);
      }
    }
  }

  // ---------------------------------------------------------------------------------------------
  // Criteria
  // ---------------------------------------------------------------------------------------------

  /** The criterion of this number that an item gives. */
  predicate Becomes(st: Setting, item: RawItem, c: Criterion, number: nat) {
    && c.id == "AC-" + Decimal.Format(number)
    && match item
       case Plain(text) => c.text == Clean(text, 240, st.phrase) && c.kind == Feature && c.check == "" && c.source == User
       case Record(excluded, text, kind, check, source) =>
         && !excluded && c.text == Clean(text, 240, st.phrase) && c.check == Clean(check, 200, st.phrase)
         && c.kind == (if kind.Some? then kind.value else Feature) && c.source == (if source.Some? then source.value else User)
       case Junk => false
  }

  ghost predicate CriteriaFrom(st: Setting, items: seq<RawItem>, out: seq<Criterion>, places: seq<nat>) {
    && |places| == |out| && Increasing(places, |items|)
    && forall k :: 0 <= k < |out| ==> Becomes(st, items[places[k]], out[k], k + 1)
  }

  lemma EmptyIsClean(limit: nat, p: Phrase)
    ensures Clean("", limit, p) == ""
  {
    assert Unbullet("") == "";
    NormalIsFixed("", limit, p);
  }

  lemma TakenBecomes(st: Setting, out: seq<Criterion>, item: RawItem)
    ensures var r := Take1(st, out, item); r == [] || (|r| == 1 && Becomes(st, item, r[0], |out| + 1))
  {
    EmptyIsClean(200, st.phrase);
  }

  lemma CriteriaFromLonger(st: Setting, front: seq<RawItem>, last: RawItem, out: seq<Criterion>, places: seq<nat>, c: Criterion)
    requires CriteriaFrom(st, front, out, places)
    ensures CriteriaFrom(st, front + [last], out, places)
    ensures Becomes(st, last, c, |out| + 1) ==> CriteriaFrom(st, front + [last], out + [c], places + [|front|])
  {
  }

  /** The criteria are those given, in their order, numbered anew, with the defaults for what is missing. */
  lemma {:induction false} CriteriaCome(st: Setting, items: seq<RawItem>) returns (places: seq<nat>)
    ensures CriteriaFrom(st, items, Criteria(st, items), places)
  {
    if items == [] {
      places := [];
    } else {
      var front, last := items[..|items| - 1], items[|items| - 1];
      assert items == front + [last];
      places := CriteriaCome(st, front);
      var before := Criteria(st, front);
      var taken := Take1(st, before, last);
      TakenBecomes(st, before, last);
      if |before| < MAX_CRITERIA && taken != [] {
        CriteriaFromLonger(st, front, last, before, places, taken[0]);
        assert taken == [taken[0]];
        places := places + [|front|];
      } else {
        CriteriaFromLonger(st, front, last, before, places, Criterion("", "", Feature, "", User));
        assert Criteria(st, items) == before;
      }
    }
  }

  /** The text of an item that asks to be a criterion. */
  function Asks(item: RawItem): Option<string> {
    match item
    case Plain(text) => Some(text)
    case Record(excluded, text, _, _, _) => if excluded then None else Some(text)
    case Junk => None
  }

  /** Some criterion has this text up to case and white space. */
  ghost predicate Stated(st: Setting, out: seq<Criterion>, text: string) {
    exists k :: 0 <= k < |out| && st.fold(CleanKeeps.Letters(out[k].text)) == st.fold(CleanKeeps.Letters(text))
  }

  lemma StatedIsSeen(st: Setting, out: seq<Criterion>, text: string)
    ensures Stated(st, out, text) <==> KeySeen(st, out, text)
  {
  }

  lemma StatedInMore(st: Setting, out: seq<Criterion>, more: seq<Criterion>, text: string)
    requires Stated(st, out, text) && out <= more
    ensures Stated(st, more, text)
  {
    var k :| 0 <= k < |out| && st.fold(CleanKeeps.Letters(out[k].text)) == st.fold(CleanKeeps.Letters(text));
    assert more[k] == out[k];
  }

  lemma NewIsStated(st: Setting, out: seq<Criterion>, item: RawItem)
    requires Asks(item).Some? && Clean(Asks(item).value, 240, st.phrase) != ""
    ensures Stated(st, out + Take1(st, out, item), Clean(Asks(item).value, 240, st.phrase))
  {
    var text, r := Clean(Asks(item).value, 240, st.phrase), Take1(st, out, item);
    StatedIsSeen(st, out, text);
    if r == [] {
      assert out + r == out;
    } else {
      assert (out + r)[|out|].text == text;
    }
  }

  lemma CriteriaStep(st: Setting, front: seq<RawItem>, last: RawItem)
    ensures var before, after := Criteria(st, front), Criteria(st, front + [last]);
            before <= after && after == if |before| < 15 then before + Take1(st, before, last) else before
  {
    assert (front + [last])[..|front|] == front;
  }

  /** No criterion is dropped but one without text, one that is there up to case and white space, or one beyond the fifteenth. */
  lemma {:induction false} CriterionIsKept(st: Setting, items: seq<RawItem>, i: nat)
    requires i < |items| && Asks(items[i]).Some? && Clean(Asks(items[i]).value, 240, st.phrase) != ""
    ensures |Criteria(st, items)| == 15 || Stated(st, Criteria(st, items), Clean(Asks(items[i]).value, 240, st.phrase))
  {
    var front, last := items[..|items| - 1], items[|items| - 1];
    assert items == front + [last];
    var before, text := Criteria(st, front), Clean(Asks(items[i]).value, 240, st.phrase);
    CriteriaStep(st, front, last);
    if i == |front| {
      NewIsStated(st, before, last);
    } else {
      CriterionIsKept(st, front, i);
      if Stated(st, before, text) {
        StatedInMore(st, before, Criteria(st, items), text);
      }
    }
  }

  /** There is a normal form exactly if some item asks for a criterion with a text; its goal is the cleaned goal. */
  lemma NormalizedExactly(st: Setting, raw: RawSpec)
    ensures Normalized(st, raw).Some? <==>
            exists i :: 0 <= i < |raw.criteria| && Asks(raw.criteria[i]).Some?
                        && Clean(Asks(raw.criteria[i]).value, 240, st.phrase) != ""
    ensures Normalized(st, raw).Some? ==>
              var s := Normalized(st, raw).value;
              && s.goal == Clean(raw.goal, 200, st.phrase) && s.criteria == Criteria(st, raw.criteria)
              && s.inScope == CleanItems(st, raw.inScope) && s.outScope == CleanItems(st, raw.outScope)
  {
    var items := raw.criteria;
    if Criteria(st, items) != [] {
      var places := CriteriaCome(st, items);
      CriteriaAreNormal(st, items);
      assert Becomes(st, items[places[0]], Criteria(st, items)[0], 1) && NormalCriterion(st, Criteria(st, items)[0], 1);
    }
    if i :| 0 <= i < |items| && Asks(items[i]).Some? && Clean(Asks(items[i]).value, 240, st.phrase) != "" {
      CriterionIsKept(st, items, i);
    }
  }
}
