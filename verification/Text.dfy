/** Plain string operations that several modules share. */
module Text {

  /** What follows the last slash: `s.rsplit("/", 1)[-1]`. */
  function AfterSlash(s: string): string {
    if s == "" || s[|s| - 1] == '/' then "" else AfterSlash(s[..|s| - 1]) + [s[|s| - 1]]
  }

  lemma {:induction false} AfterSlashOf(base: string, name: string)
    requires '/' !in name
    ensures AfterSlash(base + "/" + name) == name
  {
    var s := base + "/" + name;
    if name != "" {
      var n := |name| - 1;
      assert s[|s| - 1] == name[n] && s[..|s| - 1] == base + "/" + name[..n];
      AfterSlashOf(base, name[..n]);
    }
  }

  // ---------------------------------------------------------------------------------------------
  // Searching and replacing
  // ---------------------------------------------------------------------------------------------

  /** `s.replace(pat, val)`: leftmost matches, none overlapping. */
  function Replace(s: string, pat: string, val: string): string
    requires pat != ""
  {
    if |s| < |pat| then s
    else if pat <= s then val + Replace(s[|pat|..], pat, val)
    else [s[0]] + Replace(s[1..], pat, val)
  }

  predicate OccursAt(s: string, pat: string, i: nat) {
    i + |pat| <= |s| && s[i..i + |pat|] == pat
  }

  predicate Lacks(s: string, pat: string) {
    forall i :: 0 <= i <= |s| ==> !OccursAt(s, pat, i)
  }

  lemma OccursInside(before: string, s: string, after: string, pat: string, i: nat)
    requires OccursAt(s, pat, i)
    ensures OccursAt(before + s + after, pat, |before| + i)
  {
    assert (before + s + after)[|before| + i..|before| + i + |pat|] == s[i..i + |pat|];
  }

  lemma PartLacks(before: string, s: string, after: string, pat: string)
    requires Lacks(before + s + after, pat)
    ensures Lacks(s, pat)
  {
    forall i | 0 <= i <= |s| ensures !OccursAt(s, pat, i) {
      if OccursAt(s, pat, i) {
        OccursInside(before, s, after, pat, i);
      }
    }
  }

  lemma {:induction false} ReplaceNothing(s: string, pat: string, val: string)
    requires pat != "" && Lacks(s, pat)
    ensures Replace(s, pat, val) == s
  {
    if |s| >= |pat| {
      assert !OccursAt(s, pat, 0) && s[0..|pat|] == s[..|pat|];
      forall i | 0 <= i <= |s[1..]| ensures !OccursAt(s[1..], pat, i) {
        assert !OccursAt(s, pat, i + 1);
      }
      ReplaceNothing(s[1..], pat, val);
    }
  }

  /** Cutting an occurrence out makes the text shorter. */
  lemma {:induction false} ReplaceShortens(s: string, pat: string)
    requires pat != ""
    ensures |Replace(s, pat, "")| <= |s|
    ensures !Lacks(s, pat) ==> |Replace(s, pat, "")| < |s|
    decreases |s|
  {
    if |s| >= |pat| {
      if pat <= s {
        ReplaceShortens(s[|pat|..], pat);
      } else {
        ReplaceShortens(s[1..], pat);
        if !Lacks(s, pat) {
          var i :| 0 <= i <= |s| && OccursAt(s, pat, i);
          assert i > 0 && OccursAt(s[1..], pat, i - 1);
        }
      }
    }
  }

  // ---------------------------------------------------------------------------------------------
  // Splitting and joining
  // ---------------------------------------------------------------------------------------------

  predicate Plain(s: string, sep: char) {
    forall i :: 0 <= i < |s| ==> s[i] != sep
  }

  predicate AllPlain(parts: seq<string>, sep: char) {
    forall i :: 0 <= i < |parts| ==> Plain(parts[i], sep)
  }

  /** One more character: it starts a new part or lengthens the last one. */
  function Extend(parts: seq<string>, c: char, sep: char): (r: seq<string>)
    requires |parts| >= 1
    ensures |r| >= 1
  {
    if c == sep then parts + [""] else parts[..|parts| - 1] + [parts[|parts| - 1] + [c]]
  }

  /** `s.split(sep)` */
  function Split(s: string, sep: char): (parts: seq<string>)
    ensures |parts| >= 1
  {
    if s == "" then [""] else Extend(Split(s[..|s| - 1], sep), s[|s| - 1], sep)
  }

  /** `sep.join(parts)` */
  function Join(parts: seq<string>, sep: char): string {
    if parts == [] then ""
    else if |parts| == 1 then parts[0]
    else Join(parts[..|parts| - 1], sep) + [sep] + parts[|parts| - 1]
  }

  lemma JoinSnoc(parts: seq<string>, l: string, sep: char)
    ensures Join(parts + [l], sep) == if parts == [] then l else Join(parts, sep) + [sep] + l
  {
    assert (parts + [l])[..|parts|] == parts;
  }

  lemma JoinExtend(parts: seq<string>, c: char, sep: char)
    requires |parts| >= 1
    ensures Join(Extend(parts, c, sep), sep) == Join(parts, sep) + [c]
  {
    if c == sep {
      JoinSnoc(parts, "", sep);
      assert Join(parts, sep) + [sep] + "" == Join(parts, sep) + [sep];
    } else {
      var head, last := parts[..|parts| - 1], parts[|parts| - 1];
      assert parts == head + [last];
      JoinSnoc(head, last, sep);
      JoinSnoc(head, last + [c], sep);
      if head != [] {
        assert Join(head, sep) + [sep] + (last + [c]) == Join(head, sep) + [sep] + last + [c];
      }
    }
  }

  lemma {:induction false} JoinOfSplit(s: string, sep: char)
    ensures Join(Split(s, sep), sep) == s
  {
    if s != "" {
      JoinOfSplit(s[..|s| - 1], sep);
      JoinExtend(Split(s[..|s| - 1], sep), s[|s| - 1], sep);
      assert s == s[..|s| - 1] + [s[|s| - 1]];
    }
  }

  lemma ExtendIsPlain(parts: seq<string>, c: char, sep: char)
    requires |parts| >= 1 && AllPlain(parts, sep)
    ensures AllPlain(Extend(parts, c, sep), sep)
  {
  }

  lemma {:induction false} SplitIsPlain(s: string, sep: char)
    ensures AllPlain(Split(s, sep), sep)
  {
    if s != "" {
      SplitIsPlain(s[..|s| - 1], sep);
      ExtendIsPlain(Split(s[..|s| - 1], sep), s[|s| - 1], sep);
    }
  }

  lemma SplitStep(s: string, c: char, sep: char)
    ensures Split(s + [c], sep) == Extend(Split(s, sep), c, sep)
  {
    assert (s + [c])[..|s|] == s;
  }

  lemma ExtendLast(front: seq<string>, l: string, c: char, sep: char)
    requires c != sep
    ensures Extend(front + [l], c, sep) == front + [l + [c]]
  {
    assert (front + [l])[..|front|] == front;
  }

  lemma {:induction false} SplitSnoc(s: string, l: string, sep: char)
    requires Plain(l, sep)
    ensures Split(s + [sep] + l, sep) == Split(s, sep) + [l]
  {
    if l == "" {
      SplitStep(s, sep, sep);
      assert s + [sep] + l == s + [sep];
    } else {
      var m, c := l[..|l| - 1], l[|l| - 1];
      assert l == m + [c];
      SplitSnoc(s, m, sep);
      SplitStep(s + [sep] + m, c, sep);
      ExtendLast(Split(s, sep), m, c, sep);
      assert s + [sep] + l == s + [sep] + m + [c];
    }
  }

  lemma {:induction false} SplitOfOne(l: string, sep: char)
    requires Plain(l, sep)
    ensures Split(l, sep) == [l]
  {
    if l != "" {
      SplitOfOne(l[..|l| - 1], sep);
      assert l == l[..|l| - 1] + [l[|l| - 1]];
    }
  }

  lemma {:induction false} SplitOfJoin(parts: seq<string>, sep: char)
    requires parts != [] && AllPlain(parts, sep)
    ensures Split(Join(parts, sep), sep) == parts
  {
    var front, last := parts[..|parts| - 1], parts[|parts| - 1];
    if front == [] {
      SplitOfOne(last, sep);
    } else {
      SplitOfJoin(front, sep);
      SplitSnoc(Join(front, sep), last, sep);
    }
  }

  lemma {:induction false} PartOfJoin(parts: seq<string>, k: nat, sep: char) returns (before: string, after: string)
    requires k < |parts|
    ensures Join(parts, sep) == before + parts[k] + after
  {
    if |parts| == 1 {
      return "", "";
    }
    var n := |parts| - 1;
    if k == n {
      before, after := Join(parts[..n], sep) + [sep], "";
    } else {
      var a, b := PartOfJoin(parts[..n], k, sep);
      before, after := a, b + [sep] + parts[n];
    }
  }

  lemma PartLacksToo(parts: seq<string>, k: nat, sep: char, pat: string)
    requires k < |parts| && Lacks(Join(parts, sep), pat)
    ensures Lacks(parts[k], pat)
  {
    var before, after := PartOfJoin(parts, k, sep);
    PartLacks(before, parts[k], after, pat);
  }

  /** The length of the parts, each with one separator. */
  function Weight(parts: seq<string>): nat {
    if parts == [] then 0 else Weight(parts[..|parts| - 1]) + |parts[|parts| - 1]| + 1
  }

  lemma {:induction false} WeightOfJoin(parts: seq<string>, sep: char)
    ensures Weight(parts) == if parts == [] then 0 else |Join(parts, sep)| + 1
  {
    if |parts| > 1 {
      WeightOfJoin(parts[..|parts| - 1], sep);
    }
  }

  lemma WeightSnoc(parts: seq<string>, l: string)
    ensures Weight(parts + [l]) == Weight(parts) + |l| + 1
  {
    assert (parts + [l])[..|parts|] == parts;
  }

  // ---------------------------------------------------------------------------------------------
  // White space
  // ---------------------------------------------------------------------------------------------

  /** `str.isspace` */
  predicate IsSpace(c: char) {
    var n := c as int;
    || 9 <= n <= 13 || 28 <= n <= 32 || n == 0x85 || n == 0xA0 || n == 0x1680 || 0x2000 <= n <= 0x200A
    || n == 0x2028 || n == 0x2029 || n == 0x202F || n == 0x205F || n == 0x3000
  }

  /** The characters that `str.strip()` takes off. */
  const SPACES := "\t\n\U{B}\U{C}\r\U{1C}\U{1D}\U{1E}\U{1F} \U{85}\U{A0}\U{1680}\U{2000}\U{2001}\U{2002}\U{2003}\U{2004}\U{2005}\U{2006}\U{2007}\U{2008}\U{2009}\U{200A}\U{2028}\U{2029}\U{202F}\U{205F}\U{3000}"

  lemma SpacesAre(c: char)
    ensures IsSpace(c) <==> c in SPACES
  {
  }

  function LeadingSpace(s: string): string {
    if s == "" || !IsSpace(s[0]) then "" else [s[0]] + LeadingSpace(s[1..])
  }

  function StripLeft(s: string): string {
    if s == "" || !IsSpace(s[0]) then s else StripLeft(s[1..])
  }

  function StripRight(s: string): string {
    if s == "" || !IsSpace(s[|s| - 1]) then s else StripRight(s[..|s| - 1])
  }

  /** `s.strip()` */
  function Strip(s: string): string {
    StripRight(StripLeft(s))
  }

  lemma {:induction false} StripAfterSpace(line: string, s: string)
    requires s != "" && !IsSpace(s[0]) && !IsSpace(s[|s| - 1])
    ensures Strip(LeadingSpace(line) + s) == s
  {
    if line == "" || !IsSpace(line[0]) {
      assert LeadingSpace(line) + s == s;
    } else {
      StripAfterSpace(line[1..], s);
      var t := LeadingSpace(line) + s;
      assert t[1..] == LeadingSpace(line[1..]) + s && t[0] == line[0];
    }
  }

  lemma {:induction false} StripLeftShorter(s: string)
    ensures |StripLeft(s)| <= |s|
    ensures s != "" && IsSpace(s[0]) ==> |StripLeft(s)| < |s|
    ensures |s| >= 2 && IsSpace(s[0]) && IsSpace(s[1]) ==> |StripLeft(s)| + 1 < |s|
    ensures StripLeft(s) != "" ==> !IsSpace(StripLeft(s)[0])
  {
    if s != "" && IsSpace(s[0]) {
      StripLeftShorter(s[1..]);
    }
  }

  lemma {:induction false} StripLeftDrops(s: string) returns (k: nat)
    ensures k <= |s| && StripLeft(s) == s[k..]
  {
    if s == "" || !IsSpace(s[0]) {
      k := 0;
    } else {
      var j := StripLeftDrops(s[1..]);
      k := j + 1;
    }
  }

  lemma StripLeftInside(s: string) returns (a: string)
    ensures s == a + StripLeft(s)
  {
    var k := StripLeftDrops(s);
    a := s[..k];
  }

  lemma {:induction false} StripRightInside(s: string) returns (b: string)
    ensures s == StripRight(s) + b
  {
    if s == "" || !IsSpace(s[|s| - 1]) {
      b := "";
    } else {
      var a := StripRightInside(s[..|s| - 1]);
      b := a + [s[|s| - 1]];
      assert s == s[..|s| - 1] + [s[|s| - 1]];
    }
  }

  lemma StripInside(s: string) returns (a: string, b: string)
    ensures s == a + Strip(s) + b
  {
    a := StripLeftInside(s);
    b := StripRightInside(StripLeft(s));
    assert a + (Strip(s) + b) == a + Strip(s) + b;
  }
}
