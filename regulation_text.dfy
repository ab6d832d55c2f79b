/** The text analysis of the regulation crawler (src/data/regulation_crawler.py): the
    categories of a regulation are the fixed keywords that occur in it as whole words, in any
    letter case, and its requirements are its sentences that mention an obligation. */
module RegulationText {
  import opened Text

  /** `category_keywords`. */
  const CategoryKeywords: seq<string> := ["safety", "security", "emergency", "operation", "maintenance",
                                          "training", "quality assurance", "reporting", "inspection"]

  /** `requirement_keywords`. */
  const RequirementKeywords: seq<string> := ["must", "shall", "required", "necessary", "mandatory"]

  // ---------------------------------------------------------------- categories

  /** `\b` at position `p`: a word character on exactly one side. */
  predicate Boundary(s: string, p: nat)
    requires p <= |s|
  {
    (p > 0 && IsWordChar(s[p - 1])) != (p < |s| && IsWordChar(s[p]))
  }

  /** `\b{kw}\b` matches at `k`. */
  predicate WordAt(s: string, kw: string, k: nat)
  {
    k + |kw| <= |s| && s[k..k + |kw|] == kw && Boundary(s, k) && Boundary(s, k + |kw|)
  }

  /** `re.search(rf'\b{kw}\b', s)` finds a match. */
  predicate HasWord(s: string, kw: string)
  {
    exists k | 0 <= k <= |s| :: WordAt(s, kw, k)
  }

  /** The categories of a regulation: the keywords found as whole words in its lower-cased
      text. */
  function Categories(content: string): (cs: set<string>)
    ensures forall kw | kw in cs :: kw in CategoryKeywords
  {
    set kw | kw in CategoryKeywords && HasWord(Lower(content), kw)
  }

  /** `_extract_categories`: the keyword loop, then `list(set(categories))`. */
  method ExtractCategories(content: string) returns (categories: seq<string>)
    ensures forall kw :: kw in categories <==> kw in Categories(content)
    ensures NoRepeats(categories)
  {
    var low := Lower(content);
    var found: seq<string> := [];
    for i := 0 to |CategoryKeywords|
      invariant forall kw :: kw in found <==> exists j | 0 <= j < i :: CategoryKeywords[j] == kw && HasWord(low, kw)
    {
      if HasWord(low, CategoryKeywords[i]) {
        found := found + [CategoryKeywords[i]];
      }
    }
    categories := ListOfSet(found);
  }

  /** `s.lower()` of a concatenation is the concatenation of the lower-cased parts. */
  lemma LowerAppend(a: string, b: string)
    ensures Lower(a + b) == Lower(a) + Lower(b)
  {
    assert forall i | 0 <= i < |a + b| :: Lower(a + b)[i] == (Lower(a) + Lower(b))[i];
  }

  /** A whole word of `x` stays a whole word when a space and more text follow. */
  lemma WordLeft(x: string, y: string, kw: string, k: nat)
    requires WordAt(x, kw, k)
    ensures WordAt(x + " " + y, kw, k)
  {
    var t := x + " " + y;
    assert t[k..k + |kw|] == x[k..k + |kw|];
    assert k > 0 ==> t[k - 1] == x[k - 1];
    if k + |kw| < |x| {
      assert t[k + |kw|] == x[k + |kw|];
    } else {
      assert t[k + |kw|] == ' ';
    }
  }

  /** A whole word of `y` stays a whole word when text and a space precede it. */
  lemma WordRight(x: string, y: string, kw: string, k: nat)
    requires WordAt(y, kw, k)
    ensures WordAt(x + " " + y, kw, |x| + 1 + k)
  {
    var t := x + " " + y;
    var m := |x| + 1;
    assert t[m + k..m + k + |kw|] == y[k..k + |kw|];
    assert t[m + k - 1] == if k > 0 then y[k - 1] else ' ';
    assert m + k + |kw| < |t| ==> t[m + k + |kw|] == y[k + |kw|];
  }

  /** Joining two texts with a space keeps the categories of both: a category is never lost
      by adding text after a word break. */
  lemma CategoriesJoin(a: string, b: string)
    ensures Categories(a) + Categories(b) <= Categories(a + " " + b)
  {
    LowerAppend(a + " ", b);
    LowerAppend(a, " ");
    assert Lower(" ") == " ";
    var la, lb := Lower(a), Lower(b);
    assert Lower(a + " " + b) == la + " " + lb;
    forall kw | kw in Categories(a) + Categories(b) ensures HasWord(la + " " + lb, kw) {
      if kw in Categories(a) {
        var k :| 0 <= k <= |la| && WordAt(la, kw, k);
        WordLeft(la, lb, kw, k);
      } else {
        var k :| 0 <= k <= |lb| && WordAt(lb, kw, k);
        WordRight(la, lb, kw, k);
      }
    }
  }

  // ---------------------------------------------------------------- requirements

  /** A character of the class `[.!?]`. */
  predicate IsStop(c: char)
  {
    c == '.' || c == '!' || c == '?'
  }

  /** The first sentence stop at or after `p`, or the end of the text. */
  function NextStop(s: string, p: nat): (r: nat)
    requires p <= |s|
    ensures p <= r <= |s| && (r < |s| ==> IsStop(s[r]))
    ensures forall k | p <= k < r :: !IsStop(s[k])
    decreases |s| - p
  {
    if p == |s| || IsStop(s[p]) then p else NextStop(s, p + 1)
  }

  /** The end of the run of sentence stops that starts at `p`. */
  function RunEnd(s: string, p: nat): (r: nat)
    requires p <= |s|
    ensures p <= r <= |s| && (r < |s| ==> !IsStop(s[r]))
    ensures forall k | p <= k < r :: IsStop(s[k])
    decreases |s| - p
  {
    if p < |s| && IsStop(s[p]) then RunEnd(s, p + 1) else p
  }

  /** The text holds no sentence stop. */
  predicate NoStop(t: string)
  {
    forall k | 0 <= k < |t| :: !IsStop(t[k])
  }

  /** `re.split(r'[.!?]+', s)`: the pieces between the runs of stops, with an empty piece
      before a leading run and after a trailing one. */
  function SplitStops(s: string): (parts: seq<string>)
    ensures |parts| >= 1
    decreases |s|
  {
    var i := NextStop(s, 0);
    if i == |s| then [s] else [s[..i]] + SplitStops(s[RunEnd(s, i)..])
  }

  /** No piece of the split holds a stop. */
  lemma {:induction false} SplitNoStop(s: string)
    ensures forall i | 0 <= i < |SplitStops(s)| :: NoStop(SplitStops(s)[i])
    decreases |s|
  {
    var i := NextStop(s, 0);
    if i < |s| {
      SplitNoStop(s[RunEnd(s, i)..]);
    }
  }

  /** The sentence mentions an obligation: some requirement keyword is a substring of its
      lower-cased text. */
  predicate IsRequirement(sentence: string)
  {
    exists j | 0 <= j < |RequirementKeywords| :: Contains(Lower(sentence), RequirementKeywords[j])
  }

  /** The sentences `norm(s)` of `sentences` that pass `keep`, in order: with `Strip` and
      `IsRequirement`, the stripped sentences that are requirements. */
  function Kept(norm: string -> string, keep: string -> bool, sentences: seq<string>): seq<string>
    decreases |sentences|
  {
    if sentences == [] then []
    else Kept(norm, keep, sentences[..|sentences| - 1]) + KeptOne(norm, keep, sentences[|sentences| - 1])
  }

  /** What one sentence contributes. */
  function KeptOne(norm: string -> string, keep: string -> bool, sentence: string): seq<string>
  {
    var t := norm(sentence);
    if keep(t) then [t] else []
  }

  /** The last sentence is handled after the others. */
  lemma KeptLast(norm: string -> string, keep: string -> bool, sentences: seq<string>)
    requires sentences != []
    ensures Kept(norm, keep, sentences)
      == Kept(norm, keep, sentences[..|sentences| - 1]) + KeptOne(norm, keep, sentences[|sentences| - 1])
  {
  }

  /** The requirements of a regulation. */
  function Requirements(content: string): seq<string>
  {
    Kept(Strip, IsRequirement, SplitStops(content))
  }

  /** `_extract_requirements`: the loop over the sentences. */
  method ExtractRequirements(content: string) returns (requirements: seq<string>)
    ensures requirements == Requirements(content)
  {
    var sentences := SplitStops(content);
    requirements := [];
    assert sentences[..0] == [];
    for i := 0 to |sentences|
      invariant requirements == Kept(Strip, IsRequirement, sentences[..i])
    {
      assert sentences[..i + 1][..i] == sentences[..i];
      KeptLast(Strip, IsRequirement, sentences[..i + 1]);
      var sentence := Strip(sentences[i]);
      if IsRequirement(sentence) {
        requirements := requirements + [sentence];
      }
    }
    assert sentences[..|sentences|] == sentences;
  }

  /** A sentence is kept exactly when, normalised, it passes the test. */
  lemma {:induction false} KeptSpec(norm: string -> string, keep: string -> bool, sentences: seq<string>)
    ensures forall t :: t in Kept(norm, keep, sentences) <==>
      keep(t) && exists i | 0 <= i < |sentences| :: t == norm(sentences[i])
    decreases |sentences|
  {
    if sentences != [] {
      var init := sentences[..|sentences| - 1];
      KeptSpec(norm, keep, init);
      assert forall i | 0 <= i < |init| :: init[i] == sentences[i];
    }
  }

  /** The sentences of two lists are kept in their order. */
  lemma {:induction false} KeptAppend(norm: string -> string, keep: string -> bool, xs: seq<string>, ys: seq<string>)
    ensures Kept(norm, keep, xs + ys) == Kept(norm, keep, xs) + Kept(norm, keep, ys)
    decreases |ys|
  {
    if ys == [] {
      assert xs + ys == xs;
    } else {
      var n := |ys| - 1;
      var zs := xs + ys;
      KeptAppend(norm, keep, xs, ys[..n]);
      assert zs[..|zs| - 1] == xs + ys[..n];
      assert zs[|zs| - 1] == ys[n];
      KeptLast(norm, keep, zs);
      KeptLast(norm, keep, ys);
      AppendAssoc(Kept(norm, keep, xs), Kept(norm, keep, ys[..n]), KeptOne(norm, keep, ys[n]));
    }
  }

  /** `t` is one of the sentences of the text, stripped. */
  predicate SentenceOf(content: string, t: string)
  {
    var parts := SplitStops(content);
    exists i | 0 <= i < |parts| :: t == Strip(parts[i])
  }

  /** A text is returned exactly when it is a stripped sentence of the regulation and a
      requirement. */
  lemma RequirementsSpec(content: string)
    ensures forall t :: t in Requirements(content) <==> SentenceOf(content, t) && IsRequirement(t)
  {
    var parts := SplitStops(content);
    forall t ensures t in Requirements(content) <==> SentenceOf(content, t) && IsRequirement(t) {
      KeptSpec(Strip, IsRequirement, parts);
      assert t in Requirements(content) <==> (exists i | 0 <= i < |parts| :: t == Strip(parts[i])) && IsRequirement(t);
    }
  }

  /** Every requirement holds no sentence stop and has no whitespace at either end. */
  lemma RequirementsClean(content: string)
    ensures forall t | t in Requirements(content) ::
      NoStop(t) && (t == [] || (!IsSpace(t[0]) && !IsSpace(t[|t| - 1])))
  {
    var parts := SplitStops(content);
    forall t | t in Requirements(content) ensures NoStop(t) {
      KeptFrom(Strip, IsRequirement, parts, t);
      var i :| 0 <= i < |parts| && t == Strip(parts[i]);
      SplitNoStop(content);
      StripNoStop(parts[i]);
    }
    forall t | t in Requirements(content) ensures t == [] || (!IsSpace(t[0]) && !IsSpace(t[|t| - 1])) {
      KeptFrom(Strip, IsRequirement, parts, t);
      var i :| 0 <= i < |parts| && t == Strip(parts[i]);
    }
  }

  /** Stripping a text without stops leaves none. */
  lemma StripNoStop(x: string)
    requires NoStop(x)
    ensures NoStop(Strip(x))
  {
    var t := Strip(x);
    var o := StripOffset(x);
    forall k | 0 <= k < |t| ensures !IsStop(t[k]) {
      assert t[k] == x[o + k];
    }
  }

  /** A kept text is the normalised form of one of the sentences. */
  lemma KeptFrom(norm: string -> string, keep: string -> bool, sentences: seq<string>, t: string)
    requires t in Kept(norm, keep, sentences)
    ensures exists i | 0 <= i < |sentences| :: t == norm(sentences[i])
  {
    KeptSpec(norm, keep, sentences);
  }

  /** The stops of a text that does not end in one are those of the same text followed by a
      stop and more text. */
  lemma {:induction false} NextStopPrefix(a: string, c: char, b: string, p: nat)
    requires IsStop(c) && p <= |a|
    ensures NextStop(a + [c] + b, p) == NextStop(a, p)
    decreases |a| - p
  {
    var t := a + [c] + b;
    if p < |a| {
      assert t[p] == a[p];
      if !IsStop(a[p]) {
        NextStopPrefix(a, c, b, p + 1);
      }
    }
  }

  /** A run of stops inside a text that does not end in one ends inside it. */
  lemma {:induction false} RunEndPrefix(a: string, c: char, b: string, p: nat)
    requires p < |a| && !IsStop(a[|a| - 1])
    ensures RunEnd(a + [c] + b, p) == RunEnd(a, p) < |a|
    decreases |a| - p
  {
    var t := a + [c] + b;
    assert t[p] == a[p];
    if IsStop(a[p]) {
      RunEndPrefix(a, c, b, p + 1);
    }
  }

  /** Two texts joined by a sentence stop split into the sentences of each, when the first
      does not end in a stop and the second does not start with one. */
  lemma {:induction false} SplitConcat(a: string, c: char, b: string)
    requires IsStop(c)
    requires a == [] || !IsStop(a[|a| - 1])
    requires b == [] || !IsStop(b[0])
    ensures SplitStops(a + [c] + b) == SplitStops(a) + SplitStops(b)
    decreases |a|
  {
    NextStopPrefix(a, c, b, 0);
    var i := NextStop(a, 0);
    if i == |a| {
      SplitConcatLast(a, c, b);
    } else {
      RunEndPrefix(a, c, b, i);
      var j := RunEnd(a, i);
      var rest := a[j..];
      assert rest[|rest| - 1] == a[|a| - 1];
      SplitConcat(rest, c, b);
      SplitConcatStep(a, c, b, i, j);
    }
  }

  /** The stop that joins the texts ends the last sentence of the first. */
  lemma SplitConcatLast(a: string, c: char, b: string)
    requires IsStop(c) && NextStop(a, 0) == |a| && NextStop(a + [c] + b, 0) == |a|
    requires b == [] || !IsStop(b[0])
    ensures SplitStops(a + [c] + b) == [a] + SplitStops(b)
  {
    var t := a + [c] + b;
    assert t[..|a|] == a;
    assert RunEnd(t, |a| + 1) == |a| + 1 by {
      assert |a| + 1 < |t| ==> t[|a| + 1] == b[0];
    }
    assert t[|a| + 1..] == b;
  }

  /** A run of stops inside the first text splits both the same way. */
  lemma SplitConcatStep(a: string, c: char, b: string, i: nat, j: nat)
    requires i < j < |a| && NextStop(a, 0) == i && RunEnd(a, i) == j
    requires NextStop(a + [c] + b, 0) == i && RunEnd(a + [c] + b, i) == j
    requires SplitStops(a[j..] + [c] + b) == SplitStops(a[j..]) + SplitStops(b)
    ensures SplitStops(a + [c] + b) == SplitStops(a) + SplitStops(b)
  {
    var t := a + [c] + b;
    var r := a[j..] + [c] + b;
    assert SplitStops(t) == [a[..i]] + SplitStops(r) by {
      assert t[..i] == a[..i];
      assert t[j..] == r;
    }
    assert SplitStops(a) == [a[..i]] + SplitStops(a[j..]);
    AppendAssoc([a[..i]], SplitStops(a[j..]), SplitStops(b));
  }

  lemma AppendAssoc<T>(x: seq<T>, p: seq<T>, q: seq<T>)
    ensures x + (p + q) == (x + p) + q
  {
  }

  /** The requirements of two passages joined by a full stop are those of the first followed
      by those of the second. */
  lemma RequirementsConcat(a: string, b: string)
    requires a == [] || !IsStop(a[|a| - 1])
    requires b == [] || !IsStop(b[0])
    ensures Requirements(a + "." + b) == Requirements(a) + Requirements(b)
  {
    SplitConcat(a, '.', b);
    KeptAppend(Strip, IsRequirement, SplitStops(a), SplitStops(b));
  }

  /** A keyword inside a longer word still makes a requirement: "unnecessary" qualifies
      through "necessary". */
  lemma KeywordInside(u: string, j: nat, v: string)
    requires j < |RequirementKeywords|
    ensures IsRequirement(u + RequirementKeywords[j] + v)
  {
    var kw := RequirementKeywords[j];
    var s := u + kw + v;
    LowerAppend(u + kw, v);
    LowerAppend(u, kw);
    assert Lower(kw) == kw;
    assert Lower(s)[|u|..|u| + |kw|] == kw;
    assert OccursAt(Lower(s), kw, |u|);
    ContainsIff(Lower(s), kw);
  }
}
