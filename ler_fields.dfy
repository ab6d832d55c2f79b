/** The regular-expression field reader of Licensee Event Reports
    (src/preprocessing/ler_cfr_mapping.py): the text of all pages is cleaned of the `(cid:N)`
    markers the PDF extractor leaves and of repeated whitespace, and each field is the first
    match of its own pattern in the cleaned text. */
module LerFields {
  import opened Text

  // ---------------------------------------------------------------------------------------
  // clean_text

  /** Where a `(cid:N)` marker (N one or more digits) at the start of `t` ends. */
  function CidEnd(t: string): (r: Option<nat>)
    ensures r.Some? ==> 7 <= r.value <= |t|
  {
    if |t| >= 5 && t[..5] == "(cid:" then
      var d := Span(t, 5, Digit);
      if d > 5 && d < |t| && t[d] == ')' then Some(d + 1) else None
    else None
  }

  /** `re.sub(r"\(cid:\d+\)", " ", t)`: each marker, leftmost first, becomes one space. */
  function RemoveCids(t: string): string
    decreases |t|
  {
    if t == [] then []
    else match CidEnd(t)
      case Some(e) => " " + RemoveCids(t[e..])
      case None => [t[0]] + RemoveCids(t[1..])
  }

  /** No marker starts anywhere in `t`. */
  predicate CidFree(t: string)
    decreases |t|
  {
    t == [] || (CidEnd(t).None? && CidFree(t[1..]))
  }

  /** `re.sub(r"\s+", " ", t)`: each run of whitespace becomes one space. */
  function Collapse(t: string): string
    decreases |t|
  {
    if t == [] then []
    else if IsSpace(t[0]) then " " + Collapse(t[Span(t, 0, Space)..])
    else [t[0]] + Collapse(t[1..])
  }

  /** Every whitespace character of `t` is a plain space and none is followed by another. */
  predicate Collapsed(t: string)
    decreases |t|
  {
    t == [] || ((IsSpace(t[0]) ==> t[0] == ' ' && (|t| > 1 ==> !IsSpace(t[1]))) && Collapsed(t[1..]))
  }

  /** `clean_text(text)`. */
  function CleanText(text: string): string
  {
    Collapse(RemoveCids(text))
  }

  /** A marker starts with `(`. */
  lemma CidEndHead(t: string)
    requires t != [] && t[0] != '('
    ensures CidEnd(t).None?
  {
    if |t| >= 5 {
      assert t[..5][0] == t[0];
    }
  }

  /** The characters of a marker after its `(` are neither `(` nor whitespace. */
  lemma CidChars(t: string)
    requires CidEnd(t).Some?
    ensures forall j | 1 <= j < CidEnd(t).value :: t[j] != '(' && !IsSpace(t[j])
  {
    var d := Span(t, 5, Digit);
    forall j | 1 <= j < CidEnd(t).value ensures t[j] != '(' && !IsSpace(t[j]) {
      if j < 5 {
        assert t[j] == "(cid:"[j];
      }
    }
  }

  /** A run of a class depends only on the characters it covers and the one that stops it. */
  lemma {:induction false} SpanAgree(u: string, v: string, i: nat, n: nat, cls: Class)
    requires i <= n <= |u| && n <= |v| && u[..n] == v[..n] && i <= |v|
    requires Span(u, i, cls) < n
    ensures Span(v, i, cls) == Span(u, i, cls)
    decreases n - i
  {
    assert u[i] == u[..n][i] == v[..n][i] == v[i];
    if In(u[i], cls) {
      SpanAgree(u, v, i + 1, n, cls);
    }
  }

  /** A marker is recognised from its own characters alone. */
  lemma CidEndAgree(u: string, v: string)
    requires CidEnd(u).Some? && CidEnd(u).value <= |v|
    requires u[..CidEnd(u).value] == v[..CidEnd(u).value]
    ensures CidEnd(v) == CidEnd(u)
  {
    var e := CidEnd(u).value;
    assert u[..5] == u[..e][..5] == v[..e][..5] == v[..5];
    SpanAgree(u, v, 5, e, Digit);
    assert u[e - 1] == u[..e][e - 1] == v[..e][e - 1] == v[e - 1];
  }

  /** Text without a `(` passes through the marker substitution unchanged. */
  lemma {:induction false} RemoveCidsPrefix(p: string, t: string)
    requires '(' !in p
    ensures RemoveCids(p + t) == p + RemoveCids(t)
    decreases |p|
  {
    if p != [] {
      assert p + t == [p[0]] + (p[1..] + t) && p == [p[0]] + p[1..];
      RemoveCidsCons(p[0], p[1..] + t);
      RemoveCidsPrefix(p[1..], t);
      assert [p[0]] + (p[1..] + RemoveCids(t)) == p + RemoveCids(t);
    } else {
      assert p + t == t;
    }
  }

  /** A character other than `(` passes through the marker substitution unchanged. */
  lemma RemoveCidsCons(c: char, t: string)
    requires c != '('
    ensures RemoveCids([c] + t) == [c] + RemoveCids(t)
  {
    var u := [c] + t;
    CidEndHead(u);
    assert u[1..] == t;
  }

  /** Text without whitespace passes through the collapsing unchanged. */
  lemma {:induction false} CollapsePrefix(p: string, t: string)
    requires forall j | 0 <= j < |p| :: !IsSpace(p[j])
    ensures Collapse(p + t) == p + Collapse(t)
    decreases |p|
  {
    if p != [] {
      var u := p + t;
      assert u[0] == p[0] && u[1..] == p[1..] + t;
      assert Collapse(u) == [p[0]] + Collapse(u[1..]);
      CollapsePrefix(p[1..], t);
      assert p == [p[0]] + p[1..];
      assert [p[0]] + (p[1..] + Collapse(t)) == p + Collapse(t);
    } else {
      assert p + t == t;
    }
  }

  /** The first index at or after `i` that holds a `(`, or `|u|`. */
  function NextParen(u: string, i: nat): (m: nat)
    requires i <= |u|
    ensures i <= m <= |u| && (forall j | i <= j < m :: u[j] != '(') && (m < |u| ==> u[m] == '(')
    decreases |u| - i
  {
    if i == |u| || u[i] == '(' then i else NextParen(u, i + 1)
  }

  /** A substitution that starts at a `(` starts with a space or that `(`. */
  lemma RemoveCidsHead(u: string)
    requires u != [] && u[0] == '('
    ensures RemoveCids(u) != [] && RemoveCids(u)[0] in {' ', '('}
  {
  }

  /** A marker that reaches no further than a `(` or a whitespace character at `m` is
      recognised from the first `m` characters alone. */
  lemma CidEndPrefix(x: string, y: string, m: nat)
    requires CidEnd(x).Some? && 1 <= m < |x| && (x[m] == '(' || IsSpace(x[m]))
    requires m <= |y| && x[..m] == y[..m]
    ensures CidEnd(y) == CidEnd(x)
  {
    var e := CidEnd(x).value;
    CidChars(x);
    assert e <= m;
    assert x[..e] == x[..m][..e] == y[..m][..e] == y[..e];
    CidEndAgree(x, y);
  }

  /** Substituting the markers after a `(` that starts no marker creates none there. */
  lemma NoNewCid(u: string)
    requires CidEnd(['('] + u).None?
    ensures CidEnd(['('] + RemoveCids(u)).None?
  {
    var r := RemoveCids(u);
    var m := NextParen(u, 0);
    assert u == u[..m] + u[m..];
    assert '(' !in u[..m];
    RemoveCidsPrefix(u[..m], u[m..]);
    if m == |u| {
      assert u[m..] == [] && u[..m] == u;
      assert r == u;
    } else {
      assert u[m..][0] == '(';
      RemoveCidsHead(u[m..]);
      assert r[m] == RemoveCids(u[m..])[0];
      assert r[..m] == u[..m];
      SameUpTo(u, r, m);
    }
  }

  /** When `r` agrees with `u` before `m` and holds a space or a `(` at `m`, a marker after a
      `(` in front of `r` is one in front of `u` too. */
  lemma SameUpTo(u: string, r: string, m: nat)
    requires m < |u| && m < |r| && r[..m] == u[..m] && (r[m] == ' ' || r[m] == '(')
    ensures CidEnd(['('] + r).Some? ==> CidEnd(['('] + r) == CidEnd(['('] + u)
  {
    var x, y := ['('] + r, ['('] + u;
    assert x[m + 1] == r[m];
    assert x[..m + 1] == y[..m + 1] by {
      assert x[..m + 1] == ['('] + r[..m];
      assert y[..m + 1] == ['('] + u[..m];
    }
    if CidEnd(x).Some? {
      CidEndPrefix(x, y, m + 1);
    }
  }

  /** The first index at or after `i` that holds whitespace, or `|u|`. */
  function NextSpace(u: string, i: nat): (m: nat)
    requires i <= |u|
    ensures i <= m <= |u| && (forall j | i <= j < m :: !IsSpace(u[j])) && (m < |u| ==> IsSpace(u[m]))
    decreases |u| - i
  {
    if i == |u| || IsSpace(u[i]) then i else NextSpace(u, i + 1)
  }

  /** Collapsing the whitespace after a `(` that starts no marker creates none there. */
  lemma NoNewCidCollapse(u: string)
    requires CidEnd(['('] + u).None?
    ensures CidEnd(['('] + Collapse(u)).None?
  {
    var r := Collapse(u);
    var m := NextSpace(u, 0);
    assert u == u[..m] + u[m..];
    CollapsePrefix(u[..m], u[m..]);
    if m == |u| {
      assert u[m..] == [] && u[..m] == u;
      assert r == u;
    } else {
      assert u[m..][0] == u[m];
      assert r[m] == Collapse(u[m..])[0] == ' ';
      assert r[..m] == u[..m];
      SameUpTo(u, r, m);
    }
  }

  /** No marker is left after the substitution. */
  lemma {:induction false} RemoveCidsFree(t: string)
    ensures CidFree(RemoveCids(t))
    decreases |t|
  {
    if t != [] {
      match CidEnd(t)
      case Some(e) =>
        RemoveCidsFree(t[e..]);
        var r := " " + RemoveCids(t[e..]);
        assert r[1..] == RemoveCids(t[e..]);
        CidEndHead(r);
      case None =>
        RemoveCidsFree(t[1..]);
        var r := [t[0]] + RemoveCids(t[1..]);
        assert r[1..] == RemoveCids(t[1..]);
        if t[0] == '(' {
          assert t == ['('] + t[1..];
          NoNewCid(t[1..]);
        } else {
          CidEndHead(r);
        }
    }
  }

  /** A suffix of marker-free text is marker-free. */
  lemma {:induction false} CidFreeSuffix(t: string, p: nat)
    requires CidFree(t) && p <= |t|
    ensures CidFree(t[p..])
    decreases p
  {
    if p > 0 {
      CidFreeSuffix(t[1..], p - 1);
      assert t[1..][p - 1..] == t[p..];
    }
  }

  /** Collapsing whitespace creates no marker, and leaves only single plain spaces. */
  lemma {:induction false} CollapseKeeps(t: string)
    ensures CidFree(t) ==> CidFree(Collapse(t))
    ensures Collapsed(Collapse(t))
    decreases |t|
  {
    if t != [] {
      var r := Collapse(t);
      if IsSpace(t[0]) {
        var p := Span(t, 0, Space);
        if CidFree(t) {
          CidFreeSuffix(t, p);
        }
        CollapseKeeps(t[p..]);
        assert r[1..] == Collapse(t[p..]);
        CidEndHead(r);
        if p < |t| {
          assert Collapse(t[p..])[0] == t[p..][0] == t[p];
        }
      } else {
        CollapseKeeps(t[1..]);
        assert r[1..] == Collapse(t[1..]);
        if t[0] == '(' {
          if CidFree(t) {
            assert t == ['('] + t[1..];
            NoNewCidCollapse(t[1..]);
          }
        } else {
          CidEndHead(r);
        }
      }
    }
  }

  /** Cleaned text holds no `(cid:N)` marker, no whitespace but single plain spaces, and so
      no line break. */
  lemma CleanTextClean(text: string)
    ensures CidFree(CleanText(text)) && Collapsed(CleanText(text))
    ensures '\n' !in CleanText(text)
  {
    RemoveCidsFree(text);
    CollapseKeeps(RemoveCids(text));
    CollapsedNoBreak(CleanText(text));
  }

  /** Collapsed text has no line break. */
  lemma {:induction false} CollapsedNoBreak(t: string)
    requires Collapsed(t)
    ensures '\n' !in t
    decreases |t|
  {
    if t != [] {
      CollapsedNoBreak(t[1..]);
      assert t == [t[0]] + t[1..];
    }
  }

  /** Marker-free text is left as it is by the substitution. */
  lemma {:induction false} RemoveCidsNone(t: string)
    requires CidFree(t)
    ensures RemoveCids(t) == t
    decreases |t|
  {
    if t != [] {
      RemoveCidsNone(t[1..]);
      assert t == [t[0]] + t[1..];
    }
  }

  /** Collapsed text is left as it is by the collapsing. */
  lemma {:induction false} CollapseNone(t: string)
    requires Collapsed(t)
    ensures Collapse(t) == t
    decreases |t|
  {
    if t != [] {
      CollapseNone(t[1..]);
      if IsSpace(t[0]) {
        assert Span(t, 0, Space) == 1;
      }
      assert t == [t[0]] + t[1..];
    }
  }

  /** Cleaning cleaned text changes nothing. */
  lemma CleanTextIdempotent(text: string)
    ensures CleanText(CleanText(text)) == CleanText(text)
  {
    var c := CleanText(text);
    CleanTextClean(text);
    RemoveCidsNone(c);
    CollapseNone(c);
  }

  // ---------------------------------------------------------------------------------------
  // extract_fields_from_pdf
  //
  // Every pattern is searched in the cleaned text `s`; the case-insensitive ones compare the
  // lower-cased text `low`, which has the same length and the same whitespace. The cleaned
  // text holds no line break (`CleanTextClean`), so `.` may stand for any character whether
  // or not the pattern is compiled with DOTALL.

  const FacilityLabel: string := "vogtle electric generating plant"

  /** `Unit \d` in any case at `j`. */
  predicate UnitAt(low: string, j: nat)
  {
    OccursAt(low, "unit ", j) && j + 5 < |low| && IsDigit(low[j + 5])
  }

  /** `Vogtle Electric Generating Plant.*?Unit \d` tried at `k`: where the lazy `.*?` stops,
      the first `Unit \d` after the plant's name. */
  function FacilityUnit(low: string, k: nat): (r: Option<nat>)
    ensures r.Some? ==> OccursAt(low, FacilityLabel, k) && k + |FacilityLabel| <= r.value && UnitAt(low, r.value)
  {
    if OccursAt(low, FacilityLabel, k) then FirstIndex((j: nat) => UnitAt(low, j), k + |FacilityLabel|, |low|)
    else None
  }

  /** The "Facility Name" field: the leftmost match, stripped. */
  function Facility(s: string): string
  {
    var low := Lower(s);
    match FirstIndex((k: nat) => FacilityUnit(low, k).Some?, 0, |s|)
    case None => NotFound
    case Some(k) => Strip(s[k..FacilityUnit(low, k).value + 6])
  }

  /** A field introduced by a label (`Title`, `Abstract`, `Narrative`), an optional separator
      character and whitespace, and ended, not included, by one of two phrases. */
  datatype Labelled = Labelled(head: string, seps: set<char>, stop1: string, stop2: string)

  /** `Title\s*:?\s*(.*?)(?=Licensee Event Report|LER Number)`. */
  const TitleField := Labelled("title", {':'}, "licensee event report", "ler number")
  /** `Abstract\s*[:\-]?\s*(.*?)(?=Narrative|Event Description)`. */
  const AbstractField := Labelled("abstract", {':', '-'}, "narrative", "event description")
  /** `Narrative\s*[:\-]?\s*(.*?)(?=Event Analysis|Reportability)`. */
  const NarrativeField := Labelled("narrative", {':', '-'}, "event analysis", "reportability")

  /** One of the two ending phrases starts at `e`. */
  predicate StopAt(low: string, f: Labelled, e: nat)
  {
    OccursAt(low, f.stop1, e) || OccursAt(low, f.stop2, e)
  }

  /** Where the group starts when the label sits at `k`: after the greedy `\s*`, the optional
      separator and the second greedy `\s*`. */
  function GroupStart(low: string, f: Labelled, k: nat): (p: nat)
    requires k + |f.head| <= |low|
    ensures k + |f.head| <= p <= |low|
  {
    var a := Span(low, k + |f.head|, Space);
    var b := if a < |low| && low[a] in f.seps then a + 1 else a;
    Span(low, b, Space)
  }

  /** The pattern tried at `k`: the group `(p, e)`, ending where the lazy `.*?` first sees an
      ending phrase. Giving back whitespace or the separator to the group never helps, since
      both phrases start with a letter. */
  function LabelledAt(low: string, f: Labelled, k: nat): (r: Option<(nat, nat)>)
    ensures r.Some? ==> OccursAt(low, f.head, k) && k + |f.head| <= r.value.0 <= r.value.1 <= |low|
    ensures r.Some? ==> StopAt(low, f, r.value.1)
  {
    if OccursAt(low, f.head, k) then
      var p := GroupStart(low, f, k);
      match FirstIndex((e: nat) => StopAt(low, f, e), p, |low|)
      case None => None
      case Some(e) => Some((p, e))
    else None
  }

  /** The group of the leftmost match, if any. */
  function LabelledMatch(low: string, f: Labelled): (r: Option<(nat, nat)>)
    ensures r.Some? ==> r.value.0 <= r.value.1 <= |low|
  {
    match FirstIndex((k: nat) => LabelledAt(low, f, k).Some?, 0, |low|)
    case None => None
    case Some(k) => LabelledAt(low, f, k)
  }

  /** The field: `match.group(1).strip()`, or "Not Found". */
  function LabelledValue(s: string, f: Labelled): string
  {
    match LabelledMatch(Lower(s), f)
    case None => NotFound
    case Some((p, e)) => Strip(s[p..e])
  }

  /** `(\d{4}-\d{3}-\d{2})` at `k`. */
  predicate LerAt(s: string, k: nat)
  {
    k + 11 <= |s| && DigitsAt(s, k, 4) && s[k + 4] == '-' && DigitsAt(s, k + 5, 3) && s[k + 8] == '-'
    && DigitsAt(s, k + 9, 2)
  }

  /** The "LER Number" field. */
  function LerNumber(s: string): string
  {
    match FirstIndex((k: nat) => LerAt(s, k), 0, |s|)
    case None => NotFound
    case Some(k) => s[k..k + 11]
  }

  /** `\b(\d{2})\s+(\d{2})\s+(\d{4})\b` at `j`: the starts of the second and third groups.
      Each `\s+` is followed by a digit, so its greedy run is the only one that can match. */
  function ShortDateAt(s: string, j: nat): (r: Option<(nat, nat)>)
    ensures r.Some? ==> j + 2 < r.value.0 && r.value.0 + 2 < r.value.1 && r.value.1 + 4 <= |s|
    ensures r.Some? ==> DigitsAt(s, j, 2) && DigitsAt(s, r.value.0, 2) && DigitsAt(s, r.value.1, 4)
  {
    if (j == 0 || (j <= |s| && !IsWordChar(s[j - 1]))) && DigitsAt(s, j, 2) then
      var a := Span(s, j + 2, Space);
      if a > j + 2 && DigitsAt(s, a, 2) then
        var b := Span(s, a + 2, Space);
        if b > a + 2 && DigitsAt(s, b, 4) && (b + 4 == |s| || !IsWordChar(s[b + 4])) then Some((a, b))
        else None
      else None
    else None
  }

  /** `Event Date.*?\b(\d{2})\s+(\d{2})\s+(\d{4})\b` tried at `k`: the first date after the
      label. */
  function EventDateAt(s: string, low: string, k: nat): (r: Option<nat>)
    requires |low| == |s|
    ensures r.Some? ==> OccursAt(low, "event date", k) && k + 10 <= r.value && ShortDateAt(s, r.value).Some?
  {
    if OccursAt(low, "event date", k) then FirstIndex((j: nat) => ShortDateAt(s, j).Some?, k + 10, |s|)
    else None
  }

  /** The "Event Date" field, `MM/DD/YYYY` from the three groups. */
  function EventDate(s: string): string
  {
    var low := Lower(s);
    match FirstIndex((k: nat) => EventDateAt(s, low, k).Some?, 0, |s|)
    case None => NotFound
    case Some(k) =>
      var j := EventDateAt(s, low, k).value;
      var (a, b) := ShortDateAt(s, j).value;
      s[j..j + 2] + "/" + s[a..a + 2] + "/" + s[b..b + 4]
  }

  /** `50\.\d{2}\(a\)\(\d\)\(iv\)\(A\)` at `k`, eighteen characters. */
  predicate CfrAt(s: string, k: nat)
  {
    OccursAt(s, "50.", k) && DigitsAt(s, k + 3, 2) && OccursAt(s, "(a)(", k + 5) && DigitsAt(s, k + 9, 1)
    && OccursAt(s, ")(iv)(A)", k + 10)
  }

  /** The "CFR" field. */
  function Cfr(s: string): string
  {
    match FirstIndex((k: nat) => CfrAt(s, k), 0, |s|)
    case None => NotFound
    case Some(k) => s[k..k + 18]
  }

  /** One row of the CSV file. */
  datatype Fields = Fields(
    facility: string, title: string, lerNumber: string, eventDate: string,
    abstractText: string, narrative: string, cfr: string, fileName: string)

  /** The fields of a report whose cleaned text is `s`, read from the file `name`. */
  function FieldsOf(s: string, name: string): Fields
  {
    Fields(Facility(s), LabelledValue(s, TitleField), LerNumber(s), EventDate(s),
           LabelledValue(s, AbstractField), LabelledValue(s, NarrativeField), Cfr(s), name)
  }

  /** Every value of `xs`, in order, or `None` as soon as one is missing: a loop that raises
      at the first failure and otherwise collects each result. */
  function AllSome<T>(xs: seq<Option<T>>): (r: Option<seq<T>>)
    decreases |xs|
  {
    if xs == [] then Some([])
    else
      match AllSome(xs[..|xs| - 1])
      case None => None
      case Some(ys) =>
        match xs[|xs| - 1]
        case None => None
        case Some(y) => Some(ys + [y])
  }

  /** `extract_fields_from_pdf` on the pages of one report, then `fields["File Name"]`: the
      page texts are joined only when every page has one, since joining a page's `None`
      raises `TypeError`. */
  function ExtractFields(pages: seq<Option<string>>, name: string): Option<Fields>
  {
    match AllSome(pages)
    case None => None
    case Some(ts) => Some(FieldsOf(CleanText(Join("\n", ts)), name))
  }

  /** What each report of `pdfs` yields, in order. */
  function Extracted(pdfs: seq<(string, seq<Option<string>>)>): (r: seq<Option<Fields>>)
    ensures |r| == |pdfs|
  {
    seq(|pdfs|, i requires 0 <= i < |pdfs| => ExtractFields(pdfs[i].1, pdfs[i].0))
  }

  /** `process_all_pdfs` over the directory listing `files` (each name with the texts of its
      pages): the rows of the CSV file, or `None` when a report raises and nothing is
      written. */
  method ProcessAllPdfs(files: seq<(string, seq<Option<string>>)>) returns (r: Option<seq<Fields>>)
    ensures r == AllSome(Extracted(WithExtension(files, ".pdf")))
  {
    var pdfs := WithExtension(files, ".pdf");
    ghost var xs := Extracted(pdfs);
    var rows: seq<Fields> := [];
    assert xs[..0] == [];
    for i := 0 to |pdfs|
      invariant AllSome(xs[..i]) == Some(rows)
    {
      var f := ExtractFields(pdfs[i].1, pdfs[i].0);
      AllSomeStep(xs, i, rows);
      if f.None? {
        AllSomeStops(xs, i + 1);
        return None;
      }
      rows := rows + [f.value];
    }
    assert xs[..|pdfs|] == xs;
    return Some(rows);
  }

  /** One more entry of a prefix whose values were all collected. */
  lemma AllSomeStep<T>(xs: seq<Option<T>>, i: nat, ys: seq<T>)
    requires i < |xs| && AllSome(xs[..i]) == Some(ys)
    ensures AllSome(xs[..i + 1]) == if xs[i].Some? then Some(ys + [xs[i].value]) else None
  {
    assert xs[..i + 1][..i] == xs[..i];
  }

  /** Once a prefix has a missing value, so has the whole. */
  lemma {:induction false} AllSomeStops<T>(xs: seq<Option<T>>, i: nat)
    requires i <= |xs| && AllSome(xs[..i]).None?
    ensures AllSome(xs).None?
    decreases |xs|
  {
    if i < |xs| {
      var init := xs[..|xs| - 1];
      assert init[..i] == xs[..i];
      AllSomeStops(init, i);
    } else {
      assert xs[..i] == xs;
    }
  }

  /** The group ends at the first ending phrase after its start. */
  lemma LabelledAtLazy(low: string, f: Labelled, k: nat)
    requires LabelledAt(low, f, k).Some?
    ensures var (p, e) := LabelledAt(low, f, k).value; forall i | p <= i < e :: !StopAt(low, f, i)
  {
    var (p, e) := LabelledAt(low, f, k).value;
    var q := (e: nat) => StopAt(low, f, e);
    forall i | p <= i < e ensures !StopAt(low, f, i) {
      assert !q(i);
    }
  }

  /** A LER number is four digits, a hyphen, three digits, a hyphen and two digits. */
  predicate LerShaped(v: string)
  {
    |v| == 11 && LerAt(v, 0)
  }

  /** The LER number is "Not Found" exactly when no position matches, and otherwise the
      leftmost match, as it stands in the text. */
  lemma LerNumberShape(s: string)
    ensures LerNumber(s) == NotFound <==> forall k | 0 <= k < |s| :: !LerAt(s, k)
    ensures LerNumber(s) != NotFound ==> LerShaped(LerNumber(s)) && Contains(s, LerNumber(s))
  {
    var q := (k: nat) => LerAt(s, k);
    match FirstIndex(q, 0, |s|)
    case None =>
      forall k | 0 <= k < |s| ensures !LerAt(s, k) {
        assert !q(k);
      }
    case Some(k) =>
      LerSlice(s, k);
  }

  /** A LER number matched at `k` is a LER number on its own. */
  lemma LerSlice(s: string, k: nat)
    requires LerAt(s, k)
    ensures var v := s[k..k + 11]; LerShaped(v) && v[0] != NotFound[0] && Contains(s, v)
  {
    var v := s[k..k + 11];
    assert v[0] == s[k] && IsDigit(v[0]);
    forall j | 0 <= j < 11 ensures v[j] == s[k + j] { }
    SliceContained(s, k, k + 11);
  }

  /** The citation is "Not Found" exactly when no position matches, and otherwise the leftmost
      `50.xx(a)(y)(iv)(A)`, as it stands in the text. */
  lemma CfrShape(s: string)
    ensures Cfr(s) == NotFound <==> forall k | 0 <= k < |s| :: !CfrAt(s, k)
    ensures Cfr(s) != NotFound ==> |Cfr(s)| == 18 && CfrAt(Cfr(s), 0) && Contains(s, Cfr(s))
  {
    var q := (k: nat) => CfrAt(s, k);
    match FirstIndex(q, 0, |s|)
    case None =>
      forall k | 0 <= k < |s| ensures !CfrAt(s, k) {
        assert !q(k);
      }
    case Some(k) =>
      CfrSlice(s, k);
  }

  /** A citation matched at `k` is a citation on its own. */
  lemma CfrSlice(s: string, k: nat)
    requires CfrAt(s, k)
    ensures var v := s[k..k + 18]; |v| == 18 && CfrAt(v, 0) && v[0] != NotFound[0] && Contains(s, v)
  {
    var v := s[k..k + 18];
    assert v[0] == s[k..k + 3][0] == '5';
    assert v[..3] == s[k..k + 3] && v[5..9] == s[k + 5..k + 9] && v[10..18] == s[k + 10..k + 18];
    forall j | 3 <= j < 5 || j == 9 ensures v[j] == s[k + j] { }
    SliceContained(s, k, k + 18);
  }

  /** `MM/DD/YYYY`. */
  predicate DateShaped(v: string)
  {
    |v| == 10 && DigitsAt(v, 0, 2) && v[2] == '/' && DigitsAt(v, 3, 2) && v[5] == '/' && DigitsAt(v, 6, 4)
  }

  /** The event date is "Not Found" exactly when no "Event Date" label is followed by a date,
      and otherwise has the shape `MM/DD/YYYY`. */
  lemma EventDateShape(s: string)
    ensures EventDate(s) == NotFound <==> forall k | 0 <= k < |s| :: EventDateAt(s, Lower(s), k).None?
    ensures EventDate(s) != NotFound ==> DateShaped(EventDate(s))
  {
    var low := Lower(s);
    var q := (k: nat) => EventDateAt(s, low, k).Some?;
    match FirstIndex(q, 0, |s|)
    case None =>
      forall k | 0 <= k < |s| ensures EventDateAt(s, low, k).None? {
        assert !q(k);
      }
    case Some(k) =>
      var j := EventDateAt(s, low, k).value;
      var (a, b) := ShortDateAt(s, j).value;
      assert DateShaped(EventDate(s)) && EventDate(s) != NotFound by {
        DateJoined(s, j, a, b, EventDate(s));
      }
  }

  /** The three digit groups joined with slashes. */
  lemma DateJoined(s: string, j: nat, a: nat, b: nat, v: string)
    requires DigitsAt(s, j, 2) && DigitsAt(s, a, 2) && DigitsAt(s, b, 4)
    requires v == s[j..j + 2] + "/" + s[a..a + 2] + "/" + s[b..b + 4]
    ensures DateShaped(v) && v != NotFound
  {
    assert v[..2] == s[j..j + 2] && v[3..5] == s[a..a + 2] && v[6..] == s[b..b + 4];
    assert IsDigit(v[0]);
  }

  /** The plant's name, any text, then `Unit ` and a digit, in any letter case. */
  predicate FacilityShaped(v: string)
  {
    |v| >= |FacilityLabel| + 6 && Lower(v)[..|FacilityLabel|] == FacilityLabel
    && Lower(v)[|v| - 6..|v| - 1] == "unit " && IsDigit(v[|v| - 1])
  }

  /** The facility is "Not Found" exactly when the pattern matches nowhere, and otherwise a
      piece of the text that starts with the plant's name and ends with `Unit ` and a digit,
      in any letter case. */
  lemma FacilityShape(s: string)
    ensures Facility(s) == NotFound <==> forall k | 0 <= k < |s| :: FacilityUnit(Lower(s), k).None?
    ensures Facility(s) != NotFound ==> FacilityShaped(Facility(s)) && Contains(s, Facility(s))
  {
    var low := Lower(s);
    var q := (k: nat) => FacilityUnit(low, k).Some?;
    match FirstIndex(q, 0, |s|)
    case None =>
      forall k | 0 <= k < |s| ensures FacilityUnit(low, k).None? {
        assert !q(k);
      }
    case Some(k) =>
      var j := FacilityUnit(low, k).value;
      FacilityFound(s, k, j);
  }

  /** The leftmost match, from the plant's name at `k` to the first `Unit \d` at `j` after it. */
  lemma FacilityFound(s: string, k: nat, j: nat)
    requires OccursAt(Lower(s), FacilityLabel, k) && k + |FacilityLabel| <= j && UnitAt(Lower(s), j)
    requires Facility(s) == Strip(s[k..j + 6])
    ensures Facility(s) != NotFound && FacilityShaped(Facility(s)) && Contains(s, Facility(s))
  {
    var v := s[k..j + 6];
    FacilityPiece(s, k, j);
    SliceContained(s, k, j + 6);
  }

  /** The piece from the plant's name to the digit after `Unit `. */
  lemma FacilityPiece(s: string, k: nat, j: nat)
    requires OccursAt(Lower(s), FacilityLabel, k) && k + |FacilityLabel| <= j && UnitAt(Lower(s), j)
    ensures var v := s[k..j + 6];
      FacilityShaped(v) && Strip(v) == v && v[0] != NotFound[0]
  {
    var low, v := Lower(s), s[k..j + 6];
    assert Lower(v) == low[k..j + 6];
    assert Lower(v)[..|FacilityLabel|] == low[k..k + |FacilityLabel|];
    assert Lower(v)[|v| - 6..|v| - 1] == low[j..j + 5];
    assert LowerChar(v[0]) == low[k] == FacilityLabel[0];
    assert v[|v| - 1] == s[j + 5] && LowerChar(s[j + 5]) == low[j + 5];
    StripKeeps(v);
  }

  /** An ending phrase starts at or after where the group would start for the label at `k`. */
  predicate StopsAfter(low: string, f: Labelled, k: nat, e: nat)
  {
    OccursAt(low, f.head, k) && GroupStart(low, f, k) <= e && StopAt(low, f, e)
  }

  /** A labelled field is found exactly when some occurrence of its label is followed, at or
      after the start of the group, by one of its ending phrases; what is found is a piece of
      the text, and otherwise the field reads "Not Found". */
  lemma LabelledFound(s: string, f: Labelled)
    requires |f.stop1| > 0 && |f.stop2| > 0
    ensures LabelledMatch(Lower(s), f).Some? <==> exists k, e :: StopsAfter(Lower(s), f, k, e)
    ensures LabelledMatch(Lower(s), f).Some? ==> Contains(s, LabelledValue(s, f))
    ensures LabelledMatch(Lower(s), f).None? ==> LabelledValue(s, f) == NotFound
  {
    var low := Lower(s);
    var q := (k: nat) => LabelledAt(low, f, k).Some?;
    match FirstIndex(q, 0, |low|)
    case Some(k) =>
      var (p, e) := LabelledAt(low, f, k).value;
      assert StopsAfter(low, f, k, e);
      StripContained(s, p, e);
    case None =>
      if exists k, e :: StopsAfter(low, f, k, e) {
        var k, e :| StopsAfter(low, f, k, e);
        StopFound(low, f, k, e);
        assert q(k);
      }
  }

  /** Any ending phrase after the group start lets the pattern match at the label. */
  lemma StopFound(low: string, f: Labelled, k: nat, e: nat)
    requires |f.stop1| > 0 && |f.stop2| > 0 && StopsAfter(low, f, k, e)
    ensures k < |low| && LabelledAt(low, f, k).Some?
  {
    var q := (e: nat) => StopAt(low, f, e);
    assert q(e) && e < |low|;
  }

  /** All values are collected exactly when none is missing, and then one per entry, in
      order. */
  lemma {:induction false} AllSomeSpec<T>(xs: seq<Option<T>>)
    ensures AllSome(xs).Some? <==> forall i | 0 <= i < |xs| :: xs[i].Some?
    ensures AllSome(xs).Some? ==>
      var ys := AllSome(xs).value;
      |ys| == |xs| && forall i | 0 <= i < |xs| :: ys[i] == xs[i].value
    decreases |xs|
  {
    if xs != [] {
      var init := xs[..|xs| - 1];
      AllSomeSpec(init);
      assert forall i | 0 <= i < |init| :: init[i] == xs[i];
    }
  }

  /** A report yields a row exactly when each of its pages has a text, and the row names the
      report's file. */
  lemma ExtractFieldsSpec(pages: seq<Option<string>>, name: string)
    ensures ExtractFields(pages, name).Some? <==> forall i | 0 <= i < |pages| :: pages[i].Some?
    ensures ExtractFields(pages, name).Some? ==> ExtractFields(pages, name).value.fileName == name
  {
    AllSomeSpec(pages);
  }

  /** The run writes its rows only when every report yields one, and then one row per report,
      in the order of the listing, each naming its report. */
  lemma PdfRowsSpec(pdfs: seq<(string, seq<Option<string>>)>)
    ensures AllSome(Extracted(pdfs)).Some? <==> forall i | 0 <= i < |pdfs| :: forall j | 0 <= j < |pdfs[i].1| :: pdfs[i].1[j].Some?
    ensures AllSome(Extracted(pdfs)).Some? ==>
      var rows := AllSome(Extracted(pdfs)).value;
      |rows| == |pdfs| && forall i | 0 <= i < |pdfs| :: rows[i].fileName == pdfs[i].0
  {
    var xs := Extracted(pdfs);
    AllSomeSpec(xs);
    forall i | 0 <= i < |pdfs|
      ensures xs[i].Some? <==> forall j | 0 <= j < |pdfs[i].1| :: pdfs[i].1[j].Some?
      ensures xs[i].Some? ==> xs[i].value.fileName == pdfs[i].0
    {
      ExtractFieldsSpec(pdfs[i].1, pdfs[i].0);
    }
  }

  /** No field read from a cleaned text spans two lines. */
  lemma FieldsOneLine(text: string, name: string)
    ensures var f := FieldsOf(CleanText(text), name);
      '\n' !in f.facility && '\n' !in f.title && '\n' !in f.lerNumber && '\n' !in f.eventDate
      && '\n' !in f.abstractText && '\n' !in f.narrative && '\n' !in f.cfr
  {
    var s := CleanText(text);
    CleanTextClean(text);
    assert '\n' !in Facility(s) by {
      FacilityShape(s);
      FieldOneLine(s, Facility(s));
    }
    assert '\n' !in LerNumber(s) by {
      LerNumberShape(s);
      FieldOneLine(s, LerNumber(s));
    }
    assert '\n' !in Cfr(s) by {
      CfrShape(s);
      FieldOneLine(s, Cfr(s));
    }
    assert '\n' !in EventDate(s) by {
      EventDateShape(s);
      if EventDate(s) != NotFound {
        DateOneLine(EventDate(s));
      } else {
        FieldOneLine(s, NotFound);
      }
    }
    LabelledOneLine(s, TitleField);
    LabelledOneLine(s, AbstractField);
    LabelledOneLine(s, NarrativeField);
  }

  /** A labelled field of a text without line breaks has none. */
  lemma LabelledOneLine(s: string, f: Labelled)
    requires '\n' !in s && |f.stop1| > 0 && |f.stop2| > 0
    ensures '\n' !in LabelledValue(s, f)
  {
    LabelledFound(s, f);
    FieldOneLine(s, LabelledValue(s, f));
  }

  /** A field that is "Not Found" or a piece of a text without line breaks has none. */
  lemma FieldOneLine(s: string, v: string)
    requires '\n' !in s && (v == NotFound || Contains(s, v))
    ensures '\n' !in v
  {
    if v != NotFound {
      ContainsIff(s, v);
      var k :| OccursAt(s, v, k);
      assert v == s[k..k + |v|];
    }
  }

  /** A date has no line break. */
  lemma DateOneLine(v: string)
    requires DateShaped(v)
    ensures '\n' !in v
  {
    forall i | 0 <= i < 10 ensures v[i] != '\n' {
      if i < 2 {
        assert IsDigit(v[i]);
      } else if 2 < i < 5 {
        assert IsDigit(v[i]);
      } else if 5 < i {
        assert IsDigit(v[i]);
      }
    }
  }
}
