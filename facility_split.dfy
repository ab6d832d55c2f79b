/** The facility splitter (src/preprocessing/6_clean_data.py): each "Facility Name" cell is
    matched against `^(.*?)(?:,\s*(Unit\s*\d+))?$`; the first group becomes the facility and
    the optional second the unit, and a missing group reads "Unknown Facility" or
    "Unknown Unit". */
module FacilitySplit {
  import opened Text

  const UnknownFacility: string := "Unknown Facility"
  const UnknownUnit: string := "Unknown Unit"

  /** `$` without MULTILINE: the end of the text, or just before a line break that ends it. */
  predicate EndAt(s: string, p: nat)
  {
    p == |s| || (p + 1 == |s| && s[p] == '\n')
  }

  /** `,\s*(Unit\s*\d+)$` tried at `q`: the bounds of the unit group. Each `\s*` is followed
      by a letter or a digit and `$` cannot follow a digit of the run, so the greedy runs are
      the only ones that can match. */
  function UnitAt(s: string, q: nat): (r: Option<(nat, nat)>)
    ensures r.Some? ==> q < r.value.0 < r.value.1 <= |s|
  {
    if q < |s| && s[q] == ',' then
      var a := Span(s, q + 1, Space);
      if OccursAt(s, "Unit", a) then
        var b := Span(s, a + 4, Space);
        var d := Span(s, b, Digit);
        if d > b && EndAt(s, d) then Some((a, d)) else None
      else None
    else None
  }

  /** The match found when the lazy first group has grown to `p`: where it ends and the unit
      group, if any. The first group cannot cross a line break (`.` does not match one). */
  function MatchFrom(s: string, p: nat): (r: Option<(nat, Option<(nat, nat)>)>)
    ensures r.Some? ==> p <= r.value.0 <= |s|
    ensures r.Some? && r.value.1.Some? ==> UnitAt(s, r.value.0) == r.value.1
    decreases |s| - p
  {
    if p > |s| then None
    else match UnitAt(s, p)
      case Some(g) => Some((p, Some(g)))
      case None =>
        if EndAt(s, p) then Some((p, None))
        else if p < |s| && s[p] != '\n' then MatchFrom(s, p + 1)
        else None
  }

  /** The cell after `str.extract` and the two `fillna` calls: `(facility, unit)`. A missing
      cell extracts to two missing groups. */
  function SplitFacility(cell: Option<string>): (string, string)
  {
    match cell
    case None => (UnknownFacility, UnknownUnit)
    case Some(s) =>
      match MatchFrom(s, 0)
      case None => (UnknownFacility, UnknownUnit)
      case Some((p, g)) => (s[..p], if g.Some? then s[g.value.0..g.value.1] else UnknownUnit)
  }

  /** The whole script on a table whose rows are a "Facility Name" cell and the other cells:
      each row gains its facility and unit, and the other cells and the row order stay. */
  function CleanTable<T>(rows: seq<(Option<string>, T)>): (r: seq<(string, string, T)>)
    ensures |r| == |rows|
    ensures forall i | 0 <= i < |rows| :: r[i].2 == rows[i].1 && (r[i].0, r[i].1) == SplitFacility(rows[i].0)
  {
    seq(|rows|, i requires 0 <= i < |rows| => var (f, u) := SplitFacility(rows[i].0); (f, u, rows[i].1))
  }

  /** The first group is the leftmost end that works: no line break before it, and at no
      earlier position does the unit suffix or the end of the text match. */
  lemma {:induction false} MatchFromFound(s: string, p: nat)
    requires p <= |s| && forall k | 0 <= k < p :: s[k] != '\n'
    ensures MatchFrom(s, p).Some? ==>
      var (e, g) := MatchFrom(s, p).value;
      (forall k | 0 <= k < e :: s[k] != '\n')
      && (forall k | p <= k < e :: UnitAt(s, k).None? && !EndAt(s, k))
      && (g.Some? || (UnitAt(s, e).None? && EndAt(s, e)))
    decreases |s| - p
  {
    if UnitAt(s, p).None? && !EndAt(s, p) && p < |s| && s[p] != '\n' {
      MatchFromFound(s, p + 1);
    }
  }

  /** Without a match, the first group runs into a line break before the unit suffix or the
      end of the text matches. */
  lemma {:induction false} MatchFromMissing(s: string, p: nat)
    requires p <= |s|
    ensures MatchFrom(s, p).None? ==>
      exists k | p <= k < |s| :: s[k] == '\n' && forall j | p <= j <= k :: UnitAt(s, j).None? && !EndAt(s, j)
    decreases |s| - p
  {
    if MatchFrom(s, p).None? {
      if p < |s| && s[p] != '\n' {
        MatchFromMissing(s, p + 1);
        var k :| p + 1 <= k < |s| && s[k] == '\n' && forall j | p + 1 <= j <= k :: UnitAt(s, j).None? && !EndAt(s, j);
        assert forall j | p <= j <= k :: UnitAt(s, j).None? && !EndAt(s, j);
      } else {
        assert p < |s| && s[p] == '\n';
      }
    }
  }

  /** A value without a unit suffix and without line breaks is the facility as it is, and its
      unit is unknown. */
  lemma NoSuffixWhole(s: string)
    requires '\n' !in s && forall q | 0 <= q <= |s| :: UnitAt(s, q).None?
    ensures SplitFacility(Some(s)) == (s, UnknownUnit)
  {
    MatchFromFound(s, 0);
    MatchFromMissing(s, 0);
    var (e, g) := MatchFrom(s, 0).value;
    assert s[..e] == s;
  }

  /** A line break that does not end the value, with no comma before it, leaves both fields
      unknown. */
  lemma BreakUnknown(s: string, k: nat)
    requires k + 1 < |s| && s[k] == '\n' && ',' !in s[..k]
    ensures SplitFacility(Some(s)) == (UnknownFacility, UnknownUnit)
  {
    MatchFromFound(s, 0);
  }

  /** `f + ", Unit " + n` splits into `f` and `"Unit " + n` whatever `f` holds but a line
      break: when several unit suffixes follow each other, the lazy first group keeps all
      but the last. */
  lemma LastUnit(f: string, n: string)
    requires '\n' !in f && |n| > 0 && AllDigits(n)
    ensures SplitFacility(Some(f + ", Unit " + n)) == (f, "Unit " + n)
  {
    var s := f + ", Unit " + n;
    var m := |f|;
    assert s[m] == ',' && s[m + 1] == ' ' && s[m + 2..m + 6] == "Unit" && s[m + 6] == ' ';
    assert s[m + 7..] == n;
    forall k | 0 <= k < m ensures s[k] != '\n' {
      assert s[k] == f[k];
    }
    LastUnitAt(s, m, n);
    assert s[..m] == f;
    assert s[m + 2..|s|] == "Unit " + n by {
      assert s[m + 2..m + 7] == "Unit ";
      assert s[m + 2..|s|] == s[m + 2..m + 7] + s[m + 7..];
    }
  }

  /** The match of `f + ", Unit " + n`, in terms of indices: the first group ends at the last
      comma and the unit group runs from `Unit` to the end. */
  lemma LastUnitAt(s: string, m: nat, n: string)
    requires m + 7 + |n| == |s| && |n| > 0 && AllDigits(n) && s[m + 7..] == n
    requires s[m] == ',' && s[m + 1] == ' ' && s[m + 2..m + 6] == "Unit" && s[m + 6] == ' '
    requires forall k | 0 <= k < m :: s[k] != '\n'
    ensures MatchFrom(s, 0) == Some((m, Some((m + 2, |s|))))
  {
    forall q | 0 <= q < m ensures UnitAt(s, q).None? && !EndAt(s, q) {
      UnitOnlyAt(s, m, n, q);
    }
    assert Span(s, m + 1, Space) == m + 2;
    assert Span(s, m + 6, Space) == m + 7;
    forall k | m + 7 <= k < |s| ensures IsDigit(s[k]) {
      assert s[k] == n[k - m - 7];
    }
    DigitsRun(s, m + 7);
    assert UnitAt(s, m) == Some((m + 2, |s|));
    MatchAt(s, m);
  }

  /** The digits that end a text run to its end. */
  lemma DigitsRun(s: string, b: nat)
    requires b < |s| && forall k | b <= k < |s| :: IsDigit(s[k])
    ensures Span(s, b, Digit) == |s|
    decreases |s| - b
  {
    if b + 1 < |s| {
      DigitsRun(s, b + 1);
    }
  }

  /** The lazy group stops at `m` when nothing before it ends a match. */
  lemma {:induction false} MatchAt(s: string, m: nat)
    requires m <= |s| && UnitAt(s, m).Some?
    requires forall k | 0 <= k < m :: s[k] != '\n' && UnitAt(s, k).None? && !EndAt(s, k)
    ensures MatchFrom(s, 0) == Some((m, UnitAt(s, m)))
  {
    MatchAtFrom(s, m, 0);
  }

  lemma {:induction false} MatchAtFrom(s: string, m: nat, p: nat)
    requires p <= m <= |s| && UnitAt(s, m).Some?
    requires forall k | p <= k < m :: s[k] != '\n' && UnitAt(s, k).None? && !EndAt(s, k)
    ensures MatchFrom(s, p) == Some((m, UnitAt(s, m)))
    decreases m - p
  {
    if p < m {
      MatchAtFrom(s, m, p + 1);
    }
  }

  /** In `f + ", Unit " + n`, only the last comma starts a unit suffix that reaches the end. */
  lemma UnitOnlyAt(s: string, m: nat, n: string, q: nat)
    requires m + 7 + |n| == |s| && |n| > 0 && AllDigits(n) && s[m + 7..] == n
    requires s[m] == ',' && s[m + 1] == ' ' && s[m + 2..m + 6] == "Unit" && s[m + 6] == ' '
    requires q < m
    ensures UnitAt(s, q).None? && !EndAt(s, q)
  {
    assert IsDigit(s[|s| - 1]) by {
      assert s[|s| - 1] == n[|n| - 1];
    }
    forall k | m + 7 <= k < |s| ensures IsDigit(s[k]) {
      assert s[k] == n[k - m - 7];
    }
  }
}
