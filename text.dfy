/** Python `str` operations the incident pipeline relies on: whitespace, ASCII case,
    substring search, `join`, `split`, `replace` and `strip`, plus decimal rendering of
    indices (`str(n)`) and the `os.path.splitext` stem of a file name. */
module Text {

  datatype Option<+T> = None | Some(value: T)

  /** What the report readers write for a field their patterns did not find. */
  const NotFound: string := "Not Found"

  /** Python's `str.isspace()` and the regular-expression class `\s` on `str`. */
  predicate IsSpace(c: char)
  {
    ('\t' <= c <= '\r') || ('\U{1c}' <= c <= '\U{1f}') || c == ' ' || c == '\U{85}' || c == '\U{a0}'
    || c == '\U{1680}' || ('\U{2000}' <= c <= '\U{200a}') || c == '\U{2028}' || c == '\U{2029}'
    || c == '\U{202f}' || c == '\U{205f}' || c == '\U{3000}'
  }

  /** The regular-expression class `\d` restricted to ASCII digits. */
  predicate IsDigit(c: char)
  {
    '0' <= c <= '9'
  }

  predicate IsAsciiLetter(c: char)
  {
    ('a' <= c <= 'z') || ('A' <= c <= 'Z')
  }

  /** The regular-expression class `\w` restricted to ASCII: letters, digits and `_`. */
  predicate IsWordChar(c: char)
  {
    IsAsciiLetter(c) || IsDigit(c) || c == '_'
  }

  predicate AllDigits(s: string)
  {
    forall i | 0 <= i < |s| :: IsDigit(s[i])
  }

  function LowerChar(c: char): char
  {
    if 'A' <= c <= 'Z' then (c as int + 32) as char else c
  }

  function UpperChar(c: char): char
  {
    if 'a' <= c <= 'z' then (c as int - 32) as char else c
  }

  /** `s.lower()` on the ASCII letters. */
  function Lower(s: string): string
  {
    seq(|s|, i requires 0 <= i < |s| => LowerChar(s[i]))
  }

  /** `s.upper()` on the ASCII letters. */
  function Upper(s: string): string
  {
    seq(|s|, i requires 0 <= i < |s| => UpperChar(s[i]))
  }

  /** The character classes the regular expressions of the pipeline use:
      `\d` and `[0-9]` (ASCII digits), `\s`, and `[A-Za-z]`. */
  datatype Class = Digit | Space | Letter

  predicate In(c: char, cls: Class)
  {
    match cls
    case Digit => IsDigit(c)
    case Space => IsSpace(c)
    case Letter => IsAsciiLetter(c)
  }

  /** The end of the longest run of `cls` characters starting at `i`, where a greedy `+` or
      `*` stops. */
  function Span(s: string, i: nat, cls: Class): (j: nat)
    requires i <= |s|
    ensures i <= j <= |s|
    ensures forall k | i <= k < j :: In(s[k], cls)
    ensures j < |s| ==> !In(s[j], cls)
    decreases |s| - i
  {
    if i < |s| && In(s[i], cls) then Span(s, i + 1, cls) else i
  }

  /** `n` digits sit at `i` (`\d{n}`). */
  predicate DigitsAt(s: string, i: nat, n: nat)
  {
    i + n <= |s| && forall j | i <= j < i + n :: IsDigit(s[j])
  }

  /** `pat` occurs in `s` starting at index `k`. */
  predicate OccursAt(s: string, pat: string, k: int)
  {
    0 <= k && k + |pat| <= |s| && s[k..k + |pat|] == pat
  }

  /** The least index at or after `from` where `pat` occurs in `s` (`s.find(pat, from)`). */
  function IndexFrom(s: string, pat: string, from: nat): (r: Option<nat>)
    ensures r.Some? ==> from <= r.value && OccursAt(s, pat, r.value)
    ensures r.Some? ==> forall k | from <= k < r.value :: !OccursAt(s, pat, k)
    ensures r.None? ==> forall k | from <= k :: !OccursAt(s, pat, k)
    decreases |s| - from
  {
    if from + |pat| > |s| then None
    else if s[from..from + |pat|] == pat then Some(from)
    else IndexFrom(s, pat, from + 1)
  }

  /** Python's `pat in s`. */
  predicate Contains(s: string, pat: string)
  {
    IndexFrom(s, pat, 0).Some?
  }

  /** Python's `pat.lower() in s.lower()`. */
  predicate ContainsIgnoreCase(s: string, pat: string)
  {
    Contains(Lower(s), Lower(pat))
  }

  lemma ContainsIff(s: string, pat: string)
    ensures Contains(s, pat) <==> exists k :: OccursAt(s, pat, k)
  {
    if !Contains(s, pat) {
      assert forall k | 0 <= k :: !OccursAt(s, pat, k);
    }
  }

  /** `sep.join(xs)`. */
  function Join(sep: string, xs: seq<string>): string
  {
    if |xs| == 0 then "" else if |xs| == 1 then xs[0] else xs[0] + sep + Join(sep, xs[1..])
  }

  /** A joined text is empty exactly when there is at most one part and that part is empty:
      `" ".join([])` and `" ".join([""])` are empty, `" ".join(["", ""])` is a space. */
  lemma {:induction false} JoinEmptyIff(sep: string, xs: seq<string>)
    requires |sep| > 0
    ensures Join(sep, xs) == "" <==> (|xs| == 0 || (|xs| == 1 && xs[0] == ""))
  {
    if |xs| > 1 {
      assert |Join(sep, xs)| >= |sep|;
    }
  }

  lemma {:induction false} JoinAppend(sep: string, xs: seq<string>, x: string)
    ensures Join(sep, xs + [x]) == if |xs| == 0 then x else Join(sep, xs) + sep + x
  {
    if |xs| > 1 {
      assert (xs + [x])[1..] == xs[1..] + [x];
      JoinAppend(sep, xs[1..], x);
    } else if |xs| == 1 {
      assert (xs + [x])[1..] == [x];
    }
  }

  /** `s.split(sep)` for a non-empty separator: the pieces between the leftmost
      non-overlapping occurrences of `sep`. */
  function Split(s: string, sep: string): (parts: seq<string>)
    requires |sep| > 0
    ensures |parts| >= 1
    ensures forall k | 0 <= k < |parts| :: !Contains(parts[k], sep)
    decreases |s|
  {
    match IndexFrom(s, sep, 0)
    case None => [s]
    case Some(i) =>
      assert !Contains(s[..i], sep) by {
        forall k | 0 <= k ensures !OccursAt(s[..i], sep, k) {
          if OccursAt(s[..i], sep, k) {
            assert s[k..k + |sep|] == s[..i][k..k + |sep|];
            assert OccursAt(s, sep, k);
          }
        }
      }
      [s[..i]] + Split(s[i + |sep|..], sep)
  }

  /** Joining the pieces of a split with the same separator gives back the text. */
  lemma {:induction false} JoinSplit(s: string, sep: string)
    requires |sep| > 0
    ensures Join(sep, Split(s, sep)) == s
    decreases |s|
  {
    match IndexFrom(s, sep, 0)
    case None =>
    case Some(i) =>
      var rest := Split(s[i + |sep|..], sep);
      JoinSplit(s[i + |sep|..], sep);
      assert Split(s, sep) == [s[..i]] + rest;
      assert (s[..i] + sep) + s[i + |sep|..] == s;
  }

  /** `s.replace(pat, rep)`: leftmost non-overlapping occurrences of `pat` are replaced. */
  function ReplaceAll(s: string, pat: string, rep: string): string
    requires |pat| > 0
    decreases |s|
  {
    if |s| < |pat| then s
    else if s[..|pat|] == pat then rep + ReplaceAll(s[|pat|..], pat, rep)
    else [s[0]] + ReplaceAll(s[1..], pat, rep)
  }

  /** A text in which `pat` does not occur is left as it is. */
  lemma {:induction false} ReplaceAllAbsent(s: string, pat: string, rep: string)
    requires |pat| > 0 && !Contains(s, pat)
    ensures ReplaceAll(s, pat, rep) == s
    decreases |s|
  {
    ContainsIff(s, pat);
    if |s| >= |pat| {
      assert !OccursAt(s, pat, 0);
      assert !Contains(s[1..], pat) by {
        ContainsIff(s[1..], pat);
        if Contains(s[1..], pat) {
          var k :| OccursAt(s[1..], pat, k);
          assert s[k + 1..k + 1 + |pat|] == s[1..][k..k + |pat|];
          assert OccursAt(s, pat, k + 1);
        }
      }
      ReplaceAllAbsent(s[1..], pat, rep);
      assert [s[0]] + s[1..] == s;
    }
  }

  /** `s.replace(a, b)` for single characters. */
  function ReplaceChar(s: string, a: char, b: char): (r: string)
    ensures |r| == |s|
    ensures forall i | 0 <= i < |s| :: r[i] == (if s[i] == a then b else s[i])
  {
    seq(|s|, i requires 0 <= i < |s| => if s[i] == a then b else s[i])
  }

  /** `s.replace(c, "")`. */
  function RemoveChar(s: string, c: char): (r: string)
    ensures c !in r
    ensures |r| <= |s|
  {
    if s == [] then [] else (if s[0] == c then [] else [s[0]]) + RemoveChar(s[1..], c)
  }

  lemma {:induction false} RemoveCharAppend(a: string, b: string, c: char)
    ensures RemoveChar(a + b, c) == RemoveChar(a, c) + RemoveChar(b, c)
  {
    if a != [] {
      assert (a + b)[1..] == a[1..] + b;
      RemoveCharAppend(a[1..], b, c);
    } else {
      assert a + b == b;
    }
  }

  lemma {:induction false} RemoveCharAbsent(s: string, c: char)
    requires c !in s
    ensures RemoveChar(s, c) == s
  {
    if s != [] {
      RemoveCharAbsent(s[1..], c);
    }
  }

  /** Removing the spaces of two words joined by one space gives the words run together. */
  lemma RemoveSpaceJoin(s: string, a: string, b: string)
    requires ' ' !in a && ' ' !in b && s == a + " " + b
    ensures RemoveChar(s, ' ') == a + b
  {
    var sp: string := [' '];
    assert s == (a + sp) + b;
    RemoveCharAppend(a + sp, b, ' ');
    RemoveCharAppend(a, sp, ' ');
    assert RemoveChar(sp, ' ') == [] by {
      assert sp[1..] == [];
    }
    RemoveCharAbsent(a, ' ');
    RemoveCharAbsent(b, ' ');
    assert a + [] == a;
  }

  function StripStart(s: string): (r: string)
    ensures |r| <= |s| && r == s[|s| - |r|..]
    ensures r == [] || !IsSpace(r[0])
    ensures forall k | 0 <= k < |s| - |r| :: IsSpace(s[k])
  {
    if |s| > 0 && IsSpace(s[0]) then StripStart(s[1..]) else s
  }

  function StripEnd(s: string): (r: string)
    ensures |r| <= |s| && r == s[..|r|]
    ensures r == [] || !IsSpace(r[|r| - 1])
    ensures forall k | |r| <= k < |s| :: IsSpace(s[k])
  {
    if |s| > 0 && IsSpace(s[|s| - 1]) then StripEnd(s[..|s| - 1]) else s
  }

  /** `s.strip()`: the text without its leading and trailing whitespace. */
  function Strip(s: string): (r: string)
    ensures r == [] || (!IsSpace(r[0]) && !IsSpace(r[|r| - 1]))
  {
    StripEnd(StripStart(s))
  }

  /** A text that neither starts nor ends with whitespace strips to itself. */
  lemma StripKeeps(s: string)
    requires |s| > 0 && !IsSpace(s[0]) && !IsSpace(s[|s| - 1])
    ensures Strip(s) == s
  {
  }

  /** `r` sits at index `i` of `s` with only whitespace around it. */
  ghost predicate StrippedAt(s: string, r: string, i: int)
  {
    0 <= i && i + |r| <= |s| && r == s[i..i + |r|]
    && (forall k | 0 <= k < i :: IsSpace(s[k]))
    && (forall k | i + |r| <= k < |s| :: IsSpace(s[k]))
  }

  /** A text made only of whitespace strips to the empty text, and back. */
  lemma StripEmptyIff(s: string)
    ensures Strip(s) == "" <==> forall k | 0 <= k < |s| :: IsSpace(s[k])
  {
  }

  /** `str(n)` for a natural number. */
  function NatToString(n: nat): (r: string)
    ensures |r| > 0 && AllDigits(r)
    ensures |r| > 1 ==> r[0] != '0'
  {
    if n < 10 then [DigitChar(n)] else NatToString(n / 10) + [DigitChar(n % 10)]
  }

  function DigitChar(d: nat): (c: char)
    requires d < 10
    ensures IsDigit(c)
  {
    ('0' as int + d) as char
  }

  lemma {:induction false} NatToStringInjective(m: nat, n: nat)
    requires NatToString(m) == NatToString(n)
    ensures m == n
  {
    var a, b := NatToString(m), NatToString(n);
    if m < 10 || n < 10 {
      assert a[0] == b[0];
    } else {
      assert a[..|a| - 1] == NatToString(m / 10);
      assert b[..|b| - 1] == NatToString(n / 10);
      NatToStringInjective(m / 10, n / 10);
      assert a[|a| - 1] == b[|b| - 1];
    }
  }

  /** Python's `os.path.splitext(name)[0]` for a base name: everything before the last `.`,
      unless that dot is only preceded by dots (a leading-dot name has no extension). */
  function Stem(name: string): (r: string)
    ensures r == name || (exists d :: 0 < d < |name| && name[d] == '.' && r == name[..d])
  {
    match LastIndexOf(name, '.')
    case None => name
    case Some(d) => if exists k | 0 <= k < d :: name[k] != '.' then name[..d] else name
  }

  /** The greatest index holding `c`. */
  function LastIndexOf(s: string, c: char): (r: Option<nat>)
    ensures r.Some? ==> r.value < |s| && s[r.value] == c && forall k | r.value < k < |s| :: s[k] != c
    ensures r.None? ==> c !in s
  {
    if s == [] then None
    else if s[|s| - 1] == c then Some(|s| - 1)
    else LastIndexOf(s[..|s| - 1], c)
  }

  /** The last occurrence of `c` is the one with no `c` after it. */
  lemma LastIndexOfIs(s: string, c: char, i: nat)
    requires i < |s| && s[i] == c && forall k | i < k < |s| :: s[k] != c
    ensures LastIndexOf(s, c) == Some(i)
  {
  }

  /** `s.endswith(suffix)`. */
  predicate EndsWith(s: string, suffix: string)
  {
    |suffix| <= |s| && s[|s| - |suffix|..] == suffix
  }

  /** `[f for f in os.listdir(d) if f.lower().endswith(ext)]`, each name paired with what the
      file holds, in directory order. */
  function WithExtension<T>(files: seq<(string, T)>, ext: string): seq<(string, T)>
  {
    if files == [] then []
    else
      var last := files[|files| - 1];
      WithExtension(files[..|files| - 1], ext) + (if EndsWith(Lower(last.0), ext) then [last] else [])
  }

  /** The files kept are exactly the files whose name ends in `ext`, in any letter case. */
  lemma {:induction false} WithExtensionIn<T>(files: seq<(string, T)>, ext: string)
    ensures forall f :: f in WithExtension(files, ext) <==> f in files && EndsWith(Lower(f.0), ext)
  {
    if files != [] {
      WithExtensionIn(files[..|files| - 1], ext);
      assert files == files[..|files| - 1] + [files[|files| - 1]];
    }
  }

  /** The least index in `[k, n)` at which `p` holds: where a regular-expression search, which
      tries each start position from the left, finds its first match. */
  function FirstIndex(p: nat -> bool, k: nat, n: nat): (r: Option<nat>)
    ensures r.Some? ==> k <= r.value < n && p(r.value)
    ensures r.Some? ==> forall i | k <= i < r.value :: !p(i)
    ensures r.None? ==> forall i | k <= i < n :: !p(i)
    decreases n - k
  {
    if k >= n then None else if p(k) then Some(k) else FirstIndex(p, k + 1, n)
  }

  /** Every slice of `s` occurs in `s`. */
  lemma SliceContained(s: string, i: nat, j: nat)
    requires i <= j <= |s|
    ensures Contains(s, s[i..j])
  {
    assert OccursAt(s, s[i..j], i);
    ContainsIff(s, s[i..j]);
  }

  /** A slice of a slice is a slice of the whole. */
  lemma SliceOfSlice(s: string, i: nat, j: nat, a: nat, b: nat)
    requires i <= j <= |s| && a <= b <= j - i
    ensures s[i..j][a..b] == s[i + a..i + b]
  {
    var t := s[i..j][a..b];
    assert forall k | 0 <= k < b - a :: t[k] == s[i + a + k];
  }

  /** The stripped text sits at index `o` of the text with only whitespace around it. */
  lemma StripOffset(x: string) returns (o: nat)
    ensures StrippedAt(x, Strip(x), o)
  {
    var a := StripStart(x);
    o := |x| - |a|;
  }

  /** A slice of `s` with its surrounding whitespace stripped still occurs in `s`. */
  lemma StripContained(s: string, i: nat, j: nat)
    requires i <= j <= |s|
    ensures Contains(s, Strip(s[i..j]))
  {
    var x := s[i..j];
    var r := Strip(x);
    var o := StripOffset(x);
    SliceOfSlice(s, i, j, o, o + |r|);
    assert r == s[i + o..i + o + |r|];
    assert OccursAt(s, r, i + o);
    ContainsIff(s, r);
  }

  /** No value occurs twice. */
  predicate NoRepeats<T(==)>(xs: seq<T>)
  {
    forall i, j | 0 <= i < j < |xs| :: xs[i] != xs[j]
  }

  /** Python's `list(set(xs))`: each distinct value once, in the unspecified order in which
      the set yields them. */
  method ListOfSet<T(==)>(xs: seq<T>) returns (ys: seq<T>)
    ensures forall x :: x in ys <==> x in xs
    ensures NoRepeats(ys)
  {
    var pool := set x | x in xs;
    ys := [];
    while pool != {}
      invariant pool <= set x | x in xs
      invariant forall x :: x in ys <==> x in xs && x !in pool
      invariant NoRepeats(ys)
      decreases |pool|
    {
      var x :| x in pool;
      ys := ys + [x];
      pool := pool - {x};
    }
  }
}
