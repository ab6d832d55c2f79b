/** The line-oriented reader of Licensee Event Report texts (src/run/2_text_to_df.py): each
    text file becomes one row of six fields found by searching its cleaned lines for the
    numbered headings of the report form. */
module LerText {
  import opened Text

  /** `keyword.lower() in l.lower()`. */
  predicate Mentions(l: string, kw: string)
  {
    ContainsIgnoreCase(l, kw)
  }

  /** `find_line` from index `from`: the least index at or after `from` whose line mentions
      `kw`, in any letter case. */
  function FindFrom(lines: seq<string>, kw: string, from: nat): (r: Option<nat>)
    ensures r.Some? ==> from <= r.value < |lines| && Mentions(lines[r.value], kw)
    ensures r.Some? ==> forall i | from <= i < r.value :: !Mentions(lines[i], kw)
    ensures r.None? ==> forall i | from <= i < |lines| :: !Mentions(lines[i], kw)
    decreases |lines| - from
  {
    if from >= |lines| then None
    else if Mentions(lines[from], kw) then Some(from)
    else FindFrom(lines, kw, from + 1)
  }

  /** `find_line(keyword, lines)`. */
  method FindLine(kw: string, lines: seq<string>) returns (r: Option<nat>)
    ensures r == FindFrom(lines, kw, 0)
  {
    for i := 0 to |lines|
      invariant FindFrom(lines, kw, 0) == FindFrom(lines, kw, i)
    {
      if ContainsIgnoreCase(lines[i], kw) {
        return Some(i);
      }
    }
    return None;
  }

  /** How a section ends: at a line mentioning `kw` in any case (`extract_multi_line_section`)
      or at a line containing `kw` exactly (`extract_abstract`, `extract_narrative`). */
  datatype Stop = AnyCase(kw: string) | ExactCase(kw: string)

  predicate Stops(l: string, stop: Stop)
  {
    match stop
    case AnyCase(kw) => Mentions(l, kw)
    case ExactCase(kw) => Contains(l, kw)
  }

  /** The lines from `from` up to, not including, the first line that ends the section: the
      longest run of lines there of which none ends it. */
  function Collect(lines: seq<string>, from: nat, stop: Stop): seq<string>
    requires from <= |lines|
    decreases |lines| - from
  {
    if from == |lines| || Stops(lines[from], stop) then []
    else [lines[from]] + Collect(lines, from + 1, stop)
  }

  /** The `n` lines from `from` on are a run that does not end the section, and the line
      after them, if any, ends it. */
  ghost predicate Run(lines: seq<string>, from: nat, n: nat, stop: Stop)
  {
    && from + n <= |lines|
    && (forall j | from <= j < from + n :: !Stops(lines[j], stop))
    && (from + n < |lines| ==> Stops(lines[from + n], stop))
  }

  /** The collected lines are the run of `n` lines from `from` on. */
  lemma {:induction false} CollectSpec(lines: seq<string>, from: nat, stop: Stop) returns (n: nat)
    requires from <= |lines|
    ensures n == |Collect(lines, from, stop)| && Run(lines, from, n, stop)
    ensures Collect(lines, from, stop) == lines[from..from + n]
    decreases |lines| - from
  {
    if from < |lines| && !Stops(lines[from], stop) {
      var m := CollectSpec(lines, from + 1, stop);
      n := m + 1;
      assert lines[from..from + n] == [lines[from]] + lines[from + 1..from + 1 + m];
    } else {
      n := 0;
    }
  }

  /** `" ".join(extracted).strip() if extracted else "Not Found"`. */
  function SectionText(c: seq<string>): string
  {
    if c == [] then NotFound else Strip(Join(" ", c))
  }

  /** A section: the lines after the first line mentioning `start`, up to the line that ends
      it; the start line itself is never tested against the end. */
  function Section(lines: seq<string>, start: string, stop: Stop): string
  {
    match FindFrom(lines, start, 0)
    case None => NotFound
    case Some(i) => SectionText(Collect(lines, i + 1, stop))
  }

  /** The loop that appends lines from `from` until one ends the section. */
  method CollectLines(lines: seq<string>, from: nat, stop: Stop) returns (c: seq<string>)
    requires from <= |lines|
    ensures c == Collect(lines, from, stop)
  {
    c := [];
    var i := from;
    while i < |lines|
      invariant from <= i <= |lines|
      invariant c + Collect(lines, i, stop) == Collect(lines, from, stop)
      decreases |lines| - i
    {
      if Stops(lines[i], stop) {
        CollectEnds(lines, from, i, stop, c);
        return;
      }
      CollectNext(lines, from, i, stop, c);
      c := c + [lines[i]];
      i := i + 1;
    }
  }

  /** One more line that does not end the section joins it. */
  lemma CollectNext(lines: seq<string>, from: nat, i: nat, stop: Stop, c: seq<string>)
    requires from <= i < |lines| && !Stops(lines[i], stop)
    requires c + Collect(lines, i, stop) == Collect(lines, from, stop)
    ensures (c + [lines[i]]) + Collect(lines, i + 1, stop) == Collect(lines, from, stop)
  {
    assert c + ([lines[i]] + Collect(lines, i + 1, stop)) == (c + [lines[i]]) + Collect(lines, i + 1, stop);
  }

  /** A line that ends the section closes it. */
  lemma CollectEnds(lines: seq<string>, from: nat, i: nat, stop: Stop, c: seq<string>)
    requires from <= i < |lines| && Stops(lines[i], stop)
    requires c + Collect(lines, i, stop) == Collect(lines, from, stop)
    ensures c == Collect(lines, from, stop)
  {
    assert c + [] == c;
  }

  /** `extract_multi_line_section(lines, start_keyword, stop_keyword)`. */
  method ExtractMultiLineSection(lines: seq<string>, start: string, stop: string) returns (r: string)
    ensures r == Section(lines, start, AnyCase(stop))
  {
    var i := FindLine(start, lines);
    if i.None? {
      return NotFound;
    }
    var c := CollectLines(lines, i.value + 1, AnyCase(stop));
    r := if c != [] then Strip(Join(" ", c)) else NotFound;
  }

  /** `extract_abstract(lines)` (after "16. Abstract", up to a line containing "NRC FORM") and
      `extract_narrative(lines)` (after "NARRATIVE", up to a line containing "NRC FORM 366A"):
      the section after `heading`, ended by a line that contains `stop` in capitals. */
  method ExtractCapsSection(lines: seq<string>, heading: string, stop: string) returns (r: string)
    ensures r == Section(lines, heading, ExactCase(stop))
  {
    var i := FindLine(heading, lines);
    if i.None? {
      return NotFound;
    }
    var c := CollectLines(lines, i.value + 1, ExactCase(stop));
    r := if c != [] then Strip(Join(" ", c)) else NotFound;
  }

  /** Where the group `[0-9]+\.[0-9]+\(a\)\(\d+\)\(iv\)\([A-Za-z]+\)` starting at `i` ends, if it
      matches there. No class can take the character that follows it, so the greedy runs
      never give anything back. */
  function CfrGroupEnd(s: string, i: nat): Option<nat>
    requires i <= |s|
  {
    var a := Span(s, i, Digit);
    if a == i || !OccursAt(s, ".", a) then None
    else
      var b := Span(s, a + 1, Digit);
      if b == a + 1 || !OccursAt(s, "(a)(", b) then None
      else
        var c := Span(s, b + 4, Digit);
        if c == b + 4 || !OccursAt(s, ")(iv)(", c) then None
        else
          var d := Span(s, c + 6, Letter);
          if d == c + 6 || !OccursAt(s, ")", d) then None
          else Some(d + 1)
  }

  /** The captured group of `/\s*(...)` when the pattern matches at `k`. */
  function CfrAt(s: string, k: nat): Option<string>
  {
    if k < |s| && s[k] == '/' then
      var i := Span(s, k + 1, Space);
      match CfrGroupEnd(s, i)
      case None => None
      case Some(e) => Some(s[i..e])
    else None
  }

  /** `cfr_pattern.search(s)` from `k` on: the group of the leftmost match. */
  function CfrSearch(s: string, k: nat): (r: Option<string>)
    decreases |s| - k
  {
    if k >= |s| then None
    else if CfrAt(s, k).Some? then CfrAt(s, k)
    else CfrSearch(s, k + 1)
  }

  /** A match of the group reads, from `i`: digits up to `a`, a `.`, digits up to `b`, `(a)(`,
      digits up to `c`, `)(iv)(`, letters up to `d` and a closing `)`; every run is non-empty,
      so the group is at least fourteen characters long. */
  lemma CfrGroupShape(s: string, i: nat) returns (a: nat, b: nat, c: nat, d: nat)
    requires i <= |s| && CfrGroupEnd(s, i).Some?
    ensures i < a && a + 1 < b && b + 4 < c && c + 6 < d < |s|
    ensures CfrGroupEnd(s, i) == Some(d + 1)
    ensures (forall j | i <= j < a :: IsDigit(s[j])) && OccursAt(s, ".", a)
    ensures (forall j | a + 1 <= j < b :: IsDigit(s[j])) && OccursAt(s, "(a)(", b)
    ensures (forall j | b + 4 <= j < c :: IsDigit(s[j])) && OccursAt(s, ")(iv)(", c)
    ensures (forall j | c + 6 <= j < d :: IsAsciiLetter(s[j])) && OccursAt(s, ")", d)
  {
    a := Span(s, i, Digit);
    b := Span(s, a + 1, Digit);
    c := Span(s, b + 4, Digit);
    d := Span(s, c + 6, Letter);
  }

  /** A captured citation is the group that follows the `/` at `k` and the spaces after it,
      at the returned index `i`; `CfrGroupShape` describes what it holds. */
  lemma CfrAtShape(s: string, k: nat) returns (i: nat)
    requires CfrAt(s, k).Some?
    ensures var g := CfrAt(s, k).value;
      && s[k] == '/' && k < i && i + |g| <= |s| && (forall j | k < j < i :: IsSpace(s[j]))
      && CfrGroupEnd(s, i) == Some(i + |g|) && g == s[i..i + |g|]
  {
    i := Span(s, k + 1, Space);
  }

  /** `extract_cfr` from line `i` on: the group of the first line that has a match. */
  function CfrFrom(lines: seq<string>, i: nat): string
    decreases |lines| - i
  {
    if i >= |lines| then NotFound
    else match CfrSearch(lines[i], 0)
      case Some(g) => g
      case None => CfrFrom(lines, i + 1)
  }

  /** `extract_cfr(lines)`: the search starts at the "11. This Report is Submitted Pursuant"
      line itself. */
  function Cfr(lines: seq<string>): string
  {
    match FindFrom(lines, "11. This Report is Submitted Pursuant", 0)
    case None => NotFound
    case Some(i) => CfrFrom(lines, i)
  }

  /** `extract_cfr(lines)`. */
  method ExtractCfr(lines: seq<string>) returns (r: string)
    ensures r == Cfr(lines)
  {
    var start := FindLine("11. This Report is Submitted Pursuant", lines);
    if start.None? {
      return NotFound;
    }
    for i := start.value to |lines|
      invariant CfrFrom(lines, start.value) == CfrFrom(lines, i)
    {
      var cm := CfrSearch(lines[i], 0);
      if cm.Some? {
        return cm.value;
      }
    }
    return NotFound;
  }

  /** Where `(?:\s*-?\s*)` starting at `i` ends. What follows it must be a digit, which
      neither part can take, so the greedy reading is the only one that can succeed. */
  function Gap(s: string, i: nat): (j: nat)
    requires i <= |s|
    ensures i <= j <= |s|
  {
    var a := Span(s, i, Space);
    var b := if a < |s| && s[a] == '-' then a + 1 else a;
    Span(s, b, Space)
  }

  /** The six groups of the date-and-number pattern: month, day and year of the event, then
      the three parts of the report number. */
  datatype DateMatch = DateMatch(mm: string, dd: string, yyyy: string, unit: string, seqNo: string, rev: string)

  /** `\b(\d{2})\s+(\d{2})\s+(\d{4})\s+(\d{4})(?:\s*-?\s*)(\d{3})(?:\s*-?\s*)(\d{2})\b` tried at
      `k`. Every repetition is either of fixed length or a greedy run of a class disjoint
      from what follows it, so there is nothing to backtrack into. */
  function DateAt(s: string, k: nat): Option<DateMatch>
  {
    if !(k <= |s| && (k == 0 || !IsWordChar(s[k - 1])) && DigitsAt(s, k, 2)) then None
    else
      var p1 := Span(s, k + 2, Space);
      if p1 == k + 2 || !DigitsAt(s, p1, 2) then None
      else
        var p2 := Span(s, p1 + 2, Space);
        if p2 == p1 + 2 || !DigitsAt(s, p2, 4) then None
        else
          var p3 := Span(s, p2 + 4, Space);
          if p3 == p2 + 4 || !DigitsAt(s, p3, 4) then None
          else
            var p4 := Gap(s, p3 + 4);
            if !DigitsAt(s, p4, 3) then None
            else
              var p5 := Gap(s, p4 + 3);
              if !DigitsAt(s, p5, 2) || (p5 + 2 < |s| && IsWordChar(s[p5 + 2])) then None
              else Some(DateMatch(s[k..k + 2], s[p1..p1 + 2], s[p2..p2 + 4], s[p3..p3 + 4], s[p4..p4 + 3], s[p5..p5 + 2]))
  }

  /** `date_ler_pattern.search(s)` from `k` on: the leftmost match. */
  function DateSearch(s: string, k: nat): Option<DateMatch>
    decreases |s| - k
  {
    if k >= |s| then None
    else if DateAt(s, k).Some? then DateAt(s, k)
    else DateSearch(s, k + 1)
  }

  /** The groups are digit strings of lengths 2, 2, 4, 4, 3 and 2. */
  predicate Shaped(m: DateMatch)
  {
    && |m.mm| == 2 && |m.dd| == 2 && |m.yyyy| == 4 && |m.unit| == 4 && |m.seqNo| == 3 && |m.rev| == 2
    && AllDigits(m.mm) && AllDigits(m.dd) && AllDigits(m.yyyy)
    && AllDigits(m.unit) && AllDigits(m.seqNo) && AllDigits(m.rev)
  }

  /** Every match the pattern finds has the shape of its groups. */
  lemma DateAtShape(s: string, k: nat)
    requires DateAt(s, k).Some?
    ensures Shaped(DateAt(s, k).value)
  {
  }

  /** The leftmost match, like every match, has that shape. */
  lemma {:induction false} DateSearchShape(s: string, k: nat)
    requires DateSearch(s, k).Some?
    ensures Shaped(DateSearch(s, k).value)
    decreases |s| - k
  {
    if DateAt(s, k).Some? {
      DateAtShape(s, k);
    } else {
      DateSearchShape(s, k + 1);
    }
  }

  /** `f"{mm}-{dd}-{yyyy}"`. */
  function EventDate(m: DateMatch): string
  {
    m.mm + "-" + m.dd + "-" + m.yyyy
  }

  /** `f"{m.group(4)}-{m.group(5)}-{m.group(6)}"`. */
  function LerNumber(m: DateMatch): string
  {
    m.unit + "-" + m.seqNo + "-" + m.rev
  }

  /** An event date reads `MM-DD-YYYY`: ten characters, digits except for the dashes at
      positions 2 and 5. */
  lemma EventDateShape(m: DateMatch)
    requires Shaped(m)
    ensures var d := EventDate(m);
      && |d| == 10 && d[2] == '-' && d[5] == '-'
      && forall i | 0 <= i < 10 && i != 2 && i != 5 :: IsDigit(d[i])
  {
    var d := EventDate(m);
    forall i | 0 <= i < 10 && i != 2 && i != 5 ensures IsDigit(d[i]) {
      if i < 2 { assert d[i] == m.mm[i]; }
      else if i < 5 { assert d[i] == m.dd[i - 3]; }
      else { assert d[i] == m.yyyy[i - 6]; }
    }
  }

  /** A report number reads `NNNN-NNN-NN`. */
  lemma LerNumberShape(m: DateMatch)
    requires Shaped(m)
    ensures var n := LerNumber(m);
      && |n| == 11 && n[4] == '-' && n[8] == '-'
      && forall i | 0 <= i < 11 && i != 4 && i != 8 :: IsDigit(n[i])
  {
    var n := LerNumber(m);
    forall i | 0 <= i < 11 && i != 4 && i != 8 ensures IsDigit(n[i]) {
      if i < 4 { assert n[i] == m.unit[i]; }
      else if i < 8 { assert n[i] == m.seqNo[i - 5]; }
      else { assert n[i] == m.rev[i - 9]; }
    }
  }

  /** The first line, from `i` on, in which the pattern matches, and its match. */
  function FirstDate(lines: seq<string>, i: nat): Option<DateMatch>
    decreases |lines| - i
  {
    if i >= |lines| then None
    else if DateSearch(lines[i], 0).Some? then DateSearch(lines[i], 0)
    else FirstDate(lines, i + 1)
  }

  /** A first match is some line's first match, and no earlier line has one. */
  lemma {:induction false} FirstDateFound(lines: seq<string>, i: nat)
    requires FirstDate(lines, i).Some?
    ensures exists j | i <= j < |lines| ::
      FirstDate(lines, i) == DateSearch(lines[j], 0) && forall l | i <= l < j :: DateSearch(lines[l], 0).None?
    decreases |lines| - i
  {
    if DateSearch(lines[i], 0).None? {
      FirstDateFound(lines, i + 1);
      var j :| i + 1 <= j < |lines| && FirstDate(lines, i + 1) == DateSearch(lines[j], 0)
        && forall l | i + 1 <= l < j :: DateSearch(lines[l], 0).None?;
      assert FirstDate(lines, i) == DateSearch(lines[j], 0);
    } else {
      assert FirstDate(lines, i) == DateSearch(lines[i], 0);
    }
  }

  /** `line.replace("(cid:9)", " ").strip()`: the tab marker the PDF extractor leaves is
      read as a space and the line is trimmed. */
  function CleanLine(l: string): (r: string)
    ensures r == [] || (!IsSpace(r[0]) && !IsSpace(r[|r| - 1]))
  {
    Strip(ReplaceAll(l, "(cid:9)", " "))
  }

  /** A line without the marker is only trimmed. */
  lemma CleanLinePlain(l: string)
    requires !Contains(l, "(cid:9)")
    ensures CleanLine(l) == Strip(l)
  {
    ReplaceAllAbsent(l, "(cid:9)", " ");
  }

  /** Every line of the file, cleaned. */
  function CleanLines(raw: seq<string>): (lines: seq<string>)
    ensures |lines| == |raw| && forall i | 0 <= i < |raw| :: lines[i] == CleanLine(raw[i])
  {
    seq(|raw|, i requires 0 <= i < |raw| => CleanLine(raw[i]))
  }

  /** The row `process_txt_file` returns; the report number and the CFR citation it also
      extracts are not among its keys. */
  datatype LerRow = LerRow(facility: string, title: string, eventDate: string,
                           abstractText: string, narrative: string, fileName: string)

  /** The facility name: the line after the first "1. Facility Name" line, if there is one. */
  function Facility(lines: seq<string>): string
  {
    match FindFrom(lines, "1. Facility Name", 0)
    case Some(i) => if i + 1 < |lines| then lines[i + 1] else NotFound
    case None => NotFound
  }

  /** The event date of the first line in which the date-and-number pattern matches. */
  function DateOf(lines: seq<string>): string
  {
    match FirstDate(lines, 0)
    case Some(m) => EventDate(m)
    case None => NotFound
  }

  /** `process_txt_file` of the file called `name` whose lines are `raw`. */
  function TxtRow(name: string, raw: seq<string>): LerRow
  {
    var lines := CleanLines(raw);
    LerRow(Facility(lines),
           Section(lines, "4. Title", AnyCase("5. Event Date")),
           DateOf(lines),
           Section(lines, "16. Abstract", ExactCase("NRC FORM")),
           Section(lines, "NARRATIVE", ExactCase("NRC FORM 366A")),
           Stem(name))
  }

  /** `process_txt_file(txt_path)`, with the file's base name and its lines as parameters. */
  method ProcessTxtFile(name: string, raw: seq<string>) returns (row: LerRow)
    ensures row == TxtRow(name, raw)
  {
    var lines := CleanLines(raw);
    var facility := NotFound;
    var eventDate := NotFound;
    var lerNumber := NotFound;
    var fileName := Stem(name);
    var fname := FindLine("1. Facility Name", lines);
    if fname.Some? && fname.value + 1 < |lines| {
      facility := lines[fname.value + 1];
    }
    var title := ExtractMultiLineSection(lines, "4. Title", "5. Event Date");
    var abstractText := ExtractCapsSection(lines, "16. Abstract", "NRC FORM");
    var cfr := ExtractCfr(lines);
    var narrative := ExtractCapsSection(lines, "NARRATIVE", "NRC FORM 366A");
    for i := 0 to |lines|
      invariant FirstDate(lines, 0) == FirstDate(lines, i)
      invariant eventDate == NotFound
    {
      var m := DateSearch(lines[i], 0);
      if m.Some? {
        eventDate := EventDate(m.value);
        lerNumber := LerNumber(m.value);
        break;
      }
    }
    row := LerRow(facility, title, eventDate, abstractText, narrative, fileName);
  }

  /** When some line mentions `start`, the section comes from the first such line `i`: it is
      the text of the `n` lines after it up to the first line that ends the section ("Not
      Found" when there are none). */
  lemma SectionFound(lines: seq<string>, start: string, stop: Stop) returns (i: nat, n: nat)
    requires exists j | 0 <= j < |lines| :: Mentions(lines[j], start)
    ensures i < |lines| && Mentions(lines[i], start)
    ensures forall j | 0 <= j < i :: !Mentions(lines[j], start)
    ensures Run(lines, i + 1, n, stop)
    ensures Section(lines, start, stop) == SectionText(Collect(lines, i + 1, stop))
  {
    i := FirstMention(lines, start);
    SectionAt(lines, start, stop, i);
    n := CollectSpec(lines, i + 1, stop);
  }

  /** Some line mentions `start`, so the search finds the first one. */
  lemma FirstMention(lines: seq<string>, start: string) returns (i: nat)
    requires exists j | 0 <= j < |lines| :: Mentions(lines[j], start)
    ensures FindFrom(lines, start, 0) == Some(i)
    ensures i < |lines| && Mentions(lines[i], start)
    ensures forall j | 0 <= j < i :: !Mentions(lines[j], start)
  {
    i := FindFrom(lines, start, 0).value;
  }

  /** The section after the start line `i`. */
  lemma SectionAt(lines: seq<string>, start: string, stop: Stop, i: nat)
    requires FindFrom(lines, start, 0) == Some(i)
    ensures Section(lines, start, stop) == SectionText(Collect(lines, i + 1, stop))
  {
    var c := Collect(lines, i + 1, stop);
    assert Section(lines, start, stop) == SectionText(c);
  }

  /** When no line mentions `start`, the section is "Not Found". */
  lemma SectionMissing(lines: seq<string>, start: string, stop: Stop)
    requires forall j | 0 <= j < |lines| :: !Mentions(lines[j], start)
    ensures Section(lines, start, stop) == NotFound
  {
    assert FindFrom(lines, start, 0).None?;
  }

  /** A facility name other than "Not Found" is the line right after the first line that
      mentions "1. Facility Name". */
  lemma FacilityFound(lines: seq<string>) returns (i: nat)
    requires Facility(lines) != NotFound
    ensures i + 1 < |lines| && Mentions(lines[i], "1. Facility Name")
    ensures forall j | 0 <= j < i :: !Mentions(lines[j], "1. Facility Name")
    ensures Facility(lines) == lines[i + 1]
  {
    i := FindFrom(lines, "1. Facility Name", 0).value;
  }

  /** The event date is "Not Found" exactly when no line holds the date-and-number pattern,
      and otherwise reads `MM-DD-YYYY`. */
  lemma DateOfShape(lines: seq<string>)
    ensures DateOf(lines) == NotFound <==> forall j | 0 <= j < |lines| :: DateSearch(lines[j], 0).None?
    ensures DateOf(lines) != NotFound ==> var d := DateOf(lines);
      && |d| == 10 && d[2] == '-' && d[5] == '-'
      && forall i | 0 <= i < 10 && i != 2 && i != 5 :: IsDigit(d[i])
  {
    if FirstDate(lines, 0).Some? {
      FirstDateFound(lines, 0);
      var j :| 0 <= j < |lines| && FirstDate(lines, 0) == DateSearch(lines[j], 0)
        && forall l | 0 <= l < j :: DateSearch(lines[l], 0).None?;
      DateSearchShape(lines[j], 0);
      EventDateShape(FirstDate(lines, 0).value);
      assert DateOf(lines)[2] != NotFound[2];
    } else {
      FirstDateNone(lines, 0);
    }
  }

  /** No line from `i` on holds a match when the search finds none. */
  lemma {:induction false} FirstDateNone(lines: seq<string>, i: nat)
    requires FirstDate(lines, i).None?
    ensures forall j | i <= j < |lines| :: DateSearch(lines[j], 0).None?
    decreases |lines| - i
  {
    if i < |lines| {
      FirstDateNone(lines, i + 1);
    }
  }

  /** `f.lower().endswith(".txt")`. */
  predicate IsTxt(name: string)
  {
    EndsWith(Lower(name), ".txt")
  }

  /** The file name of a row is the text file's name without its four-character extension,
      unless nothing but dots precedes that extension. */
  lemma TxtFileName(name: string)
    requires IsTxt(name) && exists k | 0 <= k < |name| - 4 :: name[k] != '.'
    ensures Stem(name) == name[..|name| - 4]
  {
    var d := |name| - 4;
    assert Lower(name)[d] == '.';
    assert name[d] == '.';
    forall k | d < k < |name| ensures name[k] != '.' {
      assert Lower(name)[k] == ".txt"[k - d];
    }
    assert LastIndexOf(name, '.') == Some(d);
  }

  /** The rows of the given text files, in order. */
  function RowsOf(txt: seq<(string, seq<string>)>): (rows: seq<LerRow>)
    ensures |rows| == |txt|
  {
    if txt == [] then [] else RowsOf(txt[..|txt| - 1]) + [TxtRow(txt[|txt| - 1].0, txt[|txt| - 1].1)]
  }

  /** The table `process_all_txt` writes: one row per text file, in directory order. */
  function Rows(files: seq<(string, seq<string>)>): seq<LerRow>
  {
    RowsOf(WithExtension(files, ".txt"))
  }

  /** `process_all_txt(txt_dir, output_csv_path)` with the directory's listing as a
      parameter, returning the table instead of writing it. */
  method ProcessAllTxt(files: seq<(string, seq<string>)>) returns (rows: seq<LerRow>)
    ensures rows == Rows(files)
  {
    var txt := WithExtension(files, ".txt");
    rows := [];
    assert txt[..0] == [];
    for i := 0 to |txt|
      invariant rows == RowsOf(txt[..i])
    {
      var fields := ProcessTxtFile(txt[i].0, txt[i].1);
      assert txt[..i + 1][..i] == txt[..i];
      rows := rows + [fields];
    }
    assert txt[..|txt|] == txt;
  }
}
