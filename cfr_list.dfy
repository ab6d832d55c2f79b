/** The CFR list builder (src/preprocessing/5_cfr_data.py, and its copy src/run/5_cfr_data.py,
    which differs only in its output path and an unused input path): every CFR cell of the
    report table is split at its commas, each piece is stripped, and the distinct pieces
    become the rows of a two-column table whose description column starts empty. */
module CfrList {
  import opened Text

  /** `[c.strip() for c in val.split(",")]`. */
  function Tokens(val: string): (ts: seq<string>)
    ensures |ts| == |Split(val, ",")|
  {
    var parts := Split(val, ",");
    seq(|parts|, i requires 0 <= i < |parts| => Strip(parts[i]))
  }

  /** `all_cfr`: the tokens of every present cell, in table order; `dropna()` skips the
      missing cells. */
  function AllTokens(cells: seq<Option<string>>): seq<string>
    decreases |cells|
  {
    if cells == [] then []
    else
      var last := cells[|cells| - 1];
      AllTokens(cells[..|cells| - 1]) + (if last.Some? then Tokens(last.value) else [])
  }

  /** The first loop of the script: `all_cfr.extend(items)` for each present cell. */
  method CollectCfr(cells: seq<Option<string>>) returns (all: seq<string>)
    ensures all == AllTokens(cells)
  {
    all := [];
    assert cells[..0] == [];
    for i := 0 to |cells|
      invariant all == AllTokens(cells[..i])
    {
      assert cells[..i + 1][..i] == cells[..i];
      if cells[i].Some? {
        var items := Tokens(cells[i].value);
        all := all + items;
      }
    }
    assert cells[..|cells|] == cells;
  }

  /** One row of the CFR table. */
  datatype CfrRow = CfrRow(cfr: string, content: string)

  /** The whole script on the CFR column `cells`: the rows of the table it writes. */
  method BuildCfrTable(cells: seq<Option<string>>) returns (rows: seq<CfrRow>)
    ensures forall x :: (exists i | 0 <= i < |rows| :: rows[i].cfr == x) <==> x in AllTokens(cells)
    ensures forall i, j | 0 <= i < j < |rows| :: rows[i].cfr != rows[j].cfr
    ensures forall i | 0 <= i < |rows| :: rows[i].content == ""
  {
    var all := CollectCfr(cells);
    var unique := ListOfSet(all);
    var contents := seq(|unique|, _ => "");
    rows := seq(|unique|, i requires 0 <= i < |unique| => CfrRow(unique[i], contents[i]));
    assert forall i | 0 <= i < |rows| :: rows[i].cfr == unique[i];
  }

  /** A token is in the list exactly when it is a stripped piece of some present cell. */
  lemma {:induction false} AllTokensSpec(cells: seq<Option<string>>)
    ensures forall x :: x in AllTokens(cells) <==>
      exists i | 0 <= i < |cells| :: cells[i].Some? && x in Tokens(cells[i].value)
    decreases |cells|
  {
    if cells != [] {
      var init := cells[..|cells| - 1];
      AllTokensSpec(init);
      assert forall i | 0 <= i < |init| :: init[i] == cells[i];
    }
  }

  /** Every token is stripped and holds no comma, and the tokens are the stripped pieces of
      the cell between its commas. */
  lemma TokensClean(val: string)
    ensures forall t | t in Tokens(val) :: ',' !in t && (t == "" || (!IsSpace(t[0]) && !IsSpace(t[|t| - 1])))
    ensures Join(",", Split(val, ",")) == val
  {
    var parts := Split(val, ",");
    forall k | 0 <= k < |parts| ensures ',' !in Strip(parts[k]) {
      var o := StripOffset(parts[k]);
      NoCommaIn(parts[k]);
      var r := Strip(parts[k]);
      assert r == parts[k][o..o + |r|];
    }
    JoinSplit(val, ",");
  }

  /** A piece without the separator `","` holds no comma. */
  lemma NoCommaIn(p: string)
    requires !Contains(p, ",")
    ensures ',' !in p
  {
    if ',' in p {
      var k :| 0 <= k < |p| && p[k] == ',';
      assert p[k..k + 1] == ",";
      assert OccursAt(p, ",", k);
      ContainsIff(p, ",");
    }
  }

  /** The first piece of a cell with a comma is stripped before the tokens of the rest. */
  lemma TokensCons(val: string, i: nat)
    requires IndexFrom(val, ",", 0) == Some(i)
    ensures Tokens(val) == [Strip(val[..i])] + Tokens(val[i + 1..])
  {
    var rest := Split(val[i + 1..], ",");
    assert Split(val, ",") == [val[..i]] + rest;
    var r := [Strip(val[..i])] + Tokens(val[i + 1..]);
    assert forall k | 0 <= k < |r| :: Tokens(val)[k] == r[k];
  }

  /** A cell ending in a comma contributes an empty token. */
  lemma {:induction false} TrailingComma(val: string)
    requires |val| > 0 && val[|val| - 1] == ','
    ensures "" in Tokens(val)
    decreases |val|
  {
    assert OccursAt(val, ",", |val| - 1);
    var i := IndexFrom(val, ",", 0).value;
    TokensCons(val, i);
    var rest := val[i + 1..];
    if rest == [] {
      assert Tokens(rest) == [""] by {
        assert Split(rest, ",") == [""];
      }
      assert Tokens(val)[1] == "";
    } else {
      assert rest[|rest| - 1] == ',';
      TrailingComma(rest);
      var m :| 0 <= m < |Tokens(rest)| && Tokens(rest)[m] == "";
      assert Tokens(val)[m + 1] == "";
    }
  }

  /** A cell with two commas in a row contributes an empty token. */
  lemma {:induction false} DoubleComma(val: string, k: nat)
    requires k + 1 < |val| && val[k] == ',' && val[k + 1] == ','
    ensures "" in Tokens(val)
    decreases |val|
  {
    assert OccursAt(val, ",", k);
    var i := IndexFrom(val, ",", 0).value;
    var rest := val[i + 1..];
    assert "" in Tokens(rest) by {
      if i == k {
        LeadingComma(rest);
      } else {
        assert rest[k - i - 1] == ',' && rest[k - i] == ',';
        DoubleComma(rest, k - i - 1);
      }
    }
    TokensCons(val, i);
  }

  /** A cell starting with a comma starts with an empty token. */
  lemma LeadingComma(val: string)
    requires |val| > 0 && val[0] == ','
    ensures Tokens(val)[0] == ""
  {
    assert Split(val, ",")[0] == "" by {
      assert IndexFrom(val, ",", 0) == Some(0) by {
        assert OccursAt(val, ",", 0);
      }
      assert val[..0] == [];
    }
  }
}
