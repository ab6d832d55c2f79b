/** `knowledge_graph/7_similarity.py`: weighted incident similarity, the similarity matrix of
    every ordered pair of distinct incidents, and the ranking of the incidents most similar to
    one of them.

    The embedding model is the `Oracle` of `Records`, and `np.argsort` is a parameter that is
    only required to be an ascending sort of the row it is applied to. */
module Similarity {
  import opened Records

  /** The attribute weights, as the dict lists them. */
  type Weights = seq<(string, real)>

  /** The weights the script uses. */
  const DefaultWeights: Weights := [("Event", 0.4), ("Cause", 0.3), ("Influence", 0.2), ("Corrective Actions", 0.1)]

  function Names(ws: Weights): set<string>
  {
    set k | 0 <= k < |ws| :: ws[k].0
  }

  /** The sum over the weights of weight times the similarity of that attribute. */
  function WeightedTotal(sim: Oracle, ws: Weights, d1: Record, d2: Record): real
  {
    if ws == [] then 0.0
    else WeightedTotal(sim, ws[..|ws| - 1], d1, d2) + AttributeSimilarity(sim, ws[|ws| - 1].0, d1, d2) * ws[|ws| - 1].1
  }

  /** The similarity of every weighted attribute, and of no other. */
  function Scores(sim: Oracle, ws: Weights, d1: Record, d2: Record): map<string, real>
  {
    map a | a in Names(ws) :: AttributeSimilarity(sim, a, d1, d2)
  }

  lemma ScoresSnoc(sim: Oracle, ws: Weights, k: nat, d1: Record, d2: Record)
    requires k < |ws|
    ensures Scores(sim, ws[..k + 1], d1, d2) == Scores(sim, ws[..k], d1, d2)[ws[k].0 := AttributeSimilarity(sim, ws[k].0, d1, d2)]
  {
    assert Names(ws[..k + 1]) == Names(ws[..k]) + {ws[k].0} by {
      assert forall l | 0 <= l < k :: ws[..k + 1][l] == ws[..k][l];
      assert ws[..k + 1][k] == ws[k];
    }
  }

  /** `calculate_total_similarity(data1, data2, weights)`: the weighted total, with no
      renormalisation, and the per-attribute scores, keyed by exactly the weighted attributes. */
  method TotalSimilarity(sim: Oracle, d1: Record, d2: Record, ws: Weights) returns (total: real, similarities: map<string, real>)
    ensures total == WeightedTotal(sim, ws, d1, d2)
    ensures similarities == Scores(sim, ws, d1, d2)
    ensures similarities.Keys == Names(ws)
  {
    similarities := map[];
    total := 0.0;
    for k := 0 to |ws|
      invariant total == WeightedTotal(sim, ws[..k], d1, d2)
      invariant similarities == Scores(sim, ws[..k], d1, d2)
    {
      var (attribute, weight) := ws[k];
      var similarity := AttributeSimilarity(sim, attribute, d1, d2);
      similarities := similarities[attribute := similarity];
      total := total + similarity * weight;
      TotalSnoc(sim, ws, k, d1, d2);
      ScoresSnoc(sim, ws, k, d1, d2);
    }
    assert ws[..|ws|] == ws;
    ScoresKeys(sim, ws, d1, d2);
  }

  lemma TotalSnoc(sim: Oracle, ws: Weights, k: nat, d1: Record, d2: Record)
    requires k < |ws|
    ensures WeightedTotal(sim, ws[..k + 1], d1, d2)
         == WeightedTotal(sim, ws[..k], d1, d2) + AttributeSimilarity(sim, ws[k].0, d1, d2) * ws[k].1
  {
    assert ws[..k + 1][..k] == ws[..k];
  }

  lemma ScoresKeys(sim: Oracle, ws: Weights, d1: Record, d2: Record)
    ensures Scores(sim, ws, d1, d2).Keys == Names(ws)
  {
  }

  /** With the script's weights the total is 0.4 Event + 0.3 Cause + 0.2 Influence + 0.1
      Corrective Actions, and the Task attribute is never compared. */
  lemma DefaultTotal(sim: Oracle, d1: Record, d2: Record)
    ensures WeightedTotal(sim, DefaultWeights, d1, d2)
         == 0.4 * AttributeSimilarity(sim, "Event", d1, d2) + 0.3 * AttributeSimilarity(sim, "Cause", d1, d2)
          + 0.2 * AttributeSimilarity(sim, "Influence", d1, d2) + 0.1 * AttributeSimilarity(sim, "Corrective Actions", d1, d2)
    ensures Names(DefaultWeights) == {"Event", "Cause", "Influence", "Corrective Actions"}
    ensures "Task" !in Scores(sim, DefaultWeights, d1, d2)
  {
    var ws := DefaultWeights;
    var w3, w2, w1 := ws[..3], ws[..2], ws[..1];
    assert w3[..2] == w2 && w2[..1] == w1 && w1[..0] == [];
    assert WeightedTotal(sim, w1, d1, d2) == AttributeSimilarity(sim, "Event", d1, d2) * 0.4;
    assert WeightedTotal(sim, w2, d1, d2) == WeightedTotal(sim, w1, d1, d2) + AttributeSimilarity(sim, "Cause", d1, d2) * 0.3;
    assert WeightedTotal(sim, w3, d1, d2) == WeightedTotal(sim, w2, d1, d2) + AttributeSimilarity(sim, "Influence", d1, d2) * 0.2;
    assert Names(ws) == {ws[0].0, ws[1].0, ws[2].0, ws[3].0} by {
      forall a | a in Names(ws) ensures a in {ws[0].0, ws[1].0, ws[2].0, ws[3].0} {
        var k :| 0 <= k < |ws| && ws[k].0 == a;
      }
    }
  }

  /** Only the weighted attributes count: two pairs of records that agree on every weighted
      attribute have the same total and the same scores, whatever their other attributes. */
  lemma {:induction false} WeightedOnly(sim: Oracle, ws: Weights, d1: Record, d2: Record, e1: Record, e2: Record)
    requires forall a | a in Names(ws) :: Items(d1, a) == Items(e1, a) && Items(d2, a) == Items(e2, a)
    ensures WeightedTotal(sim, ws, d1, d2) == WeightedTotal(sim, ws, e1, e2)
    ensures Scores(sim, ws, d1, d2) == Scores(sim, ws, e1, e2)
    decreases |ws|
  {
    if ws != [] {
      var p := ws[..|ws| - 1];
      assert Names(p) <= Names(ws) by {
        forall a | a in Names(p) ensures a in Names(ws) {
          var k :| 0 <= k < |p| && p[k].0 == a;
          assert ws[k] == p[k];
        }
      }
      WeightedOnly(sim, p, d1, d2, e1, e2);
      assert ws[|ws| - 1].0 in Names(ws);
    }
  }

  /** A symmetric oracle gives a symmetric total and symmetric scores. */
  lemma {:induction false} TotalSymmetric(sim: Oracle, ws: Weights, d1: Record, d2: Record)
    requires forall s, t :: sim(s, t) == sim(t, s)
    ensures WeightedTotal(sim, ws, d1, d2) == WeightedTotal(sim, ws, d2, d1)
    ensures Scores(sim, ws, d1, d2) == Scores(sim, ws, d2, d1)
    decreases |ws|
  {
    if ws != [] {
      TotalSymmetric(sim, ws[..|ws| - 1], d1, d2);
    }
  }

  // ----- the similarity matrix -----

  /** The ordered pairs of distinct indices below `n`. */
  function OffDiagonal(n: nat): set<(nat, nat)>
  {
    set i: nat, j: nat | i < n && j < n && i != j :: (i, j)
  }

  /** What the script leaves in `similarity_matrix[i, j]`. */
  function Cell(sim: Oracle, ws: Weights, data: seq<Record>, i: nat, j: nat): real
    requires i < |data| && j < |data|
  {
    if i != j then WeightedTotal(sim, ws, data[i], data[j]) else 0.0
  }

  /** What the script leaves in `attribute_similarities`. */
  function AttrTable(sim: Oracle, ws: Weights, data: seq<Record>): map<(nat, nat), map<string, real>>
  {
    map i: nat, j: nat | i < |data| && j < |data| && i != j :: (i, j) := Scores(sim, ws, data[i], data[j])
  }

  /** The part of `AttrTable` filled once the loops reach `(i, j)`. */
  function Filled(sim: Oracle, ws: Weights, data: seq<Record>, i: nat, j: nat): map<(nat, nat), map<string, real>>
  {
    map a: nat, b: nat | a < |data| && b < |data| && a != b && (a < i || (a == i && b < j))
      :: (a, b) := Scores(sim, ws, data[a], data[b])
  }

  lemma FilledNext(sim: Oracle, ws: Weights, data: seq<Record>, i: nat, j: nat)
    requires i < |data| && j < |data|
    ensures Filled(sim, ws, data, i, j + 1)
         == if i != j then Filled(sim, ws, data, i, j)[(i, j) := Scores(sim, ws, data[i], data[j])]
            else Filled(sim, ws, data, i, j)
  {
  }

  lemma FilledRow(sim: Oracle, ws: Weights, data: seq<Record>, i: nat)
    ensures Filled(sim, ws, data, i, |data|) == Filled(sim, ws, data, i + 1, 0)
  {
  }

  lemma FilledAll(sim: Oracle, ws: Weights, data: seq<Record>)
    ensures Filled(sim, ws, data, |data|, 0) == AttrTable(sim, ws, data)
  {
  }

  /** The loops have reached `(i, j)`: the cells before it hold their values, the others the
      0 of `np.zeros`. */
  ghost predicate CellsUpTo(matrix: array2<real>, sim: Oracle, ws: Weights, data: seq<Record>, i: nat, j: nat)
    reads matrix
  {
    && matrix.Length0 == |data| && matrix.Length1 == |data|
    && forall a, b | 0 <= a < |data| && 0 <= b < |data|
         :: matrix[a, b] == if a < i || (a == i && b < j) then Cell(sim, ws, data, a, b) else 0.0
  }

  lemma CellsRow(matrix: array2<real>, sim: Oracle, ws: Weights, data: seq<Record>, i: nat)
    requires CellsUpTo(matrix, sim, ws, data, i, |data|)
    ensures CellsUpTo(matrix, sim, ws, data, i + 1, 0)
  {
  }

  /** The i/j loop of the script: every off-diagonal cell gets the weighted total of its pair,
      the diagonal keeps the 0 of `np.zeros`, and `attribute_similarities` gets the scores of
      every ordered pair of distinct incidents. */
  method SimilarityMatrix(sim: Oracle, data: seq<Record>, ws: Weights)
    returns (matrix: array2<real>, attributeSimilarities: map<(nat, nat), map<string, real>>)
    ensures fresh(matrix)
    ensures matrix.Length0 == |data| && matrix.Length1 == |data|
    ensures forall i, j | 0 <= i < |data| && 0 <= j < |data| :: matrix[i, j] == Cell(sim, ws, data, i, j)
    ensures attributeSimilarities == AttrTable(sim, ws, data)
  {
    var n := |data|;
    matrix := new real[n, n]((i, j) => 0.0);
    attributeSimilarities := map[];
    for i := 0 to n
      invariant CellsUpTo(matrix, sim, ws, data, i, 0)
      invariant attributeSimilarities == Filled(sim, ws, data, i, 0)
    {
      attributeSimilarities := FillRow(matrix, sim, data, ws, i, attributeSimilarities);
      CellsRow(matrix, sim, ws, data, i);
      FilledRow(sim, ws, data, i);
    }
    FilledAll(sim, ws, data);
  }

  /** The inner loop, for the `i`-th incident. */
  method FillRow(matrix: array2<real>, sim: Oracle, data: seq<Record>, ws: Weights, i: nat,
                 table: map<(nat, nat), map<string, real>>)
    returns (attributeSimilarities: map<(nat, nat), map<string, real>>)
    modifies matrix
    requires i < |data|
    requires CellsUpTo(matrix, sim, ws, data, i, 0)
    requires table == Filled(sim, ws, data, i, 0)
    ensures CellsUpTo(matrix, sim, ws, data, i, |data|)
    ensures attributeSimilarities == Filled(sim, ws, data, i, |data|)
  {
    attributeSimilarities := table;
    for j := 0 to |data|
      invariant CellsUpTo(matrix, sim, ws, data, i, j)
      invariant attributeSimilarities == Filled(sim, ws, data, i, j)
    {
      attributeSimilarities := FillCell(matrix, sim, data, ws, i, j, attributeSimilarities);
    }
  }

  /** One pass of the inner loop: the pair `(i, j)`, skipped on the diagonal. */
  method FillCell(matrix: array2<real>, sim: Oracle, data: seq<Record>, ws: Weights, i: nat, j: nat,
                  table: map<(nat, nat), map<string, real>>)
    returns (attributeSimilarities: map<(nat, nat), map<string, real>>)
    modifies matrix
    requires i < |data| && j < |data|
    requires CellsUpTo(matrix, sim, ws, data, i, j)
    requires table == Filled(sim, ws, data, i, j)
    ensures CellsUpTo(matrix, sim, ws, data, i, j + 1)
    ensures attributeSimilarities == Filled(sim, ws, data, i, j + 1)
  {
    FilledNext(sim, ws, data, i, j);
    attributeSimilarities := table;
    if i != j {
      var total, similarities := TotalSimilarity(sim, data[i], data[j], ws);
      label before:
      matrix[i, j] := total;
      forall a, b | 0 <= a < |data| && 0 <= b < |data|
        ensures matrix[a, b] == if a < i || (a == i && b < j + 1) then Cell(sim, ws, data, a, b) else 0.0
      {
        if (a, b) != (i, j) {
          assert matrix[a, b] == old@before(matrix[a, b]);
        }
      }
      attributeSimilarities := attributeSimilarities[(i, j) := similarities];
    }
  }

  /** With a symmetric oracle the matrix is symmetric. */
  lemma MatrixSymmetric(sim: Oracle, ws: Weights, data: seq<Record>, i: nat, j: nat)
    requires forall s, t :: sim(s, t) == sim(t, s)
    requires i < |data| && j < |data|
    ensures Cell(sim, ws, data, i, j) == Cell(sim, ws, data, j, i)
  {
    TotalSymmetric(sim, ws, data[i], data[j]);
  }

  lemma {:induction false} RowCount(a: nat, m: nat)
    ensures |set j: nat | j < m :: (a, j)| == m
    ensures |set j: nat | j < m :: (j, a)| == m
  {
    if m > 0 {
      RowCount(a, m - 1);
      assert (set j: nat | j < m :: (a, j)) == (set j: nat | j < m - 1 :: (a, j)) + {(a, m - 1)};
      assert (set j: nat | j < m :: (j, a)) == (set j: nat | j < m - 1 :: (j, a)) + {(m - 1, a)};
    } else {
      assert (set j: nat | j < m :: (a, j)) == {};
      assert (set j: nat | j < m :: (j, a)) == {};
    }
  }

  lemma OffDiagonalSplit(m: nat)
    ensures OffDiagonal(m + 1) == OffDiagonal(m) + (set j: nat | j < m :: (m, j)) + (set j: nat | j < m :: (j, m))
    ensures OffDiagonal(m) !! (set j: nat | j < m :: (m, j))
    ensures OffDiagonal(m) + (set j: nat | j < m :: (m, j)) !! (set j: nat | j < m :: (j, m))
  {
    var row := set j: nat | j < m :: (m, j);
    var col := set j: nat | j < m :: (j, m);
    forall p | p in OffDiagonal(m + 1) ensures p in OffDiagonal(m) + row + col {
      var i: nat, j: nat :| i < m + 1 && j < m + 1 && i != j && p == (i, j);
      if i == m {
        assert p in row;
      } else if j == m {
        assert p in col;
      } else {
        assert p in OffDiagonal(m);
      }
    }
  }

  /** `attribute_similarities` ends with n·(n−1) entries. */
  lemma {:induction false} OffDiagonalCount(n: nat)
    ensures |OffDiagonal(n)| == n * (n - 1)
  {
    if n > 0 {
      var m := n - 1;
      OffDiagonalCount(m);
      RowCount(m, m);
      OffDiagonalSplit(m);
      var row := set j: nat | j < m :: (m, j);
      var col := set j: nat | j < m :: (j, m);
      var a := OffDiagonal(m) + row;
      assert |a| == |OffDiagonal(m)| + |row|;
      assert |a + col| == |a| + |col|;
      assert n * (n - 1) == m * (m - 1) + m + m by {
        assert n * (n - 1) == (m + 1) * m == m * m + m;
        assert m * (m - 1) == m * m - m;
      }
    } else {
      assert OffDiagonal(n) == {};
    }
  }

  lemma AttrTableCount(sim: Oracle, ws: Weights, data: seq<Record>)
    ensures AttrTable(sim, ws, data).Keys == OffDiagonal(|data|)
    ensures |AttrTable(sim, ws, data)| == |data| * (|data| - 1)
  {
    OffDiagonalCount(|data|);
    assert AttrTable(sim, ws, data).Keys == OffDiagonal(|data|);
  }

  // ----- the most similar events -----

  /** `np.argsort(similarity_matrix[row])`: every index once, in an order that sorts the row
      ascending. */
  ghost predicate IsArgsort(order: seq<nat>, matrix: array2<real>, row: nat)
    reads matrix
  {
    && |order| == matrix.Length1
    && (forall i | 0 <= i < matrix.Length1 :: i in order)
    && (forall k, l | 0 <= k < l < |order| :: order[k] != order[l])
    && Ascending(order, matrix, row)
  }

  /** Indices of the matrix, in ascending order of their cells in the row. */
  ghost predicate Ascending(order: seq<nat>, matrix: array2<real>, row: nat)
    reads matrix
  {
    && row < matrix.Length0
    && (forall k | 0 <= k < |order| :: order[k] < matrix.Length1)
    && (forall k, l | 0 <= k < l < |order| :: matrix[row, order[k]] <= matrix[row, order[l]])
  }

  /** The start of the slice `[-topN:]` of a list of length `n`. */
  function SliceStart(n: nat, topN: int): (start: nat)
    ensures start <= n
  {
    if topN > 0 then (if topN >= n then 0 else n - topN)
    else if topN == 0 then 0
    else if -topN >= n then n else -topN
  }

  function Reverse(s: seq<nat>): (r: seq<nat>)
    ensures |r| == |s|
  {
    seq(|s|, k requires 0 <= k < |s| => s[|s| - 1 - k])
  }

  /** `np.argsort(similarities)[-top_n:][::-1]` */
  function TopIndices(order: seq<nat>, topN: int): seq<nat>
  {
    Reverse(order[SliceStart(|order|, topN)..])
  }

  datatype SimilarEvent = SimilarEvent(filename: string, totalSimilarity: real, attributeSimilarities: map<string, real>)

  /** What `find_most_similar_event` returns, or the exception it raises. */
  datatype Ranking = Found(events: seq<SimilarEvent>) | IndexError | KeyError

  /** The loop of `find_most_similar_event` over the selected indices: `KeyError` as soon as
      one pair is missing from the table, otherwise one entry per index, in order. */
  function Collect(eventIndex: nat, matrix: array2<real>, data: seq<Record>,
                   attrSims: map<(nat, nat), map<string, real>>, top: seq<nat>): Ranking
    reads matrix
    requires eventIndex < matrix.Length0 && matrix.Length1 == |data|
    requires forall k | 0 <= k < |top| :: top[k] < |data|
  {
    if exists k | 0 <= k < |top| :: (eventIndex, top[k]) !in attrSims then KeyError
    else Found(seq(|top|, k requires 0 <= k < |top| reads matrix =>
      SimilarEvent(data[top[k]].filename, matrix[eventIndex, top[k]], attrSims[(eventIndex, top[k])])))
  }

  /** `find_most_similar_event(event_index, similarity_matrix, knowledge_graph, top_n)`. */
  function Ranked(eventIndex: nat, matrix: array2<real>, data: seq<Record>,
                  attrSims: map<(nat, nat), map<string, real>>, order: seq<nat>, topN: int): Ranking
    reads matrix
    requires matrix.Length0 == |data| && matrix.Length1 == |data|
    requires eventIndex < |data| ==> IsArgsort(order, matrix, eventIndex)
  {
    if eventIndex >= |data| then IndexError
    else Collect(eventIndex, matrix, data, attrSims, TopIndices(order, topN))
  }

  method FindMostSimilarEvent(eventIndex: nat, matrix: array2<real>, data: seq<Record>,
                              attrSims: map<(nat, nat), map<string, real>>, order: seq<nat>, topN: int)
    returns (r: Ranking)
    requires matrix.Length0 == |data| && matrix.Length1 == |data|
    requires eventIndex < |data| ==> IsArgsort(order, matrix, eventIndex)
    ensures r == Ranked(eventIndex, matrix, data, attrSims, order, topN)
  {
    if eventIndex >= matrix.Length0 {
      return IndexError;
    }
    var top := TopIndices(order, topN);
    var similarEvents: seq<SimilarEvent> := [];
    for k := 0 to |top|
      invariant |similarEvents| == k
      invariant forall l | 0 <= l < k :: (eventIndex, top[l]) in attrSims
      invariant forall l | 0 <= l < k
          :: similarEvents[l] == SimilarEvent(data[top[l]].filename, matrix[eventIndex, top[l]], attrSims[(eventIndex, top[l])])
    {
      var i := top[k];
      if (eventIndex, i) !in attrSims {
        return KeyError;
      }
      similarEvents := similarEvents + [SimilarEvent(data[i].filename, matrix[eventIndex, i], attrSims[(eventIndex, i)])];
    }
    r := Found(similarEvents);
  }

  /** A successful ranking has `min(top_n, n)` entries (every entry when `top_n` is 0), in
      non-increasing order of total similarity. */
  lemma RankedShape(eventIndex: nat, matrix: array2<real>, data: seq<Record>,
                    attrSims: map<(nat, nat), map<string, real>>, order: seq<nat>, topN: int)
    requires matrix.Length0 == |data| && matrix.Length1 == |data|
    requires eventIndex < |data| ==> IsArgsort(order, matrix, eventIndex)
    requires Ranked(eventIndex, matrix, data, attrSims, order, topN).Found?
    ensures var es := Ranked(eventIndex, matrix, data, attrSims, order, topN).events;
            |es| == (if topN <= 0 then (if topN == 0 then |data| else if -topN >= |data| then 0 else |data| + topN)
                     else if topN < |data| then topN else |data|)
    ensures var es := Ranked(eventIndex, matrix, data, attrSims, order, topN).events;
            forall k | 0 <= k < |es| - 1 :: es[k].totalSimilarity >= es[k + 1].totalSimilarity
  {
    TopDescending(order, topN, matrix, eventIndex);
  }

  /** With the table the matrix loop leaves, the ranking raises `KeyError` exactly when the
      reference incident is among the selected indices, which is always the case when there are
      at most `top_n` incidents. */
  lemma SelfLookupFails(sim: Oracle, ws: Weights, eventIndex: nat, matrix: array2<real>, data: seq<Record>,
                        order: seq<nat>, topN: int)
    requires matrix.Length0 == |data| && matrix.Length1 == |data|
    requires eventIndex < |data| && IsArgsort(order, matrix, eventIndex)
    ensures Ranked(eventIndex, matrix, data, AttrTable(sim, ws, data), order, topN).KeyError?
        <==> eventIndex in TopIndices(order, topN)
    ensures |data| <= topN || topN == 0 ==> Ranked(eventIndex, matrix, data, AttrTable(sim, ws, data), order, topN).KeyError?
  {
    var top := TopIndices(order, topN);
    TopInRange(order, topN, |data|);
    CollectFails(sim, ws, eventIndex, matrix, data, top);
    if |data| <= topN || topN == 0 {
      assert eventIndex in order;
      TopAll(order, topN, eventIndex);
    }
  }

  /** When `top_n` is 0 or at least the length, the slice keeps every index. */
  lemma TopAll(order: seq<nat>, topN: int, x: nat)
    requires |order| <= topN || topN == 0
    requires x in order
    ensures x in TopIndices(order, topN)
  {
    var m :| 0 <= m < |order| && order[m] == x;
    assert TopIndices(order, topN)[|order| - 1 - m] == x;
  }

  lemma TopInRange(order: seq<nat>, topN: int, n: nat)
    requires forall k | 0 <= k < |order| :: order[k] < n
    ensures forall k | 0 <= k < |TopIndices(order, topN)| :: TopIndices(order, topN)[k] < n
    ensures forall x | x in TopIndices(order, topN) :: x in order
  {
  }

  /** Against the table of the matrix loop, the loop raises `KeyError` exactly when the
      reference index itself is selected. */
  lemma CollectFails(sim: Oracle, ws: Weights, eventIndex: nat, matrix: array2<real>, data: seq<Record>, top: seq<nat>)
    requires eventIndex < matrix.Length0 == |data| && matrix.Length1 == |data|
    requires forall k | 0 <= k < |top| :: top[k] < |data|
    ensures Collect(eventIndex, matrix, data, AttrTable(sim, ws, data), top).KeyError? <==> eventIndex in top
  {
    var t := AttrTable(sim, ws, data);
    if eventIndex in top {
      var k :| 0 <= k < |top| && top[k] == eventIndex;
      assert (eventIndex, top[k]) !in t;
    } else {
      forall k | 0 <= k < |top| ensures (eventIndex, top[k]) in t {
        assert top[k] != eventIndex;
      }
    }
  }

  // ----- the ranking without the reference incident -----

  /** `order` without the index `e`. */
  function Without(order: seq<nat>, e: nat): (r: seq<nat>)
    ensures e !in r
    ensures forall x | x in r :: x in order
    ensures forall x | x in order && x != e :: x in r
  {
    if order == [] then []
    else (if order[0] == e then [] else [order[0]]) + Without(order[1..], e)
  }

  lemma {:induction false} WithoutSorted(order: seq<nat>, e: nat, row: nat, matrix: array2<real>)
    requires Ascending(order, matrix, row)
    ensures Ascending(Without(order, e), matrix, row)
  {
    if order != [] {
      var rest := order[1..];
      AscendingTail(order, matrix, row);
      WithoutSorted(rest, e, row, matrix);
      var wr := Without(rest, e);
      if order[0] != e {
        assert Without(order, e) == [order[0]] + wr;
        HeadBelow(order, row, matrix);
        ConsSorted(order[0], wr, matrix, row);
      } else {
        assert Without(order, e) == wr;
      }
    }
  }

  lemma AscendingTail(order: seq<nat>, matrix: array2<real>, row: nat)
    requires Ascending(order, matrix, row) && order != []
    ensures Ascending(order[1..], matrix, row)
  {
    var rest := order[1..];
    forall k, l | 0 <= k < l < |rest| ensures matrix[row, rest[k]] <= matrix[row, rest[l]] {
      assert rest[k] == order[k + 1] && rest[l] == order[l + 1];
    }
  }

  /** An index whose cell is at most every cell of an ascending order extends it at the front. */
  lemma ConsSorted(x: nat, order: seq<nat>, matrix: array2<real>, row: nat)
    requires Ascending(order, matrix, row) && x < matrix.Length1
    requires forall y | y in order :: matrix[row, x] <= matrix[row, y]
    ensures Ascending([x] + order, matrix, row)
  {
    var w := [x] + order;
    forall k, l | 0 <= k < l < |w| ensures matrix[row, w[k]] <= matrix[row, w[l]] {
      assert w[l] == order[l - 1];
      if k > 0 {
        assert w[k] == order[k - 1];
      }
    }
  }

  /** In an ascending order, the first index has the smallest cell. */
  lemma HeadBelow(order: seq<nat>, row: nat, matrix: array2<real>)
    requires Ascending(order, matrix, row) && order != []
    ensures forall x | x in order[1..] :: matrix[row, order[0]] <= matrix[row, x]
  {
    forall x | x in order[1..] ensures matrix[row, order[0]] <= matrix[row, x] {
      var m :| 0 <= m < |order[1..]| && order[1..][m] == x;
      assert order[m + 1] == x;
    }
  }

  lemma {:induction false} WithoutNotIn(order: seq<nat>, e: nat)
    requires e !in order
    ensures Without(order, e) == order
  {
    if order != [] {
      WithoutNotIn(order[1..], e);
    }
  }

  lemma {:induction false} WithoutLength(order: seq<nat>, e: nat)
    requires e in order
    requires forall k, l | 0 <= k < l < |order| :: order[k] != order[l]
    ensures |Without(order, e)| == |order| - 1
  {
    var rest := order[1..];
    if order[0] == e {
      assert e !in rest by {
        forall k | 0 <= k < |rest| ensures rest[k] != e {
          assert rest[k] == order[k + 1];
        }
      }
      WithoutNotIn(rest, e);
    } else {
      forall k, l | 0 <= k < l < |rest| ensures rest[k] != rest[l] {
        assert rest[k] == order[k + 1] && rest[l] == order[l + 1];
      }
      WithoutLength(rest, e);
    }
  }

  /** The ranking the function evidently means to return: the `top_n` most similar incidents
      other than the reference one. */
  function RankedOthers(eventIndex: nat, matrix: array2<real>, data: seq<Record>,
                        attrSims: map<(nat, nat), map<string, real>>, order: seq<nat>, topN: int): Ranking
    reads matrix
    requires matrix.Length0 == |data| && matrix.Length1 == |data|
    requires eventIndex < |data| ==> IsArgsort(order, matrix, eventIndex)
  {
    if eventIndex >= |data| then IndexError
    else
      WithoutBound(order, eventIndex, |data|);
      TopInRange(Without(order, eventIndex), topN, |data|);
      Collect(eventIndex, matrix, data, attrSims, TopIndices(Without(order, eventIndex), topN))
  }

  lemma {:induction false} WithoutBound(order: seq<nat>, e: nat, n: nat)
    requires forall k | 0 <= k < |order| :: order[k] < n
    ensures forall k | 0 <= k < |Without(order, e)| :: Without(order, e)[k] < n
  {
    if order != [] {
      WithoutBound(order[1..], e, n);
    }
  }

  /** With the table the matrix loop leaves and `top_n` at least 1, the corrected ranking never
      raises: it lists `min(top_n, n - 1)` other incidents, none of them the reference one, in
      non-increasing order of total similarity. */
  lemma RankedOthersSound(sim: Oracle, ws: Weights, eventIndex: nat, matrix: array2<real>, data: seq<Record>,
                          order: seq<nat>, topN: int)
    requires matrix.Length0 == |data| && matrix.Length1 == |data|
    requires eventIndex < |data| && IsArgsort(order, matrix, eventIndex)
    requires topN >= 1
    ensures RankedOthers(eventIndex, matrix, data, AttrTable(sim, ws, data), order, topN).Found?
    ensures var es := RankedOthers(eventIndex, matrix, data, AttrTable(sim, ws, data), order, topN).events;
            |es| == if topN < |data| - 1 then topN else |data| - 1
    ensures var es := RankedOthers(eventIndex, matrix, data, AttrTable(sim, ws, data), order, topN).events;
            forall k | 0 <= k < |es| - 1 :: es[k].totalSimilarity >= es[k + 1].totalSimilarity
    ensures eventIndex !in TopIndices(Without(order, eventIndex), topN)
  {
    var w := Without(order, eventIndex);
    WithoutSorted(order, eventIndex, eventIndex, matrix);
    WithoutLength(order, eventIndex);
    TopInRange(w, topN, |data|);
    var top := TopIndices(w, topN);
    assert eventIndex !in top;
    CollectFails(sim, ws, eventIndex, matrix, data, top);
    TopDescending(w, topN, matrix, eventIndex);
  }

  /** The selected indices come in non-increasing order of their cells in the row. */
  lemma TopDescending(order: seq<nat>, topN: int, matrix: array2<real>, row: nat)
    requires Ascending(order, matrix, row)
    ensures var top := TopIndices(order, topN);
            forall k | 0 <= k < |top| - 1 :: matrix[row, top[k]] >= matrix[row, top[k + 1]]
  {
    var top := TopIndices(order, topN);
    forall k | 0 <= k < |top| - 1 ensures matrix[row, top[k]] >= matrix[row, top[k + 1]] {
      assert top[k] == order[|order| - 1 - k] && top[k + 1] == order[|order| - 2 - k];
    }
  }
}
