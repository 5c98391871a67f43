// The catalog's order and names, from the rows' own positions: which columns a dataset
// has, in which order they stand, which of them a name finds, and which names are one.
module Ordinals {
  import opened Prelude
  import opened CatalogModel

  // ----- the columns of a dataset, by position -----

  /** Ascending ordinals; of equal ordinals the earlier row first. */
  predicate Earlier(columns: seq<ColumnEntry>, i: nat, j: nat)
    requires i < |columns| && j < |columns|
  {
    columns[i].ordinal < columns[j].ordinal || (columns[i].ordinal == columns[j].ordinal && i < j)
  }

  /** The positions `at` list exactly the rows of the dataset, each once, in order. */
  ghost predicate Lists(id: string, columns: seq<ColumnEntry>, at: seq<nat>) {
    && (forall k :: 0 <= k < |at| ==> at[k] < |columns| && columns[at[k]].datasetId == id)
    && (forall i :: 0 <= i < |columns| && columns[i].datasetId == id ==> i in at)
    && (forall k, l :: 0 <= k < l < |at| ==> Earlier(columns, at[k], at[l]))
  }

  function Rows(columns: seq<ColumnEntry>, at: seq<nat>): seq<ColumnEntry>
    requires forall k :: 0 <= k < |at| ==> at[k] < |columns|
  {
    seq(|at|, k requires 0 <= k < |at| => columns[at[k]])
  }

  /** The position of the row that a stable insertion puts where. */
  lemma {:induction false} InsertAt(id: string, columns: seq<ColumnEntry>, first: nat, at: seq<nat>) returns (out: seq<nat>)
    requires first < |columns| && columns[first].datasetId == id
    requires forall k :: 0 <= k < |at| ==> first < at[k] < |columns| && columns[at[k]].datasetId == id
    requires forall k, l :: 0 <= k < l < |at| ==> Earlier(columns, at[k], at[l])
    ensures forall k :: 0 <= k < |out| ==> out[k] < |columns| && columns[out[k]].datasetId == id
    ensures forall k, l :: 0 <= k < l < |out| ==> Earlier(columns, out[k], out[l])
    ensures forall i :: i in out <==> i == first || i in at
    ensures Rows(columns, out) == InsertByOrdinal(columns[first], Rows(columns, at))
    decreases |at|
  {
    if at == [] || columns[first].ordinal <= columns[at[0]].ordinal {
      out := [first] + at;
      assert Rows(columns, out) == [columns[first]] + Rows(columns, at);
      if at != [] {
        assert Rows(columns, at)[0] == columns[at[0]];
      }
    } else {
      var rest := InsertAt(id, columns, first, at[1..]);
      out := [at[0]] + rest;
      assert Rows(columns, at)[1..] == Rows(columns, at[1..]);
      assert Rows(columns, out) == [columns[at[0]]] + Rows(columns, rest);
      forall l | 0 < l < |out|
        ensures Earlier(columns, out[0], out[l])
      {
        assert out[l] in rest;
        if out[l] in at[1..] {
          var m :| 0 <= m < |at[1..]| && at[1..][m] == out[l];
          assert at[m + 1] == out[l];
        }
      }
    }
  }

  /** The rows of the dataset from position `from` on, sorted. */
  lemma {:induction false} SortedFrom(id: string, columns: seq<ColumnEntry>, from: nat) returns (at: seq<nat>)
    requires from <= |columns|
    ensures forall k :: 0 <= k < |at| ==> from <= at[k] < |columns| && columns[at[k]].datasetId == id
    ensures forall i :: from <= i < |columns| && columns[i].datasetId == id ==> i in at
    ensures forall k, l :: 0 <= k < l < |at| ==> Earlier(columns, at[k], at[l])
    ensures Rows(columns, at) == SortByOrdinal(OfDataset(id, columns[from..]))
    decreases |columns| - from
  {
    if from == |columns| {
      at := [];
      assert columns[from..] == [] && Rows(columns, at) == [] && SortByOrdinal(OfDataset(id, [])) == [];
    } else {
      var rest := SortedFrom(id, columns, from + 1);
      assert columns[from..][0] == columns[from] && columns[from..][1..] == columns[from + 1..];
      if columns[from].datasetId == id {
        at := InsertAt(id, columns, from, rest);
        forall k | 0 <= k < |at|
          ensures from <= at[k]
        {
          assert at[k] in at;
        }
        var tail := OfDataset(id, columns[from + 1..]);
        assert OfDataset(id, columns[from..]) == [columns[from]] + tail;
        assert ([columns[from]] + tail)[1..] == tail;
      } else {
        at := rest;
        hide InsertByOrdinal;
        assert OfDataset(id, columns[from..]) == [] + OfDataset(id, columns[from + 1..]) == OfDataset(id, columns[from + 1..]);
      }
    }
  }

  /** The columns of a dataset are exactly its rows, each once, in ascending ordinal order,
      rows of one ordinal in the order in which they are listed. */
  lemma OrdinalOrder(id: string, columns: seq<ColumnEntry>) returns (at: seq<nat>)
    ensures Lists(id, columns, at) && DatasetColumns(id, columns) == Rows(columns, at)
  {
    at := SortedFrom(id, columns, 0);
    assert columns[0..] == columns;
  }

  /** There is one such list. */
  lemma {:induction false} ListsUnique(id: string, columns: seq<ColumnEntry>, a: seq<nat>, b: seq<nat>)
    requires Lists(id, columns, a) && Lists(id, columns, b)
    ensures a == b
    decreases |a|
  {
    SameFrom(id, columns, a, b, 0);
    assert a[0..] == a && b[0..] == b;
  }

  lemma {:induction false} SameFrom(id: string, columns: seq<ColumnEntry>, a: seq<nat>, b: seq<nat>, k: nat)
    requires Lists(id, columns, a) && Lists(id, columns, b) && k <= |a| && k <= |b| && a[..k] == b[..k]
    ensures a == b
    decreases |a| - k
  {
    hide Lists;
    if k < |a| {
      var l := NextPlace(id, columns, a, b, k);
      var m := NextPlace(id, columns, b, a, k);
      NotBoth(id, columns, a, b, k, l, m);
      assert a[..k + 1] == a[..k] + [a[k]] && b[..k + 1] == b[..k] + [b[k]];
      SameFrom(id, columns, a, b, k + 1);
    } else if k < |b| {
      var l := NextPlace(id, columns, b, a, k);
    } else {
      assert a == a[..k] == b[..k] == b;
    }
  }

  /** What comes next in one list comes later, or next, in the other. */
  lemma NextPlace(id: string, columns: seq<ColumnEntry>, a: seq<nat>, b: seq<nat>, k: nat) returns (l: nat)
    requires Lists(id, columns, a) && Lists(id, columns, b) && k < |a| && k <= |b| && a[..k] == b[..k]
    ensures k <= l < |b| && b[l] == a[k]
  {
    forall l | 0 <= l < k
      ensures b[l] != a[k]
    {
      assert b[..k][l] == a[..k][l] == a[l];
      assert Earlier(columns, a[l], a[k]);
    }
    assert a[k] in b;
    l :| l < |b| && b[l] == a[k];
  }

  lemma NotBoth(id: string, columns: seq<ColumnEntry>, a: seq<nat>, b: seq<nat>, k: nat, l: nat, m: nat)
    requires Lists(id, columns, a) && Lists(id, columns, b)
    requires k <= l < |b| && k <= m < |a| && k < |a| && k < |b| && b[l] == a[k] && a[m] == b[k]
    ensures a[k] == b[k]
  {
    assert k < l ==> Earlier(columns, b[k], b[l]);
    assert k < m ==> Earlier(columns, a[k], a[m]);
  }

  // ----- the column that a name finds -----

  /** Row `j` is the first of its dataset, in ordinal order, with this name. */
  predicate FirstNamed(uni: Unicode, id: string, name: string, columns: seq<ColumnEntry>, j: nat) {
    && j < |columns| && columns[j].datasetId == id
    && Normalize(uni, columns[j].column) == Normalize(uni, name)
    && (forall i :: 0 <= i < |columns| && i != j && columns[i].datasetId == id ==>
          Normalize(uni, columns[i].column) != Normalize(uni, name) || Earlier(columns, j, i))
  }

  lemma {:induction false} FirstInRows(uni: Unicode, name: string, columns: seq<ColumnEntry>, at: seq<nat>) returns (k: nat)
    requires forall l :: 0 <= l < |at| ==> at[l] < |columns|
    ensures FindColumn(uni, name, Rows(columns, at)).Some? ==>
              && k < |at| && FindColumn(uni, name, Rows(columns, at)).value == columns[at[k]]
              && Normalize(uni, columns[at[k]].column) == Normalize(uni, name)
              && forall l :: 0 <= l < k ==> Normalize(uni, columns[at[l]].column) != Normalize(uni, name)
    decreases |at|
  {
    k := 0;
    if at != [] && Normalize(uni, columns[at[0]].column) != Normalize(uni, name) {
      assert Rows(columns, at)[1..] == Rows(columns, at[1..]);
      var rest := FirstInRows(uni, name, columns, at[1..]);
      k := rest + 1;
    }
  }

  /** A name finds the first row, in ordinal order, whose normalised name is its own, and
      nothing exactly when the dataset has none. */
  lemma FoundIsFirst(uni: Unicode, id: string, name: string, columns: seq<ColumnEntry>)
    ensures var found := FindColumn(uni, name, DatasetColumns(id, columns));
      && (found.None? <==> forall i :: 0 <= i < |columns| && columns[i].datasetId == id ==>
                             Normalize(uni, columns[i].column) != Normalize(uni, name))
      && (forall j: nat :: FirstNamed(uni, id, name, columns, j) ==> found == Some(columns[j]))
      && (found.Some? ==> exists j: nat :: FirstNamed(uni, id, name, columns, j))
  {
    var at := OrdinalOrder(id, columns);
    var found := FindColumn(uni, name, Rows(columns, at));
    var k := FirstInRows(uni, name, columns, at);
    hide FindColumn, DatasetColumns, Normalize;
    forall i | 0 <= i < |columns| && columns[i].datasetId == id
      ensures columns[i] in Rows(columns, at)
    {
      assert i in at;
      var l :| 0 <= l < |at| && at[l] == i;
      assert Rows(columns, at)[l] == columns[i];
    }
    if found.Some? {
      FirstIsEarliest(uni, id, name, columns, at, k);
      forall j: nat | FirstNamed(uni, id, name, columns, j)
        ensures j == at[k]
      {
      }
    }
  }

  lemma FirstIsEarliest(uni: Unicode, id: string, name: string, columns: seq<ColumnEntry>, at: seq<nat>, k: nat)
    requires Lists(id, columns, at) && k < |at| && Normalize(uni, columns[at[k]].column) == Normalize(uni, name)
    requires forall l :: 0 <= l < k ==> Normalize(uni, columns[at[l]].column) != Normalize(uni, name)
    ensures FirstNamed(uni, id, name, columns, at[k])
  {
    hide Normalize;
    forall i | 0 <= i < |columns| && i != at[k] && columns[i].datasetId == id
               && Normalize(uni, columns[i].column) == Normalize(uni, name)
      ensures Earlier(columns, at[k], i)
    {
      assert i in at;
      var l :| 0 <= l < |at| && at[l] == i;
      assert k < l;
    }
  }

  // ----- names -----

  lemma {:induction false} NormalizeConcat(uni: Unicode, a: string, b: string)
    ensures Normalize(uni, a + b) == Normalize(uni, a) + Normalize(uni, b)
  {
    if a == [] {
      assert a + b == b;
    } else {
      assert (a + b)[1..] == a[1..] + b;
      NormalizeConcat(uni, a[1..], b);
    }
  }

  /** An underscore, a dash or white space anywhere in a name changes nothing; any other
      character counts as what it is in lower case. */
  lemma NormalizedCharacter(uni: Unicode, a: string, c: char, b: string)
    ensures c == '_' || c == '-' || uni.isWhitespace(c) ==> Normalize(uni, a + [c] + b) == Normalize(uni, a + b)
    ensures c != '_' && c != '-' && !uni.isWhitespace(c) ==>
              Normalize(uni, a + [c] + b) == Normalize(uni, a) + uni.lower(c) + Normalize(uni, b)
  {
    assert [c][1..] == [] && Normalize(uni, []) == [];
    assert Normalize(uni, [c]) == if c == '_' || c == '-' || uni.isWhitespace(c) then [] else uni.lower(c);
    hide Normalize;
    NormalizeConcat(uni, a + [c], b);
    NormalizeConcat(uni, a, [c]);
    NormalizeConcat(uni, a, b);
    assert Normalize(uni, a) + [] == Normalize(uni, a);
  }
}
