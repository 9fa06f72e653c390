/** `retrieve_metadata`: for every column of a table, the distinct non-missing
    values in order of first appearance (`data[col].dropna().unique().tolist()`). */
module Utils {
  import opened Wrappers

  /** One cell of a column: a missing value (NaN/None) or a present one. */
  datatype Cell<V> = Missing | Present(value: V)

  /** A labelled column of a data frame. */
  datatype Column<V> = Column(name: string, cells: seq<Cell<V>>)

  /** `Series.dropna()`: the present values, in column order. */
  function DropNa<V(!new)>(cells: seq<Cell<V>>): (r: seq<V>)
    ensures |r| <= |cells|
    ensures forall x :: x in r <==> Present(x) in cells
  {
    if cells == [] then []
    else
      var rest := DropNa(cells[1..]);
      assert forall x :: Present(x) in cells <==> cells[0] == Present(x) || Present(x) in cells[1..];
      match cells[0]
      case Missing => rest
      case Present(v) => [v] + rest
  }

  /** `Series.unique()`: each value once, in order of first appearance. */
  function Unique<V(==,!new)>(s: seq<V>): (u: seq<V>)
    ensures forall x :: x in u <==> x in s
    ensures forall i, j :: 0 <= i < j < |u| ==> u[i] != u[j]
    ensures forall i, j, q :: 0 <= i < j < |u| && 0 <= q < |s| && s[q] == u[j] ==> u[i] in s[..q]
  {
    if s == [] then []
    else
      var init := s[..|s| - 1];
      var x := s[|s| - 1];
      var u := Unique(init);
      assert forall y :: y in s <==> y in init || y == x by {
        assert s == init + [x];
      }
      assert forall q :: 0 <= q < |init| ==> s[..q] == init[..q];
      if x in u then u else u + [x]
  }

  /** The metadata entry of one column. */
  function ColumnValues<V(==,!new)>(cells: seq<Cell<V>>): seq<V>
  {
    Unique(DropNa(cells))
  }

  /** Dropping missing cells distributes over concatenation. */
  lemma {:induction false} DropNaAppend<V(!new)>(a: seq<Cell<V>>, b: seq<Cell<V>>)
    ensures DropNa(a + b) == DropNa(a) + DropNa(b)
  {
    if a == [] {
      assert a + b == b;
    } else {
      assert (a + b)[1..] == a[1..] + b;
      DropNaAppend(a[1..], b);
    }
  }

  /** A column entry lists every present value of the column and nothing else,
      each once, ordered by where each value first occurs in the column. */
  lemma ColumnValuesSpec<V(!new)>(cells: seq<Cell<V>>)
    ensures forall x :: x in ColumnValues(cells) <==> Present(x) in cells
    ensures forall i, j :: 0 <= i < j < |ColumnValues(cells)| ==> ColumnValues(cells)[i] != ColumnValues(cells)[j]
    ensures forall i, j, q ::
              0 <= i < j < |ColumnValues(cells)| && 0 <= q < |cells| && cells[q] == Present(ColumnValues(cells)[j])
              ==> Present(ColumnValues(cells)[i]) in cells[..q]
  {
    var s := DropNa(cells);
    var u := Unique(s);
    forall i, j, q | 0 <= i < j < |u| && 0 <= q < |cells| && cells[q] == Present(u[j])
      ensures Present(u[i]) in cells[..q]
    {
      DropNaAppend(cells[..q], cells[q..]);
      assert cells == cells[..q] + cells[q..];
      var p := |DropNa(cells[..q])|;
      assert DropNa(cells[q..]) == [u[j]] + DropNa(cells[q + 1..]) by {
        assert cells[q..][1..] == cells[q + 1..];
      }
      assert s[p] == u[j];
      assert s[..p] == DropNa(cells[..q]);
    }
  }

  /** Two labels of the frame coincide; `data[col]` is then a frame, which has no `unique`. */
  predicate HasDuplicateNames<V>(df: seq<Column<V>>)
  {
    exists i, j :: 0 <= i < j < |df| && df[i].name == df[j].name
  }

  /** `retrieve_metadata` before JSON encoding; `None` stands for the
      AttributeError raised on a duplicated column label. */
  method RetrieveMetadata<V(==,!new)>(df: seq<Column<V>>) returns (r: Option<map<string, seq<V>>>)
    ensures r.None? <==> HasDuplicateNames(df)
    ensures r.Some? ==> r.value.Keys == set c | c in df :: c.name
    ensures r.Some? ==> forall c :: c in df ==> r.value[c.name] == ColumnValues(c.cells)
  {
    var metadata: map<string, seq<V>> := map[];
    for i := 0 to |df|
      invariant metadata.Keys == set j | 0 <= j < i :: df[j].name
      invariant forall j :: 0 <= j < i ==> metadata[df[j].name] == ColumnValues(df[j].cells)
      invariant forall j, k :: 0 <= j < i && 0 <= k < |df| && j != k ==> df[j].name != df[k].name
    {
      var col := df[i];
      if exists k :: 0 <= k < |df| && k != i && df[k].name == col.name {
        return None;
      }
      metadata := metadata[col.name := ColumnValues(col.cells)];
    }
    assert forall c :: c in df ==> exists j :: 0 <= j < |df| && df[j] == c;
    return Some(metadata);
  }
}
