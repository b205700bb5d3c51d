/** The row selection shared by the map and breakdown callbacks:
    `df[df[column].str.contains(text)]`, the rows whose date text contains the
    requested date, in table order. */
module Selection {

  import DateText

  /** Row `r` is kept for the query `text`. */
  predicate Keeps<R>(dateOf: R -> string, text: string, r: R)
  {
    DateText.Contains(dateOf(r), text)
  }

  /** The selected rows, built row by row as boolean indexing walks the table. */
  function Slice<R>(rows: seq<R>, dateOf: R -> string, text: string): (s: seq<R>)
    ensures |s| <= |rows|
    ensures forall k :: 0 <= k < |s| ==> Keeps(dateOf, text, s[k])
  {
    if rows == [] then []
    else
      var last := rows[|rows| - 1];
      var front := rows[..|rows| - 1];
      assert rows == front + [last];
      Slice(front, dateOf, text) + (if Keeps(dateOf, text, last) then [last] else [])
  }

  /** A row is in the slice exactly when it is in the table and kept. */
  lemma {:induction false} SliceMember<R>(rows: seq<R>, dateOf: R -> string, text: string, r: R)
    ensures r in Slice(rows, dateOf, text) <==> r in rows && Keeps(dateOf, text, r)
  {
    if rows != [] {
      var n := |rows| - 1;
      assert rows == rows[..n] + [rows[n]];
      SliceMember(rows[..n], dateOf, text, r);
    }
  }

  /** Selecting from two stretches of a table one after the other is
      selecting from the whole: no row moves ahead of an earlier one. */
  lemma {:induction false} SliceAppend<R>(a: seq<R>, b: seq<R>, dateOf: R -> string, text: string)
    ensures Slice(a + b, dateOf, text) == Slice(a, dateOf, text) + Slice(b, dateOf, text)
    decreases |b|
  {
    if b == [] {
      assert a + b == a;
    } else {
      var front := b[..|b| - 1];
      assert (a + b)[..|a + b| - 1] == a + front;
      SliceAppend(a, front, dateOf, text);
    }
  }

  /** The indices of the kept rows, in increasing order. */
  function KeptIndices<R>(rows: seq<R>, dateOf: R -> string, text: string): (idx: seq<nat>)
    ensures forall k :: 0 <= k < |idx| ==> idx[k] < |rows|
    ensures forall k, l :: 0 <= k < l < |idx| ==> idx[k] < idx[l]
    ensures forall i :: 0 <= i < |rows| ==> (i in idx <==> Keeps(dateOf, text, rows[i]))
  {
    if rows == [] then []
    else
      var n := |rows| - 1;
      var front := KeptIndices(rows[..n], dateOf, text);
      assert forall i :: 0 <= i < n ==> rows[..n][i] == rows[i];
      front + (if Keeps(dateOf, text, rows[n]) then [n] else [])
  }

  /** The slice is exactly the table's kept rows in table order: its `k`-th
      row is the row at the `k`-th kept index. */
  lemma {:induction false} SliceIsKeptSubsequence<R>(rows: seq<R>, dateOf: R -> string, text: string)
    ensures |Slice(rows, dateOf, text)| == |KeptIndices(rows, dateOf, text)|
    ensures forall k :: 0 <= k < |Slice(rows, dateOf, text)| ==>
              Slice(rows, dateOf, text)[k] == rows[KeptIndices(rows, dateOf, text)[k]]
  {
    if rows != [] {
      var n := |rows| - 1;
      SliceIsKeptSubsequence(rows[..n], dateOf, text);
    }
  }

  /** No row is kept exactly when no row's date contains the text. */
  lemma SliceEmptyIff<R>(rows: seq<R>, dateOf: R -> string, text: string)
    ensures |Slice(rows, dateOf, text)| == 0
            <==> forall i :: 0 <= i < |rows| ==> !Keeps(dateOf, text, rows[i])
  {
  }

  /** `.iloc[-1]` of a non-empty slice is the table's last kept row: it is
      kept, and no row after it is. */
  lemma {:induction false} SliceLast<R>(rows: seq<R>, dateOf: R -> string, text: string)
    returns (j: nat)
    requires |Slice(rows, dateOf, text)| > 0
    ensures j < |rows|
    ensures Slice(rows, dateOf, text)[|Slice(rows, dateOf, text)| - 1] == rows[j]
    ensures Keeps(dateOf, text, rows[j])
    ensures forall k :: j < k < |rows| ==> !Keeps(dateOf, text, rows[k])
  {
    var n := |rows| - 1;
    if Keeps(dateOf, text, rows[n]) {
      j := n;
    } else {
      j := SliceLast(rows[..n], dateOf, text);
    }
  }
}
