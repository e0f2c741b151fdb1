/**
  The bookkeeping of `graph_array` and `ngraphs` across calls of
  `SPSPlot::GetGraphs` (src/SPSPlot.cpp:121-129, 140-141, 158, 174), reduced to
  the counts that decide whether each call stays inside the array.
 */
module GraphBook {
  import opened Wrappers

  /** `ngraphs`, and the length of `graph_array` (`None` while it is null). */
  datatype Book = Book(ngraphs: nat, capacity: Option<nat>)

  const Initial: Book := Book(0, None)

  /**
    One call: it deletes graphs `0 .. deletes-1` of an array of length
    `deleteLength`, then writes graphs `0 .. writes-1` into an array of length
    `writeLength`, and leaves the book `after`.
   */
  datatype Call = Call(after: Book, deletes: nat, deleteLength: nat, writes: nat, writeLength: nat)

  predicate InBounds(c: Call)
  {
    c.deletes <= c.deleteLength && c.writes <= c.writeLength
  }

  function Length(b: Book): nat
  {
    if b.capacity.Some? then b.capacity.value else 0
  }

  /**
    As written: `ngraphs` is set from the reaction count only while it is 0,
    the array is allocated once with that count, and every later call deletes
    `ngraphs` graphs and writes one graph per current reaction into it.
   */
  function GetGraphsAsWritten(b: Book, nRxns: nat): (c: Call)
    ensures c.after.ngraphs == nRxns && c.writes == nRxns
    ensures b.capacity.Some? ==> c.after.capacity == b.capacity
  {
    var n := if b.ngraphs == 0 then nRxns else b.ngraphs;
    match b.capacity
    case None => Call(Book(nRxns, Some(n)), 0, 0, nRxns, n)
    case Some(len) => Call(Book(nRxns, Some(len)), n, len, nRxns, len)
  }

  /** One reaction, then a second one added: the second call writes past the end of the array. */
  lemma AddedReactionOverruns()
    ensures GetGraphsAsWritten(Initial, 1).after == Book(1, Some(1))
    ensures !InBounds(GetGraphsAsWritten(Book(1, Some(1)), 2))
  {
  }

  /** No reactions, then one added: a zero-length array, and the next call deletes and writes slot 0. */
  lemma EmptyFirstCallOverruns()
    ensures GetGraphsAsWritten(Initial, 0).after == Book(0, Some(0))
    ensures var c := GetGraphsAsWritten(Book(0, Some(0)), 1); c.deletes > c.deleteLength && c.writes > c.writeLength
  {
  }

  /** As written, any call with more reactions than the array was first allocated for overruns it. */
  lemma AsWrittenOverrunsWhenGrown(b: Book, nRxns: nat)
    requires b.capacity.Some? && nRxns > b.capacity.value
    ensures !InBounds(GetGraphsAsWritten(b, nRxns))
  {
  }

  /** The book matches the array: no array and no graphs, or one graph per slot. */
  predicate Consistent(b: Book)
  {
    (b.capacity.None? && b.ngraphs == 0) || b.capacity == Some(b.ngraphs)
  }

  /**
    Corrected: the array is kept only while its length is the reaction count;
    otherwise the old graphs are deleted with the old array and a new array of
    the current count is allocated.
   */
  function GetGraphsCorrected(b: Book, nRxns: nat): (c: Call)
    ensures c.after == Book(nRxns, Some(nRxns))
    ensures Consistent(b) ==> InBounds(c)
  {
    if b.capacity == Some(nRxns) then Call(Book(nRxns, Some(nRxns)), b.ngraphs, nRxns, nRxns, nRxns)
    else Call(Book(nRxns, Some(nRxns)), if b.capacity.Some? then b.ngraphs else 0, Length(b), nRxns, nRxns)
  }

  /** The calls made for a sequence of reaction counts, one `GetGraphs` per count. */
  function RunCorrected(b: Book, counts: seq<nat>): seq<Call>
    decreases |counts|
  {
    if counts == [] then []
    else var c := GetGraphsCorrected(b, counts[0]); [c] + RunCorrected(c.after, counts[1..])
  }

  function RunAsWritten(b: Book, counts: seq<nat>): seq<Call>
    decreases |counts|
  {
    if counts == [] then []
    else var c := GetGraphsAsWritten(b, counts[0]); [c] + RunAsWritten(c.after, counts[1..])
  }

  /** Corrected, every call of any sequence stays inside the array it uses. */
  lemma {:induction false} CorrectedNeverOverruns(b: Book, counts: seq<nat>)
    requires Consistent(b)
    ensures |RunCorrected(b, counts)| == |counts|
    ensures forall i :: 0 <= i < |counts| ==> InBounds(RunCorrected(b, counts)[i])
    decreases |counts|
  {
    if counts != [] {
      var c := GetGraphsCorrected(b, counts[0]);
      CorrectedNeverOverruns(c.after, counts[1..]);
    }
  }

  /** As written, a sequence that never exceeds the first allocation stays in bounds as well. */
  lemma {:induction false} AsWrittenSafeWithoutGrowth(b: Book, counts: seq<nat>, limit: nat)
    requires b.capacity == Some(limit) && b.ngraphs <= limit
    requires forall i :: 0 <= i < |counts| ==> counts[i] <= limit
    ensures |RunAsWritten(b, counts)| == |counts|
    ensures forall i :: 0 <= i < |counts| ==> InBounds(RunAsWritten(b, counts)[i])
    decreases |counts|
  {
    if counts != [] {
      var c := GetGraphsAsWritten(b, counts[0]);
      AsWrittenSafeWithoutGrowth(c.after, counts[1..], limit);
    }
  }
}
