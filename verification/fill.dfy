/** `dataframe.fillna(method='ffill')` after the resampled overlay has been
    merged onto the base frame: every missing cell takes the nearest defined
    value above it in the same column. */
module Fill {
  import opened Wrappers
  import opened Candle

  /** Reference definition: the nearest defined entry at or before index i,
      or None when every entry from 0 to i is missing. */
  function LastDefined(col: seq<Option<real>>, i: nat): Option<real>
    requires i < |col|
  {
    if col[i].Some? then col[i]
    else if i == 0 then None
    else LastDefined(col, i - 1)
  }

  /** Dropping entries after index i does not change what is visible at i. */
  lemma {:induction false} LastDefinedPrefix(col: seq<Option<real>>, n: nat, i: nat)
    requires i < n <= |col|
    ensures LastDefined(col[..n], i) == LastDefined(col, i)
  {
    if col[i].None? && i > 0 {
      LastDefinedPrefix(col, n, i - 1);
    }
  }

  /** Forward fill of one column, as a scan from the top that carries the last
      defined value down. */
  function FFill(col: seq<Option<real>>): (r: seq<Option<real>>)
    ensures |r| == |col|
    ensures forall i :: 0 <= i < |col| ==> r[i] == LastDefined(col, i)
  {
    if |col| == 0 then []
    else
      var prev := FFill(col[..|col| - 1]);
      var last := col[|col| - 1];
      var carried := if |prev| == 0 then None else prev[|prev| - 1];
      var r := prev + [if last.Some? then last else carried];
      assert forall i :: 0 <= i < |col| - 1 ==> r[i] == LastDefined(col, i) by {
        forall i | 0 <= i < |col| - 1
          ensures r[i] == LastDefined(col, i)
        {
          LastDefinedPrefix(col, |col| - 1, i);
        }
      }
      assert |prev| > 0 ==> carried == LastDefined(col, |col| - 2) by {
        if |prev| > 0 {
          LastDefinedPrefix(col, |col| - 1, |col| - 2);
        }
      }
      r
  }

  /** The fill keeps every defined value, leaves missing exactly the entries
      above the first defined one, and gives every other missing entry the
      nearest defined value above it. */
  lemma {:induction false} FFillIsNearestEarlier(col: seq<Option<real>>, i: nat)
    requires i < |col|
    ensures col[i].Some? ==> FFill(col)[i] == col[i]
    ensures FFill(col)[i].None? <==> (forall k :: 0 <= k <= i ==> col[k].None?)
    ensures FFill(col)[i].Some? ==>
      exists j :: 0 <= j <= i && col[j] == FFill(col)[i] && (forall k :: j < k <= i ==> col[k].None?)
  {
    if col[i].None? && i > 0 {
      FFillIsNearestEarlier(col, i - 1);
      if FFill(col)[i].Some? {
        var j :| 0 <= j <= i - 1 && col[j] == FFill(col)[i - 1] && (forall k :: j < k <= i - 1 ==> col[k].None?);
        assert forall k :: j < k <= i ==> col[k].None?;
      }
    }
  }

  /** Forward fill is idempotent. */
  lemma FFillIdempotent(col: seq<Option<real>>)
    ensures FFill(FFill(col)) == FFill(col)
  {
  }

  /** Row i of the filled frame: each numeric cell is the nearest defined
      value at or above it in its column. */
  function FilledRow(frame: seq<Row>, i: nat): (r: Row)
    requires i < |frame|
    ensures forall f :: Get(r, f) == LastDefined(Column(frame, f), i)
    ensures r.entry == frame[i].entry && r.exit == frame[i].exit
  {
    Row(LastDefined(Column(frame, Close), i), LastDefined(Column(frame, Volume), i),
        LastDefined(Column(frame, FastMA), i), LastDefined(Column(frame, SlowMA), i),
        LastDefined(Column(frame, Lowest), i), LastDefined(Column(frame, HtfClose), i),
        LastDefined(Column(frame, HtfFast), i), LastDefined(Column(frame, HtfSlow), i),
        frame[i].entry, frame[i].exit)
  }

  /** The fill applied to every numeric column of the merged frame. The signal
      columns do not exist yet when the fill runs and are passed through. */
  function FillFrame(frame: seq<Row>): (out: seq<Row>)
    ensures |out| == |frame|
    ensures forall f :: Column(out, f) == FFill(Column(frame, f))
    ensures forall i :: 0 <= i < |frame| ==> out[i].entry == frame[i].entry && out[i].exit == frame[i].exit
  {
    var out := seq(|frame|, i requires 0 <= i < |frame| => FilledRow(frame, i));
    assert forall f :: Column(out, f) == FFill(Column(frame, f)) by {
      forall f
        ensures Column(out, f) == FFill(Column(frame, f))
      {
        var lhs := Column(out, f);
        var rhs := FFill(Column(frame, f));
        assert forall i :: 0 <= i < |frame| ==> lhs[i] == rhs[i];
      }
    }
    out
  }

  /** Two frames with the same numeric columns and the same signal cells are
      the same frame. */
  lemma SameColumnsSameFrame(a: seq<Row>, b: seq<Row>)
    requires |a| == |b|
    requires forall f :: Column(a, f) == Column(b, f)
    requires forall i :: 0 <= i < |a| ==> a[i].entry == b[i].entry && a[i].exit == b[i].exit
    ensures a == b
  {
    forall i | 0 <= i < |a|
      ensures a[i] == b[i]
    {
      assert Column(a, Close)[i] == Column(b, Close)[i];
      assert Column(a, Volume)[i] == Column(b, Volume)[i];
      assert Column(a, FastMA)[i] == Column(b, FastMA)[i];
      assert Column(a, SlowMA)[i] == Column(b, SlowMA)[i];
      assert Column(a, Lowest)[i] == Column(b, Lowest)[i];
      assert Column(a, HtfClose)[i] == Column(b, HtfClose)[i];
      assert Column(a, HtfFast)[i] == Column(b, HtfFast)[i];
      assert Column(a, HtfSlow)[i] == Column(b, HtfSlow)[i];
    }
  }

  /** Filling the merged frame a second time changes nothing. */
  lemma FillFrameIdempotent(frame: seq<Row>)
    ensures FillFrame(FillFrame(frame)) == FillFrame(frame)
  {
    var once := FillFrame(frame);
    var twice := FillFrame(once);
    forall f
      ensures Column(twice, f) == Column(once, f)
    {
      FFillIdempotent(Column(frame, f));
    }
    SameColumnsSameFrame(twice, once);
  }
}
