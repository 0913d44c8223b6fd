/** The per-row entry/exit classifier of the three strategies and the frame
    operation that writes its verdict into the signal columns
    (`populate_buy_trend`/`populate_entry_trend` and the exit counterparts). */
module Signals {
  import opened Wrappers
  import opened Candle

  /** pandas `a > b` on two float cells: false as soon as either side is NaN.
      `a < b` is written `Above(b, a)`. */
  predicate Above(a: Option<real>, b: Option<real>) {
    a.Some? && b.Some? && a.value > b.value
  }

  /** Base timeframe is bullish: fast EMA over slow EMA, close over fast EMA,
      and some volume traded. */
  predicate Bull(row: Row) {
    Above(row.fastMA, row.slowMA) && Above(row.close, row.fastMA) && Above(row.volume, Some(0.0))
  }

  /** Base timeframe is bearish: the strict mirror of Bull. */
  predicate Bear(row: Row) {
    Above(row.slowMA, row.fastMA) && Above(row.fastMA, row.close) && Above(row.volume, Some(0.0))
  }

  /** The resampled overlay is bullish. */
  predicate OverlayBull(row: Row) {
    Above(row.htfFast, row.htfSlow) && Above(row.htfClose, row.htfFast)
  }

  /** The resampled overlay is bearish. */
  predicate OverlayBear(row: Row) {
    Above(row.htfSlow, row.htfFast) && Above(row.htfFast, row.htfClose)
  }

  /** Whether variant `v` sets its `side` signal column on `row`. */
  predicate Fires(v: Variant, side: Side, row: Row) {
    match (v, side)
    case (MultiActionZone, Entry) => OverlayBull(row) && Bull(row)
    case (MultiActionZone, Exit) => OverlayBear(row) && Bear(row)
    case (_, Entry) => Bull(row)
    case (_, Exit) => Bear(row)
  }

  /** The fields the rule of variant `v` reads. */
  function Operands(v: Variant): set<Field> {
    if v == MultiActionZone then {Close, Volume, FastMA, SlowMA, HtfClose, HtfFast, HtfSlow}
    else {Close, Volume, FastMA, SlowMA}
  }

  /** Single-timeframe entry: fast > slow, close > fast and volume > 0, all
      three defined on the row. */
  lemma SingleEntryIff(v: Variant, r: Row)
    requires v != MultiActionZone
    ensures Fires(v, Entry, r) <==>
      && r.fastMA.Some? && r.slowMA.Some? && r.close.Some? && r.volume.Some?
      && r.fastMA.value > r.slowMA.value
      && r.close.value > r.fastMA.value
      && r.volume.value > 0.0
  {
  }

  /** Single-timeframe exit: fast < slow, close < fast and volume > 0. */
  lemma SingleExitIff(v: Variant, r: Row)
    requires v != MultiActionZone
    ensures Fires(v, Exit, r) <==>
      && r.fastMA.Some? && r.slowMA.Some? && r.close.Some? && r.volume.Some?
      && r.fastMA.value < r.slowMA.value
      && r.close.value < r.fastMA.value
      && r.volume.value > 0.0
  {
  }

  /** Multi-timeframe entry: the five conjuncts hold on the same row. */
  lemma MultiEntryIff(r: Row)
    ensures Fires(MultiActionZone, Entry, r) <==>
      && r.htfFast.Some? && r.htfSlow.Some? && r.htfClose.Some?
      && r.fastMA.Some? && r.slowMA.Some? && r.close.Some? && r.volume.Some?
      && r.htfFast.value > r.htfSlow.value
      && r.htfClose.value > r.htfFast.value
      && r.fastMA.value > r.slowMA.value
      && r.close.value > r.fastMA.value
      && r.volume.value > 0.0
  {
  }

  /** Multi-timeframe exit: the five mirrored conjuncts hold on the same row. */
  lemma MultiExitIff(r: Row)
    ensures Fires(MultiActionZone, Exit, r) <==>
      && r.htfFast.Some? && r.htfSlow.Some? && r.htfClose.Some?
      && r.fastMA.Some? && r.slowMA.Some? && r.close.Some? && r.volume.Some?
      && r.htfFast.value < r.htfSlow.value
      && r.htfClose.value < r.htfFast.value
      && r.fastMA.value < r.slowMA.value
      && r.close.value < r.fastMA.value
      && r.volume.value > 0.0
  {
  }

  /** The two single-timeframe classes classify every row alike; they differ
      only in the names of the columns they write. This holds by construction:
      both variants share the default arms of `Fires`, a choice justified by
      the two Python rules being written identically, not by this proof. */
  lemma RootAndUserAgree(side: Side, r: Row)
    ensures Fires(RootActionZone, side, r) <==> Fires(UserActionZone, side, r)
  {
  }

  /** No row fires both signals: fast > slow and fast < slow exclude each other. */
  lemma SignalsExclusive(v: Variant, r: Row)
    ensures !(Fires(v, Entry, r) && Fires(v, Exit, r))
  {
  }

  /** A tie between the averages, a tie between close and the fast average, or
      no traded volume sets neither signal. */
  lemma TieOrIdleFiresNeither(v: Variant, r: Row)
    requires r.fastMA == r.slowMA || r.close == r.fastMA || (r.volume.Some? && r.volume.value <= 0.0)
    ensures !Fires(v, Entry, r) && !Fires(v, Exit, r)
  {
  }

  /** A NaN in any column the rule reads sets neither signal. */
  lemma MissingOperandFiresNeither(v: Variant, r: Row, f: Field)
    requires f in Operands(v) && Get(r, f).None?
    ensures !Fires(v, Entry, r) && !Fires(v, Exit, r)
  {
  }

  /** The multi-timeframe rule refines the single-timeframe rule: every row it
      fires on also fires the plain rule. */
  lemma MultiRefinesSingle(side: Side, r: Row)
    ensures Fires(MultiActionZone, side, r) ==> Fires(UserActionZone, side, r)
  {
  }

  /** The refinement is strict: a bullish base row under a missing overlay
      enters in the single-timeframe classes only. */
  lemma MultiRefinementIsStrict()
    ensures exists r :: Fires(UserActionZone, Entry, r) && !Fires(MultiActionZone, Entry, r)
  {
    var r := Row(Some(3.0), Some(1.0), Some(2.0), Some(1.0), None, None, None, None, None, None);
    assert Fires(UserActionZone, Entry, r) && !Fires(MultiActionZone, Entry, r);
  }

  function Negate(x: Option<real>): Option<real> {
    match x
    case None => None
    case Some(p) => Some(-p)
  }

  /** The row with every price the rules compare negated; volume is kept. */
  function Mirror(r: Row): Row {
    r.(close := Negate(r.close), fastMA := Negate(r.fastMA), slowMA := Negate(r.slowMA),
       htfClose := Negate(r.htfClose), htfFast := Negate(r.htfFast), htfSlow := Negate(r.htfSlow))
  }

  /** Exit is the exact mirror of entry: negating all prices turns every entry
      into an exit and every exit into an entry. */
  lemma MirrorSwapsSignals(v: Variant, r: Row)
    ensures Fires(v, Exit, Mirror(r)) <==> Fires(v, Entry, r)
    ensures Fires(v, Entry, Mirror(r)) <==> Fires(v, Exit, r)
  {
  }

  /** The row with its `side` signal cell replaced by `x`. */
  function WithSignal(row: Row, side: Side, x: Option<int>): Row {
    match side
    case Entry => row.(entry := x)
    case Exit => row.(exit := x)
  }

  /** `dataframe.loc[rule, column] = 1` restricted to one row. */
  function MarkRow(v: Variant, side: Side, row: Row): Row {
    if Fires(v, side, row) then WithSignal(row, side, Some(Fired)) else row
  }

  /** The populate_*_trend hooks: the `side` column becomes 1 on exactly the
      rows where the rule fires; every other cell, in that column or any other,
      is left as it was. */
  function Populate(v: Variant, side: Side, frame: seq<Row>): (out: seq<Row>)
    ensures |out| == |frame|
    ensures forall i :: 0 <= i < |frame| ==>
      Signal(out[i], side) == (if Fires(v, side, frame[i]) then Some(Fired) else Signal(frame[i], side))
    ensures forall i :: 0 <= i < |frame| ==> out[i] == WithSignal(frame[i], side, Signal(out[i], side))
  {
    if |frame| == 0 then []
    else Populate(v, side, frame[..|frame| - 1]) + [MarkRow(v, side, frame[|frame| - 1])]
  }

  /** Whether no signal cell of the frame has been written yet. */
  predicate Unsignalled(frame: seq<Row>) {
    forall i :: 0 <= i < |frame| ==> frame[i].entry.None? && frame[i].exit.None?
  }

  /** Running the entry hook and then the exit hook on a fresh frame: a row gets
      the entry mark iff the entry rule fires on it, the exit mark iff the exit
      rule fires, and never both. */
  lemma PopulateBothExclusive(v: Variant, frame: seq<Row>)
    requires Unsignalled(frame)
    ensures var out := Populate(v, Exit, Populate(v, Entry, frame));
      && |out| == |frame|
      && (forall i :: 0 <= i < |frame| ==> (out[i].entry == Some(Fired) <==> Fires(v, Entry, frame[i])))
      && (forall i :: 0 <= i < |frame| ==> (out[i].exit == Some(Fired) <==> Fires(v, Exit, frame[i])))
      && (forall i :: 0 <= i < |frame| ==> !(out[i].entry.Some? && out[i].exit.Some?))
  {
  }
}
