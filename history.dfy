/**
 * What the baseline holds after a series of runs: for every indicator, the
 * most recent value that any run reported for it (the "last known good"
 * value), or the original stored value when no run ever reported one.
 */
module History {
  import opened Wrappers
  import opened Indicators
  import opened Reconciler

  /** The present value a table reports for an indicator, if any. */
  function Reported(batch: Batch, i: Indicator): Option<real>
    decreases |batch|
  {
    if batch == [] then None
    else
      var (key, obs) := batch[|batch| - 1];
      if key == i && obs.value.Some? then obs.value else Reported(batch[..|batch| - 1], i)
  }

  /** The most recent present value reported for an indicator over a series of runs. */
  function LastReported(runs: seq<Batch>, i: Indicator): Option<real>
    decreases |runs|
  {
    if runs == [] then None
    else if Reported(runs[|runs| - 1], i).Some? then Reported(runs[|runs| - 1], i)
    else LastReported(runs[..|runs| - 1], i)
  }

  /** The baseline after committing each run in turn. */
  function Replay(baseline: Baseline, runs: seq<Batch>): Baseline
    decreases |runs|
  {
    if runs == [] then baseline
    else Committed(Replay(baseline, runs[..|runs| - 1]), runs[|runs| - 1])
  }

  /** In a dictionary-like table, the reported value is that of the indicator's entry. */
  lemma {:induction false} ReportedAt(batch: Batch, j: nat)
    requires DistinctIndicators(batch)
    requires j < |batch| && batch[j].1.value.Some?
    ensures Reported(batch, batch[j].0) == batch[j].1.value
    decreases |batch|
  {
    var init := batch[..|batch| - 1];
    if j < |batch| - 1 {
      assert init[j] == batch[j];
      assert DistinctIndicators(init);
      ReportedAt(init, j);
    }
  }

  /**
   * After one run, the stored value of an indicator is the value the run
   * reported for it, or the previously stored value when it reported none.
   */
  lemma CommittedValue(prevData: Baseline, batch: Batch, i: Indicator)
    requires DistinctIndicators(batch)
    ensures PrevValue(Committed(prevData, batch), Name(i)) ==
            if Reported(batch, i).Some? then Reported(batch, i) else PrevValue(prevData, Name(i))
  {
    if j :| 0 <= j < |batch| && batch[j].0 == i && batch[j].1.value.Some? {
      ReportedAt(batch, j);
      if Detect(prevData, batch[j]).Some? {
        CommittedChanged(prevData, batch, j);
      } else {
        UnchangedEntry(prevData, batch, j);
      }
    } else {
      if Reported(batch, i).Some? {
        ReportedSome(batch, i);
      }
      forall j | 0 <= j < |batch| && Name(batch[j].0) == Name(i)
        ensures Detect(prevData, batch[j]).None?
      {
        NameInjective(batch[j].0, i);
      }
      CommittedUnchanged(prevData, batch, Name(i));
    }
  }

  /** A reported value comes from some entry of the table. */
  lemma {:induction false} ReportedSome(batch: Batch, i: Indicator)
    requires Reported(batch, i).Some?
    ensures exists j :: 0 <= j < |batch| && batch[j].0 == i && batch[j].1.value == Reported(batch, i)
    decreases |batch|
  {
    var init := batch[..|batch| - 1];
    var (key, obs) := batch[|batch| - 1];
    if !(key == i && obs.value.Some?) {
      ReportedSome(init, i);
      var j :| 0 <= j < |init| && init[j].0 == i && init[j].1.value == Reported(init, i);
      assert batch[j] == init[j];
    }
  }

  /**
   * Last known good: after any series of runs, each indicator's stored value
   * is the most recent value any run reported for it; an indicator no run
   * reported keeps its original stored value.
   */
  lemma {:induction false} LastKnownGood(baseline: Baseline, runs: seq<Batch>, i: Indicator)
    requires forall r :: 0 <= r < |runs| ==> DistinctIndicators(runs[r])
    ensures PrevValue(Replay(baseline, runs), Name(i)) ==
            if LastReported(runs, i).Some? then LastReported(runs, i) else PrevValue(baseline, Name(i))
    decreases |runs|
  {
    if runs != [] {
      var init := runs[..|runs| - 1];
      assert forall r :: 0 <= r < |init| ==> init[r] == runs[r];
      LastKnownGood(baseline, init, i);
      CommittedValue(Replay(baseline, init), runs[|runs| - 1], i);
    }
  }

  /**
   * A concrete run: with a stored CPI of 300.0 (dated 2024-01) and a fresh
   * 305.0 (dated 2024-02), the run finds one change, classifies it as an
   * increase, and stores the new value and date.
   */
  lemma CpiIncreaseExample()
    ensures var prevData := map[Name(ConsumerPriceIndex) := Record(Some(300.0), Some("2024-01"))];
      var batch := [(ConsumerPriceIndex, Observation(Some(305.0), Some("2024-02")))];
      && Changes(prevData, batch) == [Change(ConsumerPriceIndex, Some(300.0), 305.0, Some("2024-02"))]
      && DirectionOf(Some(300.0), 305.0) == Increase
      && Committed(prevData, batch)[Name(ConsumerPriceIndex)] == Record(Some(305.0), Some("2024-02"))
  {
    var prevData := map[Name(ConsumerPriceIndex) := Record(Some(300.0), Some("2024-01"))];
    var batch := [(ConsumerPriceIndex, Observation(Some(305.0), Some("2024-02")))];
    var c := Change(ConsumerPriceIndex, Some(300.0), 305.0, Some("2024-02"));
    assert PrevValue(prevData, Name(ConsumerPriceIndex)) == Some(300.0);
    assert Detect(prevData, batch[0]) == Some(c);
    ChangesStep(prevData, batch, 0);
    assert batch[..1] == batch;
    assert batch[..0] == [];
    assert Changes(prevData, batch) == [c];
    OverridesStep([], c);
    assert [] + [c] == [c];
  }

  /**
   * The same run sends exactly one alert: the stored and fresh CPI values,
   * the up label and the increase text of the CPI catalog entry.
   */
  lemma CpiIncreaseAlert(render: real -> string)
    ensures var prevData := map[Name(ConsumerPriceIndex) := Record(Some(300.0), Some("2024-01"))];
      var batch := [(ConsumerPriceIndex, Observation(Some(305.0), Some("2024-02")))];
      Notifications(Changes(prevData, batch), render) ==
        [FormatMessage(Name(ConsumerPriceIndex), Some(300.0), 305.0, Increase, Impact(ConsumerPriceIndex, Increase), render)]
  {
    CpiIncreaseExample();
    var c := Change(ConsumerPriceIndex, Some(300.0), 305.0, Some("2024-02"));
    assert Notifications([c], render) == [Message(c, render)];
  }

}
