/**
 * The baseline file and the monitor's run: the file is created with an
 * all-null baseline when it is missing or empty, read back (falling back to
 * an empty baseline when it cannot be parsed), and rewritten with the merged
 * baseline only when the run detected a change.
 */
module BaselineStore {
  import opened Wrappers
  import opened Indicators
  import opened Reconciler

  /** What the baseline file holds on disk. */
  datatype FileState =
    | Missing                      // no file
    | Empty                        // a file of size zero
    | Malformed                    // a file that is not valid JSON
    | Stored(contents: Baseline)   // a parsed baseline

  /** The baseline written on first use: every indicator, with no value and no date. */
  function InitialBaseline(): (b: Baseline)
    ensures forall i: Indicator :: Name(i) in b && b[Name(i)] == Record(None, None)
    ensures forall k :: k in b ==> exists i: Indicator :: Name(i) == k
  {
    map[
      Name(UnemploymentRate) := Record(None, None),
      Name(RealGdp) := Record(None, None),
      Name(ConsumerPriceIndex) := Record(None, None),
      Name(FedInterestRate) := Record(None, None),
      Name(ProducerPriceIndex) := Record(None, None),
      Name(NonFarmPayroll) := Record(None, None),
      Name(RetailSales) := Record(None, None),
      Name(FearAndGreed) := Record(None, None)
    ]
  }

  /** The file's state after the start-up initialisation. */
  function Initialized(s: FileState): (t: FileState)
    ensures !t.Missing? && !t.Empty?
    ensures s.Stored? || s.Malformed? ==> t == s
    ensures s.Missing? || s.Empty? ==> forall i: Indicator :: PrevValue(LoadedBaseline(t), Name(i)).None?
  {
    if s.Missing? || s.Empty? then Stored(InitialBaseline()) else s
  }

  /** The baseline a run starts from: the parsed file, or empty when there is none. */
  function LoadedBaseline(s: FileState): (b: Baseline)
    ensures s.Stored? ==> b == s.contents
    ensures !s.Stored? ==> forall k :: PrevValue(b, k).None?
  {
    if s.Stored? then s.contents else map[]
  }

  /**
   * With nothing stored for any indicator (the initial baseline, or the empty
   * fallback), every present fresh value is a change, and every change is
   * classified as a decrease.
   */
  lemma NothingStoredAllDecrease(prevData: Baseline, batch: Batch)
    requires forall i: Indicator :: PrevValue(prevData, Name(i)).None?
    ensures forall j :: 0 <= j < |batch| && batch[j].1.value.Some? ==>
              Change(batch[j].0, None, batch[j].1.value.value, batch[j].1.date) in Changes(prevData, batch)
    ensures forall c :: c in Changes(prevData, batch) ==>
              c.previous.None? && DirectionOf(c.previous, c.current) == Decrease
  {
    forall j | 0 <= j < |batch| && batch[j].1.value.Some?
      ensures Change(batch[j].0, None, batch[j].1.value.value, batch[j].1.date) in Changes(prevData, batch)
    {
      ChangesMembership(prevData, batch, Change(batch[j].0, None, batch[j].1.value.value, batch[j].1.date));
    }
    forall c | c in Changes(prevData, batch)
      ensures c.previous.None? && DirectionOf(c.previous, c.current) == Decrease
    {
      ChangesMembership(prevData, batch, c);
    }
  }

  /** Both starting points of a first run store nothing for any indicator. */
  lemma FreshStartsStoreNothing(i: Indicator)
    ensures PrevValue(InitialBaseline(), Name(i)).None?
    ensures PrevValue(LoadedBaseline(Malformed), Name(i)).None?
  {
  }

  /** The baseline file, kept in memory, with a count of how often it was written. */
  class BaselineFile {
    var state: FileState
    var writes: nat

    constructor (initial: FileState)
      ensures state == initial && writes == 0
    {
      state := initial;
      writes := 0;
    }

    /** Replaces the whole file with the given baseline. */
    method Write(data: Baseline)
      modifies this
      ensures state == Stored(data) && writes == old(writes) + 1
    {
      state := Stored(data);
      writes := writes + 1;
    }

    /** Reads the baseline; a missing, empty or unparsable file reads as empty. */
    method Load() returns (prevData: Baseline)
      ensures state.Stored? ==> prevData == state.contents
      ensures !state.Stored? ==> prevData == map[]
    {
      prevData := map[];
      if state.Stored? {
        prevData := state.contents;
      }
    }

    /** At start-up: a missing or empty file is written with the initial baseline. */
    method Initialize()
      modifies this
      ensures state == Initialized(old(state))
      ensures writes == if old(state).Missing? || old(state).Empty? then old(writes) + 1 else old(writes)
    {
      if state.Missing? || state.Empty? {
        Write(InitialBaseline());
      }
    }
  }

  /**
   * One run of the monitor after start-up: load the baseline, reconcile it
   * with the fetched values, send one alert per change in fetch order, and
   * write the merged baseline once if and only if something changed.
   */
  method CheckAndLogData(file: BaselineFile, fetch: Indicator -> Observation, render: real -> string)
    returns (sent: seq<string>)
    modifies file
    ensures var prevData := LoadedBaseline(old(file.state));
      var changes := Changes(prevData, FetchTable(fetch));
      && sent == Notifications(changes, render)
      && (changes == [] ==> file.state == old(file.state) && file.writes == old(file.writes))
      && (changes != [] ==> file.state == Stored(Committed(prevData, FetchTable(fetch)))
                            && file.writes == old(file.writes) + 1)
  {
    var prevData := file.Load();
    var indicators := FetchTable(fetch);
    var updated, newData;
    sent, updated, newData := Reconcile(prevData, indicators, render);
    if updated != [] {
      file.Write(Merge(prevData, newData));
    }
  }

  /** The script as a whole: start-up initialisation, then one run. */
  method RunOnce(file: BaselineFile, fetch: Indicator -> Observation, render: real -> string)
    returns (sent: seq<string>)
    modifies file
    ensures var changes := Changes(LoadedBaseline(Initialized(old(file.state))), FetchTable(fetch));
      sent == Notifications(changes, render)
    ensures var initWrites := if old(file.state).Missing? || old(file.state).Empty? then 1 else 0;
      var changes := Changes(LoadedBaseline(Initialized(old(file.state))), FetchTable(fetch));
      file.writes == old(file.writes) + initWrites + (if changes == [] then 0 else 1)
    ensures var started := Initialized(old(file.state));
      var changes := Changes(LoadedBaseline(started), FetchTable(fetch));
      file.state == if changes == [] then started else Stored(Committed(LoadedBaseline(started), FetchTable(fetch)))
  {
    file.Initialize();
    sent := CheckAndLogData(file, fetch, render);
  }

  /**
   * Idempotence of the whole run: a second run with the same fetched values
   * sends no alert and does not write the file, so the two runs together
   * send and store exactly what the first one does.
   */
  method RerunIsQuiet(file: BaselineFile, fetch: Indicator -> Observation, render: real -> string)
    returns (first: seq<string>, second: seq<string>)
    modifies file
    ensures second == []
    ensures var changes := Changes(LoadedBaseline(old(file.state)), FetchTable(fetch));
      first == Notifications(changes, render)
    ensures var changes := Changes(LoadedBaseline(old(file.state)), FetchTable(fetch));
      file.writes == old(file.writes) + (if changes == [] then 0 else 1)
    ensures var prevData := LoadedBaseline(old(file.state));
      var changes := Changes(prevData, FetchTable(fetch));
      file.state == if changes == [] then old(file.state) else Stored(Committed(prevData, FetchTable(fetch)))
  {
    first := CheckAndLogData(file, fetch, render);
    ghost var between := file.writes;
    RerunDetectsNothing(LoadedBaseline(old(file.state)), FetchTable(fetch));
    second := CheckAndLogData(file, fetch, render);
    assert file.writes == between;
  }

}
