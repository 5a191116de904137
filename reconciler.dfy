/**
 * The change detector and reconciler of `check_and_log_data`: compare each
 * fresh observation with the stored baseline, classify and announce every
 * change, and collect the overrides that the merged baseline is built from.
 *
 * The specification functions (Detect, Changes, Overrides, Merge, Message)
 * say what one run computes; the method Reconcile computes it with the
 * source's loop; the lemmas state what the run promises.
 */
module Reconciler {
  import opened Wrappers
  import opened Indicators
  import opened Sequences

  /** A stored `{value, date}` entry; a JSON `null` is `None`. */
  datatype Record = Record(value: Option<real>, date: Option<string>)

  /** The persisted baseline: indicator key to record. Unknown keys may occur. */
  type Baseline = map<string, Record>

  /** One fetch result: `(value, date)`, or `(None, None)` when the fetch failed. */
  datatype Observation = Observation(value: Option<real>, date: Option<string>)

  /** The table of fresh observations a run works through, in order. */
  type Batch = seq<(Indicator, Observation)>

  /** A detected change of one indicator: the stored and the fresh value. */
  datatype Change = Change(indicator: Indicator, previous: Option<real>, current: real, date: Option<string>)

  /** The stored value of a key; a missing key reads as `None`. */
  function PrevValue(prevData: Baseline, key: string): (v: Option<real>)
    ensures key !in prevData ==> v.None?
    ensures v.Some? ==> key in prevData && prevData[key].value == v
  {
    if key in prevData then prevData[key].value else None
  }

  /** The fresh table built from one fetcher per indicator, in fetch order. */
  function FetchTable(fetch: Indicator -> Observation): (t: Batch)
    ensures |t| == 8
    ensures forall i: Indicator :: t[Position(i)] == (i, fetch(i))
    ensures DistinctIndicators(t)
  {
    var order := FetchOrder();
    var t := seq(|order|, k requires 0 <= k < |order| => (order[k], fetch(order[k])));
    assert forall i: Indicator :: Position(i) < |order| && order[Position(i)] == i;
    t
  }

  /** No indicator occurs twice: the table is a dictionary. */
  ghost predicate DistinctIndicators(batch: Batch) {
    forall a, b :: 0 <= a < b < |batch| ==> batch[a].0 != batch[b].0
  }

  /**
   * The direction rule: an increase needs a stored value that the fresh
   * value exceeds; everything else, a missing stored value included, is a
   * decrease.
   */
  function DirectionOf(previous: Option<real>, current: real): (d: Direction)
    ensures d == Increase ==> previous.Some? && previous.value < current
    ensures previous.Some? && current < previous.value ==> d == Decrease
  {
    if previous.Some? && current > previous.value then Increase else Decrease
  }

  /** A first observation is always classified as a decrease. */
  lemma FirstObservationIsDecrease(current: real)
    ensures DirectionOf(None, current) == Decrease
  {
  }

  /** For a genuine change of a stored value, the direction tells which way it went. */
  lemma DirectionOfChange(previous: real, current: real)
    requires previous != current
    ensures DirectionOf(Some(previous), current) == Increase <==> current > previous
    ensures DirectionOf(Some(previous), current) == Decrease <==> current < previous
  {
  }

  /**
   * The decision for one table entry: a change exactly when the fresh value
   * is present and differs from the stored one.
   */
  function Detect(prevData: Baseline, entry: (Indicator, Observation)): (r: Option<Change>)
    ensures r.None? <==> entry.1.value.None? || entry.1.value == PrevValue(prevData, Name(entry.0))
    ensures r.Some? ==> && r.value.indicator == entry.0
                        && Some(r.value.current) == entry.1.value && r.value.date == entry.1.date
                        && r.value.previous == PrevValue(prevData, Name(entry.0))
                        && r.value.previous != Some(r.value.current)
  {
    var (key, obs) := entry;
    if obs.value.Some? && PrevValue(prevData, Name(key)) != obs.value then
      Some(Change(key, PrevValue(prevData, Name(key)), obs.value.value, obs.date))
    else
      None
  }

  /** The changes of a run, in table order. */
  function Changes(prevData: Baseline, batch: Batch): seq<Change> {
    Collect(entry => Detect(prevData, entry), batch)
  }

  /** The overrides (`new_data`) a list of changes produces. */
  function Overrides(changes: seq<Change>): (o: Baseline)
    ensures forall c :: c in changes ==> Name(c.indicator) in o
    ensures forall k :: k in o ==> o[k].value.Some?
    decreases |changes|
  {
    if changes == [] then map[]
    else
      var c := changes[|changes| - 1];
      assert changes == changes[..|changes| - 1] + [c];
      Overrides(changes[..|changes| - 1])[Name(c.indicator) := Record(Some(c.current), c.date)]
  }

  /** The alerts sent for a list of changes, one each, in order. */
  function Notifications(changes: seq<Change>, render: real -> string): seq<string> {
    seq(|changes|, i requires 0 <= i < |changes| => Message(changes[i], render))
  }

  /** The changed indicators (`updated_indicators`), in order. */
  function ChangedIndicators(changes: seq<Change>): seq<Indicator>
    decreases |changes|
  {
    if changes == [] then []
    else ChangedIndicators(changes[..|changes| - 1]) + [changes[|changes| - 1].indicator]
  }

  /** `{**prev_data, **new_data}`: every key of both, the new record winning. */
  function Merge(prevData: Baseline, newData: Baseline): (merged: Baseline)
    ensures merged.Keys == prevData.Keys + newData.Keys
    ensures forall k :: k in newData ==> merged[k] == newData[k]
    ensures forall k :: k in prevData && k !in newData ==> merged[k] == prevData[k]
  {
    prevData + newData
  }

  /** The baseline a run leaves behind in the store. */
  function Committed(prevData: Baseline, batch: Batch): (merged: Baseline)
    ensures prevData.Keys <= merged.Keys
    ensures forall k :: k in merged && k !in prevData ==> merged[k].value.Some?
  {
    Merge(prevData, Overrides(Changes(prevData, batch)))
  }

  // ---------------------------------------------------------------------
  // The alert text

  /** Shown in place of a previous value when there is none. */
  const MissingMarker := "无记录的"

  /** How the previous value is shown. */
  function PrevDisplay(previous: Option<real>, render: real -> string): string {
    if previous.Some? then render(previous.value) else MissingMarker
  }

  function DirectionLabel(direction: Direction): string {
    if direction == Increase then "📈 增加" else "📉 减少"
  }

  /** The alert: `<key> 更新: 由 <prev> 变为 <current> (<label>, <impact>)`. */
  function FormatMessage(key: string, previous: Option<real>, current: real, direction: Direction,
                         impact: string, render: real -> string): (m: string)
    ensures StartsWith(m, key)
    ensures EndsWith(m, impact + ")")
  {
    var head := key + " 更新: 由 " + PrevDisplay(previous, render) + " 变为 " + render(current);
    var tail := " (" + DirectionLabel(direction) + ", " + impact + ")";
    assert head[..|key|] == key;
    StartsWithConcat(head, tail, key);
    EndsWithConcat(" (" + DirectionLabel(direction) + ", ", impact + ")");
    EndsWithSuffix(head, tail, impact + ")");
    head + tail
  }

  /** The alert announced for a change: its direction and the catalog's impact text. */
  function Message(c: Change, render: real -> string): (m: string)
    ensures StartsWith(m, Name(c.indicator))
    ensures EndsWith(m, Impact(c.indicator, DirectionOf(c.previous, c.current)) + ")")
  {
    var direction := DirectionOf(c.previous, c.current);
    FormatMessage(Name(c.indicator), c.previous, c.current, direction, Impact(c.indicator, direction), render)
  }

  predicate StartsWith(s: string, prefix: string) {
    |prefix| <= |s| && s[..|prefix|] == prefix
  }

  predicate EndsWith(s: string, suffix: string) {
    |suffix| <= |s| && s[|s| - |suffix|..] == suffix
  }

  lemma StartsWithConcat(s: string, t: string, prefix: string)
    requires StartsWith(s, prefix)
    ensures StartsWith(s + t, prefix)
  {
    assert (s + t)[..|prefix|] == s[..|prefix|];
  }

  lemma EndsWithConcat(s: string, t: string)
    ensures EndsWith(s + t, t)
  {
    assert (s + t)[|s|..] == t;
  }

  lemma EndsWithSuffix(s: string, t: string, suffix: string)
    requires EndsWith(t, suffix)
    ensures EndsWith(s + t, suffix)
  {
    assert (s + t)[|s + t| - |suffix|..] == t[|t| - |suffix|..];
  }

  /** A string ends with at most one of two different suffixes of the same length. */
  lemma EndsWithOne(s: string, t: string, u: string)
    requires EndsWith(s, t) && |t| == |u| && t != u
    ensures !EndsWith(s, u)
  {
  }

  /**
   * The alert names the indicator, its previous value (the marker `无记录的`
   * when there was none) and its fresh value.
   */
  lemma MessageShowsPrevious(key: string, previous: Option<real>, current: real, direction: Direction,
                             impact: string, render: real -> string)
    ensures var m := FormatMessage(key, previous, current, direction, impact, render);
      && (previous.None? ==> StartsWith(m, key + " 更新: 由 " + MissingMarker + " 变为 " + render(current)))
      && (previous.Some? ==> StartsWith(m, key + " 更新: 由 " + render(previous.value) + " 变为 " + render(current)))
  {
    var head := key + " 更新: 由 " + PrevDisplay(previous, render) + " 变为 " + render(current);
    var tail := " (" + DirectionLabel(direction) + ", " + impact + ")";
    assert StartsWith(head, head);
    StartsWithConcat(head, tail, head);
  }

  /**
   * The alert ends with the up label and the impact text exactly when the
   * direction is an increase, and with the down label exactly when it is a
   * decrease.
   */
  lemma MessageShowsDirection(key: string, previous: Option<real>, current: real, direction: Direction,
                              impact: string, render: real -> string)
    ensures var m := FormatMessage(key, previous, current, direction, impact, render);
      && (EndsWith(m, " (" + "📈 增加" + ", " + impact + ")") <==> direction == Increase)
      && (EndsWith(m, " (" + "📉 减少" + ", " + impact + ")") <==> direction == Decrease)
  {
    var head := key + " 更新: 由 " + PrevDisplay(previous, render) + " 变为 " + render(current);
    var up := " (" + "📈 增加" + ", " + impact + ")";
    var down := " (" + "📉 减少" + ", " + impact + ")";
    var tail := " (" + DirectionLabel(direction) + ", " + impact + ")";
    EndsWithConcat(head, tail);
    assert up[2] != down[2];
    if direction == Increase {
      EndsWithOne(head + tail, up, down);
    } else {
      EndsWithOne(head + tail, down, up);
    }
  }

  // ---------------------------------------------------------------------
  // The reconciliation loop

  /**
   * The loop of `check_and_log_data`: for every table entry with a present
   * value that differs from the stored one, record the override, classify
   * the direction, look up the impact, send the alert and remember the
   * indicator. Alerts are returned in the order they are sent.
   */
  method Reconcile(prevData: Baseline, batch: Batch, render: real -> string)
    returns (sent: seq<string>, updated: seq<Indicator>, newData: Baseline)
    ensures sent == Notifications(Changes(prevData, batch), render)
    ensures updated == ChangedIndicators(Changes(prevData, batch))
    ensures newData == Overrides(Changes(prevData, batch))
  {
    sent, updated, newData := [], [], map[];
    ghost var changes: seq<Change> := [];
    for n := 0 to |batch|
      invariant changes == Changes(prevData, batch[..n])
      invariant sent == Notifications(changes, render)
      invariant updated == ChangedIndicators(changes)
      invariant newData == Overrides(changes)
    {
      ChangesStep(prevData, batch, n);
      var (key, obs) := batch[n];
      if obs.value.Some? {
        var currentValue := obs.value.value;
        var prevValue := PrevValue(prevData, Name(key));
        if prevValue != obs.value {
          newData := newData[Name(key) := Record(obs.value, obs.date)];
          var direction := DirectionOf(prevValue, currentValue);
          var impact := Impact(key, direction);
          var message := FormatMessage(Name(key), prevValue, currentValue, direction, impact, render);
          sent := sent + [message];
          updated := updated + [key];
          ghost var c := Change(key, prevValue, currentValue, obs.date);
          assert Detect(prevData, batch[n]) == Some(c);
          assert message == Message(c, render);
          OverridesStep(changes, c);
          NotificationsStep(changes, c, render);
          changes := changes + [c];
        }
      }
    }
    assert batch[..|batch|] == batch;
  }

  /** One more table entry adds its change, if any, at the end. */
  lemma ChangesStep(prevData: Baseline, batch: Batch, n: nat)
    requires n < |batch|
    ensures Changes(prevData, batch[..n + 1]) == Changes(prevData, batch[..n]) + Present(Detect(prevData, batch[n]))
  {
    CollectStep(entry => Detect(prevData, entry), batch, n);
  }

  /** One more change adds its alert and its indicator at the end. */
  lemma NotificationsStep(changes: seq<Change>, c: Change, render: real -> string)
    ensures Notifications(changes + [c], render) == Notifications(changes, render) + [Message(c, render)]
    ensures ChangedIndicators(changes + [c]) == ChangedIndicators(changes) + [c.indicator]
  {
    assert (changes + [c])[..|changes|] == changes;
  }

  /** One more change adds its override. */
  lemma OverridesStep(changes: seq<Change>, c: Change)
    ensures Overrides(changes + [c]) == Overrides(changes)[Name(c.indicator) := Record(Some(c.current), c.date)]
  {
    assert (changes + [c])[..|changes|] == changes;
  }

  // ---------------------------------------------------------------------
  // What a run promises

  /** The list of changed indicators follows the changes, position by position. */
  lemma {:induction false} ChangedIndicatorsAt(changes: seq<Change>)
    ensures |ChangedIndicators(changes)| == |changes|
    ensures forall i :: 0 <= i < |changes| ==> ChangedIndicators(changes)[i] == changes[i].indicator
    decreases |changes|
  {
    if changes != [] {
      var init := changes[..|changes| - 1];
      ChangedIndicatorsAt(init);
      assert forall i :: 0 <= i < |init| ==> init[i] == changes[i];
    }
  }

  /** A change comes from exactly the table entries that Detect flags. */
  lemma ChangesMembership(prevData: Baseline, batch: Batch, c: Change)
    ensures c in Changes(prevData, batch) <==>
            exists j :: 0 <= j < |batch| && Detect(prevData, batch[j]) == Some(c)
  {
    var detect := entry => Detect(prevData, entry);
    CollectMembership(detect, batch, c);
    assert forall j :: 0 <= j < |batch| ==> detect(batch[j]) == Detect(prevData, batch[j]);
  }

  /** Alerts keep the table order: the changes of a concatenation are concatenated. */
  lemma ChangesAppend(prevData: Baseline, front: Batch, back: Batch)
    ensures Changes(prevData, front + back) == Changes(prevData, front) + Changes(prevData, back)
  {
    CollectAppend(entry => Detect(prevData, entry), front, back);
  }

  /** The indicators of the changes of a dictionary-like table are distinct. */
  lemma {:induction false} ChangesDistinct(prevData: Baseline, batch: Batch)
    requires DistinctIndicators(batch)
    ensures DistinctChanges(Changes(prevData, batch))
    decreases |batch|
  {
    if batch != [] {
      var init := batch[..|batch| - 1];
      var last := batch[|batch| - 1];
      ChangesDistinct(prevData, init);
      ChangesStep(prevData, batch, |batch| - 1);
      assert batch[..|batch|] == batch;
      var cs := Changes(prevData, init);
      if Detect(prevData, last).Some? {
        var c := Detect(prevData, last).value;
        forall a | 0 <= a < |cs|
          ensures cs[a].indicator != c.indicator
        {
          ChangesMembership(prevData, init, cs[a]);
          var j :| 0 <= j < |init| && Detect(prevData, init[j]) == Some(cs[a]);
          assert init[j] == batch[j];
        }
      }
    }
  }

  /** No indicator changes twice in the list. */
  ghost predicate DistinctChanges(changes: seq<Change>) {
    forall a, b :: 0 <= a < b < |changes| ==> changes[a].indicator != changes[b].indicator
  }

  /** The keys of the overrides are exactly the keys of the changed indicators. */
  lemma {:induction false} OverridesKeys(changes: seq<Change>, k: string)
    ensures k in Overrides(changes) <==> exists i :: 0 <= i < |changes| && Name(changes[i].indicator) == k
    decreases |changes|
  {
    if changes != [] {
      var init := changes[..|changes| - 1];
      OverridesKeys(init, k);
      if i :| 0 <= i < |init| && Name(init[i].indicator) == k {
        assert changes[i] == init[i];
      }
      if i :| 0 <= i < |changes| - 1 && Name(changes[i].indicator) == k {
        assert init[i] == changes[i];
      }
    }
  }

  /** Each change's override holds its fresh value and date. */
  lemma {:induction false} OverridesValue(changes: seq<Change>, i: nat)
    requires DistinctChanges(changes)
    requires i < |changes|
    ensures Name(changes[i].indicator) in Overrides(changes)
    ensures Overrides(changes)[Name(changes[i].indicator)] == Record(Some(changes[i].current), changes[i].date)
    decreases |changes|
  {
    var init := changes[..|changes| - 1];
    var c := changes[|changes| - 1];
    if i < |changes| - 1 {
      assert init[i] == changes[i];
      assert DistinctChanges(init);
      OverridesValue(init, i);
      NameInjective(changes[i].indicator, c.indicator);
    }
  }

  /** A key is overridden exactly when some table entry under that key changed. */
  lemma OverriddenKeys(prevData: Baseline, batch: Batch, k: string)
    ensures k in Overrides(Changes(prevData, batch)) <==>
            exists j :: 0 <= j < |batch| && Name(batch[j].0) == k && Detect(prevData, batch[j]).Some?
  {
    var cs := Changes(prevData, batch);
    OverridesKeys(cs, k);
    if k in Overrides(cs) {
      var i :| 0 <= i < |cs| && Name(cs[i].indicator) == k;
      ChangesMembership(prevData, batch, cs[i]);
      var j :| 0 <= j < |batch| && Detect(prevData, batch[j]) == Some(cs[i]);
      assert Name(batch[j].0) == k && Detect(prevData, batch[j]).Some?;
    }
    if j :| 0 <= j < |batch| && Name(batch[j].0) == k && Detect(prevData, batch[j]).Some? {
      var c := Detect(prevData, batch[j]).value;
      ChangesMembership(prevData, batch, c);
      var i :| 0 <= i < |cs| && cs[i] == c;
      assert Name(cs[i].indicator) == k;
    }
  }

  /** The committed record of a changed entry holds its fresh value and date. */
  lemma CommittedChanged(prevData: Baseline, batch: Batch, j: nat)
    requires DistinctIndicators(batch)
    requires j < |batch| && Detect(prevData, batch[j]).Some?
    ensures Name(batch[j].0) in Committed(prevData, batch)
    ensures Committed(prevData, batch)[Name(batch[j].0)] == Record(batch[j].1.value, batch[j].1.date)
  {
    var cs := Changes(prevData, batch);
    var c := Detect(prevData, batch[j]).value;
    ChangesMembership(prevData, batch, c);
    ChangesDistinct(prevData, batch);
    var i :| 0 <= i < |cs| && cs[i] == c;
    OverridesValue(cs, i);
  }

  /**
   * A key under which no table entry changed (failed fetch, equal value, or
   * a key outside the table) keeps its stored record, or stays absent.
   */
  lemma CommittedUnchanged(prevData: Baseline, batch: Batch, k: string)
    requires forall j :: 0 <= j < |batch| && Name(batch[j].0) == k ==> Detect(prevData, batch[j]).None?
    ensures k in Committed(prevData, batch) <==> k in prevData
    ensures k in prevData ==> Committed(prevData, batch)[k] == prevData[k]
  {
    OverriddenKeys(prevData, batch, k);
  }

  /** A failed fetch (`None` value) sends nothing and leaves its stored record alone. */
  lemma NullObservationIgnored(prevData: Baseline, batch: Batch, j: nat)
    requires DistinctIndicators(batch)
    requires j < |batch| && batch[j].1.value.None?
    ensures forall c :: c in Changes(prevData, batch) ==> c.indicator != batch[j].0
    ensures var k := Name(batch[j].0); var merged := Committed(prevData, batch);
      (k in merged <==> k in prevData) && (k in prevData ==> merged[k] == prevData[k])
  {
    UnchangedEntry(prevData, batch, j);
  }

  /**
   * A fresh value equal to the stored one (a missing key counts as `None`)
   * sends nothing and leaves the stored record alone, whatever the fresh
   * date label says.
   */
  lemma EqualValueIgnored(prevData: Baseline, batch: Batch, j: nat)
    requires DistinctIndicators(batch)
    requires j < |batch| && batch[j].1.value == PrevValue(prevData, Name(batch[j].0))
    ensures forall c :: c in Changes(prevData, batch) ==> c.indicator != batch[j].0
    ensures var k := Name(batch[j].0); var merged := Committed(prevData, batch);
      (k in merged <==> k in prevData) && (k in prevData ==> merged[k] == prevData[k])
  {
    UnchangedEntry(prevData, batch, j);
  }

  /** The common part of the two lemmas above: an entry Detect does not flag. */
  lemma UnchangedEntry(prevData: Baseline, batch: Batch, j: nat)
    requires DistinctIndicators(batch)
    requires j < |batch| && Detect(prevData, batch[j]).None?
    ensures forall c :: c in Changes(prevData, batch) ==> c.indicator != batch[j].0
    ensures var k := Name(batch[j].0); var merged := Committed(prevData, batch);
      (k in merged <==> k in prevData) && (k in prevData ==> merged[k] == prevData[k])
  {
    NoChangeFor(prevData, batch, j);
    NoChangeUnder(prevData, batch, j);
    CommittedUnchanged(prevData, batch, Name(batch[j].0));
  }

  /** An entry Detect does not flag contributes no change. */
  lemma NoChangeFor(prevData: Baseline, batch: Batch, j: nat)
    requires DistinctIndicators(batch)
    requires j < |batch| && Detect(prevData, batch[j]).None?
    ensures forall c :: c in Changes(prevData, batch) ==> c.indicator != batch[j].0
  {
    forall c | c in Changes(prevData, batch)
      ensures c.indicator != batch[j].0
    {
      ChangesMembership(prevData, batch, c);
      var i :| 0 <= i < |batch| && Detect(prevData, batch[i]) == Some(c);
      assert batch[i].0 == c.indicator;
    }
  }

  /** In a dictionary-like table, only the entry itself is stored under its key. */
  lemma NoChangeUnder(prevData: Baseline, batch: Batch, j: nat)
    requires DistinctIndicators(batch)
    requires j < |batch| && Detect(prevData, batch[j]).None?
    ensures forall i :: 0 <= i < |batch| && Name(batch[i].0) == Name(batch[j].0) ==> Detect(prevData, batch[i]).None?
  {
    forall i | 0 <= i < |batch| && Name(batch[i].0) == Name(batch[j].0)
      ensures Detect(prevData, batch[i]).None?
    {
      NameInjective(batch[i].0, batch[j].0);
      assert i == j;
    }
  }

  /**
   * Every changed entry yields exactly one alert, carrying the stored and the
   * fresh value, and exactly one override holding the fresh value and date.
   */
  lemma ChangedEntryAnnounced(prevData: Baseline, batch: Batch, j: nat)
    requires DistinctIndicators(batch)
    requires j < |batch| && batch[j].1.value.Some?
    requires batch[j].1.value != PrevValue(prevData, Name(batch[j].0))
    ensures var cs := Changes(prevData, batch);
      exists i :: 0 <= i < |cs| && cs[i] == Change(batch[j].0, PrevValue(prevData, Name(batch[j].0)),
                                                   batch[j].1.value.value, batch[j].1.date)
    ensures DistinctChanges(Changes(prevData, batch))
    ensures var merged := Committed(prevData, batch);
      Name(batch[j].0) in merged && merged[Name(batch[j].0)] == Record(batch[j].1.value, batch[j].1.date)
  {
    var c := Detect(prevData, batch[j]).value;
    ChangesMembership(prevData, batch, c);
    ChangesDistinct(prevData, batch);
    CommittedChanged(prevData, batch, j);
  }

  /**
   * Idempotence: running again with the same fresh values against the
   * baseline just committed detects no change at all.
   */
  lemma RerunDetectsNothing(prevData: Baseline, batch: Batch)
    requires DistinctIndicators(batch)
    ensures Changes(Committed(prevData, batch), batch) == []
  {
    var merged := Committed(prevData, batch);
    forall j | 0 <= j < |batch|
      ensures Detect(merged, batch[j]).None?
    {
      if Detect(prevData, batch[j]).Some? {
        CommittedChanged(prevData, batch, j);
      } else {
        UnchangedEntry(prevData, batch, j);
      }
    }
    if Changes(merged, batch) != [] {
      var c := Changes(merged, batch)[0];
      ChangesMembership(merged, batch, c);
      assert false;
    }
  }

}
