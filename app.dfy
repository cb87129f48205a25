// The main page's logic that is not drawing: duration and merge-method
// texts, the fields a lap table can show, and the page state that
// pagination and activity selection update.
module App {
  import opened Wrappers
  import opened Numbers
  import opened Text
  import opened Clock
  import opened Seqs
  import opened Tables
  import opened Models
  import CsvExporter
  import HrCsvMerge

  // ------------------------------------------------------ texts

  /** `formatDuration`: '--:--' for a falsy argument (missing or zero), else `H:MM:SS` or `M:SS`. */
  function FormatDuration(seconds: Option<real>): string
  {
    if seconds.None? || seconds.value == 0.0 then "--:--"
    else
      var s := seconds.value;
      var hours := (s / 3600.0).Floor;
      var minutes := (JsRem(s, 3600.0) / 60.0).Floor;
      var secs := JsRem(s, 60.0).Floor;
      if hours > 0 then HourMinSec(hours, minutes, secs) else MinSec(minutes, secs)
  }

  /**
   * A missing or zero duration is '--:--'; a positive one is rendered
   * exactly as the CSV export renders it, so it reads back as that
   * rendering does (`CsvExporter.FormatDurationSpec`).
   */
  lemma {:induction false} FormatDurationSpec(seconds: Option<real>)
    ensures seconds.None? || seconds.value == 0.0 ==> FormatDuration(seconds) == "--:--"
    ensures seconds.Some? && seconds.value > 0.0 ==> FormatDuration(seconds) == CsvExporter.FormatDuration(seconds)
  {
    if seconds.Some? && seconds.value > 0.0 {
      var s := seconds.value;
      JsRemOfNonNegative(s, 3600.0);
      JsRemOfNonNegative(s, 60.0);
      assert (JsRem(s, 3600.0) / 60.0).Floor == PyMinuteOfHour(s);
    }
  }

  /** `formatMergeMethod` of the provenance's `method`, None when the provenance or its method is missing. */
  function FormatMergeMethod(name: Option<string>): string
  {
    if name.None? || name.value == "" then "--"
    else if name.value == MetadataAlign then "元数据对齐"
    else if name.value == LinearInterpolate then "线性插值"
    else "--"
  }

  /**
   * Only the two method names the merge writes get a label, and each
   * gets its own: the label tells the two methods apart.
   */
  lemma {:induction false} FormatMergeMethodSpec(name: Option<string>, align: bool)
    ensures FormatMergeMethod(name) != "--" <==>
      name == Some(MetadataAlign) || name == Some(LinearInterpolate)
    ensures FormatMergeMethod(Some(HrCsvMerge.MethodName(align))) == if align then "元数据对齐" else "线性插值"
  {
  }

  // ------------------------------------------------------ lap fields

  /** A lap as the page receives it: its standard values, and its IQ dictionary when present. */
  datatype Lap = Lap(fields: map<string, Value>, iqFields: Option<Table<Value>>)

  /** The standard lap fields the table can offer, in display order. */
  const AllStandardLapFields: seq<string> := [
    "lap_number", "start_time", "total_elapsed_time", "total_distance",
    "avg_speed", "max_speed", "avg_heart_rate", "max_heart_rate",
    "avg_cadence", "max_cadence", "avg_power", "max_power",
    "total_ascent", "total_descent", "avg_vertical_oscillation",
    "avg_stance_time", "avg_step_length", "total_calories"]

  /** `lap[field] != null`. */
  predicate LapHas(lap: Lap, f: string)
  {
    f in lap.fields && !lap.fields[f].Null?
  }

  /** `!laps.every(lap => lap[field] == null)`. */
  predicate SomeLapHas(laps: seq<Lap>, f: string)
  {
    exists i :: 0 <= i < |laps| && LapHas(laps[i], f)
  }

  /** The names of `names`, in order, that some lap has a value for. */
  function KeepValued(laps: seq<Lap>, names: seq<string>): (r: seq<string>)
    ensures forall x :: x in r <==> x in names && SomeLapHas(laps, x)
    decreases |names|
  {
    if names == [] then []
    else
      var rest, name := KeepValued(laps, names[..|names| - 1]), names[|names| - 1];
      assert names == names[..|names| - 1] + [name];
      if SomeLapHas(laps, name) then rest + [name] else rest
  }

  /** `lap.iq_fields[key] != null`, false when the lap has no IQ dictionary. */
  predicate LapIqHas(lap: Lap, key: string)
  {
    lap.iqFields.Some? && Lookup(lap.iqFields.value, key).Some? && !Lookup(lap.iqFields.value, key).value.Null?
  }

  predicate SomeLapIqHas(laps: seq<Lap>, key: string)
  {
    exists i :: 0 <= i < |laps| && LapIqHas(laps[i], key)
  }

  /** The IQ column names of one lap, `iq_` + key in its key order. */
  function LapIqColumns(lap: Lap): (r: seq<string>)
    ensures lap.iqFields.None? ==> r == []
    ensures lap.iqFields.Some? ==> |r| == |lap.iqFields.value|
  {
    if lap.iqFields.None? then []
    else seq(|lap.iqFields.value|, k requires 0 <= k < |lap.iqFields.value| => "iq_" + lap.iqFields.value[k].0)
  }

  /** Every lap's IQ column names, lap after lap. */
  function AllIqColumns(laps: seq<Lap>): seq<string>
    decreases |laps|
  {
    if laps == [] then [] else AllIqColumns(laps[..|laps| - 1]) + LapIqColumns(laps[|laps| - 1])
  }

  /** The `iqFieldSet`: every IQ column once, in order of first appearance. */
  function IqColumnOrder(laps: seq<Lap>): seq<string>
  {
    FirstOccurrences(AllIqColumns(laps))
  }

  /** The columns of `cols`, in order, whose key (the first `iq_` removed) some lap has a value for. */
  function KeepIqValued(laps: seq<Lap>, cols: seq<string>): (r: seq<string>)
    ensures forall x :: x in r <==> x in cols && SomeLapIqHas(laps, JsReplaceFirst(x, "iq_", ""))
    decreases |cols|
  {
    if cols == [] then []
    else
      var rest, col := KeepIqValued(laps, cols[..|cols| - 1]), cols[|cols| - 1];
      assert cols == cols[..|cols| - 1] + [col];
      if SomeLapIqHas(laps, JsReplaceFirst(col, "iq_", "")) then rest + [col] else rest
  }

  /** `laps.every(lap => lap[field] == null)`, stopping at the first lap that has it. */
  method EveryLapLacks(laps: seq<Lap>, f: string) returns (none: bool)
    ensures none <==> !SomeLapHas(laps, f)
  {
    var i := 0;
    while i < |laps|
      invariant 0 <= i <= |laps|
      invariant forall j :: 0 <= j < i ==> !LapHas(laps[j], f)
    {
      if f in laps[i].fields && !laps[i].fields[f].Null? {
        return false;
      }
      i := i + 1;
    }
    return true;
  }

  /** `laps.every(lap => !lap.iq_fields || lap.iq_fields[rawKey] == null)`. */
  method EveryLapIqLacks(laps: seq<Lap>, key: string) returns (none: bool)
    ensures none <==> !SomeLapIqHas(laps, key)
  {
    var i := 0;
    while i < |laps|
      invariant 0 <= i <= |laps|
      invariant forall j :: 0 <= j < i ==> !LapIqHas(laps[j], key)
    {
      if laps[i].iqFields.Some? {
        var v := Lookup(laps[i].iqFields.value, key);
        if v.Some? && !v.value.Null? {
          return false;
        }
      }
      i := i + 1;
    }
    return true;
  }

  /** The nested `forEach` that fills `iqFieldSet`. */
  method CollectIqColumns(laps: seq<Lap>) returns (order: seq<string>)
    ensures order == IqColumnOrder(laps)
  {
    order := [];
    for i := 0 to |laps|
      invariant order == FirstOccurrences(AllIqColumns(laps[..i]))
    {
      assert laps[..i + 1][..i] == laps[..i];
      order := AddIqColumns(order, AllIqColumns(laps[..i]), laps[i]);
    }
    assert laps[..|laps|] == laps;
  }

  /** The inner `forEach`: add one lap's IQ columns that the set does not hold yet. */
  method AddIqColumns(order: seq<string>, ghost seen: seq<string>, lap: Lap) returns (r: seq<string>)
    requires order == FirstOccurrences(seen)
    ensures r == FirstOccurrences(seen + LapIqColumns(lap))
  {
    r := order;
    if lap.iqFields.Some? {
      var keys := lap.iqFields.value;
      ghost var cols := LapIqColumns(lap);
      assert seen + cols[..0] == seen;
      for k := 0 to |keys|
        invariant r == FirstOccurrences(seen + cols[..k])
      {
        ghost var pre := seen + cols[..k];
        var col := "iq_" + keys[k].0;
        assert seen + cols[..k + 1] == pre + [col];
        FirstOccurrencesStep(pre, col);
        if col !in r {
          r := r + [col];
        }
      }
      assert cols[..|keys|] == cols;
    } else {
      assert seen + LapIqColumns(lap) == seen;
    }
  }

  /**
   * `extractAvailableLapFields`: the standard fields that some lap has a
   * value for, in display order, and the IQ columns that some lap has a
   * value for, in order of first appearance.
   */
  method ExtractAvailableLapFields(laps: seq<Lap>) returns (standard: seq<string>, iq: seq<string>)
    ensures standard == KeepValued(laps, AllStandardLapFields)
    ensures iq == KeepIqValued(laps, IqColumnOrder(laps))
  {
    if laps == [] {
      EmptyLaps(AllStandardLapFields, IqColumnOrder(laps));
      return [], [];
    }
    standard := FilterValued(laps, AllStandardLapFields);
    var order := CollectIqColumns(laps);
    iq := FilterIqValued(laps, order);
  }

  /** `standardFields.filter(...)`: the names some lap has a value for. */
  method FilterValued(laps: seq<Lap>, names: seq<string>) returns (kept: seq<string>)
    ensures kept == KeepValued(laps, names)
  {
    kept := [];
    for n := 0 to |names|
      invariant kept == KeepValued(laps, names[..n])
    {
      assert names[..n + 1][..n] == names[..n];
      var none := EveryLapLacks(laps, names[n]);
      if !none {
        kept := kept + [names[n]];
      }
    }
    assert names[..|names|] == names;
  }

  /** `Array.from(iqFieldSet).filter(...)`: the columns whose raw key some lap has a value for. */
  method FilterIqValued(laps: seq<Lap>, order: seq<string>) returns (kept: seq<string>)
    ensures kept == KeepIqValued(laps, order)
  {
    kept := [];
    for n := 0 to |order|
      invariant kept == KeepIqValued(laps, order[..n])
    {
      assert order[..n + 1][..n] == order[..n];
      var rawKey := JsReplaceFirst(order[n], "iq_", "");
      var none := EveryLapIqLacks(laps, rawKey);
      if !none {
        kept := kept + [order[n]];
      }
    }
    assert order[..|order|] == order;
  }

  /** With no laps both filters keep nothing. */
  lemma {:induction false} EmptyLaps(names: seq<string>, cols: seq<string>)
    ensures KeepValued([], names) == [] && KeepIqValued([], cols) == []
  {
    if KeepValued([], names) != [] {
      assert KeepValued([], names)[0] in KeepValued([], names);
    }
    if KeepIqValued([], cols) != [] {
      assert KeepIqValued([], cols)[0] in KeepIqValued([], cols);
    }
  }

  /** A lap's IQ columns are its keys with the `iq_` prefix. */
  lemma {:induction false} LapIqColumnsSpec(lap: Lap, x: string)
    ensures x in LapIqColumns(lap) <==>
      lap.iqFields.Some? && StartsWith(x, "iq_") && Lookup(lap.iqFields.value, x[3..]).Some?
  {
    if lap.iqFields.Some? {
      var t := lap.iqFields.value;
      if x in LapIqColumns(lap) {
        var k :| 0 <= k < |t| && LapIqColumns(lap)[k] == x;
        assert x[3..] == t[k].0;
        LookupSpec(t, x[3..]);
      }
      if StartsWith(x, "iq_") && Lookup(t, x[3..]).Some? {
        LookupSpec(t, x[3..]);
        var k :| 0 <= k < |t| && t[k] == (x[3..], Lookup(t, x[3..]).value) && forall j :: 0 <= j < k ==> t[j].0 != x[3..];
        assert x == "iq_" + x[3..];
        assert LapIqColumns(lap)[k] == x;
      }
    }
  }

  /** A column is listed for the laps exactly when one of them has its key. */
  lemma {:induction false} AllIqColumnsSpec(laps: seq<Lap>, x: string)
    ensures x in AllIqColumns(laps) <==> exists i :: 0 <= i < |laps| && x in LapIqColumns(laps[i])
    decreases |laps|
  {
    if laps != [] {
      var prefix := laps[..|laps| - 1];
      AllIqColumnsSpec(prefix, x);
      if x in AllIqColumns(prefix) {
        var i :| 0 <= i < |prefix| && x in LapIqColumns(prefix[i]);
        assert laps[i] == prefix[i];
      }
      if exists i :: 0 <= i < |laps| && x in LapIqColumns(laps[i]) {
        var i :| 0 <= i < |laps| && x in LapIqColumns(laps[i]);
        if i < |prefix| {
          assert prefix[i] == laps[i];
        }
      }
    }
  }

  /**
   * The IQ lap columns are `iq_` + key exactly for the keys some lap has
   * a non-null value for, each once.
   */
  lemma {:induction false} LapIqFieldsSpec(laps: seq<Lap>, key: string)
    ensures "iq_" + key in KeepIqValued(laps, IqColumnOrder(laps)) <==> SomeLapIqHas(laps, key)
    ensures NoRepeats(KeepIqValued(laps, IqColumnOrder(laps)))
    ensures forall x :: x in KeepIqValued(laps, IqColumnOrder(laps)) ==> StartsWith(x, "iq_")
  {
    var col := "iq_" + key;
    ReplacePrefixedFirst(key, "iq_");
    assert col[3..] == key;
    assert col[..3] == "iq_";
    FirstOccurrencesSpec(AllIqColumns(laps));
    AllIqColumnsSpec(laps, col);
    if SomeLapIqHas(laps, key) {
      var i :| 0 <= i < |laps| && LapIqHas(laps[i], key);
      LapIqColumnsSpec(laps[i], col);
    }
    forall x | x in KeepIqValued(laps, IqColumnOrder(laps)) ensures StartsWith(x, "iq_") {
      AllIqColumnsSpec(laps, x);
      var i :| 0 <= i < |laps| && x in LapIqColumns(laps[i]);
      LapIqColumnsSpec(laps[i], x);
    }
    KeepIqValuedNoRepeats(laps, IqColumnOrder(laps));
  }

  /** Filtering a list without repeats leaves none. */
  lemma {:induction false} KeepIqValuedNoRepeats(laps: seq<Lap>, cols: seq<string>)
    requires NoRepeats(cols)
    ensures NoRepeats(KeepIqValued(laps, cols))
    decreases |cols|
  {
    if cols != [] {
      var prefix := cols[..|cols| - 1];
      assert NoRepeats(prefix) by {
        assert forall i :: 0 <= i < |prefix| ==> prefix[i] == cols[i];
      }
      KeepIqValuedNoRepeats(laps, prefix);
      assert cols[|cols| - 1] !in prefix;
    }
  }

  // ------------------------------------------------------ page state

  /** The page state that pagination and selection update. */
  class AppState {
    var currentPage: int
    var totalPages: int
    var selectedActivityIds: set<string>

    /** The initial state: page 1 of 1, nothing selected. */
    constructor ()
      ensures currentPage == 1 && totalPages == 1 && selectedActivityIds == {}
    {
      currentPage := 1;
      totalPages := 1;
      selectedActivityIds := {};
    }

    /** `updatePagination`: the server's page, and as many pages as cover `total` items `limit` at a time. */
    method UpdatePagination(page: int, total: int, limit: int)
      requires limit > 0
      modifies this
      ensures currentPage == page && totalPages == PageCount(total, limit)
      ensures selectedActivityIds == old(selectedActivityIds)
    {
      currentPage := page;
      totalPages := Ceil(total as real / limit as real);
    }

    /** `changePage`: step by `delta`, then clamp to 1 and to the page count. */
    method ChangePage(delta: int)
      modifies this
      ensures currentPage == ClampPage(old(currentPage) + delta, totalPages)
      ensures totalPages == old(totalPages) && selectedActivityIds == old(selectedActivityIds)
    {
      currentPage := currentPage + delta;
      if currentPage < 1 {
        currentPage := 1;
      }
      if currentPage > totalPages {
        currentPage := totalPages;
      }
    }

    /** `handleActivitySelect`: returns whether the checkbox stays checked. */
    method HandleActivitySelect(checked: bool, id: string) returns (stillChecked: bool)
      modifies this
      ensures (selectedActivityIds, stillChecked) == Select(old(selectedActivityIds), checked, id)
      ensures currentPage == old(currentPage) && totalPages == old(totalPages)
    {
      if checked {
        if |selectedActivityIds| >= 10 {
          return false;
        }
        selectedActivityIds := selectedActivityIds + {id};
        return true;
      } else {
        selectedActivityIds := selectedActivityIds - {id};
        return false;
      }
    }
  }

  /** `Math.ceil(total / limit)`: the fewest pages of `limit` items that hold `total`. */
  function PageCount(total: int, limit: int): (pages: int)
    requires limit > 0
    ensures (pages - 1) * limit < total <= pages * limit
  {
    var p := Ceil(total as real / limit as real);
    ScaleBounds(p as real - 1.0, total as real, p as real, limit as real);
    p
  }

  /** The page after clamping: never above the page count, and never below 1 when there is a page. */
  function ClampPage(page: int, totalPages: int): (r: int)
    ensures r <= totalPages
    ensures totalPages >= 1 ==> 1 <= r
    ensures 1 <= page <= totalPages ==> r == page
    ensures page > totalPages ==> r == totalPages
  {
    var p := if page < 1 then 1 else page;
    if p > totalPages then totalPages else p
  }

  /** The selection after a checkbox event, and whether the box stays checked. */
  function Select(selected: set<string>, checked: bool, id: string): (r: (set<string>, bool))
    ensures checked && |selected| >= 10 ==> r == (selected, false)
    ensures checked && |selected| < 10 ==> id in r.0 && r.0 - {id} == selected - {id} && r.1
    ensures !checked ==> id !in r.0 && r.0 == selected - {id} && !r.1
    ensures |r.0| <= if |selected| > 10 then |selected| else 10
  {
    if checked then
      if |selected| >= 10 then (selected, false) else (selected + {id}, true)
    else (selected - {id}, false)
  }

  /** Starting within the cap, no sequence of checkbox events selects more than 10 activities. */
  lemma {:induction false} SelectionCapped(selected: set<string>, events: seq<(bool, string)>)
    requires |selected| <= 10
    ensures |SelectAll(selected, events)| <= 10
    decreases |events|
  {
    if events != [] {
      var s := Select(selected, events[0].0, events[0].1).0;
      SelectionCapped(s, events[1..]);
    }
  }

  /** The selection after a run of checkbox events. */
  function SelectAll(selected: set<string>, events: seq<(bool, string)>): set<string>
    decreases |events|
  {
    if events == [] then selected
    else SelectAll(Select(selected, events[0].0, events[0].1).0, events[1..])
  }
}
