/** The draw history (`History` in src/utils/history.py): an append-only list
    of draw records and a per-name count rebuilt from that list after every
    append. */
module History {
  import opened Common
  import opened Tally
  import PM = PrizeManager

  /** One stored draw: a snapshot of the prize, the draw time and the position drawn. */
  datatype Record = Record(prize: PM.Prize, timestamp: string, index: int)

  /** The history document; either key may be missing from a loaded file. */
  datatype HistoryDoc = HistoryDoc(draws: Option<seq<Record>>, statistics: Option<map<string, nat>>)

  /** `{'draws': [], 'statistics': {}}` */
  function Empty(): HistoryDoc
  {
    HistoryDoc(Some([]), Some(map[]))
  }

  /** `load`: the stored document, or the empty one when the file is missing
      or cannot be read. It never fails. */
  function Load(file: FileState<HistoryDoc>): (d: HistoryDoc)
    ensures file.Parsed? ==> d == file.value
    ensures !file.Parsed? ==> d.draws == Some([]) && d.statistics == Some(map[])
  {
    match file
    case Parsed(d) => d
    case _ => Empty()
  }

  /** The document `load` writes: `_create_default_history` overwrites a
      missing or unreadable file with the empty history; a readable file is
      not written. Reading the written file gives what `load` returned. */
  function LoadWrite(file: FileState<HistoryDoc>): (w: Option<HistoryDoc>)
    ensures w.Some? <==> !file.Parsed?
    ensures w.Some? ==> Load(Parsed(w.value)) == Load(file)
    ensures w.Some? ==> GetAllRecords(Parsed(w.value)) == []
  {
    if file.Parsed? then None else Some(Empty())
  }

  /** `get_all_records`: the stored draws oldest first, or none when the key is missing. */
  function GetAllRecords(file: FileState<HistoryDoc>): (rs: seq<Record>)
    ensures Load(file).draws.Some? ==> rs == Load(file).draws.value
    ensures Load(file).draws.None? ==> rs == []
  {
    Load(file).draws.GetOr([])
  }

  /** The prize names of the records, in order. */
  function Names(draws: seq<Record>): (names: seq<string>)
    ensures |names| == |draws|
    ensures forall k :: 0 <= k < |draws| ==> names[k] == draws[k].prize.name
  {
    if draws == [] then [] else [draws[0].prize.name] + Names(draws[1..])
  }

  /** The statistics of a draw list: each name drawn maps to the number of
      records carrying it, and no other name appears. */
  function Statistics(draws: seq<Record>): (stats: map<string, nat>)
    ensures forall n :: n in stats <==> exists k :: 0 <= k < |draws| && draws[k].prize.name == n
    ensures forall n :: n in stats ==> stats[n] == multiset(Names(draws))[n] >= 1
    ensures SumValues(stats) == |draws|
  {
    var names := Names(draws);
    CountSum(names);
    assert forall n :: n in names <==> exists k :: 0 <= k < |draws| && draws[k].prize.name == n by {
      forall n ensures n in names ==> exists k :: 0 <= k < |draws| && draws[k].prize.name == n {
        if n in names {
          var k :| 0 <= k < |names| && names[k] == n;
          assert draws[k].prize.name == n;
        }
      }
    }
    Count(names)
  }

  /** `_update_statistics`: the statistics rebuilt from the draws alone; a
      missing draw list counts as empty. */
  function UpdateStatistics(d: HistoryDoc): (u: HistoryDoc)
    ensures u.draws == d.draws
    ensures u.statistics.Some?
    ensures d.draws.None? ==> u.statistics == Some(map[])
    ensures d.draws.Some? ==> u.statistics == Some(Statistics(d.draws.value))
    ensures forall n :: n in u.statistics.value <==> n in Names(d.draws.GetOr([]))
    ensures forall n :: n in u.statistics.value ==> u.statistics.value[n] == multiset(Names(d.draws.GetOr([])))[n]
    ensures SumValues(u.statistics.value) == |d.draws.GetOr([])|
  {
    d.(statistics := Some(Statistics(d.draws.GetOr([]))))
  }

  /** The record `add_record` builds from a draw result: name, weight and
      image of the prize (image `''` when missing), the timestamp and the
      index. `None` when the name or weight is missing and the lookup raises. */
  function BuildRecord(result: PM.DrawResult): (r: Option<Record>)
    ensures r.Some? <==> result.prize.name.Some? && result.prize.weight.Some?
    ensures r.Some? ==> r.value.prize.name == result.prize.name.value
    ensures r.Some? ==> r.value.prize.weight == result.prize.weight.value
    ensures r.Some? ==> (result.prize.image.Some? ==> r.value.prize.image == result.prize.image.value)
    ensures r.Some? ==> (result.prize.image.None? ==> r.value.prize.image == "")
    ensures r.Some? ==> r.value.timestamp == result.timestamp && r.value.index == result.index
  {
    var p := result.prize;
    if p.name.Some? && p.weight.Some? then
      Some(Record(PM.Prize(p.name.value, p.weight.value, p.image.GetOr("")), result.timestamp, result.index))
    else None
  }

  /** `add_record`: the document written back, or `None` when the call raises
      (a missing prize name or weight, or a loaded document without `draws`).
      The new record goes at the end, earlier records stay as they were, and
      the statistics are rebuilt from the new draw list. */
  function AddRecord(file: FileState<HistoryDoc>, result: PM.DrawResult): (r: Option<HistoryDoc>)
    ensures r.Some? <==> BuildRecord(result).Some? && Load(file).draws.Some?
    ensures r.Some? ==> r.value.draws.Some?
    ensures r.Some? ==> var old_draws := Load(file).draws.value;
              && |r.value.draws.value| == |old_draws| + 1
              && r.value.draws.value[..|old_draws|] == old_draws
              && r.value.draws.value[|old_draws|] == BuildRecord(result).value
    ensures r.Some? ==> r.value.statistics == Some(Statistics(r.value.draws.value))
  {
    var d := Load(file);
    var record := BuildRecord(result);
    if record.None? || d.draws.None? then None
    else Some(UpdateStatistics(d.(draws := Some(d.draws.value + [record.value]))))
  }

  /** `clear`: the document written is the empty one. */
  function Clear(): (d: HistoryDoc)
    ensures GetAllRecords(Parsed(d)) == []
    ensures Load(Parsed(d)) == Empty()
  {
    Empty()
  }

  /** The statistics depend on the draws only: whatever counts a document held
      before, rebuilding gives the same map, and rebuilding twice changes nothing. */
  lemma StatisticsFromDrawsOnly(d: HistoryDoc, e: HistoryDoc)
    requires d.draws == e.draws
    ensures UpdateStatistics(d) == UpdateStatistics(e)
    ensures UpdateStatistics(UpdateStatistics(d)) == UpdateStatistics(d)
  {
  }

  /** Reading the records back after `add_record` gives the earlier records
      followed by the new one. */
  lemma AddThenRead(file: FileState<HistoryDoc>, result: PM.DrawResult)
    requires result.prize.name.Some? && result.prize.weight.Some?
    requires file.Parsed? ==> file.value.draws.Some?
    ensures AddRecord(file, result).Some?
    ensures GetAllRecords(Parsed(AddRecord(file, result).value))
         == GetAllRecords(file) + [BuildRecord(result).value]
  {
    var old_draws := Load(file).draws.value;
    var new_draws := AddRecord(file, result).value.draws.value;
    assert new_draws == new_draws[..|old_draws|] + [new_draws[|old_draws|]];
  }

  /** Appending a list of results one after another, as successive draws do. */
  function AddAll(d: HistoryDoc, results: seq<PM.DrawResult>): Option<HistoryDoc>
    decreases |results|
  {
    if results == [] then Some(d)
    else
      match AddRecord(Parsed(d), results[0])
      case None => None
      case Some(d') => AddAll(d', results[1..])
  }

  /** All results carry a prize name and weight. */
  ghost predicate Complete(results: seq<PM.DrawResult>)
  {
    forall k :: 0 <= k < |results| ==> results[k].prize.name.Some? && results[k].prize.weight.Some?
  }

  /** The records built from complete results, in order. */
  function BuildAll(results: seq<PM.DrawResult>): (rs: seq<Record>)
    requires Complete(results)
    ensures |rs| == |results|
    ensures forall k :: 0 <= k < |results| ==> Some(rs[k]) == BuildRecord(results[k])
  {
    if results == [] then [] else [BuildRecord(results[0]).value] + BuildAll(results[1..])
  }

  /** Appending K complete results one after another adds K records after the
      existing ones, in append order. */
  lemma {:induction false} AppendsInOrder(d: HistoryDoc, results: seq<PM.DrawResult>)
    requires d.draws.Some?
    requires Complete(results)
    ensures AddAll(d, results).Some?
    ensures AddAll(d, results).value.draws == Some(d.draws.value + BuildAll(results))
    decreases |results|
  {
    if results != [] {
      var d' := AddOne(d, results);
      AppendsInOrder(d', results[1..]);
      var first := BuildRecord(results[0]).value;
      assert BuildAll(results) == [first] + BuildAll(results[1..]);
      AppendAssoc(d.draws.value, [first], BuildAll(results[1..]));
    } else {
      assert d.draws.value + BuildAll(results) == d.draws.value;
    }
  }

  /** One step of `AddAll`: the first result is appended and the rest follow. */
  lemma AddOne(d: HistoryDoc, results: seq<PM.DrawResult>) returns (d': HistoryDoc)
    requires d.draws.Some?
    requires Complete(results) && results != []
    ensures d'.draws == Some(d.draws.value + [BuildRecord(results[0]).value])
    ensures Complete(results[1..])
    ensures AddAll(d, results) == AddAll(d', results[1..])
  {
    d' := AddRecord(Parsed(d), results[0]).value;
    assert d'.draws.value == d.draws.value + [BuildRecord(results[0]).value];
    forall k | 0 <= k < |results| - 1
      ensures results[1..][k].prize.name.Some? && results[1..][k].prize.weight.Some?
    {
      assert results[1..][k] == results[k + 1];
    }
  }

  lemma AppendAssoc<T>(a: seq<T>, b: seq<T>, c: seq<T>)
    ensures a + (b + c) == (a + b) + c
  {
  }

  // ------------------------------------------ the shared default list, as written

  /** The state a `History` object carries between calls, as written: the
      `draws` list of its `default_history`. Every shallow `copy()` returned by
      `load` for a missing or unreadable file shares this list, so appending to
      the loaded draws appends to it as well. */
  datatype Ledger = Ledger(sharedDraws: seq<Record>)

  /** `add_record` as written: besides the document saved, the shared default
      list grows whenever the file was missing or unreadable. */
  function AddRecordShared(l: Ledger, file: FileState<HistoryDoc>, result: PM.DrawResult): (r: (Ledger, Option<HistoryDoc>))
    ensures l.sharedDraws == [] ==> r.1 == AddRecord(file, result)
    ensures r.1.Some? <==> AddRecord(file, result).Some?
    ensures !file.Parsed? && r.1.Some? && BuildRecord(result).Some? ==> r.0.sharedDraws == l.sharedDraws + [BuildRecord(result).value]
    ensures !file.Parsed? && r.1.Some? && BuildRecord(result).Some? ==>
              r.1.value.draws == Some(l.sharedDraws + [BuildRecord(result).value])
    ensures file.Parsed? ==> r == (l, AddRecord(file, result))
  {
    var d := if file.Parsed? then file.value else HistoryDoc(Some(l.sharedDraws), Some(map[]));
    var record := BuildRecord(result);
    if record.None? || d.draws.None? then (l, None)
    else
      var draws := d.draws.value + [record.value];
      (if file.Parsed? then l else Ledger(draws), Some(UpdateStatistics(d.(draws := Some(draws)))))
  }

  /** `clear` as written: it saves a shallow copy of `default_history`, whose
      draw list is the shared one. */
  function ClearShared(l: Ledger): (d: HistoryDoc)
    ensures d.statistics == Some(map[])
    ensures d.draws == Some(l.sharedDraws)
  {
    HistoryDoc(Some(l.sharedDraws), Some(map[]))
  }

  /** The defect: on a fresh object whose history file is missing, one
      `add_record` followed by `clear` leaves that record in the cleared file,
      next to empty statistics. `Clear` above is the intended behaviour. */
  lemma ClearKeepsFirstRecord(result: PM.DrawResult)
    requires result.prize.name.Some? && result.prize.weight.Some?
    ensures var l := AddRecordShared(Ledger([]), Absent, result).0;
            GetAllRecords(Parsed(ClearShared(l))) == [BuildRecord(result).value]
  {
  }
}
