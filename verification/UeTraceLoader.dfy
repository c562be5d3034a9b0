/** Grouping of the rows of a UE trace file by identifier. */
module UeTraceLoader {
  import opened Positions
  import opened UeTraces
  import opened Wrappers

  // A line after tokenisation: comment, blank or header; wrong number of fields; or a row whose
  // numeric and activity fields may have failed to convert.
  datatype Line =
    | Ignored
    | WrongFieldCount
    | Row(externalId: string, sample: Option<Sample>)

  datatype LoadError =
    | FieldCountError(line: nat)
    | TooManyUes
    | ConversionError(line: nat)
    | NoSamples

  // ---------------------------------------------------------------- what the rows say

  // Identifiers in order of first appearance.
  function Ids(lines: seq<Line>): seq<string> {
    if lines == [] then []
    else
      var ids := Ids(lines[..|lines| - 1]);
      match lines[|lines| - 1]
      case Row(id, _) => if id in ids then ids else ids + [id]
      case _ => ids
  }

  // The samples of the rows bearing the identifier, in file order.
  function RowsOf(lines: seq<Line>, id: string): seq<Sample> {
    if lines == [] then []
    else
      RowsOf(lines[..|lines| - 1], id) +
      match lines[|lines| - 1]
      case Row(other, Some(sample)) => if other == id then [sample] else []
      case _ => []
  }

  function RowCount(lines: seq<Line>): nat {
    if lines == [] then 0
    else RowCount(lines[..|lines| - 1]) + if lines[|lines| - 1].Row? then 1 else 0
  }

  // The reason, if any, for which line i stops the load when all lines before it are accepted.
  function Fault(lines: seq<Line>, maxUes: nat, i: nat): Option<LoadError>
    requires i < |lines|
  {
    match lines[i]
    case Ignored => None
    case WrongFieldCount => Some(FieldCountError(i + 1))
    case Row(id, sample) =>
      if id !in Ids(lines[..i]) && |Ids(lines[..i])| >= maxUes then Some(TooManyUes)
      else if sample.None? then Some(ConversionError(i + 1))
      else None
  }

  ghost predicate Clean(lines: seq<Line>, maxUes: nat, n: nat)
    requires n <= |lines|
  {
    forall i :: 0 <= i < n ==> Fault(lines, maxUes, i).None?
  }

  // One trace per identifier, in order of first appearance, holding the rows of that identifier.
  ghost predicate Grouped(lines: seq<Line>, traces: seq<Trace>) {
    |traces| == |Ids(lines)| &&
    forall k :: 0 <= k < |traces| ==>
      traces[k].externalId == Ids(lines)[k] && traces[k].samples == RowsOf(lines, Ids(lines)[k])
  }

  ghost predicate IndexedBy(traces: seq<Trace>, indexById: map<string, nat>) {
    (forall k :: 0 <= k < |traces| ==> traces[k].externalId in indexById && indexById[traces[k].externalId] == k) &&
    forall id :: id in indexById ==> indexById[id] < |traces| && traces[indexById[id]].externalId == id
  }

  // ---------------------------------------------------------------- loading

  method LoadUeTrace(lines: seq<Line>, maxUes: nat) returns (r: Result<seq<Trace>, LoadError>)
    ensures r.Success? <==> Clean(lines, maxUes, |lines|) && Ids(lines) != []
    ensures r.Success? ==>
              |r.value| == |Ids(lines)| <= maxUes &&
              forall k :: 0 <= k < |r.value| ==>
                r.value[k] == Trace(Ids(lines)[k], StableSort(RowsOf(lines, Ids(lines)[k])))
    ensures r.Failure? ==>
              if Clean(lines, maxUes, |lines|) then r.error == NoSamples
              else exists i :: 0 <= i < |lines| && Clean(lines, maxUes, i) && Fault(lines, maxUes, i) == Some(r.error)
  {
    hide Fault;
    var traces: seq<Trace> := [];
    var indexById: map<string, nat> := map[];
    for i := 0 to |lines|
      invariant Clean(lines, maxUes, i)
      invariant Grouped(lines[..i], traces) && IndexedBy(traces, indexById) && |traces| <= maxUes
    {
      hide Grouped, IndexedBy;
      ghost var fault := Fault(lines, maxUes, i);
      assert lines[..i + 1][..i] == lines[..i];
      match lines[i] {
        case Ignored =>
          FaultOfOther(lines, maxUes, i);
          SkippedLine(lines[..i + 1], traces);
        case WrongFieldCount =>
          FaultOfOther(lines, maxUes, i);
          return Failure(FieldCountError(i + 1));
        case Row(id, sample) =>
          ghost var before := traces;
          FaultOfRow(lines, maxUes, i, traces, indexById);
          if id !in indexById {
            if |traces| >= maxUes {
              return Failure(TooManyUes);
            }
            NewId(traces, indexById, id);
            indexById := indexById[id := |traces|];
            traces := traces + [Trace(id, [])];
          }
          if sample.None? {
            return Failure(ConversionError(i + 1));
          }
          KnownId(traces, indexById, id, sample.value);
          var k := indexById[id];
          traces := traces[k := traces[k].(samples := traces[k].samples + [sample.value])];
          AddedRow(lines[..i + 1], before, traces, k);
      }
    }
    assert lines[..|lines|] == lines;
    if traces == [] {
      return Failure(NoSamples);
    }
    traces := SortTraces(traces);
    return Success(traces);
  }

  method SortTraces(unsorted: seq<Trace>) returns (traces: seq<Trace>)
    ensures |traces| == |unsorted|
    ensures forall k :: 0 <= k < |traces| ==>
              traces[k] == Trace(unsorted[k].externalId, StableSort(unsorted[k].samples))
  {
    traces := unsorted;
    for k := 0 to |unsorted|
      invariant |traces| == |unsorted|
      invariant forall j :: 0 <= j < k ==>
                  traces[j] == Trace(unsorted[j].externalId, StableSort(unsorted[j].samples))
      invariant forall j :: k <= j < |unsorted| ==> traces[j] == unsorted[j]
    {
      traces := traces[k := traces[k].(samples := StableSort(traces[k].samples))];
    }
  }

  lemma FaultOfOther(lines: seq<Line>, maxUes: nat, i: nat)
    requires i < |lines|
    ensures lines[i].Ignored? ==> Fault(lines, maxUes, i).None?
    ensures lines[i].WrongFieldCount? ==> Fault(lines, maxUes, i) == Some(FieldCountError(i + 1))
  {
  }

  // The loader's own tests find exactly the fault of a row.
  lemma FaultOfRow(lines: seq<Line>, maxUes: nat, i: nat, traces: seq<Trace>, indexById: map<string, nat>)
    requires i < |lines| && lines[i].Row? && Grouped(lines[..i], traces) && IndexedBy(traces, indexById)
    ensures lines[i].externalId in indexById <==> lines[i].externalId in Ids(lines[..i])
    ensures Fault(lines, maxUes, i) ==
            if lines[i].externalId !in indexById && |traces| >= maxUes then Some(TooManyUes)
            else if lines[i].sample.None? then Some(ConversionError(i + 1)) else None
  {
  }

  lemma NewId(traces: seq<Trace>, indexById: map<string, nat>, id: string)
    requires IndexedBy(traces, indexById) && id !in indexById
    ensures IndexedBy(traces + [Trace(id, [])], indexById[id := |traces|])
  {
  }

  lemma KnownId(traces: seq<Trace>, indexById: map<string, nat>, id: string, sample: Sample)
    requires IndexedBy(traces, indexById) && id in indexById
    ensures indexById[id] < |traces| && traces[indexById[id]].externalId == id
    ensures var k := indexById[id];
            IndexedBy(traces[k := traces[k].(samples := traces[k].samples + [sample])], indexById)
  {
  }

  lemma SkippedLine(lines: seq<Line>, traces: seq<Trace>)
    requires lines != [] && lines[|lines| - 1] == Ignored && Grouped(lines[..|lines| - 1], traces)
    ensures Grouped(lines, traces)
  {
  }

  lemma AddedRow(lines: seq<Line>, before: seq<Trace>, traces: seq<Trace>, k: nat)
    requires lines != [] && lines[|lines| - 1].Row? && lines[|lines| - 1].sample.Some?
    requires Grouped(lines[..|lines| - 1], before)
    requires var id, sample := lines[|lines| - 1].externalId, lines[|lines| - 1].sample.value;
             var withId := if id in Ids(lines[..|lines| - 1]) then before else before + [Trace(id, [])];
             k < |withId| && withId[k].externalId == id &&
             traces == withId[k := Trace(id, withId[k].samples + [sample])]
    ensures Grouped(lines, traces)
  {
    var init, id := lines[..|lines| - 1], lines[|lines| - 1].externalId;
    DistinctIds(lines);
    if id !in Ids(init) { NoRows(init, id); }
  }

  // ---------------------------------------------------------------- facts about the grouping

  ghost predicate IsFirstRow(lines: seq<Line>, id: string, i: nat) {
    i < |lines| && lines[i].Row? && lines[i].externalId == id &&
    forall j :: 0 <= j < i && lines[j].Row? ==> lines[j].externalId != id
  }

  // The identifiers are those of the rows, in the order of their first rows.
  lemma {:induction false} IdsInOrder(lines: seq<Line>) returns (first: seq<nat>)
    ensures Increasing(first) && |first| == |Ids(lines)|
    ensures forall k :: 0 <= k < |first| ==> IsFirstRow(lines, Ids(lines)[k], first[k])
    ensures forall j :: 0 <= j < |lines| && lines[j].Row? ==> lines[j].externalId in Ids(lines)
  {
    if lines == [] {
      first := [];
    } else {
      var n, init := |lines| - 1, lines[..|lines| - 1];
      var before := IdsInOrder(init);
      forall k | 0 <= k < |before|
        ensures before[k] < n && IsFirstRow(lines, Ids(init)[k], before[k])
      {
        assert IsFirstRow(init, Ids(init)[k], before[k]);
      }
      hide Increasing;
      first := before;
      if lines[n].Row? && lines[n].externalId !in Ids(init) {
        NewFirstRow(lines);
        IncreasingSnoc(before, n);
        first := before + [n];
      }
      hide IsFirstRow;
    }
  }

  lemma NewFirstRow(lines: seq<Line>)
    requires lines != [] && lines[|lines| - 1].Row? && lines[|lines| - 1].externalId !in Ids(lines[..|lines| - 1])
    requires var init := lines[..|lines| - 1];
             forall j :: 0 <= j < |init| && init[j].Row? ==> init[j].externalId in Ids(init)
    ensures IsFirstRow(lines, lines[|lines| - 1].externalId, |lines| - 1)
  {
    hide Ids;
    var init := lines[..|lines| - 1];
    forall j | 0 <= j < |init| && lines[j].Row? ensures lines[j].externalId in Ids(init) {
      assert init[j] == lines[j];
    }
  }

  // The samples grouped under an identifier are those of its rows, in the order of the file.
  lemma {:induction false} RowsInOrder(lines: seq<Line>, id: string) returns (at: seq<nat>)
    ensures Increasing(at) && |at| == |RowsOf(lines, id)|
    ensures forall k: nat :: k in at <==>
              k < |lines| && lines[k].Row? && lines[k].externalId == id && lines[k].sample.Some?
    ensures forall n :: 0 <= n < |at| ==>
              at[n] < |lines| && lines[at[n]].Row? && lines[at[n]].sample == Some(RowsOf(lines, id)[n])
  {
    if lines == [] {
      at := [];
    } else {
      var k, init := |lines| - 1, lines[..|lines| - 1];
      at := RowsInOrder(init, id);
      hide Increasing;
      if lines[k].Row? && lines[k].externalId == id && lines[k].sample.Some? {
        IncreasingSnoc(at, k);
        at := at + [k];
      }
    }
  }

  lemma {:induction false} DistinctIds(lines: seq<Line>)
    ensures forall i, j :: 0 <= i < j < |Ids(lines)| ==> Ids(lines)[i] != Ids(lines)[j]
  {
    if lines == [] {
    } else {
      DistinctIds(lines[..|lines| - 1]);
    }
  }

  lemma {:induction false} NoRows(lines: seq<Line>, id: string)
    requires id !in Ids(lines)
    ensures RowsOf(lines, id) == []
  {
    if lines == [] {
    } else {
      NoRows(lines[..|lines| - 1], id);
    }
  }

  // In an accepted file every identifier has at least one sample.
  lemma {:induction false} NoEmptyTrace(lines: seq<Line>, maxUes: nat, id: string)
    requires Clean(lines, maxUes, |lines|) && id in Ids(lines)
    ensures RowsOf(lines, id) != []
  {
    var init := lines[..|lines| - 1];
    CleanPrefix(lines, maxUes);
    assert Fault(lines, maxUes, |lines| - 1).None?;
    if id in Ids(init) { NoEmptyTrace(init, maxUes, id); }
  }

  lemma CleanPrefix(lines: seq<Line>, maxUes: nat)
    requires lines != [] && Clean(lines, maxUes, |lines|)
    ensures Clean(lines[..|lines| - 1], maxUes, |lines| - 1)
  {
    var init := lines[..|lines| - 1];
    forall i | 0 <= i < |init| ensures Fault(init, maxUes, i).None? {
      assert init[..i] == lines[..i];
      assert Fault(lines, maxUes, i).None?;
    }
  }

  function TotalOver(lines: seq<Line>, ids: seq<string>): nat {
    if ids == [] then 0
    else TotalOver(lines, ids[..|ids| - 1]) + |RowsOf(lines, ids[|ids| - 1])|
  }

  // Grouping loses and invents no row: the traces together hold one sample per row of the file.
  lemma {:induction false} EveryRowKept(lines: seq<Line>, maxUes: nat)
    requires Clean(lines, maxUes, |lines|)
    ensures TotalOver(lines, Ids(lines)) == RowCount(lines)
  {
    if lines == [] {
    } else {
      var init, last := lines[..|lines| - 1], lines[|lines| - 1];
      CleanPrefix(lines, maxUes);
      EveryRowKept(init, maxUes);
      assert Fault(lines, maxUes, |lines| - 1).None?;
      DistinctIds(lines);
      DistinctIds(init);
      var ids := Ids(init);
      if last.Row? && last.externalId !in ids {
        TotalGrows(lines, ids);
        NoRows(init, last.externalId);
        assert (ids + [last.externalId])[..|ids|] == ids;
      } else {
        TotalGrows(lines, ids);
      }
    }
  }

  lemma {:induction false} TotalGrows(lines: seq<Line>, ids: seq<string>)
    requires lines != [] && (lines[|lines| - 1].Row? ==> lines[|lines| - 1].sample.Some?)
    requires forall i, j :: 0 <= i < j < |ids| ==> ids[i] != ids[j]
    ensures TotalOver(lines, ids) == TotalOver(lines[..|lines| - 1], ids) +
                                     if lines[|lines| - 1].Row? && lines[|lines| - 1].externalId in ids then 1 else 0
  {
    if ids == [] {
    } else {
      var front, last := ids[..|ids| - 1], ids[|ids| - 1];
      TotalGrows(lines, front);
      assert ids == front + [last];
    }
  }
}
