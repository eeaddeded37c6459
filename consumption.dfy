/**
 * Consumption (consumption.cpp): loading the consumption records of a CSV
 * file exported by the network operator. The file starts with free-form
 * lines, then a separator line (empty, or two double quotes), then the
 * header line, then one record per line. Invalid records are skipped, and
 * loading stops at the first record that ends after the cutoff time.
 *
 * The file is its sequence of lines as read (None when it cannot be
 * opened), and the record parser of record.cpp is a parameter.
 */
module ConsumptionLoader {
  import opened Wrappers
  import opened Text
  import opened CsvHeader

  /**
   * One consumption record: start and end time in seconds since the epoch,
   * the amount consumed in kWh and whether it is a night time record.
   */
  datatype Record = Record(start: int, end: int, kWh: real, night: bool)

  /**
   * Record{lineno, line, hdr}: parses the trimmed line with the given line
   * number against the header's layout; None when the record is invalid.
   */
  type RecordParser = (int, string, Layout) -> Option<Record>

  /** The record of line number `lineno`, as the parser reads it. */
  function ParseRecord(parse: RecordParser, lineno: int, line: string, l: Layout): Option<Record> {
    parse(lineno, line, l)
  }

  /** The line between the preamble and the header: empty, or two double quotes. */
  predicate IsSeparator(line: string) {
    line == [] || line == "\"\""
  }

  // ---------------------------------------------------------------------------
  // Reference definition: the separator, the header after it, and the valid
  // records after the header up to the first one past the cutoff.

  /** The index of the first separator line at or after `i`, if any. */
  function Separator(lines: seq<string>, i: nat): (r: Option<nat>)
    requires i <= |lines|
    ensures r.Some? ==> i <= r.value < |lines|
    decreases |lines| - i
  {
    if i == |lines| then None
    else if IsSeparator(Trim(lines[i])) then Some(i)
    else Separator(lines, i + 1)
  }

  /**
   * Separator finds a separator line, and no line between `i` and it (or
   * the end, when there is none) is a separator.
   */
  lemma {:induction false} SeparatorFirst(lines: seq<string>, i: nat)
    requires i <= |lines|
    ensures var r := Separator(lines, i);
      && (r.Some? ==> IsSeparator(Trim(lines[r.value])))
      && forall k :: i <= k < |lines| && (r.None? || k < r.value) ==> !IsSeparator(Trim(lines[k]))
    decreases |lines| - i
  {
    if i < |lines| && !IsSeparator(Trim(lines[i])) {
      SeparatorFirst(lines, i + 1);
    }
  }

  /** The valid records of the lines from index `i` on, in file order. */
  function Parsed(lines: seq<string>, i: nat, l: Layout, parse: RecordParser): (r: seq<Record>)
    requires i <= |lines|
    ensures |r| <= |lines| - i
    decreases |lines| - i
  {
    if i == |lines| then []
    else
      match ParseRecord(parse, i + 1, Trim(lines[i]), l)
      case None => Parsed(lines, i + 1, l, parse)
      case Some(rec) => [rec] + Parsed(lines, i + 1, l, parse)
  }

  /** The records before the first one ending after `cutoff`. */
  function Until(recs: seq<Record>, cutoff: int): (r: seq<Record>)
    ensures |r| <= |recs|
  {
    if recs == [] || recs[0].end > cutoff then []
    else [recs[0]] + Until(recs[1..], cutoff)
  }

  /**
   * Until keeps a prefix of the records in which none ends after the
   * cutoff, and stops only at one that does.
   */
  lemma {:induction false} UntilPrefix(recs: seq<Record>, cutoff: int)
    ensures var r := Until(recs, cutoff);
      && r <= recs
      && (forall k :: 0 <= k < |r| ==> r[k].end <= cutoff)
      && (|r| < |recs| ==> recs[|r|].end > cutoff)
  {
    if recs != [] && recs[0].end <= cutoff {
      UntilPrefix(recs[1..], cutoff);
    }
  }

  /**
   * What loading the lines keeps: nothing when there is no header line, None
   * when the header line after the separator is not usable, and otherwise
   * the valid records after it up to the first one past the cutoff.
   */
  function Loaded(lines: seq<string>, cutoff: int, parse: RecordParser): Option<seq<Record>> {
    match Separator(lines, 0)
    case None => Some([])
    case Some(s) =>
      if s + 1 == |lines| then Some([])
      else
        var l := Recognized(Trim(lines[s + 1]));
        if !Usable(l) then None else Some(Until(Parsed(lines, s + 2, l, parse), cutoff))
  }

  // ---------------------------------------------------------------------------
  // The load loop as a state machine over the lines, and its agreement with
  // the reference definition.

  /** Where the load loop is: the `skip` and `header` flags, or done. */
  datatype Phase =
    | Skipping            // looking for the separator line
    | AtHeader            // the next line is the header line
    | Reading(l: Layout)  // reading records against the header's layout
    | Failed              // the header line was not usable
    | Stopped             // a record ended after the cutoff

  /** The loop's state: its phase and the records appended so far. */
  datatype Scan = Scan(phase: Phase, kept: seq<Record>)

  /** One turn of the load loop, on line number `lineno` trimmed to `line`. */
  function Step(cutoff: int, parse: RecordParser, st: Scan, lineno: int, line: string): Scan {
    match st.phase
    case Skipping => if IsSeparator(line) then st.(phase := AtHeader) else st
    case AtHeader =>
      var l := Recognized(line);
      if Usable(l) then st.(phase := Reading(l)) else st.(phase := Failed)
    case Reading(l) =>
      (match ParseRecord(parse, lineno, line, l)
       case None => st
       case Some(rec) => if rec.end > cutoff then st.(phase := Stopped) else st.(kept := st.kept + [rec]))
    case Failed => st
    case Stopped => st
  }

  /** The state the loop ends in when it is at `st` with lines `i..` still to read. */
  function Run(lines: seq<string>, cutoff: int, parse: RecordParser, st: Scan, i: nat): Scan
    requires i <= |lines|
    decreases |lines| - i
  {
    if i == |lines| then st
    else Run(lines, cutoff, parse, Step(cutoff, parse, st, i + 1, Trim(lines[i])), i + 1)
  }

  /** The loop with lines left to read takes one more turn. */
  lemma RunNext(lines: seq<string>, cutoff: int, parse: RecordParser, st: Scan, i: nat)
    requires i < |lines|
    ensures Run(lines, cutoff, parse, st, i) ==
      Run(lines, cutoff, parse, Step(cutoff, parse, st, i + 1, Trim(lines[i])), i + 1)
  {
  }

  /** A loop that failed or stopped stays as it is. */
  lemma {:induction false} RunHalted(lines: seq<string>, cutoff: int, parse: RecordParser, st: Scan, i: nat)
    requires i <= |lines| && (st.phase == Failed || st.phase == Stopped)
    ensures Run(lines, cutoff, parse, st, i) == st
    decreases |lines| - i
  {
    if i < |lines| {
      RunHalted(lines, cutoff, parse, st, i + 1);
    }
  }

  /**
   * Reading from line `i` appends the valid records up to the first one
   * ending after the cutoff, and stops exactly when there is such a record.
   */
  lemma {:induction false} RunReading(lines: seq<string>, cutoff: int, parse: RecordParser,
                                      l: Layout, kept: seq<Record>, i: nat)
    requires i <= |lines|
    ensures var r := Until(Parsed(lines, i, l, parse), cutoff);
      Run(lines, cutoff, parse, Scan(Reading(l), kept), i) ==
        Scan(if |r| < |Parsed(lines, i, l, parse)| then Stopped else Reading(l), kept + r)
    decreases |lines| - i
  {
    if i == |lines| {
      assert kept + [] == kept;
    } else {
      var rest := Parsed(lines, i + 1, l, parse);
      match ParseRecord(parse, i + 1, Trim(lines[i]), l)
      case None =>
        RunReading(lines, cutoff, parse, l, kept, i + 1);
      case Some(rec) =>
        assert Parsed(lines, i, l, parse) == [rec] + rest;
        assert ([rec] + rest)[1..] == rest;
        if rec.end > cutoff {
          RunHalted(lines, cutoff, parse, Scan(Stopped, kept), i + 1);
          assert kept + [] == kept;
        } else {
          RunReading(lines, cutoff, parse, l, kept + [rec], i + 1);
          assert kept + ([rec] + Until(rest, cutoff)) == (kept + [rec]) + Until(rest, cutoff);
        }
    }
  }

  /** Skipping from line `i` ends at the header after the first separator, if any. */
  lemma {:induction false} RunSkipping(lines: seq<string>, cutoff: int, parse: RecordParser, i: nat)
    requires i <= |lines|
    ensures Run(lines, cutoff, parse, Scan(Skipping, []), i) ==
      match Separator(lines, i)
      case None => Scan(Skipping, [])
      case Some(s) => Run(lines, cutoff, parse, Scan(AtHeader, []), s + 1)
    decreases |lines| - i
  {
    if i < |lines| {
      RunNext(lines, cutoff, parse, Scan(Skipping, []), i);
      if !IsSeparator(Trim(lines[i])) {
        RunSkipping(lines, cutoff, parse, i + 1);
      }
    }
  }

  /**
   * The load loop agrees with the reference definition: it fails exactly
   * when Loaded is None, and otherwise appends exactly the records Loaded
   * keeps.
   */
  lemma RunLoaded(lines: seq<string>, cutoff: int, parse: RecordParser)
    ensures var fin := Run(lines, cutoff, parse, Scan(Skipping, []), 0);
      && (fin.phase == Failed <==> Loaded(lines, cutoff, parse).None?)
      && (fin.phase != Failed ==> Loaded(lines, cutoff, parse) == Some(fin.kept))
  {
    RunSkipping(lines, cutoff, parse, 0);
    match Separator(lines, 0)
    case None =>
    case Some(s) =>
      if s + 1 < |lines| {
        var l := Recognized(Trim(lines[s + 1]));
        var next := Step(cutoff, parse, Scan(AtHeader, []), s + 2, Trim(lines[s + 1]));
        assert Run(lines, cutoff, parse, Scan(AtHeader, []), s + 1) == Run(lines, cutoff, parse, next, s + 2);
        if Usable(l) {
          RunReading(lines, cutoff, parse, l, [], s + 2);
          var r := Until(Parsed(lines, s + 2, l, parse), cutoff);
          assert [] + r == r;
        } else {
          RunHalted(lines, cutoff, parse, Scan(Failed, []), s + 2);
        }
      }
  }

  /** The phase of the load loop given its `skip` and `header` flags. */
  function PhaseOf(skip: bool, header: bool, l: Layout): Phase {
    if skip then Skipping else if header then AtHeader else Reading(l)
  }

  /** Consumption: the records of the consumption file and the times they span. */
  class Consumption {
    var records: seq<Record>
    var firstRecordTime: Option<int>
    var lastRecordTime: Option<int>

    /** An empty container; the times are null until a load succeeds. */
    constructor ()
      ensures records == [] && firstRecordTime == None && lastRecordTime == None
    {
      records := [];
      firstRecordTime := None;
      lastRecordTime := None;
    }

    /**
     * The read loop of Consumption::load: skips the lines up to the
     * separator, recognises the header line after it, and appends the valid
     * records after that up to the first one ending after the cutoff. Fails,
     * having appended nothing, when the header line is not usable.
     */
    method ReadRecords(lines: seq<string>, cutoff: int, parse: RecordParser) returns (ok: bool)
      modifies this
      ensures ok <==> Loaded(lines, cutoff, parse).Some?
      ensures ok ==> records == old(records) + Loaded(lines, cutoff, parse).value
      ensures !ok ==> records == old(records)
      ensures firstRecordTime == old(firstRecordTime) && lastRecordTime == old(lastRecordTime)
    {
      var lineno := 0;
      var skip := true;
      var header := true;
      var layout := Layout(-1, Unclaimed);
      ghost var kept: seq<Record> := [];
      ghost var fin := Run(lines, cutoff, parse, Scan(Skipping, []), 0);
      RunLoaded(lines, cutoff, parse);
      while lineno < |lines|
        invariant lineno <= |lines|
        invariant records == old(records) + kept
        invariant firstRecordTime == old(firstRecordTime) && lastRecordTime == old(lastRecordTime)
        invariant (skip ==> header) && (header ==> kept == [])
        invariant Run(lines, cutoff, parse, Scan(PhaseOf(skip, header, layout), kept), lineno) == fin
      {
        RunNext(lines, cutoff, parse, Scan(PhaseOf(skip, header, layout), kept), lineno);
        var line := Trim(lines[lineno]);
        lineno := lineno + 1;
        if skip {
          skip := !IsSeparator(line);
          continue;
        }
        if header {
          header := false;
          var hdr := new Header(line);
          if !hdr.valid {
            RunHalted(lines, cutoff, parse, Scan(Failed, kept), lineno);
            return false;
          }
          layout := hdr.AsLayout();
          continue;
        }
        var rec := ParseRecord(parse, lineno, line, layout);
        if rec.None? {
          continue;
        }
        if rec.value.end > cutoff {
          RunHalted(lines, cutoff, parse, Scan(Stopped, kept), lineno);
          break;
        }
        records := records + [rec.value];
        kept := kept + [rec.value];
      }
      ok := true;
    }

    /**
     * Consumption::load: fails when the file cannot be opened or the read
     * loop fails; otherwise succeeds when there is at least one record, and
     * then sets the first and last record times to the start times of the
     * first and last records.
     */
    method Load(file: Option<seq<string>>, cutoff: int, parse: RecordParser) returns (ok: bool)
      modifies this
      ensures file.None? || Loaded(file.value, cutoff, parse).None? ==>
        !ok && records == old(records) &&
        firstRecordTime == old(firstRecordTime) && lastRecordTime == old(lastRecordTime)
      ensures file.Some? && Loaded(file.value, cutoff, parse).Some? ==>
        && records == old(records) + Loaded(file.value, cutoff, parse).value
        && (ok <==> records != [])
        && (ok ==> firstRecordTime == Some(records[0].start) &&
                   lastRecordTime == Some(records[|records| - 1].start))
        && (!ok ==> firstRecordTime == old(firstRecordTime) && lastRecordTime == old(lastRecordTime))
    {
      if file.None? {
        return false;
      }
      ok := ReadRecords(file.value, cutoff, parse);
      if !ok {
        return;
      }
      if records == [] {
        return false;
      }
      firstRecordTime := Some(records[0].start);
      lastRecordTime := Some(records[|records| - 1].start);
    }
  }
}
