/**
 * Header (header.cpp): recognising the columns of the consumption CSV file
 * from its header line. The line is split on ';', every field is trimmed,
 * and each field is offered in turn to the start time, end time,
 * consumption and consumption type columns, in that order; the first
 * column still unclaimed whose name the field mentions takes it.
 */
module CsvHeader {
  import opened Text

  /** The column index of each role, or -1 while none has been recognised. */
  datatype Columns = Columns(start: int, end: int, consumption: int, kind: int)

  /** No column recognised yet: what a default constructed header holds. */
  const Unclaimed: Columns := Columns(-1, -1, -1, -1)

  /** The four columns a header field can be recognised as. */
  datatype Role = StartTime | EndTime | Consumption | ConsumptionType

  // Qt::CaseInsensitive compares case-folded texts; the names below are
  // already folded (see NamesIgnoreCase), so only the field is folded.

  /** The start time column mentions "algus" in any letter case. */
  predicate IsStart(h: string) {
    Contains(Fold(h), "algus")
  }

  /** The end time column mentions "lõpp" in any letter case. */
  predicate IsEnd(h: string) {
    Contains(Fold(h), "lõpp")
  }

  /**
   * The consumption column mentions "tarbimine" or "kogus" in any letter
   * case, or "aktiiv" in exactly this case.
   */
  predicate IsConsumption(h: string) {
    Contains(Fold(h), "tarbimine") || Contains(Fold(h), "kogus") || Contains(h, "aktiiv")
  }

  /** The day/night column mentions "päev" in any letter case and "öö" in exactly this case. */
  predicate IsKind(h: string) {
    Contains(Fold(h), "päev") && Contains(h, "öö")
  }

  // Each column name is its own case folding.

  lemma AlgusFolded()
    ensures Fold("algus") == "algus"
  {
    FoldUnfolded("algus");
  }

  lemma LoppFolded()
    ensures Fold("lõpp") == "lõpp"
  {
    FoldUnfolded("lõpp");
  }

  lemma TarbimineFolded()
    ensures Fold("tarbimine") == "tarbimine"
  {
    FoldUnfolded("tarbimine");
  }

  lemma KogusFolded()
    ensures Fold("kogus") == "kogus"
  {
    FoldUnfolded("kogus");
  }

  lemma PaevFolded()
    ensures Fold("päev") == "päev"
  {
    FoldUnfolded("päev");
  }

  /** The column tests are the case-insensitive searches Header::process makes. */
  lemma NamesIgnoreCase(h: string)
    ensures IsStart(h) == ContainsIgnoringCase(h, "algus")
    ensures IsEnd(h) == ContainsIgnoringCase(h, "lõpp")
    ensures IsConsumption(h) ==
      (ContainsIgnoringCase(h, "tarbimine") || ContainsIgnoringCase(h, "kogus") || Contains(h, "aktiiv"))
    ensures IsKind(h) == (ContainsIgnoringCase(h, "päev") && Contains(h, "öö"))
  {
    AlgusFolded();
    LoppFolded();
    TarbimineFolded();
    KogusFolded();
    PaevFolded();
  }

  /** Which column names one header field mentions. */
  datatype Match = Match(start: bool, end: bool, consumption: bool, kind: bool)

  /** The column names field text `h` mentions. */
  function Classify(h: string): Match
  {
    Match(IsStart(h), IsEnd(h), IsConsumption(h), IsKind(h))
  }

  /** Whether a field with matches `m` names the column `role`. */
  predicate Names(role: Role, m: Match) {
    match role
    case StartTime => m.start
    case EndTime => m.end
    case Consumption => m.consumption
    case ConsumptionType => m.kind
  }

  /**
   * One iteration of the recognition loop: the field at index `idx` is
   * claimed by the first role, in priority order, that is still unclaimed
   * and that the field names.
   */
  function Offer(c: Columns, m: Match, idx: int): Columns {
    if c.start < 0 && m.start then c.(start := idx)
    else if c.end < 0 && m.end then c.(end := idx)
    else if c.consumption < 0 && m.consumption then c.(consumption := idx)
    else if c.kind < 0 && m.kind then c.(kind := idx)
    else c
  }

  /** The columns after offering the fields `ms`, at indices 0, 1, ..., starting from `c`. */
  function Recognize(c: Columns, ms: seq<Match>): Columns {
    if ms == [] then c
    else
      var n := |ms| - 1;
      Offer(Recognize(c, ms[..n]), ms[n], n)
  }

  /** Offering one more field. */
  lemma RecognizeSnoc(c: Columns, ms: seq<Match>, i: nat)
    requires i < |ms|
    ensures Recognize(c, ms[..i + 1]) == Offer(Recognize(c, ms[..i]), ms[i], i)
  {
    assert ms[..i + 1][..i] == ms[..i];
  }

  /** The matches of every field, each trimmed of white space at both ends. */
  function Classified(fields: seq<string>): (ms: seq<Match>)
    ensures |ms| == |fields|
  {
    if fields == [] then [] else [Classify(Trim(fields[0]))] + Classified(fields[1..])
  }

  /** The matches of field `i` are those of its trimmed text. */
  lemma {:induction false} ClassifiedAt(fields: seq<string>, i: nat)
    requires i < |fields|
    ensures Classified(fields)[i] == Classify(Trim(fields[i]))
  {
    if i > 0 {
      ClassifiedAt(fields[1..], i - 1);
    }
  }

  /** The matches of the header fields of `line`. */
  function Fields(line: string): seq<Match> {
    Classified(Split(line, ';'))
  }

  // ---------------------------------------------------------------------------
  // Reference definition: each role takes the first field naming it that no
  // role of higher priority has taken.

  /**
   * `i` is the first index of `ms` outside `taken` whose field names `role`,
   * or -1 when there is none.
   */
  predicate IsFirst(ms: seq<Match>, role: Role, taken: set<int>, i: int) {
    && -1 <= i < |ms|
    && (i >= 0 ==> i !in taken && Names(role, ms[i]))
    && forall j :: 0 <= j < |ms| && (i < 0 || j < i) && j !in taken ==> !Names(role, ms[j])
  }

  /** The first index of `ms` outside `taken` whose field names `role`, or -1. */
  function First(ms: seq<Match>, role: Role, taken: set<int>): int {
    if ms == [] then -1
    else
      var n := |ms| - 1;
      var f := First(ms[..n], role, taken);
      if f >= 0 then f
      else if n !in taken && Names(role, ms[n]) then n
      else -1
  }

  /** First finds the first index. */
  lemma {:induction false} FirstIsFirst(ms: seq<Match>, role: Role, taken: set<int>)
    ensures IsFirst(ms, role, taken, First(ms, role, taken))
  {
    if ms != [] {
      var n := |ms| - 1;
      FirstIsFirst(ms[..n], role, taken);
      assert forall j :: 0 <= j < n ==> ms[..n][j] == ms[j];
    }
  }

  /** There is only one first index. */
  lemma FirstUnique(ms: seq<Match>, role: Role, taken: set<int>, i: int)
    requires IsFirst(ms, role, taken, i)
    ensures First(ms, role, taken) == i
  {
    FirstIsFirst(ms, role, taken);
  }

  /** The columns by priority: each role takes its first field not taken before it. */
  function Reference(ms: seq<Match>): Columns {
    var s := First(ms, StartTime, {});
    var e := First(ms, EndTime, {s});
    var k := First(ms, Consumption, {s, e});
    Columns(s, e, k, First(ms, ConsumptionType, {s, e, k}))
  }

  /**
   * The start time column is the first field naming it, the end time the
   * first naming it apart from the start time, and so on down the roles.
   */
  lemma ReferenceIsFirst(ms: seq<Match>)
    ensures var c := Reference(ms);
      && IsFirst(ms, StartTime, {}, c.start)
      && IsFirst(ms, EndTime, {c.start}, c.end)
      && IsFirst(ms, Consumption, {c.start, c.end}, c.consumption)
      && IsFirst(ms, ConsumptionType, {c.start, c.end, c.consumption}, c.kind)
  {
    var c := Reference(ms);
    FirstIsFirst(ms, StartTime, {});
    FirstIsFirst(ms, EndTime, {c.start});
    FirstIsFirst(ms, Consumption, {c.start, c.end});
    FirstIsFirst(ms, ConsumptionType, {c.start, c.end, c.consumption});
  }

  /**
   * One more field keeps a first index already found; where none was found,
   * the new field is the first if it is not taken and names the role. The
   * taken sets may differ at the new index only.
   */
  lemma FirstExtend(ms: seq<Match>, m: Match, role: Role, before: set<int>, after: set<int>, i: int)
    requires IsFirst(ms, role, before, i)
    requires forall j :: 0 <= j < |ms| ==> (j in before <==> j in after)
    ensures i >= 0 ==> IsFirst(ms + [m], role, after, i)
    ensures i < 0 ==>
      IsFirst(ms + [m], role, after, if |ms| !in after && Names(role, m) then |ms| else -1)
  {
    var ms' := ms + [m];
    assert forall j :: 0 <= j < |ms| ==> ms'[j] == ms[j];
  }

  /** The reference columns of one more field are those of the loop's next iteration. */
  lemma ReferenceSnoc(ms: seq<Match>, m: Match)
    ensures Reference(ms + [m]) == Offer(Reference(ms), m, |ms|)
  {
    var c := Reference(ms);
    var r := Offer(c, m, |ms|);
    var all := ms + [m];
    ReferenceIsFirst(ms);
    FirstExtend(ms, m, StartTime, {}, {}, c.start);
    FirstUnique(all, StartTime, {}, r.start);
    FirstExtend(ms, m, EndTime, {c.start}, {r.start}, c.end);
    FirstUnique(all, EndTime, {r.start}, r.end);
    FirstExtend(ms, m, Consumption, {c.start, c.end}, {r.start, r.end}, c.consumption);
    FirstUnique(all, Consumption, {r.start, r.end}, r.consumption);
    FirstExtend(ms, m, ConsumptionType, {c.start, c.end, c.consumption},
      {r.start, r.end, r.consumption}, c.kind);
    FirstUnique(all, ConsumptionType, {r.start, r.end, r.consumption}, r.kind);
  }

  /**
   * The loop of Header::process recognises exactly the reference columns:
   * the start time is the first field naming it, and every other role the
   * first field naming it that a role checked before it has not taken.
   */
  lemma {:induction false} RecognizeReference(ms: seq<Match>)
    ensures Recognize(Unclaimed, ms) == Reference(ms)
  {
    if ms != [] {
      var n := |ms| - 1;
      RecognizeReference(ms[..n]);
      ReferenceSnoc(ms[..n], ms[n]);
      assert ms[..n] + [ms[n]] == ms;
    }
  }

  /**
   * The recognised columns are field indices or -1, and no two roles share
   * a field.
   */
  lemma ReferenceDistinct(ms: seq<Match>)
    ensures var c := Reference(ms);
      && -1 <= c.start < |ms| && -1 <= c.end < |ms|
      && -1 <= c.consumption < |ms| && -1 <= c.kind < |ms|
      && (c.end >= 0 ==> c.end != c.start)
      && (c.consumption >= 0 ==> c.consumption != c.start && c.consumption != c.end)
      && (c.kind >= 0 ==> c.kind != c.start && c.kind != c.end && c.kind != c.consumption)
  {
    ReferenceIsFirst(ms);
  }

  /** What a header tells the record parser: its field count and its columns. */
  datatype Layout = Layout(numFields: int, columns: Columns)

  /** The layout Header(line) recognises. */
  function Recognized(line: string): Layout {
    Layout(Count(line, ';') + 1, Reference(Fields(line)))
  }

  /** A layout is usable when it has fields, a start time and a consumption column. */
  predicate Usable(l: Layout) {
    l.numFields > 0 && l.columns.start >= 0 && l.columns.consumption >= 0
  }

  /** Header: the column layout read from the header line of a CSV file. */
  class Header {
    var valid: bool
    var numFields: int
    var idxStartTime: int
    var idxEndTime: int
    var idxConsumption: int
    var idxConsumptionType: int

    /** The recognised columns. */
    function Cols(): Columns
      reads this
    {
      Columns(idxStartTime, idxEndTime, idxConsumption, idxConsumptionType)
    }

    /** The field count and columns, as handed to the record parser. */
    function AsLayout(): Layout
      reads this
    {
      Layout(numFields, Cols())
    }

    /** The default constructed header: invalid, with no fields and no columns. */
    constructor Default()
      ensures !valid && numFields == -1 && Cols() == Unclaimed
    {
      valid := false;
      numFields := -1;
      idxStartTime := -1;
      idxEndTime := -1;
      idxConsumption := -1;
      idxConsumptionType := -1;
    }

    /**
     * Header::Header(line): processes the line; the header is valid when it
     * has fields and the start time and consumption columns were found.
     */
    constructor (line: string)
      ensures numFields == Count(line, ';') + 1
      ensures Cols() == Reference(Fields(line))
      ensures valid <==> numFields > 0 && idxStartTime >= 0 && idxConsumption >= 0
      ensures AsLayout() == Recognized(line) && (valid <==> Usable(AsLayout()))
    {
      valid := false;
      numFields := -1;
      idxStartTime := -1;
      idxEndTime := -1;
      idxConsumption := -1;
      idxConsumptionType := -1;
      new;
      var ok := Process(line);
      valid := ok;
      SplitShape(line, ';');
      RecognizeReference(Fields(line));
    }

    /**
     * The body of the loop of Header::process: the field `header` at index
     * `idx` is taken by the first unclaimed column it names.
     */
    method OfferField(header: string, idx: int)
      modifies this
      ensures Cols() == Offer(old(Cols()), Classify(header), idx)
      ensures valid == old(valid) && numFields == old(numFields)
    {
      if idxStartTime < 0 && IsStart(header) {
        idxStartTime := idx;
      } else if idxEndTime < 0 && IsEnd(header) {
        idxEndTime := idx;
      } else if idxConsumption < 0 && IsConsumption(header) {
        idxConsumption := idx;
      } else if idxConsumptionType < 0 && IsKind(header) {
        idxConsumptionType := idx;
      }
    }

    /**
     * Header::process: counts the fields of the line and offers each trimmed
     * field in turn to the columns still unclaimed.
     */
    method Process(line: string) returns (ok: bool)
      modifies this
      ensures numFields == |Split(line, ';')|
      ensures Cols() == Recognize(old(Cols()), Fields(line))
      ensures ok <==> numFields > 0 && idxStartTime >= 0 && idxConsumption >= 0
      ensures valid == old(valid)
    {
      var fields := Split(line, ';');
      numFields := |fields|;
      ghost var ms := Classified(fields);
      ghost var initial := Cols();
      for idx := 0 to |fields|
        invariant numFields == |fields|
        invariant valid == old(valid)
        invariant Cols() == Recognize(initial, ms[..idx])
      {
        var header := Trim(fields[idx]);
        RecognizeSnoc(initial, ms, idx);
        ClassifiedAt(fields, idx);
        OfferField(header, idx);
      }
      assert ms[..|fields|] == ms;
      ok := numFields > 0 && idxStartTime >= 0 && idxConsumption >= 0;
    }
  }
}
