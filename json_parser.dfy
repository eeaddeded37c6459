/**
 * Json::parse and Json::from_json (json.cpp): validating a Nord Pool feed
 * document and turning its price records into blocks of prices that lie at
 * most one interval apart.
 *
 * Times here are epoch seconds; `interval` is the configured price interval
 * in seconds, and `end` the time up to which the last block is padded.
 */
module JsonParser {
  import opened Wrappers
  import opened JsonTree
  import opened Common

  // ---------------------------------------------------------------------------
  // Document shape

  /** The document is an object whose "success" member is true. */
  predicate Succeeded(doc: JsonDocument) {
    IsObject(doc) && Value(doc.root.fields, "success") == JBool(true)
  }

  /**
   * The price array of `region`, after checking that the document is an
   * object, that "success" is the boolean true, that "data" is an object and
   * that its `region` member is an array.
   */
  function RegionPrices(doc: JsonDocument, region: string): (r: Result<seq<JsonValue>, Error>)
    ensures r == Failure(InvalidDocument) <==> !IsObject(doc)
    ensures r == Failure(InvalidSuccess) <==>
      IsObject(doc) && !Value(doc.root.fields, "success").JBool?
    ensures r == Failure(NotSuccessful) <==>
      IsObject(doc) && Value(doc.root.fields, "success") == JBool(false)
    ensures r == Failure(InvalidData) <==>
      Succeeded(doc) && !Value(doc.root.fields, "data").JObject?
    ensures r == Failure(InvalidRegion) <==>
      Succeeded(doc) && Value(doc.root.fields, "data").JObject? &&
      !Value(Value(doc.root.fields, "data").fields, region).JArray?
    ensures r.Success? <==>
      Succeeded(doc) && Value(doc.root.fields, "data").JObject? &&
      Value(Value(doc.root.fields, "data").fields, region).JArray?
    ensures r.Success? ==>
      r.value == Value(Value(doc.root.fields, "data").fields, region).items
  {
    if !IsObject(doc) then Failure(InvalidDocument)
    else
      var success := Value(doc.root.fields, "success");
      if !success.JBool? then Failure(InvalidSuccess)
      else if !success.b then Failure(NotSuccessful)
      else
        var data := Value(doc.root.fields, "data");
        if !data.JObject? then Failure(InvalidData)
        else
          var reg := Value(data.fields, region);
          if !reg.JArray? then Failure(InvalidRegion)
          else Success(reg.items)
  }

  /** One element of the price array: it must be an object holding a valid record. */
  function Element(v: JsonValue): (r: Result<Price, Error>)
    ensures !v.JObject? ==> r == Failure(InvalidElement)
    ensures v.JObject? ==> r == ReadRecord(v.fields)
  {
    if v.JObject? then ReadRecord(v.fields) else Failure(InvalidElement)
  }

  /** All elements of the price array read in order; the first invalid one is the error. */
  function Records(items: seq<JsonValue>): (r: Result<seq<Price>, Error>)
    ensures r.Success? <==> forall i :: 0 <= i < |items| ==> Element(items[i]).Success?
    ensures r.Success? ==>
      |r.value| == |items| &&
      forall i :: 0 <= i < |items| ==> r.value[i] == Element(items[i]).value
  {
    if items == [] then Success([])
    else
      var n := |items| - 1;
      match Records(items[..n])
      case Failure(e) => Failure(e)
      case Success(ps) =>
        match Element(items[n])
        case Failure(e) => Failure(e)
        case Success(p) => Success(ps + [p])
  }

  /** `items[k]` is invalid with `error` and every element before it is valid. */
  predicate FirstInvalid(items: seq<JsonValue>, k: int, error: Error) {
    && 0 <= k < |items|
    && Element(items[k]) == Failure(error)
    && forall j :: 0 <= j < k ==> Element(items[j]).Success?
  }

  /**
   * A rejected array is rejected for its first invalid element: every element
   * before it is valid, and the error is that element's.
   */
  lemma {:induction false} RecordsFirstError(items: seq<JsonValue>)
    requires Records(items).Failure?
    ensures exists k :: FirstInvalid(items, k, Records(items).error)
  {
    var n := |items| - 1;
    var prefix := items[..n];
    if Records(prefix).Failure? {
      RecordsFirstError(prefix);
      var k :| FirstInvalid(prefix, k, Records(prefix).error);
      assert forall j :: 0 <= j < k ==> items[j] == prefix[j];
      assert FirstInvalid(items, k, Records(items).error);
    } else {
      assert forall j :: 0 <= j < n ==> items[j] == prefix[j];
      assert FirstInvalid(items, n, Records(items).error);
    }
  }

  /** Once a prefix of the array has failed, the whole array fails with the same error. */
  lemma {:induction false} RecordsPrefixFailure(items: seq<JsonValue>, k: nat)
    requires k <= |items|
    requires Records(items[..k]).Failure?
    ensures Records(items) == Records(items[..k])
  {
    if k < |items| {
      var n := |items| - 1;
      assert items[..n][..k] == items[..k];
      RecordsPrefixFailure(items[..n], k);
      assert Records(items[..n]).Failure?;
    } else {
      assert items[..k] == items;
    }
  }

  // ---------------------------------------------------------------------------
  // Building blocks

  /**
   * The state of the loop over the price records: the blocks already moved
   * out, the block being built, and the last record seen (null before the
   * first one).
   */
  datatype Builder = Builder(done: seq<PriceBlock>, block: PriceBlock, last: Option<Price>)

  /**
   * `xs` repeats the price of `from` at successive intervals after its time:
   * the first one interval after `from`, each next one interval after the
   * one before.
   */
  ghost predicate Steps(from: Price, xs: seq<Price>, interval: int) {
    && (forall i :: 0 <= i < |xs| ==> xs[i].price == from.price)
    && (|xs| > 0 ==> xs[0].time == from.time + interval)
    && (forall i, j :: 0 <= i < j < |xs| && j == i + 1 ==> xs[j].time == xs[i].time + interval)
  }

  /**
   * The filler entries inserted before `p`: when `p` comes exactly one hour
   * after the previous record, three entries carrying the previous price at
   * successive intervals after it; otherwise none.
   */
  function Fillers(last: Option<Price>, p: Price, interval: int): (r: seq<Price>)
    ensures last.Some? && last.value.time + SecondsInHour == p.time ==>
      |r| == 3 && Steps(last.value, r, interval)
    ensures !(last.Some? && last.value.time + SecondsInHour == p.time) ==> r == []
  {
    if last.Some? && last.value.time + SecondsInHour == p.time then HourFill(last.value, interval) else []
  }

  /** The three entries repeating the price of `last` at the intervals after it. */
  function HourFill(last: Price, interval: int): (r: seq<Price>)
    ensures |r| == 3 && Steps(last, r, interval)
  {
    var t, v := last.time, last.price;
    [Price(t + interval, v), Price(t + 2 * interval, v), Price(t + 3 * interval, v)]
  }

  /**
   * One iteration of the loop: pad an hourly step, close the block when the
   * record lies more than one interval past its end, then append the record.
   */
  function Step(b: Builder, p: Price, interval: int): Builder {
    var filled := b.block.AppendAll(Fillers(b.last, p, interval));
    if !filled.IsEmpty() && filled.end + interval < p.time then
      Builder(b.done + [filled], EmptyBlock().Append(p), Some(p))
    else
      Builder(b.done, filled.Append(p), Some(p))
  }

  /** The loop state after the records `ps`. */
  function Walk(ps: seq<Price>, interval: int): Builder {
    if ps == [] then Builder([], EmptyBlock(), None)
    else Step(Walk(ps[..|ps| - 1], interval), ps[|ps| - 1], interval)
  }

  /**
   * The entries that pad the last block up to `end`: the last price repeated
   * at successive intervals until the time is no longer before `end`.
   */
  function TailFill(last: Price, end: int, interval: int): (r: seq<Price>)
    requires interval > 0
    ensures r == [] <==> end <= last.time
    decreases end - last.time
  {
    if last.time < end then
      var next := Price(last.time + interval, last.price);
      [next] + TailFill(next, end, interval)
    else []
  }

  /**
   * The padding steps one interval at a time from the last record, stops at
   * the first entry not before `end`, and has no entry past it before that.
   */
  lemma {:induction false} TailFillShape(last: Price, end: int, interval: int)
    requires interval > 0
    ensures var r := TailFill(last, end, interval);
      && Steps(last, r, interval)
      && (r != [] ==> end <= r[|r| - 1].time)
      && (forall i :: 0 <= i < |r| - 1 ==> r[i].time < end)
    decreases end - last.time
  {
    if last.time < end {
      var next := Price(last.time + interval, last.price);
      TailFillShape(next, end, interval);
    }
  }

  /** After the loop: pad the last block up to `end` and move it out unless it is empty. */
  function Finish(b: Builder, end: int, interval: int): seq<PriceBlock>
    requires interval > 0
  {
    var block := if b.last.Some? then b.block.AppendAll(TailFill(b.last.value, end, interval)) else b.block;
    if block.IsEmpty() then b.done else b.done + [block]
  }

  /** Finish moves out the padded block unless it is empty. */
  lemma FinishWith(b: Builder, block: PriceBlock, end: int, interval: int)
    requires interval > 0
    requires block == if b.last.Some? then b.block.AppendAll(TailFill(b.last.value, end, interval)) else b.block
    ensures Finish(b, end, interval) == if block.IsEmpty() then b.done else b.done + [block]
  {
  }

  /** The blocks built from the records `ps`. */
  function Blocks(ps: seq<Price>, end: int, interval: int): seq<PriceBlock>
    requires interval > 0
  {
    Finish(Walk(ps, interval), end, interval)
  }

  /** What Json::parse produces: the blocks, or the error its exception reports. */
  function ParseFeed(doc: JsonDocument, region: string, end: int, interval: int): (r: Result<seq<PriceBlock>, Error>)
    requires interval > 0
    ensures RegionPrices(doc, region).Failure? ==> r == Failure(RegionPrices(doc, region).error)
    ensures RegionPrices(doc, region).Success? && Records(RegionPrices(doc, region).value).Failure? ==>
      r == Failure(Records(RegionPrices(doc, region).value).error)
    ensures r.Success? <==>
      RegionPrices(doc, region).Success? && Records(RegionPrices(doc, region).value).Success?
  {
    match RegionPrices(doc, region)
    case Failure(e) => Failure(e)
    case Success(items) =>
      match Records(items)
      case Failure(e) => Failure(e)
      case Success(ps) => Success(Blocks(ps, end, interval))
  }

  // ---------------------------------------------------------------------------
  // Properties of the blocks built

  /**
   * A block as the parser builds it: not empty, its start and end are the
   * times of its first and last entries, and every entry lies at most one
   * interval after the entry before it.
   */
  predicate WellFormed(b: PriceBlock, interval: int) {
    && b.prices != []
    && b.start == b.prices[0].time
    && b.end == b.prices[|b.prices| - 1].time
    && forall j :: 0 <= j < |b.prices| - 1 ==> b.prices[j + 1].time <= b.prices[j].time + interval
  }

  /** Each block ends more than one interval before the next one starts. */
  predicate Separated(bs: seq<PriceBlock>, interval: int) {
    forall k :: 0 <= k < |bs| - 1 ==> bs[k].end + interval < bs[k + 1].start
  }

  /** `xs` continues a run ending at time `from` with steps of at most one interval. */
  predicate Chain(from: int, xs: seq<Price>, interval: int) {
    && (|xs| > 0 ==> xs[0].time <= from + interval)
    && forall i :: 0 <= i < |xs| - 1 ==> xs[i + 1].time <= xs[i].time + interval
  }

  /** The entries of all blocks, one block after another. */
  function Flatten(bs: seq<PriceBlock>): seq<Price> {
    if bs == [] then [] else Flatten(bs[..|bs| - 1]) + bs[|bs| - 1].prices
  }

  /** The last record of `ps`, or nothing. */
  function LastOf(ps: seq<Price>): Option<Price> {
    if ps == [] then None else Some(ps[|ps| - 1])
  }

  /** The records `ps` with the hourly fillers inserted before each record that needs them. */
  function Expand(ps: seq<Price>, interval: int): seq<Price> {
    if ps == [] then []
    else
      var front := ps[..|ps| - 1];
      Expand(front, interval) + Fillers(LastOf(front), ps[|ps| - 1], interval) + [ps[|ps| - 1]]
  }

  /** What the loop keeps true after the records `ps`. */
  predicate Invariant(b: Builder, ps: seq<Price>, interval: int) {
    && (forall k :: 0 <= k < |b.done| ==> WellFormed(b.done[k], interval))
    && b.last == LastOf(ps)
    && (b.last.None? ==> b.block.IsEmpty() && b.done == [])
    && (b.last.Some? ==> WellFormed(b.block, interval) && b.block.end == b.last.value.time)
    && Separated(b.done + [b.block], interval)
    && Flatten(b.done) + b.block.prices == Expand(ps, interval)
  }

  /** Entries at exact interval steps after `from` form a chain from it. */
  lemma StepsChain(from: Price, xs: seq<Price>, interval: int)
    requires Steps(from, xs, interval)
    ensures Chain(from.time, xs, interval)
  {
  }

  /** Appending a chain that continues a well-formed block keeps it well-formed. */
  lemma AppendChain(b: PriceBlock, xs: seq<Price>, interval: int)
    requires WellFormed(b, interval) && Chain(b.end, xs, interval)
    ensures WellFormed(b.AppendAll(xs), interval)
    ensures b.AppendAll(xs).start == b.start
  {
    var c := b.AppendAll(xs);
    var n := |b.prices|;
    forall j | 0 <= j < |c.prices| - 1
      ensures c.prices[j + 1].time <= c.prices[j].time + interval
    {
      if j < n - 1 {
        assert c.prices[j] == b.prices[j] && c.prices[j + 1] == b.prices[j + 1];
      } else if j == n - 1 {
        assert c.prices[j] == b.prices[n - 1] && c.prices[j + 1] == xs[0];
      } else {
        assert c.prices[j] == xs[j - n] && c.prices[j + 1] == xs[j - n + 1];
      }
    }
  }

  /** Adding one block to the list adds its entries at the end. */
  lemma FlattenSnoc(bs: seq<PriceBlock>, b: PriceBlock)
    ensures Flatten(bs + [b]) == Flatten(bs) + b.prices
  {
    assert (bs + [b])[..|bs|] == bs;
  }

  /** Replacing the last block by one with the same start keeps the blocks separated. */
  lemma SeparatedReplaceLast(done: seq<PriceBlock>, x: PriceBlock, y: PriceBlock, interval: int)
    requires Separated(done + [x], interval) && y.start == x.start
    ensures Separated(done + [y], interval)
  {
    var xs, ys := done + [x], done + [y];
    forall k | 0 <= k < |ys| - 1
      ensures ys[k].end + interval < ys[k + 1].start
    {
      assert ys[k] == xs[k];
      assert ys[k + 1].start == xs[k + 1].start;
    }
  }

  /** The block being built once the fillers before `p` are appended. */
  function Filled(b: Builder, p: Price, interval: int): PriceBlock {
    b.block.AppendAll(Fillers(b.last, p, interval))
  }

  /** Appending the fillers keeps the block being built well-formed and its start. */
  lemma FilledShape(b: Builder, ps: seq<Price>, p: Price, interval: int)
    requires interval > 0
    requires Invariant(b, ps, interval)
    ensures b.last.Some? ==> WellFormed(Filled(b, p, interval), interval)
    ensures b.last.Some? ==> Filled(b, p, interval).start == b.block.start
    ensures b.last.None? ==> Filled(b, p, interval) == b.block
  {
    var fill := Fillers(b.last, p, interval);
    if b.last.Some? {
      StepsChain(b.last.value, fill, interval);
      AppendChain(b.block, fill, interval);
    }
  }

  /** Concatenation regrouped. */
  lemma Regroup<T>(a: seq<T>, b: seq<T>, c: seq<T>, d: seq<T>)
    ensures a + (b + c) == a + b + c
    ensures a + (b + c) + d == a + b + c + d
    ensures a + (b + c + d) == a + b + c + d
  {
  }

  /** One iteration adds the fillers and the record to the entries. */
  lemma StepFlatten(b: Builder, ps: seq<Price>, p: Price, interval: int)
    requires Flatten(b.done) + b.block.prices == Expand(ps, interval)
    requires b.last == LastOf(ps)
    ensures var b' := Step(b, p, interval);
      Flatten(b'.done) + b'.block.prices == Expand(ps + [p], interval)
  {
    var fill := Fillers(b.last, p, interval);
    var filled := b.block.AppendAll(fill);
    var b' := Step(b, p, interval);
    var before := Flatten(b.done) + b.block.prices;
    assert (ps + [p])[..|ps|] == ps;
    assert Expand(ps + [p], interval) == before + fill + [p] by {
      var q := ps + [p];
      assert q[..|q| - 1] == ps;
      assert q[|q| - 1] == p;
      assert LastOf(ps) == b.last;
    }
    if !filled.IsEmpty() && filled.end + interval < p.time {
      FlattenSnoc(b.done, filled);
      assert Flatten(b'.done) == Flatten(b.done) + (b.block.prices + fill);
      assert b'.block.prices == [p];
      assert Flatten(b'.done) + b'.block.prices == Flatten(b.done) + (b.block.prices + fill) + [p];
      Regroup(Flatten(b.done), b.block.prices, fill, [p]);
    } else {
      assert b'.done == b.done;
      assert b'.block.prices == b.block.prices + fill + [p];
      assert Flatten(b'.done) + b'.block.prices == Flatten(b.done) + (b.block.prices + fill + [p]);
      Regroup(Flatten(b.done), b.block.prices, fill, [p]);
    }
  }

  /** One iteration keeps every moved-out block well-formed. */
  lemma StepDone(b: Builder, ps: seq<Price>, p: Price, interval: int)
    requires interval > 0
    requires Invariant(b, ps, interval)
    ensures var b' := Step(b, p, interval);
      forall k :: 0 <= k < |b'.done| ==> WellFormed(b'.done[k], interval)
  {
    FilledShape(b, ps, p, interval);
  }

  /** One iteration keeps the block being built well-formed and separated from the earlier ones. */
  lemma StepBlock(b: Builder, ps: seq<Price>, p: Price, interval: int)
    requires interval > 0
    requires Invariant(b, ps, interval)
    ensures var b' := Step(b, p, interval);
      WellFormed(b'.block, interval) && b'.block.end == p.time &&
      Separated(b'.done + [b'.block], interval)
  {
    var filled := Filled(b, p, interval);
    FilledShape(b, ps, p, interval);
    var b' := Step(b, p, interval);
    if !filled.IsEmpty() && filled.end + interval < p.time {
      SeparatedReplaceLast(b.done, b.block, filled, interval);
      assert b'.done + [b'.block] == (b.done + [filled]) + [b'.block];
    } else if !filled.IsEmpty() {
      AppendChain(filled, [p], interval);
      SeparatedReplaceLast(b.done, b.block, b'.block, interval);
    }
  }

  /** One iteration of the loop keeps the invariant. */
  lemma StepInvariant(b: Builder, ps: seq<Price>, p: Price, interval: int)
    requires interval > 0
    requires Invariant(b, ps, interval)
    ensures Invariant(Step(b, p, interval), ps + [p], interval)
  {
    StepFlatten(b, ps, p, interval);
    StepDone(b, ps, p, interval);
    StepBlock(b, ps, p, interval);
    assert LastOf(ps + [p]) == Some(p);
  }

  /** The invariant holds after any sequence of records. */
  lemma {:induction false} WalkInvariant(ps: seq<Price>, interval: int)
    requires interval > 0
    ensures Invariant(Walk(ps, interval), ps, interval)
  {
    if ps != [] {
      var front, p := ps[..|ps| - 1], ps[|ps| - 1];
      assert front + [p] == ps;
      assert Walk(ps, interval) == Step(Walk(front, interval), p, interval);
      WalkInvariant(front, interval);
      StepInvariant(Walk(front, interval), front, p, interval);
    }
  }

  /** The last block once padded up to `end`. */
  function Padded(b: Builder, end: int, interval: int): PriceBlock
    requires interval > 0
    requires b.last.Some?
  {
    b.block.AppendAll(TailFill(b.last.value, end, interval))
  }

  /** The blocks `Finish` returns are well-formed and separated, and exist exactly after some record. */
  lemma FinishShape(b: Builder, ps: seq<Price>, end: int, interval: int)
    requires interval > 0
    requires Invariant(b, ps, interval)
    ensures var bs := Finish(b, end, interval);
      && (forall k :: 0 <= k < |bs| ==> WellFormed(bs[k], interval))
      && Separated(bs, interval)
      && (bs == [] <==> ps == [])
  {
    if b.last.Some? {
      var tail := TailFill(b.last.value, end, interval);
      TailFillShape(b.last.value, end, interval);
      StepsChain(b.last.value, tail, interval);
      AppendChain(b.block, tail, interval);
      var block := Padded(b, end, interval);
      SeparatedReplaceLast(b.done, b.block, block, interval);
      assert Finish(b, end, interval) == b.done + [block];
      assert forall k :: 0 <= k < |b.done| ==> (b.done + [block])[k] == b.done[k];
    }
  }

  /** The entries of the blocks `Finish` returns are the records expanded, then the padding. */
  lemma FinishFlatten(b: Builder, ps: seq<Price>, end: int, interval: int)
    requires interval > 0
    requires Invariant(b, ps, interval)
    ensures Flatten(Finish(b, end, interval)) == Expand(ps, interval) +
      (if ps == [] then [] else TailFill(ps[|ps| - 1], end, interval))
  {
    if b.last.Some? {
      var tail := TailFill(b.last.value, end, interval);
      var block := Padded(b, end, interval);
      assert block.prices == b.block.prices + tail;
      assert Finish(b, end, interval) == b.done + [block];
      FlattenSnoc(b.done, block);
      Regroup(Flatten(b.done), b.block.prices, tail, []);
    }
  }

  /**
   * Every block built is non-empty and well-formed, each block ends more than
   * one interval before the next starts, and there are blocks exactly when
   * there were records.
   */
  lemma BlocksWellFormed(ps: seq<Price>, end: int, interval: int)
    requires interval > 0
    ensures var bs := Blocks(ps, end, interval);
      && (forall k :: 0 <= k < |bs| ==> WellFormed(bs[k], interval))
      && Separated(bs, interval)
      && (bs == [] <==> ps == [])
  {
    WalkInvariant(ps, interval);
    FinishShape(Walk(ps, interval), ps, end, interval);
  }

  /**
   * The blocks hold every record in input order, the three hourly fillers
   * before each record that comes exactly one hour after the previous one,
   * and the padding of the last record up to `end`, and nothing else.
   */
  lemma BlocksKeepOrder(ps: seq<Price>, end: int, interval: int)
    requires interval > 0
    ensures Flatten(Blocks(ps, end, interval)) ==
      Expand(ps, interval) + (if ps == [] then [] else TailFill(ps[|ps| - 1], end, interval))
  {
    WalkInvariant(ps, interval);
    FinishFlatten(Walk(ps, interval), ps, end, interval);
  }

  // ---------------------------------------------------------------------------
  // The parser object

  /** Reading one more element of the array: it extends the records or fails the whole array. */
  lemma RecordsStep(items: seq<JsonValue>, i: nat, ps: seq<Price>)
    requires i < |items| && Records(items[..i]) == Success(ps)
    ensures Element(items[i]).Success? ==> Records(items[..i + 1]) == Success(ps + [Element(items[i]).value])
    ensures Element(items[i]).Failure? ==> Records(items) == Failure(Element(items[i]).error)
  {
    assert items[..i + 1][..i] == items[..i];
    if Element(items[i]).Failure? {
      RecordsPrefixFailure(items, i + 1);
    }
  }

  /** Padding from a time before `end` starts with one entry one interval later. */
  lemma TailFillStep(last: Price, end: int, interval: int)
    requires interval > 0 && last.time < end
    ensures TailFill(last, end, interval) ==
      [Price(last.time + interval, last.price)] + TailFill(Price(last.time + interval, last.price), end, interval)
  {
  }

  /** One more padding entry moves from the part still to add to the part added. */
  lemma TailFillAdvance(last: Price, added: seq<Price>, cur: Price, end: int, interval: int)
    requires interval > 0 && cur.time < end
    requires TailFill(last, end, interval) == added + TailFill(cur, end, interval)
    ensures var next := Price(cur.time + interval, cur.price);
      TailFill(last, end, interval) == (added + [next]) + TailFill(next, end, interval)
  {
    var next := Price(cur.time + interval, cur.price);
    TailFillStep(cur, end, interval);
    Regroup(added, [next], TailFill(next, end, interval), []);
  }

  /** Appending a first entry and then the rest is appending them all. */
  lemma AppendAllCons(b: PriceBlock, x: Price, rest: seq<Price>)
    ensures b.AppendAll([x] + rest) == b.Append(x).AppendAll(rest)
  {
    assert ([x] + rest)[1..] == rest;
  }

  /** The loop state after one more record. */
  lemma WalkSnoc(ps: seq<Price>, p: Price, interval: int)
    ensures Walk(ps + [p], interval) == Step(Walk(ps, interval), p, interval)
  {
    assert (ps + [p])[..|ps|] == ps;
  }

  /**
   * The loop state after reading the elements `items` one by one, stopping
   * at the first invalid element with its error.
   */
  function Feed(items: seq<JsonValue>, interval: int): Result<Builder, Error> {
    if items == [] then Success(Walk([], interval))
    else
      var n := |items| - 1;
      match Feed(items[..n], interval)
      case Failure(e) => Failure(e)
      case Success(b) =>
        match Element(items[n])
        case Failure(e) => Failure(e)
        case Success(p) => Success(Step(b, p, interval))
  }

  /** Reading and stepping element by element is stepping through the records read. */
  lemma {:induction false} FeedRecords(items: seq<JsonValue>, interval: int)
    ensures Records(items).Success? ==> Feed(items, interval) == Success(Walk(Records(items).value, interval))
    ensures Records(items).Failure? ==> Feed(items, interval) == Failure(Records(items).error)
  {
    if items != [] {
      var n := |items| - 1;
      var front := items[..n];
      FeedRecords(front, interval);
      if Records(front).Success? && Element(items[n]).Success? {
        var ps := Records(front).value;
        assert Records(items) == Success(ps + [Element(items[n]).value]);
        WalkSnoc(ps, Element(items[n]).value, interval);
      }
    }
  }

  /** One more element either steps the loop state or ends the whole array with its error. */
  lemma FeedStep(items: seq<JsonValue>, i: nat, b: Builder, interval: int)
    requires i < |items| && Feed(items[..i], interval) == Success(b)
    ensures Element(items[i]).Success? ==>
      Feed(items[..i + 1], interval) == Success(Step(b, Element(items[i]).value, interval))
    ensures Element(items[i]).Failure? ==> Feed(items, interval) == Failure(Element(items[i]).error)
  {
    assert items[..i + 1][..i] == items[..i];
    if Element(items[i]).Failure? {
      FeedRecords(items[..i + 1], interval);
      FeedRecords(items, interval);
      RecordsPrefixFailure(items, i + 1);
    }
  }

  /**
   * The array fails at its first invalid element `k` with `error`, and
   * `moved` are the blocks the loop had moved out after the records before it.
   */
  predicate StoppedAt(items: seq<JsonValue>, k: int, error: Error, moved: seq<PriceBlock>, interval: int) {
    && FirstInvalid(items, k, error)
    && Records(items[..k]).Success?
    && moved == Walk(Records(items[..k]).value, interval).done
  }

  /**
   * Reading element by element fails exactly when the records fail, with
   * their error, and otherwise finishes into the blocks of the records.
   */
  lemma FeedOutcome(items: seq<JsonValue>, end: int, interval: int)
    requires interval > 0
    ensures Feed(items, interval).Success? <==> Records(items).Success?
    ensures Feed(items, interval).Failure? ==> Feed(items, interval).error == Records(items).error
    ensures Feed(items, interval).Success? ==>
      Blocks(Records(items).value, end, interval) == Finish(Feed(items, interval).value, end, interval)
  {
    FeedRecords(items, interval);
  }

  /** The loop meeting an invalid element stops there with the blocks it has moved out. */
  lemma FeedStopped(items: seq<JsonValue>, i: nat, b: Builder, interval: int)
    requires i < |items| && Feed(items[..i], interval) == Success(b)
    requires Element(items[i]).Failure?
    ensures StoppedAt(items, i, Element(items[i]).error, b.done, interval)
  {
    FeedRecords(items[..i], interval);
    assert forall j :: 0 <= j < i ==> items[..i][j] == items[j];
  }

  /** Json: the price blocks read from one feed document. */
  class Json {
    var prices: seq<PriceBlock>

    constructor ()
      ensures prices == []
    {
      prices := [];
    }

    /**
     * Json::parse: checks the document shape, walks the region's price array
     * building blocks, pads the last block up to `end` and moves it out.
     * A document of the wrong shape changes nothing; at an invalid element
     * the blocks moved out for the records before it stay behind.
     */
    method Parse(region: string, doc: JsonDocument, end: int, interval: int) returns (r: Outcome<Error>)
      requires interval > 0
      modifies this
      ensures r.Pass? <==> ParseFeed(doc, region, end, interval).Success?
      ensures r.Pass? ==> prices == old(prices) + ParseFeed(doc, region, end, interval).value
      ensures r.Fail? ==> r.error == ParseFeed(doc, region, end, interval).error
      ensures RegionPrices(doc, region).Failure? ==> prices == old(prices)
      ensures r.Fail? && RegionPrices(doc, region).Success? ==>
        old(prices) <= prices &&
        exists k :: StoppedAt(RegionPrices(doc, region).value, k, r.error, prices[|old(prices)|..], interval)
    {
      if !IsObject(doc) {
        return Fail(InvalidDocument);
      }
      var obj := doc.root.fields;
      var success := Value(obj, "success");
      if !success.JBool? {
        return Fail(InvalidSuccess);
      }
      if !success.b {
        return Fail(NotSuccessful);
      }
      var data := Value(obj, "data");
      if !data.JObject? {
        return Fail(InvalidData);
      }
      var reg := Value(data.fields, region);
      if !reg.JArray? {
        return Fail(InvalidRegion);
      }
      assert RegionPrices(doc, region) == Success(reg.items);
      FeedOutcome(reg.items, end, interval);
      r := ReadFeed(reg.items, end, interval);
    }

    /**
     * The part of Json::parse after the shape checks: builds the blocks from
     * the price array, pads the last block up to `end` and moves it out.
     */
    method ReadFeed(items: seq<JsonValue>, end: int, interval: int) returns (r: Outcome<Error>)
      requires interval > 0
      modifies this
      ensures r.Pass? <==> Feed(items, interval).Success?
      ensures r.Pass? ==> prices == old(prices) + Finish(Feed(items, interval).value, end, interval)
      ensures r.Fail? ==>
        r.error == Feed(items, interval).error &&
        old(prices) <= prices &&
        exists k :: StoppedAt(items, k, r.error, prices[|old(prices)|..], interval)
    {
      var block, last;
      r, block, last := ReadItems(items, interval);
      if r.Fail? {
        return;
      }
      ghost var b := Feed(items, interval).value;

      // pad the last block up to `end`
      if last.Some? {
        block := PadTail(block, last.value, end, interval);
      }

      FinishWith(b, block, end, interval);
      if !block.IsEmpty() {
        Regroup(old(prices), b.done, [block], []);
        prices := prices + [block];
      }
    }

    /**
     * The loop of Json::parse over the region's price array: the outcome, the
     * block being built and the last record read.
     */
    method ReadItems(items: seq<JsonValue>, interval: int)
      returns (r: Outcome<Error>, block: PriceBlock, last: Option<Price>)
      modifies this
      ensures r.Pass? <==> Feed(items, interval).Success?
      ensures r.Pass? ==> var b := Feed(items, interval).value;
        prices == old(prices) + b.done && block == b.block && last == b.last
      ensures r.Fail? ==> r.error == Feed(items, interval).error
      ensures r.Fail? ==>
        old(prices) <= prices &&
        exists k :: StoppedAt(items, k, r.error, prices[|old(prices)|..], interval)
    {
      block := EmptyBlock();
      last := None;
      var lastTime: Option<int> := None;
      var lastPrice := 0.0;
      ghost var state := Walk([], interval);
      for i := 0 to |items|
        invariant Feed(items[..i], interval) == Success(state)
        invariant prices == old(prices) + state.done
        invariant block == state.block
        invariant lastTime.None? <==> state.last.None?
        invariant lastTime.Some? ==>
          lastTime.value == state.last.value.time && lastPrice == state.last.value.price
      {
        FeedStep(items, i, state, interval);
        var rec := Element(items[i]);
        if rec.Failure? {
          FeedStopped(items, i, state, interval);
          assert prices[|old(prices)|..] == state.done;
          r := Fail(rec.error);
          return;
        }
        var price := rec.value;
        last := if lastTime.Some? then Some(Price(lastTime.value, lastPrice)) else None;
        assert last == state.last;
        block := AddRecord(block, last, price, interval, state, old(prices));
        lastTime := Some(price.time);
        lastPrice := price.price;
        state := Step(state, price, interval);
      }
      assert items[..|items|] == items;
      last := if lastTime.Some? then Some(Price(lastTime.value, lastPrice)) else None;
      r := Pass;
    }

    /**
     * The body of the loop of Json::parse once a record has been read: pads
     * an hourly step, moves the block out when the record leaves a hole after
     * it, and appends the record.
     */
    method AddRecord(block: PriceBlock, last: Option<Price>, price: Price, interval: int,
                     ghost state: Builder, ghost before: seq<PriceBlock>) returns (b: PriceBlock)
      requires block == state.block && last == state.last && prices == before + state.done
      modifies this
      ensures prices == before + Step(state, price, interval).done
      ensures b == Step(state, price, interval).block
    {
      b := block;
      // an hourly step: fill in the three intervals in between with the previous price
      if last.Some? && last.value.time + SecondsInHour == price.time {
        b := FillHour(b, last.value, interval);
      }
      assert b == block.AppendAll(Fillers(last, price, interval));

      // a hole: move the block out and start a new one
      if !b.IsEmpty() && b.end + interval < price.time {
        Regroup(before, state.done, [b], []);
        prices := prices + [b];
        b := EmptyBlock();
      }
      b := b.Append(price);
    }

    /**
     * The filler loop of Json::parse: appends the price of `last` at the three
     * intervals that follow it.
     */
    static method FillHour(block: PriceBlock, last: Price, interval: int) returns (b: PriceBlock)
      ensures b == block.AppendAll(HourFill(last, interval))
    {
      ghost var fill := HourFill(last, interval);
      var lastTime := last.time;
      b := block;
      for j := 0 to 3
        invariant lastTime == if j == 0 then last.time else fill[j - 1].time
        invariant b == block.AppendAll(fill[..j])
      {
        lastTime := lastTime + interval;
        b := b.Append(Price(lastTime, last.price));
        AppendAllSnoc(block, fill[..j], fill[j]);
        assert fill[..j + 1] == fill[..j] + [fill[j]];
      }
      assert fill[..3] == fill;
    }

    /**
     * The padding loop at the end of Json::parse: appends the price of `last`
     * at successive intervals until the time reaches `end`.
     */
    static method PadTail(block: PriceBlock, last: Price, end: int, interval: int) returns (b: PriceBlock)
      requires interval > 0
      ensures b == block.AppendAll(TailFill(last, end, interval))
    {
      var lastTime := last.time;
      b := block;
      ghost var added: seq<Price> := [];
      while lastTime < end
        invariant TailFill(last, end, interval) == added + TailFill(Price(lastTime, last.price), end, interval)
        invariant b == block.AppendAll(added)
        decreases end - lastTime
      {
        var next := Price(lastTime + interval, last.price);
        TailFillAdvance(last, added, Price(lastTime, last.price), end, interval);
        AppendAllSnoc(block, added, next);
        lastTime := next.time;
        b := b.Append(next);
        added := added + [next];
      }
      assert TailFill(Price(lastTime, last.price), end, interval) == [];
      assert added + [] == added;
    }

    /** Json::from_json: the blocks of a freshly parsed document, or its error. */
    static method FromJson(doc: JsonDocument, region: string, end: int, interval: int)
      returns (r: Result<seq<PriceBlock>, Error>)
      requires interval > 0
      ensures r == ParseFeed(doc, region, end, interval)
    {
      var me := new Json();
      var outcome := me.Parse(region, doc, end, interval);
      if outcome.Fail? {
        return Failure(outcome.error);
      }
      assert [] + ParseFeed(doc, region, end, interval).value == ParseFeed(doc, region, end, interval).value;
      return Success(me.prices);
    }
  }
}
