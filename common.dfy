/**
 * Price records and price blocks (common.h), reading one price record of the
 * Nord Pool feed and the unfinished merge of price block collections
 * (common.cpp).
 */
module Common {
  import opened Wrappers
  import opened JsonTree

  /** Why a feed document or a price record was rejected. */
  datatype Error =
    | MissingTimestamp
    | InvalidTimestamp
    | MissingPrice
    | InvalidPrice
    | InvalidDocument
    | InvalidSuccess
    | NotSuccessful
    | InvalidData
    | InvalidRegion
    | InvalidElement

  /**
   * One price and the time it applies to. The time is an hour index in the
   * hourly revision of the code and epoch seconds in the feed parser.
   */
  datatype Price = Price(time: int, price: real)

  /**
   * A run of prices: the time of its first entry, the time of its last entry
   * and the entries in the order they were appended.
   */
  datatype PriceBlock = PriceBlock(start: int, end: int, prices: seq<Price>) {

    /** Number of entries (the number of hours in the hourly revision). */
    function Size(): nat {
      |prices|
    }

    predicate IsEmpty() {
      prices == []
    }

    /** The hourly block covers hour `t`. */
    predicate Covers(t: int) {
      start <= t < start + Size()
    }

    /** The price stored for hour `t`, found by its offset from the start. */
    function PriceAt(t: int): real
      requires Covers(t)
    {
      prices[t - start].price
    }

    /** The last hour a non-empty hourly block covers (merge's `end`). */
    function LastHour(): (h: int)
      requires !IsEmpty()
      ensures Covers(h) && !Covers(h + 1)
      ensures forall t :: Covers(t) <==> start <= t <= h
    {
      start + Size() - 1
    }

    /**
     * Appending one entry: a block without entries takes its start from the
     * entry; the end is always the time of the entry appended last.
     */
    function Append(p: Price): (b: PriceBlock)
      ensures b.prices == prices + [p] && b.end == p.time
      ensures b.start == if IsEmpty() then p.time else start
    {
      PriceBlock(if IsEmpty() then p.time else start, p.time, prices + [p])
    }

    /** Appending several entries one after another. */
    function AppendAll(ps: seq<Price>): (b: PriceBlock)
      ensures b.prices == prices + ps
      ensures ps == [] ==> b == this
      ensures ps != [] ==> b.end == ps[|ps| - 1].time
      ensures b.start == if IsEmpty() && ps != [] then ps[0].time else start
      decreases |ps|
    {
      if ps == [] then this else Append(ps[0]).AppendAll(ps[1..])
    }
  }

  /** A block constructed for hour `h`: it starts there and holds nothing. */
  function BlockAt(h: int): (b: PriceBlock)
    ensures b.start == h && b.IsEmpty() && b.Size() == 0
    ensures forall t :: !b.Covers(t)
  {
    PriceBlock(h, h, [])
  }

  /** A default constructed block. */
  function EmptyBlock(): (b: PriceBlock)
    ensures b.IsEmpty()
  {
    BlockAt(0)
  }

  /**
   * An hourly block constructed for hour `h` and filled with the prices of
   * consecutive hours from `h` on: it covers exactly those hours, the price
   * found for each by its offset is the one appended for it, and its last
   * hour is its end.
   */
  lemma HourlyBlock(h: int, ps: seq<Price>)
    requires forall i :: 0 <= i < |ps| ==> ps[i].time == h + i
    ensures var b := BlockAt(h).AppendAll(ps);
      && b.start == h
      && (forall t :: b.Covers(t) <==> h <= t < h + |ps|)
      && (forall i :: 0 <= i < |ps| ==> b.PriceAt(h + i) == ps[i].price)
      && (ps != [] ==> b.LastHour() == h + |ps| - 1 == b.end)
  {
  }

  /** Appending one entry and then more is appending them all at once. */
  lemma {:induction false} AppendAllSnoc(b: PriceBlock, ps: seq<Price>, p: Price)
    ensures b.AppendAll(ps + [p]) == b.AppendAll(ps).Append(p)
    decreases |ps|
  {
    if ps != [] {
      assert (ps + [p])[1..] == ps[1..] + [p];
      AppendAllSnoc(b.Append(ps[0]), ps[1..], p);
    }
  }

  const SecondsInHour: int := 3600
  const TwoTo31: int := 0x8000_0000

  /** A C++ conversion to `int`: the value modulo 2^32 in [-2^31, 2^31). */
  function ToInt32(x: int): (r: int)
    ensures -TwoTo31 <= r < TwoTo31
    ensures -TwoTo31 <= x < TwoTo31 ==> r == x
  {
    (x + TwoTo31) % (2 * TwoTo31) - TwoTo31
  }

  /** C++ integer division, which truncates toward zero. */
  function DivTrunc(x: int, d: int): (q: int)
    requires d > 0
    ensures 0 <= x ==> q * d <= x < q * d + d
    ensures x < 0 ==> q * d - d < x <= q * d
  {
    if x >= 0 then x / d else -((-x) / d)
  }

  /**
   * The hour index of an epoch timestamp in seconds:
   * static_cast<int>(timestamp / 3600).
   */
  function HourOf(timestamp: int): (h: int)
    ensures -TwoTo31 <= h < TwoTo31
    ensures 0 <= timestamp < SecondsInHour * TwoTo31 ==>
      h * SecondsInHour <= timestamp < h * SecondsInHour + SecondsInHour
    ensures -SecondsInHour * TwoTo31 < timestamp < 0 ==>
      h * SecondsInHour - SecondsInHour < timestamp <= h * SecondsInHour
  {
    ToInt32(DivTrunc(timestamp, SecondsInHour))
  }

  /**
   * Validates one feed record and reads its timestamp (epoch seconds) and
   * price. The timestamp is checked before the price.
   */
  function ReadRecord(o: map<string, JsonValue>): (r: Result<Price, Error>)
    ensures r == Failure(MissingTimestamp) <==> "timestamp" !in o
    ensures r == Failure(InvalidTimestamp) <==>
      "timestamp" in o && ToLongLong(o["timestamp"]).None?
    ensures r == Failure(MissingPrice) <==>
      "timestamp" in o && ToLongLong(o["timestamp"]).Some? && "price" !in o
    ensures r == Failure(InvalidPrice) <==>
      "timestamp" in o && ToLongLong(o["timestamp"]).Some? &&
      "price" in o && ToDouble(o["price"]).None?
    ensures r.Success? <==>
      "timestamp" in o && ToLongLong(o["timestamp"]).Some? &&
      "price" in o && ToDouble(o["price"]).Some?
    ensures r.Success? ==>
      r.value == Price(ToLongLong(o["timestamp"]).value, ToDouble(o["price"]).value)
  {
    if "timestamp" !in o then Failure(MissingTimestamp)
    else
      match ToLongLong(o["timestamp"])
      case None => Failure(InvalidTimestamp)
      case Some(timestamp) =>
        if "price" !in o then Failure(MissingPrice)
        else
          match ToDouble(o["price"])
          case None => Failure(InvalidPrice)
          case Some(price) => Success(Price(timestamp, price))
  }

  /**
   * Price::from_json: a validated record with its timestamp turned into an
   * hour index.
   */
  function PriceFromJson(o: map<string, JsonValue>): (r: Result<Price, Error>)
    ensures r.Failure? <==> ReadRecord(o).Failure?
    ensures r.Failure? ==> r.error == ReadRecord(o).error
    ensures r.Success? ==>
      r.value.price == ReadRecord(o).value.price &&
      r.value.time == HourOf(ReadRecord(o).value.time)
  {
    match ReadRecord(o)
    case Failure(e) => Failure(e)
    case Success(p) => Success(Price(HourOf(p.time), p.price))
  }

  /** A feed record with a non-negative integer timestamp lands in the hour holding it. */
  lemma PriceFromJsonHour(o: map<string, JsonValue>, seconds: int, price: real)
    requires o == map["timestamp" := JNumber(seconds as real), "price" := JNumber(price)]
    requires 0 <= seconds < SecondsInHour * TwoTo31
    ensures PriceFromJson(o).Success?
    ensures var p := PriceFromJson(o).value;
      p.price == price &&
      p.time * SecondsInHour <= seconds < p.time * SecondsInHour + SecondsInHour
  {
  }

  /** A collection of price blocks (PriceBlocks). */
  class PriceBlocks {
    var blocks: seq<PriceBlock>

    constructor ()
      ensures blocks == []
    {
      blocks := [];
    }

    /**
     * PriceBlocks::merge as written: it walks the other collection, skips
     * empty blocks and computes each block's first and last hour, and then
     * does nothing with them. The receiving collection stays as it was.
     */
    method Merge(other: PriceBlocks)
      ensures blocks == old(blocks)
      ensures other.blocks == old(other.blocks)
    {
      for i := 0 to |other.blocks|
      {
        var b := other.blocks[i];
        if b.IsEmpty() {
          continue;
        }
        var start := b.start;
        var end := b.LastHour();
      }
    }
  }
}
