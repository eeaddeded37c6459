/**
 * Prices (prices.h, prices.cpp): the older price table, which reads the
 * Estonian ("ee") prices of a Nord Pool feed file into a map from epoch
 * seconds to the price per MWh and answers the price of one moment per kWh.
 */
module LegacyPrices {
  import opened Wrappers
  import opened JsonTree
  import opened Common
  import JsonParser

  /**
   * Only the "ee" member of "data" is read: replacing any other region of a
   * document leaves what the loader sees unchanged.
   */
  lemma OnlyRegionRead(fields: map<string, JsonValue>, data: map<string, JsonValue>, other: string, v: JsonValue)
    requires other != Region
    ensures
      var before := Document(JObject(fields["data" := JObject(data)]));
      var after := Document(JObject(fields["data" := JObject(data[other := v])]));
      JsonParser.RegionPrices(after, Region) == JsonParser.RegionPrices(before, Region)
  {
  }

  /** The only region the older table reads. */
  const Region: string := "ee"

  /**
   * One element of the price array: it must be an object whose "timestamp"
   * and "price" members are numbers. The timestamp is cast to an integer,
   * which truncates it toward zero.
   */
  function ReadEntry(v: JsonValue): (r: Result<Price, Error>)
    ensures r == Failure(InvalidElement) <==> !v.JObject?
    ensures r == Failure(InvalidTimestamp) <==>
      v.JObject? && !Value(v.fields, "timestamp").JNumber?
    ensures r == Failure(InvalidPrice) <==>
      v.JObject? && Value(v.fields, "timestamp").JNumber? && !Value(v.fields, "price").JNumber?
    ensures r.Success? <==>
      v.JObject? && Value(v.fields, "timestamp").JNumber? && Value(v.fields, "price").JNumber?
    ensures r.Success? ==>
      r.value.time == Truncate(Value(v.fields, "timestamp").n) &&
      r.value.price == Value(v.fields, "price").n
  {
    if !v.JObject? then Failure(InvalidElement)
    else
      var t := Value(v.fields, "timestamp");
      if !t.JNumber? then Failure(InvalidTimestamp)
      else
        var p := Value(v.fields, "price");
        if !p.JNumber? then Failure(InvalidPrice)
        else Success(Price(Truncate(t.n), p.n))
  }

  /** The object a feed carries for an entry. */
  function EntryObject(e: Price): JsonValue {
    JObject(map["timestamp" := JNumber(e.time as real), "price" := JNumber(e.price)])
  }

  /** An entry written out as a feed object reads back as the same entry. */
  lemma ReadEntryRoundTrip(e: Price)
    ensures ReadEntry(EntryObject(e)) == Success(e)
  {
    assert Truncate(e.time as real) == e.time;
  }

  /** A timestamp with a fraction lands on the whole second before it (after it, when negative). */
  lemma ReadEntryTruncates(fields: map<string, JsonValue>, t: real)
    requires Value(fields, "timestamp") == JNumber(t) && Value(fields, "price").JNumber?
    ensures ReadEntry(JObject(fields)).Success?
    ensures var time := ReadEntry(JObject(fields)).value.time;
      (0.0 <= t ==> time as real <= t < time as real + 1.0) &&
      (t < 0.0 ==> time as real - 1.0 < t <= time as real)
  {
  }

  /** The number of leading elements that read as entries: the loop stops at the next one. */
  function Accepted(items: seq<JsonValue>): (n: nat)
    ensures n <= |items|
    ensures forall j :: 0 <= j < n ==> ReadEntry(items[j]).Success?
    ensures n < |items| ==> ReadEntry(items[n]).Failure?
  {
    if items == [] || ReadEntry(items[0]).Failure? then 0
    else
      var rest := Accepted(items[1..]);
      assert forall j :: 1 <= j < 1 + rest ==> items[j] == items[1..][j - 1];
      1 + rest
  }

  /** The entries of elements that all read successfully, in order. */
  function Entries(items: seq<JsonValue>): (es: seq<Price>)
    requires forall j :: 0 <= j < |items| ==> ReadEntry(items[j]).Success?
    ensures |es| == |items|
    decreases |items|
  {
    if items == [] then []
    else Entries(items[..|items| - 1]) + [ReadEntry(items[|items| - 1]).value]
  }

  /** Entry `j` of the list is what element `j` reads as. */
  lemma {:induction false} EntriesAt(items: seq<JsonValue>, j: int)
    requires forall k :: 0 <= k < |items| ==> ReadEntry(items[k]).Success?
    requires 0 <= j < |items|
    ensures Entries(items)[j] == ReadEntry(items[j]).value
    decreases |items|
  {
    var n := |items| - 1;
    if j < n {
      EntriesAt(items[..n], j);
    }
  }

  /** The elements before `i` read and element `i` does not: `i` is where reading stops. */
  lemma AcceptedAt(items: seq<JsonValue>, i: int)
    requires 0 <= i < |items|
    requires forall j :: 0 <= j < i ==> ReadEntry(items[j]).Success?
    requires ReadEntry(items[i]).Failure?
    ensures Accepted(items) == i
  {
  }

  /** Reading one more element appends its entry. */
  lemma EntriesNext(items: seq<JsonValue>, i: int)
    requires 0 <= i < |items|
    requires forall j :: 0 <= j <= i ==> ReadEntry(items[j]).Success?
    ensures Entries(items[..i + 1]) == Entries(items[..i]) + [ReadEntry(items[i]).value]
  {
    assert items[..i + 1][..i] == items[..i];
  }

  /** The table after inserting `es` into `m` one after the other (QMap::insert replaces). */
  function Insert(m: map<int, real>, es: seq<Price>): map<int, real>
    decreases |es|
  {
    if es == [] then m
    else
      var e := es[|es| - 1];
      Insert(m, es[..|es| - 1])[e.time := e.price]
  }

  /** The table holds the keys it had and the times of the inserted entries, nothing else. */
  lemma {:induction false} InsertKeys(m: map<int, real>, es: seq<Price>)
    ensures Insert(m, es).Keys == m.Keys + set j | 0 <= j < |es| :: es[j].time
    decreases |es|
  {
    if es != [] {
      var n := |es| - 1;
      InsertKeys(m, es[..n]);
      assert forall j :: 0 <= j < n ==> es[..n][j] == es[j];
    }
  }

  /** Of several entries with the same time, the last one wins. */
  lemma {:induction false} LastWriteWins(m: map<int, real>, es: seq<Price>, i: int)
    requires 0 <= i < |es|
    requires forall j :: i < j < |es| ==> es[j].time != es[i].time
    ensures es[i].time in Insert(m, es) && Insert(m, es)[es[i].time] == es[i].price
    decreases |es|
  {
    var n := |es| - 1;
    if i < n {
      assert forall j :: i < j < n ==> es[..n][j] == es[j];
      LastWriteWins(m, es[..n], i);
    }
  }

  /** A time no entry carries keeps the price it had (or stays absent). */
  lemma {:induction false} InsertElsewhere(m: map<int, real>, es: seq<Price>, k: int)
    requires forall j :: 0 <= j < |es| ==> es[j].time != k
    ensures k in Insert(m, es) <==> k in m
    ensures k in m ==> Insert(m, es)[k] == m[k]
    decreases |es|
  {
    if es != [] {
      var n := |es| - 1;
      assert forall j :: 0 <= j < n ==> es[..n][j] == es[j];
      InsertElsewhere(m, es[..n], k);
    }
  }

  /** Prices: the table and whether a whole file has been loaded into it. */
  class Prices {
    var valid: bool
    /** Epoch seconds to the price per MWh. */
    var prices: map<int, real>

    constructor()
      ensures !valid && prices == map[]
    {
      valid := false;
      prices := map[];
    }

    /**
     * Prices::loadFromFile; `file` is the parsed document, or None when the
     * file cannot be opened. Every rejection of the document leaves the object
     * as it was. Elements are inserted one at a time, so the entries before an
     * invalid element stay in the table while the load still fails; the table
     * becomes valid only when every element has been inserted.
     */
    method LoadFromFile(file: Option<JsonDocument>) returns (ok: bool)
      modifies this
      ensures file.None? ==> !ok && valid == old(valid) && prices == old(prices)
      ensures file.Some? && JsonParser.RegionPrices(file.value, Region).Failure? ==>
        !ok && valid == old(valid) && prices == old(prices)
      ensures file.Some? && JsonParser.RegionPrices(file.value, Region).Success? ==>
        var items := JsonParser.RegionPrices(file.value, Region).value;
        var n := Accepted(items);
        (ok <==> n == |items|) &&
        valid == (old(valid) || ok) &&
        prices == Insert(old(prices), Entries(items[..n]))
    {
      if file.None? {
        return false;
      }
      var region := JsonParser.RegionPrices(file.value, Region);
      if region.Failure? {
        return false;
      }
      var items := region.value;
      ghost var start := prices;
      var i := 0;
      while i < |items|
        invariant i <= |items|
        invariant forall j :: 0 <= j < i ==> ReadEntry(items[j]).Success?
        invariant valid == old(valid)
        invariant prices == Insert(start, Entries(items[..i]))
      {
        var entry := ReadEntry(items[i]);
        if entry.Failure? {
          AcceptedAt(items, i);
          return false;
        }
        EntriesNext(items, i);
        prices := prices[entry.value.time := entry.value.price];
        i := i + 1;
      }
      assert items[..i] == items;
      valid := true;
      ok := true;
    }

    /**
     * Prices::getPrice: the price of the second `time` per kWh, present only
     * when the table holds that exact second.
     */
    function GetPrice(time: int): (r: Option<real>)
      reads this
      ensures r.None? <==> time !in prices
      ensures r.Some? ==> r.value * 1000.0 == prices[time]
    {
      if time in prices then Some(prices[time] / 1000.0) else None
    }
  }

  /**
   * After a complete load, the price of an element's second is the last
   * price given for that second, per kWh.
   */
  lemma LoadedPrice(m: map<int, real>, items: seq<JsonValue>, i: int)
    requires Accepted(items) == |items|
    requires 0 <= i < |items|
    requires forall j :: i < j < |items| ==> ReadEntry(items[j]).value.time != ReadEntry(items[i]).value.time
    ensures var e := ReadEntry(items[i]).value;
      e.time in Insert(m, Entries(items)) && Insert(m, Entries(items))[e.time] == e.price
  {
    var es := Entries(items);
    EntriesAt(items, i);
    forall j | i < j < |es|
      ensures es[j].time != es[i].time
    {
      EntriesAt(items, j);
    }
    LastWriteWins(m, es, i);
  }
}
