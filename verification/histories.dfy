/**
 The page's three persisted logs. Local storage is a map from key to the
 list it holds (serialisation is not modelled), and timestamps are opaque
 strings handed in by the caller.
 */
module Histories {
  import opened BoundedLog

  datatype Entry =
    | Calculation(expression: string, result: real, timestamp: string)
    | Login(username: string, timestamp: string)
    | Conversion(amount: real, fromCurrency: string, convertedAmount: string, toCurrency: string, timestamp: string)

  type Store = map<string, seq<Entry>>

  const CalculatorKey: string := "calculatorHistory"
  const LoginKey: string := "loginHistory"
  const ConversionKey: string := "conversionHistory"

  const CalculatorCap: nat := 10
  const LoginBound: nat := 5
  const ConversionBound: nat := 10

  /** Reading a key, with a missing key read as the empty list. */
  function Stored(store: Store, key: string): (log: seq<Entry>)
    ensures key !in store ==> log == []
    ensures key in store ==> log == store[key]
  {
    if key in store then store[key] else []
  }

  /** The store after overwriting one key; every other key keeps its list. */
  function Persist(store: Store, key: string, log: seq<Entry>): (r: Store)
    ensures r.Keys == store.Keys + {key}
    ensures r[key] == log
    ensures forall k :: k in store && k != key ==> r[k] == store[k]
  {
    store[key := log]
  }

  /** The calculator's in-memory history together with the store it was persisted to. */
  datatype Recorded = Recorded(history: seq<Entry>, store: Store)

  /** Records a calculation at the head of the in-memory history, keeps the ten
      most recent entries, and overwrites the stored copy with the whole list. */
  function SaveToHistory(history: seq<Entry>, store: Store, expression: string, result: real, now: string): (r: Recorded)
    ensures |r.history| == Min(|history| + 1, CalculatorCap)
    ensures r.history[0] == Calculation(expression, result, now)
    ensures r.history[1..] == history[..|r.history| - 1]
    ensures r.store.Keys == store.Keys + {CalculatorKey}
    ensures r.store[CalculatorKey] == r.history
    ensures forall k :: k in store && k != CalculatorKey ==> r.store[k] == store[k]
  {
    var h := PushTruncate(history, Calculation(expression, result, now), CalculatorCap);
    Recorded(h, Persist(store, CalculatorKey, h))
  }

  /** Reads the stored login list, pushes the new login, drops one tail entry
      when there are more than five, and writes the list back. */
  function SaveLoginHistory(store: Store, username: string, now: string): (r: Store)
    ensures var prior := Stored(store, LoginKey);
      && LoginKey in r
      && |r[LoginKey]| == (if |prior| + 1 > LoginBound then |prior| else |prior| + 1)
      && r[LoginKey][0] == Login(username, now)
      && r[LoginKey][1..] == prior[..|r[LoginKey]| - 1]
    ensures |Stored(store, LoginKey)| <= LoginBound ==> |r[LoginKey]| <= LoginBound
    ensures r.Keys == store.Keys + {LoginKey}
    ensures forall k :: k in store && k != LoginKey ==> r[k] == store[k]
  {
    var log := PushPopOnce(Stored(store, LoginKey), Login(username, now), LoginBound);
    Persist(store, LoginKey, log)
  }

  /** Reads the stored conversion list, pushes the new conversion, drops one
      tail entry when there are more than ten, and writes the list back. */
  function SaveConversionHistory(store: Store, amount: real, fromCurrency: string, convertedAmount: string,
                                 toCurrency: string, now: string): (r: Store)
    ensures var prior := Stored(store, ConversionKey);
      && ConversionKey in r
      && |r[ConversionKey]| == (if |prior| + 1 > ConversionBound then |prior| else |prior| + 1)
      && r[ConversionKey][0] == Conversion(amount, fromCurrency, convertedAmount, toCurrency, now)
      && r[ConversionKey][1..] == prior[..|r[ConversionKey]| - 1]
    ensures |Stored(store, ConversionKey)| <= ConversionBound ==> |r[ConversionKey]| <= ConversionBound
    ensures r.Keys == store.Keys + {ConversionKey}
    ensures forall k :: k in store && k != ConversionKey ==> r[k] == store[k]
  {
    var entry := Conversion(amount, fromCurrency, convertedAmount, toCurrency, now);
    var log := PushPopOnce(Stored(store, ConversionKey), entry, ConversionBound);
    Persist(store, ConversionKey, log)
  }

  /** A login list that starts within its bound keeps every older entry, in
      order, except the oldest one once the list is full. */
  lemma LoginKeepsOlderOrder(store: Store, username: string, now: string)
    requires |Stored(store, LoginKey)| <= LoginBound
    ensures var prior := Stored(store, LoginKey);
      var log := SaveLoginHistory(store, username, now)[LoginKey];
      log == [Login(username, now)] + Take(prior, LoginBound - 1)
  {
    var prior := Stored(store, LoginKey);
    var log := SaveLoginHistory(store, username, now)[LoginKey];
    assert log == [log[0]] + log[1..];
  }

  /** Calculation records, oldest first, applied one after another; after any
      run that records something the stored copy is the in-memory list, the
      calculator key is the only key added, and the other keys are never touched. */
  function SaveAll(history: seq<Entry>, store: Store, calls: seq<(string, real, string)>): (r: Recorded)
    ensures calls == [] ==> r == Recorded(history, store)
    ensures calls != [] ==> CalculatorKey in r.store && r.store[CalculatorKey] == r.history
    ensures calls != [] ==> r.store.Keys == store.Keys + {CalculatorKey}
    ensures forall k :: k in store && k != CalculatorKey ==> k in r.store && r.store[k] == store[k]
    decreases |calls|
  {
    if calls == [] then Recorded(history, store)
    else
      var next := SaveToHistory(history, store, calls[0].0, calls[0].1, calls[0].2);
      SaveAll(next.history, next.store, calls[1..])
  }

  function AsEntries(calls: seq<(string, real, string)>): (r: seq<Entry>)
    ensures |r| == |calls|
    ensures forall i :: 0 <= i < |calls| ==> r[i] == Calculation(calls[i].0, calls[i].1, calls[i].2)
  {
    if calls == [] then [] else [Calculation(calls[0].0, calls[0].1, calls[0].2)] + AsEntries(calls[1..])
  }

  /** Any run of calculation records is the generic bounded log run. */
  lemma {:induction false} SaveAllIsRecordAll(history: seq<Entry>, store: Store, calls: seq<(string, real, string)>)
    ensures SaveAll(history, store, calls).history == RecordAll(history, AsEntries(calls), CalculatorCap)
    decreases |calls|
  {
    if calls != [] {
      var next := SaveToHistory(history, store, calls[0].0, calls[0].1, calls[0].2);
      SaveAllIsRecordAll(next.history, next.store, calls[1..]);
      assert AsEntries(calls)[1..] == AsEntries(calls[1..]);
      assert next.history == PushTruncate(history, AsEntries(calls)[0], CalculatorCap);
    }
  }

  /** Starting from an empty history, `N` calculations leave `min(N, 10)`
      entries, the most recent first, and eleven evict the first one. */
  lemma SaveAllFromEmpty(store: Store, calls: seq<(string, real, string)>)
    ensures var h := SaveAll([], store, calls).history;
      && |h| == Min(|calls|, CalculatorCap)
      && forall i :: 0 <= i < |h| ==> h[i] == Calculation(calls[|calls| - 1 - i].0, calls[|calls| - 1 - i].1, calls[|calls| - 1 - i].2)
  {
    SaveAllIsRecordAll([], store, calls);
    RecordAllFromEmpty(AsEntries(calls), CalculatorCap);
  }
}
