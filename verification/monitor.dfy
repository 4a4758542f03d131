/**
 * The change-detection state machine of the stock monitor.
 *
 * For every configured target the monitor remembers the last stock count and
 * the last price it saw, keyed by the target's URL, in two dictionaries. Each
 * cycle it fetches every page, and then, in the order of the target list,
 * compares the new observation against the remembered one:
 *   - if either remembered value is absent (missing key or None), it records
 *     the new observation silently (seeding);
 *   - otherwise, if the stock or the price differs, it sends one change
 *     message and records the new observation;
 *   - otherwise it does nothing.
 * A failed fetch is the observation (None, None), which the comparison treats
 * like any other value.
 *
 * The price is a type parameter `P` with equality: the source only ever
 * compares prices, after converting their lexeme with `float()`.
 */
module Monitor {
  import opened Wrappers
  import Extract

  /** A configured target: its URL (the key of the state) and display name. */
  datatype Target = Target(url: string, name: string)

  /** What one fetch of one page yielded for the two fields. */
  datatype Observation<P> = Observation(stock: Option<nat>, price: Option<P>)

  /** What the HTTP layer returned for one request. `Crashed` is an exception
      other than a request error escaping the fetch (re-raised by `result()`). */
  datatype Reply = Received(status: int, body: string) | RequestFailed | Crashed

  /** The result of one fetch unit as the processing loop sees it. */
  datatype Outcome<P> = Fetched(obs: Observation<P>) | Raised

  /** A message handed to the messaging sink. */
  datatype Message<P> =
    | StockChange(name: string, previousStock: nat, currentStock: Option<nat>,
                  previousPrice: P, currentPrice: Option<P>, url: string)
    | CheckFailed(name: string)

  /** The two dictionaries of last-known values. */
  datatype Store<P> = Store(stock: map<string, Option<nat>>, price: map<string, Option<P>>)

  /** A store after some processing, with the messages sent on the way. */
  datatype Step<P> = Step(store: Store<P>, sent: seq<Message<P>>)

  /** `dict.get`: a missing key reads as None. */
  function Get<V>(m: map<string, Option<V>>, key: string): Option<V> {
    if key in m then m[key] else None
  }

  /** `raise_for_status()` raises for the 4xx and 5xx status codes. */
  predicate IsHttpError(status: int) { 400 <= status < 600 }

  /** A good page: a reply whose status `raise_for_status()` lets through. */
  predicate IsGoodPage(reply: Reply) {
    reply.Received? && !IsHttpError(reply.status)
  }

  /**
   * One fetch unit: the request, the status check and the two extractions.
   * Every request error collapses to (None, None); `toFloat` is `float()`.
   * `int()` of a stock group longer than its digit cap raises `ValueError`,
   * which is not a request error and so escapes the unit like a crash.
   */
  function FetchOutcome<P>(reply: Reply, toFloat: string -> P): (r: Outcome<P>)
    ensures r.Raised? <==> reply.Crashed? || (IsGoodPage(reply) && Extract.StockIntRaises(reply.body))
    ensures !reply.Crashed? && !IsGoodPage(reply) ==> r == Fetched(Observation(None, None))
    ensures r.Fetched? && IsGoodPage(reply) ==>
      r.obs == Observation(Extract.ExtractStock(reply.body), Extract.ExtractPrice(reply.body, toFloat))
  {
    match reply
    case Crashed => Raised
    case RequestFailed => Fetched(Observation(None, None))
    case Received(status, body) =>
      if IsHttpError(status) then Fetched(Observation(None, None))
      else if Extract.StockIntRaises(body) then Raised
      else Fetched(Observation(Extract.ExtractStock(body), Extract.ExtractPrice(body, toFloat)))
  }

  /** A successful page that shows `库存(n)` and later `¥` + whole + `.` + frac
      yields exactly those two values, as long as `int()` accepts the digits
      of n (see `OverlongStockRaises` for the other case). */
  lemma PageRoundTrip<P>(pre: string, n: nat, mid: string, whole: string, frac: string,
                         post: string, status: int, toFloat: string -> P)
    requires !IsHttpError(status)
    requires |Extract.Decimal(n)| <= Extract.IntMaxStrDigits
    requires '库' !in pre && '¥' !in pre && '¥' !in mid
    requires |whole| > 0 && Extract.AllDigits(whole) && |frac| > 0 && Extract.AllDigits(frac)
    requires post == [] || !Extract.IsDigit(post[0])
    ensures var page := pre + Extract.StockOpen + Extract.Decimal(n) + ")" + mid + "¥" + whole + "." + frac + post;
      FetchOutcome(Received(status, page), toFloat)
        == Fetched(Observation(Some(n), Some(toFloat(whole + "." + frac))))
  {
    PageStock(pre, n, mid, whole, frac, post);
    PagePrice(pre, n, mid, whole, frac, post);
  }

  lemma PageStock(pre: string, n: nat, mid: string, whole: string, frac: string, post: string)
    requires '库' !in pre
    ensures Extract.ExtractStockDigits(pre + Extract.StockOpen + Extract.Decimal(n) + ")" + mid + "¥" + whole + "." + frac + post)
      == Some(Extract.Decimal(n))
    ensures Extract.ExtractStock(pre + Extract.StockOpen + Extract.Decimal(n) + ")" + mid + "¥" + whole + "." + frac + post)
      == Some(n)
  {
    var stockText := pre + Extract.StockOpen + Extract.Decimal(n) + ")";
    RegroupTail(stockText, mid, whole, frac, post);
    Extract.StockRoundTrip(pre, n, mid + "¥" + whole + "." + frac + post);
  }

  /** A good page whose first `库存(<digits>)` holds more digits than `int()`
      accepts makes the fetch unit raise, whatever follows. */
  lemma OverlongStockRaises<P>(pre: string, ds: string, post: string, status: int, toFloat: string -> P)
    requires !IsHttpError(status)
    requires '库' !in pre
    requires |ds| > Extract.IntMaxStrDigits && Extract.AllDigits(ds)
    ensures FetchOutcome(Received(status, pre + Extract.StockOpen + ds + ")" + post), toFloat) == Raised
  {
    Extract.StockDigitsRoundTrip(pre, ds, post);
  }

  lemma RegroupTail(head: string, mid: string, whole: string, frac: string, post: string)
    ensures head + mid + "¥" + whole + "." + frac + post == head + (mid + "¥" + whole + "." + frac + post)
  {
  }

  lemma PagePrice(pre: string, n: nat, mid: string, whole: string, frac: string, post: string)
    requires '¥' !in pre && '¥' !in mid
    requires |whole| > 0 && Extract.AllDigits(whole) && |frac| > 0 && Extract.AllDigits(frac)
    requires post == [] || !Extract.IsDigit(post[0])
    ensures Extract.ExtractPriceLexeme(pre + Extract.StockOpen + Extract.Decimal(n) + ")" + mid + "¥" + whole + "." + frac + post)
      == Some(whole + "." + frac)
  {
    var head := pre + Extract.StockOpen + Extract.Decimal(n) + ")" + mid;
    NoYenInStockText(pre, n, mid);
    Extract.PriceRoundTrip(head, [], whole, frac, post);
    assert head + "¥" + [] == head + "¥";
  }

  lemma NoYenInStockText(pre: string, n: nat, mid: string)
    requires '¥' !in pre && '¥' !in mid
    ensures '¥' !in pre + Extract.StockOpen + Extract.Decimal(n) + ")" + mid
  {
    var ds := Extract.Decimal(n);
    assert forall j | 0 <= j < |ds| :: Extract.IsDigit(ds[j]);
    assert '¥' !in ds;
  }

  /** Both dictionaries are written with the observation for `url`. */
  function Record<P>(s: Store<P>, url: string, obs: Observation<P>): Store<P> {
    Store(s.stock[url := obs.stock], s.price[url := obs.price])
  }

  /** Processing one target's fetch outcome against the store: the store is
      either left alone or given the observation for the target's URL in both
      dictionaries, and at most one message is sent. */
  function Process<P(==)>(s: Store<P>, t: Target, r: Outcome<P>): (step: Step<P>)
    ensures step.store == s || (r.Fetched? && step.store == Record(s, t.url, r.obs))
    ensures |step.sent| <= 1
  {
    match r
    case Raised => Step(s, [CheckFailed(t.name)])
    case Fetched(obs) =>
      var previousStock, previousPrice := Get(s.stock, t.url), Get(s.price, t.url);
      if previousStock.None? || previousPrice.None? then
        Step(Record(s, t.url, obs), [])
      else if obs.stock != previousStock || obs.price != previousPrice then
        Step(Record(s, t.url, obs),
             [StockChange(t.name, previousStock.value, obs.stock, previousPrice.value, obs.price, t.url)])
      else
        Step(s, [])
  }

  /** One cycle: the targets processed in list order, each against the store
      the previous ones left. At most one message per target is sent. */
  function Cycle<P(==)>(s: Store<P>, ts: seq<Target>, rs: seq<Outcome<P>>): (step: Step<P>)
    requires |ts| == |rs|
    ensures |step.sent| <= |ts|
    decreases |ts|
  {
    if |ts| == 0 then Step(s, [])
    else
      var before := Cycle(s, ts[..|ts| - 1], rs[..|rs| - 1]);
      var last := Process(before.store, ts[|ts| - 1], rs[|rs| - 1]);
      Step(last.store, before.sent + last.sent)
  }

  /** Successive cycles over the same target list. They never touch the
      entries of a URL outside the list. */
  function Run<P(==)>(s: Store<P>, ts: seq<Target>, rounds: seq<seq<Outcome<P>>>): (step: Step<P>)
    requires forall k | 0 <= k < |rounds| :: |rounds[k]| == |ts|
    ensures step.store.stock - Urls(ts) == s.stock - Urls(ts)
    ensures step.store.price - Urls(ts) == s.price - Urls(ts)
    decreases |rounds|
  {
    if |rounds| == 0 then Step(s, [])
    else
      var before := Run(s, ts, rounds[..|rounds| - 1]);
      var last := Cycle(before.store, ts, rounds[|rounds| - 1]);
      CycleFrame(before.store, ts, rounds[|rounds| - 1]);
      Step(last.store, before.sent + last.sent)
  }

  // ---------------------------------------------------------------------
  // One target
  // ---------------------------------------------------------------------

  /** Missing or None remembered values: the observation is stored as it is,
      even when it holds None, and nothing is sent. */
  lemma SeedsSilently<P>(s: Store<P>, t: Target, obs: Observation<P>)
    requires Get(s.stock, t.url).None? || Get(s.price, t.url).None?
    ensures Process(s, t, Fetched(obs)).sent == []
    ensures Get(Process(s, t, Fetched(obs)).store.stock, t.url) == obs.stock
    ensures Get(Process(s, t, Fetched(obs)).store.price, t.url) == obs.price
  {
  }

  /** Both values remembered and one differs: exactly one message, carrying
      the name, both stocks, both prices and the URL, and both values are
      overwritten. */
  lemma NotifiesOnceOnChange<P>(s: Store<P>, t: Target, obs: Observation<P>, stock: nat, price: P)
    requires Get(s.stock, t.url) == Some(stock) && Get(s.price, t.url) == Some(price)
    requires obs.stock != Some(stock) || obs.price != Some(price)
    ensures Process(s, t, Fetched(obs)).sent
      == [StockChange(t.name, stock, obs.stock, price, obs.price, t.url)]
    ensures Get(Process(s, t, Fetched(obs)).store.stock, t.url) == obs.stock
    ensures Get(Process(s, t, Fetched(obs)).store.price, t.url) == obs.price
  {
  }

  /** Both values remembered and both equal: nothing is sent and nothing changes. */
  lemma QuietWhenUnchanged<P>(s: Store<P>, t: Target, stock: nat, price: P)
    requires Get(s.stock, t.url) == Some(stock) && Get(s.price, t.url) == Some(price)
    ensures Process(s, t, Fetched(Observation(Some(stock), Some(price)))) == Step(s, [])
  {
  }

  /** An unexpected exception sends one error message naming the target and
      writes no state. */
  lemma ErrorIsScopedToTarget<P>(s: Store<P>, t: Target)
    ensures Process(s, t, Raised) == Step(s, [CheckFailed(t.name)])
  {
  }

  /** Processing one target writes only the entries keyed by its URL, and
      writes both dictionaries, with the fetched observation, or neither. */
  lemma ProcessFrame<P>(s: Store<P>, t: Target, r: Outcome<P>)
    ensures var s' := Process(s, t, r).store;
      && s'.stock - {t.url} == s.stock - {t.url}
      && s'.price - {t.url} == s.price - {t.url}
      && (s' == s || (r.Fetched? && s' == Record(s, t.url, r.obs)))
  {
  }

  /** What is sent depends only on the store's entries for the target's URL. */
  lemma ProcessReadsOwnEntry<P>(s1: Store<P>, s2: Store<P>, t: Target, r: Outcome<P>)
    requires Get(s1.stock, t.url) == Get(s2.stock, t.url)
    requires Get(s1.price, t.url) == Get(s2.price, t.url)
    ensures Process(s1, t, r).sent == Process(s2, t, r).sent
    ensures Get(Process(s1, t, r).store.stock, t.url) == Get(Process(s2, t, r).store.stock, t.url)
    ensures Get(Process(s1, t, r).store.price, t.url) == Get(Process(s2, t, r).store.price, t.url)
  {
  }

  // ---------------------------------------------------------------------
  // One cycle
  // ---------------------------------------------------------------------

  function Urls(ts: seq<Target>): set<string> {
    set i | 0 <= i < |ts| :: ts[i].url
  }

  predicate DistinctUrls(ts: seq<Target>) {
    forall i, j | 0 <= i < j < |ts| :: ts[i].url != ts[j].url
  }

  lemma GetOutside<V>(m1: map<string, Option<V>>, m2: map<string, Option<V>>, keys: set<string>, u: string)
    requires m1 - keys == m2 - keys && u !in keys
    ensures Get(m1, u) == Get(m2, u)
  {
    if u in m1 {
      assert u in m1 - keys;
    }
    if u in m2 {
      assert u in m2 - keys;
    }
  }

  /** A cycle writes only the entries of the URLs it processes, and keeps the
      two dictionaries on the same key set. */
  lemma {:induction false} CycleFrame<P>(s: Store<P>, ts: seq<Target>, rs: seq<Outcome<P>>)
    requires |ts| == |rs|
    ensures Cycle(s, ts, rs).store.stock - Urls(ts) == s.stock - Urls(ts)
    ensures Cycle(s, ts, rs).store.price - Urls(ts) == s.price - Urls(ts)
    ensures s.stock.Keys == s.price.Keys ==>
      Cycle(s, ts, rs).store.stock.Keys == Cycle(s, ts, rs).store.price.Keys
  {
    if |ts| > 0 {
      var n := |ts| - 1;
      var before := Cycle(s, ts[..n], rs[..n]);
      var after := Cycle(s, ts, rs).store;
      CycleFrame(s, ts[..n], rs[..n]);
      ProcessFrame(before.store, ts[n], rs[n]);
      assert Urls(ts) == Urls(ts[..n]) + {ts[n].url};
      SubtractOneMore(after.stock, before.store.stock, s.stock, Urls(ts[..n]), ts[n].url);
      SubtractOneMore(after.price, before.store.price, s.price, Urls(ts[..n]), ts[n].url);
    }
  }

  lemma SubtractOneMore<V>(m2: map<string, V>, m1: map<string, V>, m0: map<string, V>, keys: set<string>, u: string)
    requires m2 - {u} == m1 - {u} && m1 - keys == m0 - keys
    ensures m2 - (keys + {u}) == m0 - (keys + {u})
  {
    assert m2 - (keys + {u}) == (m2 - {u}) - keys;
    assert m1 - (keys + {u}) == (m1 - {u}) - keys;
    assert m1 - (keys + {u}) == (m1 - keys) - {u};
    assert m0 - (keys + {u}) == (m0 - keys) - {u};
  }

  /** Every target diffed against the store the cycle started with, one after
      the other in list order. */
  function DiffsAgainst<P(==)>(s: Store<P>, ts: seq<Target>, rs: seq<Outcome<P>>): seq<Message<P>>
    requires |ts| == |rs|
    decreases |ts|
  {
    if |ts| == 0 then []
    else DiffsAgainst(s, ts[..|ts| - 1], rs[..|rs| - 1]) + Process(s, ts[|ts| - 1], rs[|rs| - 1]).sent
  }

  /** With distinct URLs, the messages of a cycle are the per-target diffs
      against the starting store, in the order of the target list (not the
      order in which fetches complete), and each target ends with the value
      its own diff gives it: an error or a change on one target does not
      affect another. */
  lemma {:induction false} CycleIsPerTargetInListOrder<P>(s: Store<P>, ts: seq<Target>, rs: seq<Outcome<P>>)
    requires |ts| == |rs| && DistinctUrls(ts)
    ensures Cycle(s, ts, rs).sent == DiffsAgainst(s, ts, rs)
    ensures forall i | 0 <= i < |ts| ::
      && Get(Cycle(s, ts, rs).store.stock, ts[i].url) == Get(Process(s, ts[i], rs[i]).store.stock, ts[i].url)
      && Get(Cycle(s, ts, rs).store.price, ts[i].url) == Get(Process(s, ts[i], rs[i]).store.price, ts[i].url)
  {
    if |ts| > 0 {
      var n := |ts| - 1;
      var before := Cycle(s, ts[..n], rs[..n]);
      CycleIsPerTargetInListOrder(s, ts[..n], rs[..n]);
      CycleFrame(s, ts[..n], rs[..n]);
      assert ts[n].url !in Urls(ts[..n]);
      GetOutside(before.store.stock, s.stock, Urls(ts[..n]), ts[n].url);
      GetOutside(before.store.price, s.price, Urls(ts[..n]), ts[n].url);
      ProcessReadsOwnEntry(before.store, s, ts[n], rs[n]);
      forall i | 0 <= i < n
        ensures Get(Cycle(s, ts, rs).store.stock, ts[i].url) == Get(Process(s, ts[i], rs[i]).store.stock, ts[i].url)
        ensures Get(Cycle(s, ts, rs).store.price, ts[i].url) == Get(Process(s, ts[i], rs[i]).store.price, ts[i].url)
      {
        assert ts[..n][i] == ts[i] && rs[..n][i] == rs[i];
        ProcessFrame(before.store, ts[n], rs[n]);
        GetOutside(Cycle(s, ts, rs).store.stock, before.store.stock, {ts[n].url}, ts[i].url);
        GetOutside(Cycle(s, ts, rs).store.price, before.store.price, {ts[n].url}, ts[i].url);
      }
    }
  }

  // ---------------------------------------------------------------------
  // Successive cycles
  // ---------------------------------------------------------------------

  lemma {:induction false} RunAppend<P>(s: Store<P>, ts: seq<Target>, a: seq<seq<Outcome<P>>>, b: seq<seq<Outcome<P>>>)
    requires forall k | 0 <= k < |a| :: |a[k]| == |ts|
    requires forall k | 0 <= k < |b| :: |b[k]| == |ts|
    ensures forall k | 0 <= k < |a + b| :: |(a + b)[k]| == |ts|
    ensures Run(s, ts, a + b)
      == Step(Run(Run(s, ts, a).store, ts, b).store, Run(s, ts, a).sent + Run(Run(s, ts, a).store, ts, b).sent)
  {
    if |b| > 0 {
      var n := |b| - 1;
      assert (a + b)[..|a + b| - 1] == a + b[..n];
      assert (a + b)[|a + b| - 1] == b[n];
      RunAppend(s, ts, a, b[..n]);
    } else {
      assert a + b == a;
    }
  }

  /** A single-target round in which the target's outcome is `r`. */
  lemma SingleTargetCycle<P>(s: Store<P>, t: Target, r: Outcome<P>)
    ensures Cycle(s, [t], [r]) == Process(s, t, r)
  {
    assert [t][..0] == [] && [r][..0] == [];
  }

  /** Observing the same thing again when it is what the store holds sends
      nothing and keeps it. */
  lemma RepeatIsQuiet<P>(s: Store<P>, t: Target, obs: Observation<P>)
    requires Get(s.stock, t.url) == obs.stock && Get(s.price, t.url) == obs.price
    ensures Process(s, t, Fetched(obs)).sent == []
    ensures Get(Process(s, t, Fetched(obs)).store.stock, t.url) == obs.stock
    ensures Get(Process(s, t, Fetched(obs)).store.price, t.url) == obs.price
  {
  }

  /** Idempotence: the same observation in N consecutive cycles sends what the
      first cycle sends (at most one message, at the transition) and nothing
      after. */
  lemma {:induction false} RepeatedObservationNotifiesAtMostOnce<P>(
    s: Store<P>, t: Target, obs: Observation<P>, rounds: seq<seq<Outcome<P>>>)
    requires |rounds| > 0
    requires forall k | 0 <= k < |rounds| :: rounds[k] == [Fetched(obs)]
    ensures Run(s, [t], rounds).sent == Process(s, t, Fetched(obs)).sent
    ensures Get(Run(s, [t], rounds).store.stock, t.url) == obs.stock
    ensures Get(Run(s, [t], rounds).store.price, t.url) == obs.price
  {
    var n := |rounds| - 1;
    var before := Run(s, [t], rounds[..n]);
    SingleTargetCycle(before.store, t, Fetched(obs));
    if n == 0 {
      assert before == Step(s, []);
      SeedsOrChanges(s, t, obs);
    } else {
      RepeatedObservationNotifiesAtMostOnce(s, t, obs, rounds[..n]);
      RepeatIsQuiet(before.store, t, obs);
    }
  }

  /** After any fetched observation the store holds it for the target's URL. */
  lemma SeedsOrChanges<P>(s: Store<P>, t: Target, obs: Observation<P>)
    ensures Get(Process(s, t, Fetched(obs)).store.stock, t.url) == obs.stock
    ensures Get(Process(s, t, Fetched(obs)).store.price, t.url) == obs.price
  {
  }

  /** A target whose stock is never found never produces a message, whatever
      its price does: every cycle re-seeds it. */
  lemma {:induction false} StockNeverFoundNeverNotifies<P>(
    s: Store<P>, t: Target, rounds: seq<seq<Outcome<P>>>)
    requires Get(s.stock, t.url).None?
    requires forall k | 0 <= k < |rounds| ::
      |rounds[k]| == 1 && rounds[k][0].Fetched? && rounds[k][0].obs.stock.None?
    ensures Run(s, [t], rounds).sent == []
    ensures Get(Run(s, [t], rounds).store.stock, t.url).None?
  {
    if |rounds| > 0 {
      var n := |rounds| - 1;
      var before := Run(s, [t], rounds[..n]);
      StockNeverFoundNeverNotifies(s, t, rounds[..n]);
      assert rounds[n] == [rounds[n][0]];
      SingleTargetCycle(before.store, t, rounds[n][0]);
    }
  }

  /** The failed-fetch quirk: on a seeded target the observation (None, None)
      is a change, so one message reports the stock and price going to None
      and the state is cleared; the next successful read then re-seeds
      silently, whatever it shows. */
  lemma FailedFetchIsReportedAsChange<P>(s: Store<P>, t: Target, stock: nat, price: P, obs: Observation<P>)
    requires Get(s.stock, t.url) == Some(stock) && Get(s.price, t.url) == Some(price)
    ensures var r := Run(s, [t], [[Fetched(Observation(None, None))], [Fetched(obs)]]);
      && r.sent == [StockChange(t.name, stock, None, price, None, t.url)]
      && Get(r.store.stock, t.url) == obs.stock
      && Get(r.store.price, t.url) == obs.price
  {
    var failed: Outcome<P> := Fetched(Observation(None, None));
    var rounds := [[failed], [Fetched(obs)]];
    assert rounds[..1] == [[failed]];
    assert rounds[..1][..0] == [];
    var cleared := Process(s, t, failed);
    NotifiesOnceOnChange(s, t, Observation(None, None), stock, price);
    SingleTargetCycle(s, t, failed);
    assert Run(s, [t], rounds[..1]) == cleared;
    SeedsSilently(cleared.store, t, obs);
    SingleTargetCycle(cleared.store, t, Fetched(obs));
  }

  /** A target that alternates between a failed fetch and the same good read. */
  function Flapping<P>(good: Observation<P>, n: nat): (rounds: seq<seq<Outcome<P>>>)
    ensures |rounds| == 2 * n && forall k | 0 <= k < |rounds| :: |rounds[k]| == 1
  {
    if n == 0 then []
    else Flapping(good, n - 1) + [[Fetched(Observation(None, None))], [Fetched(good)]]
  }

  /** `n` copies of `m`. */
  function Copies<T>(m: T, n: nat): (r: seq<T>)
    ensures |r| == n && forall k | 0 <= k < n :: r[k] == m
  {
    if n == 0 then [] else Copies(m, n - 1) + [m]
  }

  /** Alternating failure and an identical good read does not stay quiet: each
      failure is reported as a change to None, and each good read re-seeds. */
  lemma {:induction false} FlappingReportsEveryFailure<P>(s: Store<P>, t: Target, stock: nat, price: P, n: nat)
    requires Get(s.stock, t.url) == Some(stock) && Get(s.price, t.url) == Some(price)
    ensures var r := Run(s, [t], Flapping(Observation(Some(stock), Some(price)), n));
      && r.sent == Copies(StockChange(t.name, stock, None, price, None, t.url), n)
      && Get(r.store.stock, t.url) == Some(stock)
      && Get(r.store.price, t.url) == Some(price)
  {
    if n > 0 {
      var good := Observation(Some(stock), Some(price));
      var prefix := Flapping(good, n - 1);
      var pair := [[Fetched(Observation(None, None))], [Fetched(good)]];
      assert Flapping(good, n) == prefix + pair;
      FlappingReportsEveryFailure(s, t, stock, price, n - 1);
      var before := Run(s, [t], prefix);
      RunAppend(s, [t], prefix, pair);
      FailedFetchIsReportedAsChange(before.store, t, stock, price, good);
      var after := Run(before.store, [t], pair);
      var m := StockChange(t.name, stock, None, price, None, t.url);
      assert after.sent == [m];
      assert Run(s, [t], Flapping(good, n)) == Step(after.store, before.sent + after.sent);
      assert Copies(m, n) == Copies(m, n - 1) + [m];
    }
  }

  /** One more cycle at the end of a run. */
  lemma RunSnoc<P>(s: Store<P>, ts: seq<Target>, rounds: seq<seq<Outcome<P>>>, round: seq<Outcome<P>>)
    requires forall k | 0 <= k < |rounds| :: |rounds[k]| == |ts|
    requires |round| == |ts|
    ensures forall k | 0 <= k < |rounds + [round]| :: |(rounds + [round])[k]| == |ts|
    ensures var before := Run(s, ts, rounds);
      var last := Cycle(before.store, ts, round);
      Run(s, ts, rounds + [round]) == Step(last.store, before.sent + last.sent)
  {
    assert (rounds + [round])[..|rounds|] == rounds;
  }

  /**
   * Five cycles of one target, prices in hundredths: (5, 10.00) seeds;
   * (3, 10.00) reports "5 -> 3"; (3, 10.00) again is quiet; a failed fetch
   * reports "3 -> None" and clears the state; (0, 12.50) then re-seeds with
   * no message, so the drop to 0 and the new price are never reported.
   */
  lemma FiveCycleScenario(t: Target)
    ensures var rounds: seq<seq<Outcome<int>>> := [
        [Fetched(Observation(Some(5), Some(1000)))],
        [Fetched(Observation(Some(3), Some(1000)))],
        [Fetched(Observation(Some(3), Some(1000)))],
        [Fetched(Observation(None, None))],
        [Fetched(Observation(Some(0), Some(1250)))]];
      var r := Run(Store(map[], map[]), [t], rounds);
      && r.sent == [StockChange(t.name, 5, Some(3), 1000, Some(1000), t.url),
                    StockChange(t.name, 3, None, 1000, None, t.url)]
      && Get(r.store.stock, t.url) == Some(0)
      && Get(r.store.price, t.url) == Some(1250)
  {
    var o1: Outcome<int> := Fetched(Observation(Some(5), Some(1000)));
    var o2: Outcome<int> := Fetched(Observation(Some(3), Some(1000)));
    var o4: Outcome<int> := Fetched(Observation(None, None));
    var o5: Outcome<int> := Fetched(Observation(Some(0), Some(1250)));
    var s0: Store<int> := Store(map[], map[]);
    var m1 := StockChange(t.name, 5, Some(3), 1000, Some(1000), t.url);
    var m2 := StockChange(t.name, 3, None, 1000, None, t.url);

    SingleTargetCycle(s0, t, o1);
    var s1 := Process(s0, t, o1).store;
    RunSnoc(s0, [t], [], [o1]);
    assert Run(s0, [t], [[o1]]) == Step(s1, []);

    SingleTargetCycle(s1, t, o2);
    var s2 := Process(s1, t, o2).store;
    RunSnoc(s0, [t], [[o1]], [o2]);
    assert Run(s0, [t], [[o1], [o2]]) == Step(s2, [m1]);

    SingleTargetCycle(s2, t, o2);
    RunSnoc(s0, [t], [[o1], [o2]], [o2]);
    assert [[o1], [o2]] + [[o2]] == [[o1], [o2], [o2]];
    QuietWhenUnchanged(s2, t, 3, 1000);
    assert Run(s0, [t], [[o1], [o2], [o2]]) == Step(s2, [m1]);

    SingleTargetCycle(s2, t, o4);
    var s4 := Process(s2, t, o4).store;
    RunSnoc(s0, [t], [[o1], [o2], [o2]], [o4]);
    assert [[o1], [o2], [o2]] + [[o4]] == [[o1], [o2], [o2], [o4]];
    assert Run(s0, [t], [[o1], [o2], [o2], [o4]]) == Step(s4, [m1, m2]);

    SingleTargetCycle(s4, t, o5);
    RunSnoc(s0, [t], [[o1], [o2], [o2], [o4]], [o5]);
    assert [[o1], [o2], [o2], [o4]] + [[o5]] == [[o1], [o2], [o2], [o4], [o5]];
  }

  // ---------------------------------------------------------------------
  // Many targets: each one behaves as if it were monitored alone
  // ---------------------------------------------------------------------

  /** Target `i`'s outcome in every round, as the rounds of a run of that
      target alone. */
  function Column<P>(rounds: seq<seq<Outcome<P>>>, i: nat): (col: seq<seq<Outcome<P>>>)
    requires forall k | 0 <= k < |rounds| :: i < |rounds[k]|
    ensures |col| == |rounds| && forall k | 0 <= k < |rounds| :: col[k] == [rounds[k][i]]
    decreases |rounds|
  {
    if |rounds| == 0 then [] else Column(rounds[..|rounds| - 1], i) + [[rounds[|rounds| - 1][i]]]
  }

  /** With distinct URLs, after any number of cycles a target's entries are
      those a run of that target alone, on its own outcomes, leaves. So every
      single-target property of `Run` holds for each target of a list. */
  lemma {:induction false} RunProjectsOntoTarget<P>(s: Store<P>, ts: seq<Target>, rounds: seq<seq<Outcome<P>>>, i: nat)
    requires forall k | 0 <= k < |rounds| :: |rounds[k]| == |ts|
    requires DistinctUrls(ts) && i < |ts|
    ensures Get(Run(s, ts, rounds).store.stock, ts[i].url)
         == Get(Run(s, [ts[i]], Column(rounds, i)).store.stock, ts[i].url)
    ensures Get(Run(s, ts, rounds).store.price, ts[i].url)
         == Get(Run(s, [ts[i]], Column(rounds, i)).store.price, ts[i].url)
  {
    if |rounds| > 0 {
      var n := |rounds| - 1;
      var prefix := rounds[..n];
      RunProjectsOntoTarget(s, ts, prefix, i);
      var before := Run(s, ts, prefix);
      var own := Run(s, [ts[i]], Column(prefix, i));
      assert Column(rounds, i)[..n] == Column(prefix, i);
      CycleIsPerTargetInListOrder(before.store, ts, rounds[n]);
      SingleTargetCycle(own.store, ts[i], rounds[n][i]);
      ProcessReadsOwnEntry(before.store, own.store, ts[i], rounds[n][i]);
    }
  }

  /** What target `i` sends in round `k` when it is monitored alone. */
  function OwnRoundSent<P(==)>(s: Store<P>, ts: seq<Target>, rounds: seq<seq<Outcome<P>>>, k: nat, i: nat): seq<Message<P>>
    requires forall k' | 0 <= k' < |rounds| :: |rounds[k']| == |ts|
    requires k < |rounds| && i < |ts|
  {
    Process(Run(s, [ts[i]], Column(rounds[..k], i)).store, ts[i], rounds[k][i]).sent
  }

  /** The first `j` targets' own messages of round `k`, in list order. */
  function RoundSent<P(==)>(s: Store<P>, ts: seq<Target>, rounds: seq<seq<Outcome<P>>>, k: nat, j: nat): seq<Message<P>>
    requires forall k' | 0 <= k' < |rounds| :: |rounds[k']| == |ts|
    requires k < |rounds| && j <= |ts|
  {
    if j == 0 then [] else RoundSent(s, ts, rounds, k, j - 1) + OwnRoundSent(s, ts, rounds, k, j - 1)
  }

  /** The messages of the first `m` rounds, round after round. */
  function RoundsSent<P(==)>(s: Store<P>, ts: seq<Target>, rounds: seq<seq<Outcome<P>>>, m: nat): seq<Message<P>>
    requires forall k | 0 <= k < |rounds| :: |rounds[k]| == |ts|
    requires m <= |rounds|
  {
    if m == 0 then [] else RoundsSent(s, ts, rounds, m - 1) + RoundSent(s, ts, rounds, m - 1, |ts|)
  }

  /** Round `k`'s diffs against the store the earlier rounds left are the
      targets' own messages of that round. */
  lemma {:induction false} DiffsAreOwnMessages<P>(s: Store<P>, ts: seq<Target>, rounds: seq<seq<Outcome<P>>>, k: nat, j: nat)
    requires forall k' | 0 <= k' < |rounds| :: |rounds[k']| == |ts|
    requires DistinctUrls(ts) && k < |rounds| && j <= |ts|
    ensures DiffsAgainst(Run(s, ts, rounds[..k]).store, ts[..j], rounds[k][..j]) == RoundSent(s, ts, rounds, k, j)
  {
    if j > 0 {
      var before := Run(s, ts, rounds[..k]).store;
      var t, r := ts[j - 1], rounds[k][j - 1];
      var own := Run(s, [t], Column(rounds[..k], j - 1)).store;
      assert ts[..j][..j - 1] == ts[..j - 1] && ts[..j][j - 1] == t;
      assert rounds[k][..j][..j - 1] == rounds[k][..j - 1] && rounds[k][..j][j - 1] == r;
      assert DiffsAgainst(before, ts[..j], rounds[k][..j])
          == DiffsAgainst(before, ts[..j - 1], rounds[k][..j - 1]) + Process(before, t, r).sent;
      DiffsAreOwnMessages(s, ts, rounds, k, j - 1);
      RunProjectsOntoTarget(s, ts, rounds[..k], j - 1);
      ProcessReadsOwnEntry(before, own, t, r);
      assert OwnRoundSent(s, ts, rounds, k, j - 1) == Process(own, t, r).sent;
    }
  }

  /** With distinct URLs, the messages of the first `m` cycles are, round after
      round and in list order, what each target sends when monitored alone. */
  lemma {:induction false} RunSentIsPerTarget<P>(s: Store<P>, ts: seq<Target>, rounds: seq<seq<Outcome<P>>>, m: nat)
    requires forall k | 0 <= k < |rounds| :: |rounds[k]| == |ts|
    requires DistinctUrls(ts) && m <= |rounds|
    ensures Run(s, ts, rounds[..m]).sent == RoundsSent(s, ts, rounds, m)
  {
    if m > 0 {
      var before := Run(s, ts, rounds[..m - 1]);
      RunSentIsPerTarget(s, ts, rounds, m - 1);
      assert rounds[..m][..m - 1] == rounds[..m - 1] && rounds[..m][m - 1] == rounds[m - 1];
      CycleIsPerTargetInListOrder(before.store, ts, rounds[m - 1]);
      DiffsAreOwnMessages(s, ts, rounds, m - 1, |ts|);
      assert ts[..|ts|] == ts && rounds[m - 1][..|ts|] == rounds[m - 1];
    }
  }

  // ---------------------------------------------------------------------
  // The monitor object
  // ---------------------------------------------------------------------

  /** The monitor's mutable state: the two dictionaries and the messages sent. */
  class StockMonitor<P(==)> {
    var stockStates: map<string, Option<nat>>
    var priceStates: map<string, Option<P>>
    var outbox: seq<Message<P>>

    /** Every write sets both dictionaries, so they share one key set. */
    ghost predicate Valid()
      reads this
    {
      stockStates.Keys == priceStates.Keys
    }

    ghost function State(): Store<P>
      reads this
    {
      Store(stockStates, priceStates)
    }

    constructor ()
      ensures Valid()
      ensures stockStates == map[] && priceStates == map[] && outbox == []
    {
      stockStates := map[];
      priceStates := map[];
      outbox := [];
    }

    /** The body of the per-target loop of `check_stock_changes`. */
    method ProcessTarget(t: Target, r: Outcome<P>)
      requires Valid()
      modifies this
      ensures Valid()
      ensures State() == Process(old(State()), t, r).store
      ensures outbox == old(outbox) + Process(old(State()), t, r).sent
    {
      match r
      case Raised =>
        outbox := outbox + [CheckFailed(t.name)];
      case Fetched(obs) =>
        var previousStock := Get(stockStates, t.url);
        var previousPrice := Get(priceStates, t.url);
        if previousStock.None? || previousPrice.None? {
          stockStates := stockStates[t.url := obs.stock];
          priceStates := priceStates[t.url := obs.price];
        } else if obs.stock != previousStock || obs.price != previousPrice {
          outbox := outbox + [StockChange(t.name, previousStock.value, obs.stock,
                                          previousPrice.value, obs.price, t.url)];
          stockStates := stockStates[t.url := obs.stock];
          priceStates := priceStates[t.url := obs.price];
        }
    }

    /** `check_stock_changes`: the fetch outcomes, one per target in the same
        order, processed in list order. */
    method CheckStockChanges(targets: seq<Target>, outcomes: seq<Outcome<P>>)
      requires Valid() && |targets| == |outcomes|
      modifies this
      ensures Valid()
      ensures State() == Cycle(old(State()), targets, outcomes).store
      ensures outbox == old(outbox) + Cycle(old(State()), targets, outcomes).sent
    {
      var i := 0;
      while i < |targets|
        invariant 0 <= i <= |targets|
        invariant Valid()
        invariant State() == Cycle(old(State()), targets[..i], outcomes[..i]).store
        invariant outbox == old(outbox) + Cycle(old(State()), targets[..i], outcomes[..i]).sent
      {
        assert targets[..i + 1][..i] == targets[..i];
        assert outcomes[..i + 1][..i] == outcomes[..i];
        ProcessTarget(targets[i], outcomes[i]);
        i := i + 1;
      }
      assert targets[..i] == targets && outcomes[..i] == outcomes;
    }
  }
}
