/** The dividend events an account remembers: when they fall due and expire, and how provider
    data is merged in. Times are Unix milliseconds; days are Asia/Saigon days (UTC+7). */
module DividendHistory {
  import opened StockPortfolio

  const RETENTION_DAYS: int := 90

  function SaigonDay(ms: int): int { (ms + 7 * 3600000) / 86400000 }

  function RetentionAnchor(r: DividendRecord): int {
    if r.recordDate != 0 then r.recordDate else r.publishedAt
  }

  predicate ExpiredAnchor(anchor: int, now: int) {
    anchor > 0 && SaigonDay(now) >= SaigonDay(anchor) + RETENTION_DAYS
  }

  predicate Expired(r: DividendRecord, now: int) { ExpiredAnchor(RetentionAnchor(r), now) }

  predicate Due(r: DividendRecord, now: int) {
    r.recordDate > 0 && SaigonDay(now) >= SaigonDay(r.recordDate)
  }

  predicate OpenedByRecordDate(p: Position, r: DividendRecord) {
    r.recordDate > 0 && p.openedAt >= 0 && (p.openedAt == 0 || SaigonDay(p.openedAt) <= SaigonDay(r.recordDate))
  }

  /** A provider event: a record not yet processed, with its ticker and id. */
  datatype Event = Event(symbol: string, id: string, record: DividendRecord)

  datatype FetchJob = FetchJob(symbol: string, after: int, through: int, recent: bool, targets: set<string>) {
    predicate Includes(e: Event) {
      && e.symbol == symbol && after <= e.record.publishedAt <= through
      && (recent || e.id in targets)
    }
  }

  datatype FetchResult = Fetched(job: FetchJob, events: seq<Event>) | FetchFailed(job: FetchJob)

  // ----- The stored history -----

  predicate Has(h: History, symbol: string, id: string) { symbol in h && id in h[symbol] }

  /** Equal but for tickers that remember no event. */
  ghost predicate SameRecords(h: History, k: History) {
    forall s, e :: (Has(h, s, e) <==> Has(k, s, e)) && (Has(h, s, e) ==> h[s][e] == k[s][e])
  }

  function EventsOf(h: History, symbol: string): Events { if symbol in h then h[symbol] else map[] }

  function WithRecord(h: History, symbol: string, id: string, r: DividendRecord): History {
    h[symbol := EventsOf(h, symbol)[id := r]]
  }

  /** Provider data replaces the record, but whether it was processed stays the account's own. */
  function Upserted(h: History, e: Event): History {
    WithRecord(h, e.symbol, e.id, e.record.(processed := Has(h, e.symbol, e.id) && h[e.symbol][e.id].processed))
  }

  function PrunedEvents(events: Events, now: int): Events {
    map e | e in events && !Expired(events[e], now) :: events[e]
  }

  function Pruned(h: History, now: int): History {
    map s | s in h && exists e :: e in h[s] && !Expired(h[s][e], now) ::
      PrunedEvents(h[s], now)
  }

  function Merged(h: History, job: FetchJob, events: seq<Event>, now: int): History {
    if events == [] then h
    else
      var before := Merged(h, job, events[..|events| - 1], now);
      var e := events[|events| - 1];
      if !job.Includes(e) || Expired(e.record, now) then before else Upserted(before, e)
  }

  function MergedAll(h: History, results: seq<FetchResult>, now: int): History {
    if results == [] then h
    else
      var before := MergedAll(h, results[..|results| - 1], now);
      var r := results[|results| - 1];
      if r.FetchFailed? then before else Merged(before, r.job, r.events, now)
  }

  // ----- The same on the mutable portfolio -----

  method UpsertDividendEvent(p: Portfolio, e: Event) returns (changed: bool)
    modifies p
    ensures p.Value() == old(p.Value()).(dividends := Upserted(old(p.dividends), e))
    ensures changed <==> p.dividends != old(p.dividends)
  {
    var exists_ := Has(p.dividends, e.symbol, e.id);
    var updated := e.record.(processed := exists_ && p.dividends[e.symbol][e.id].processed);
    if exists_ && p.dividends[e.symbol][e.id] == updated {
      assert p.dividends[e.symbol][e.id := updated] == p.dividends[e.symbol];
      assert Upserted(p.dividends, e) == p.dividends;
      return false;
    }
    var events := EventsOf(p.dividends, e.symbol);
    p.dividends := p.dividends[e.symbol := events[e.id := updated]];
    assert p.dividends[e.symbol][e.id] == updated;
    assert Has(old(p.dividends), e.symbol, e.id) ==> old(p.dividends)[e.symbol][e.id] != updated;
    return true;
  }

  method PruneEvents(events: Events, now: int) returns (kept: Events, changed: bool)
    ensures kept == PrunedEvents(events, now)
    ensures changed <==> exists e :: e in events && Expired(events[e], now)
  {
    kept, changed := events, false;
    var ids := events.Keys;
    while ids != {}
      invariant ids <= events.Keys && kept.Keys <= events.Keys
      invariant forall e :: e in kept ==> kept[e] == events[e]
      invariant forall e :: e in events ==> (e in kept <==> e in ids || !Expired(events[e], now))
      invariant changed <==> exists e :: e in events && e !in ids && Expired(events[e], now)
      decreases ids
    {
      var e :| e in ids;
      ids := ids - {e};
      if Expired(events[e], now) {
        kept := kept - {e};
        changed := true;
      }
    }
  }

  method PruneDividendHistory(p: Portfolio, now: int) returns (changed: bool)
    modifies p
    ensures p.Value() == old(p.Value()).(dividends := Pruned(old(p.dividends), now))
    ensures changed <==> SomeExpired(old(p.dividends), now)
  {
    hide Expired;
    changed := false;
    ghost var was := p.dividends;
    ghost var done: set<string> := {};
    var symbols := p.dividends.Keys;
    while symbols != {}
      invariant symbols <= was.Keys && done == was.Keys - symbols
      invariant p.Value() == old(p.Value()).(dividends := p.dividends)
      invariant p.dividends.Keys <= was.Keys
      invariant forall s :: s in was ==> (s in p.dividends <==> s in symbols || s in Pruned(was, now))
      invariant forall s :: s in symbols ==> p.dividends[s] == was[s]
      invariant forall s :: s in done && s in p.dividends ==> p.dividends[s] == Pruned(was, now)[s]
      invariant changed <==> exists s, e :: s in done && s in was && e in was[s] && Expired(was[s][e], now)
      decreases symbols
    {
      var s :| s in symbols;
      symbols := symbols - {s};
      done := done + {s};
      var kept, c := PruneEvents(p.dividends[s], now);
      changed := changed || c;
      if kept == map[] {
        p.dividends := p.dividends - {s};
        assert forall e :: e in was[s] ==> e !in kept;
      } else {
        var e :| e in kept;
        p.dividends := p.dividends[s := kept];
      }
    }
    assert p.dividends == Pruned(was, now);
  }

  /** The tickers whose fetch failed, once per failed fetch. */
  function FailedSymbols(results: seq<FetchResult>): seq<string> {
    if results == [] then []
    else
      var last := results[|results| - 1];
      FailedSymbols(results[..|results| - 1]) + (if last.FetchFailed? then [last.job.symbol] else [])
  }

  /** Whether merging some event altered the history it was merged into. */
  ghost predicate MergeWrites(h: History, job: FetchJob, events: seq<Event>, now: int) {
    events != [] &&
    var before := events[..|events| - 1];
    MergeWrites(h, job, before, now) || Merged(h, job, events, now) != Merged(h, job, before, now)
  }

  ghost predicate AllWrites(h: History, results: seq<FetchResult>, now: int) {
    results != [] &&
    var before, r := results[..|results| - 1], results[|results| - 1];
    AllWrites(h, before, now) || (r.Fetched? && MergeWrites(MergedAll(h, before, now), r.job, r.events, now))
  }

  ghost predicate SomeExpired(h: History, now: int) {
    exists s, e :: s in h && e in h[s] && Expired(h[s][e], now)
  }

  /** The locked half of a history sync: prune, then merge every fetched event in range. A change is
      reported exactly when an event was pruned or a merge altered the history. */
  method SyncHistory(p: Portfolio, results: seq<FetchResult>, now: int) returns (changed: bool, failed: seq<string>)
    modifies p
    ensures p.Value() == old(p.Value()).(dividends := MergedAll(Pruned(old(p.dividends), now), results, now))
    ensures changed <==> SomeExpired(old(p.dividends), now) || AllWrites(Pruned(old(p.dividends), now), results, now)
    ensures !changed ==> SameRecords(old(p.dividends), p.dividends)
    ensures failed == FailedSymbols(results)
  {
    ghost var was := p.dividends;
    changed := PruneDividendHistory(p, now);
    ghost var pruned := p.dividends;
    assert !changed ==> SameRecords(was, pruned);
    failed := [];
    for i := 0 to |results|
      invariant p.Value() == old(p.Value()).(dividends := MergedAll(pruned, results[..i], now))
      invariant !changed ==> p.dividends == pruned && SameRecords(was, pruned)
      invariant changed <==> SomeExpired(was, now) || AllWrites(pruned, results[..i], now)
      invariant failed == FailedSymbols(results[..i])
    {
      assert results[..i + 1][..i] == results[..i];
      var result := results[i];
      if result.FetchFailed? {
        failed := failed + [result.job.symbol];
        continue;
      }
      ghost var before := p.dividends;
      ghost var earlier := changed;
      for j := 0 to |result.events|
        invariant p.Value() == old(p.Value()).(dividends := Merged(before, result.job, result.events[..j], now))
        invariant !changed ==> p.dividends == pruned && SameRecords(was, pruned)
        invariant changed <==> earlier || MergeWrites(before, result.job, result.events[..j], now)
      {
        assert result.events[..j + 1][..j] == result.events[..j];
        var e := result.events[j];
        if !result.job.Includes(e) {
          continue;
        }
        if Expired(e.record, now) {
          continue;
        }
        var c := UpsertDividendEvent(p, e);
        if c {
          changed := true;
        }
      }
      assert result.events[..|result.events|] == result.events;
    }
    assert results[..|results|] == results;
  }
}
