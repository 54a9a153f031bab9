/** Which provider queries a sync makes: one for the recent publications of every ticker held, and one
    per old publication day that still has an event to follow up. */
module DividendFetch {
  import opened Text
  import opened StockPortfolio
  import opened DividendHistory

  const DAY: int := 86400000
  const WINDOW: int := 30 * DAY

  function DayStart(ms: int): int { SaigonDay(ms) * DAY - 7 * 3600000 }

  predicate Holds(a: Account, symbol: string) { symbol in a.assets && a.assets[symbol].quantity > 0 }

  /** Not applied, published before the window, and with its Record date unknown or reached. */
  predicate FollowedUp(r: DividendRecord, now: int) {
    && !r.processed && 0 < r.publishedAt < now - WINDOW
    && (r.recordDate == 0 || Due(r, now))
  }

  function Targets(events: Events, now: int, day: int): set<string> {
    set id | id in events && FollowedUp(events[id], now) && DayStart(events[id].publishedAt) == day
  }

  function RecentJob(symbol: string, now: int): FetchJob { FetchJob(symbol, now - WINDOW, now, true, {}) }

  function DayJob(symbol: string, day: int, targets: set<string>): FetchJob {
    FetchJob(symbol, day, day + DAY - 1, false, targets)
  }

  /** The queries made for an account at a time. */
  predicate Issued(a: Account, now: int, job: FetchJob) {
    && Holds(a, job.symbol)
    && if job.recent then job == RecentJob(job.symbol, now)
       else
         var targets := Targets(EventsOf(a.dividends, job.symbol), now, job.after);
         targets != {} && job == DayJob(job.symbol, job.after, targets)
  }

  // ----- The order of the queries -----

  predicate Before(j: FetchJob, k: FetchJob) {
    if j.symbol != k.symbol then Less(j.symbol, k.symbol) else j.after < k.after
  }

  ghost predicate InOrder(jobs: seq<FetchJob>) { forall i, k :: 0 <= i < k < |jobs| ==> Before(jobs[i], jobs[k]) }

  lemma BeforeTransitive(i: FetchJob, j: FetchJob, k: FetchJob)
    requires Before(i, j) && Before(j, k)
    ensures Before(i, k)
  {
    if i.symbol != j.symbol && j.symbol != k.symbol {
      LessTransitive(i.symbol, j.symbol, k.symbol);
      LessTotal(i.symbol, k.symbol);
    }
  }

  function Insert(jobs: seq<FetchJob>, job: FetchJob): seq<FetchJob> {
    if jobs == [] || Before(job, jobs[0]) then [job] + jobs else [jobs[0]] + Insert(jobs[1..], job)
  }

  lemma InsertKeeps(jobs: seq<FetchJob>, job: FetchJob)
    requires InOrder(jobs) && forall k :: k in jobs ==> Before(job, k) || Before(k, job)
    ensures InOrder(Insert(jobs, job))
    ensures forall k :: k in Insert(jobs, job) <==> k in jobs || k == job
  {
    hide Before;
    if jobs != [] {
      assert jobs == [jobs[0]] + jobs[1..];
      if Before(job, jobs[0]) {
        forall k | 1 <= k < |jobs| ensures Before(job, jobs[k]) {
          BeforeTransitive(job, jobs[0], jobs[k]);
        }
      } else {
        InsertKeeps(jobs[1..], job);
        var rest := Insert(jobs[1..], job);
        forall k | 0 <= k < |rest| ensures Before(jobs[0], rest[k]) {
          assert rest[k] in jobs[1..] || rest[k] == job;
        }
      }
    }
  }

  /** sort.Slice on jobs no two of which tie. */
  method SortJobs(jobs: seq<FetchJob>) returns (sorted: seq<FetchJob>)
    requires forall i, k :: 0 <= i < k < |jobs| ==> Before(jobs[i], jobs[k]) || Before(jobs[k], jobs[i])
    ensures InOrder(sorted) && forall j :: j in sorted <==> j in jobs
  {
    hide Before;
    sorted := [];
    for i := 0 to |jobs|
      invariant InOrder(sorted) && forall j :: j in sorted <==> j in jobs[..i]
    {
      assert jobs[..i + 1] == jobs[..i] + [jobs[i]];
      InsertKeeps(sorted, jobs[i]);
      sorted := Insert(sorted, jobs[i]);
    }
    assert jobs[..|jobs|] == jobs;
  }

  // ----- Making the queries -----

  /** The old events of one ticker, grouped by publication day. */
  method GroupByDay(events: Events, now: int) returns (days: map<int, set<string>>)
    ensures forall day :: day in days <==> Targets(events, now, day) != {}
    ensures forall day :: day in days ==> days[day] == Targets(events, now, day)
  {
    days := map[];
    var ids := events.Keys;
    ghost var done: set<string> := {};
    while ids != {}
      invariant ids !! done && ids + done == events.Keys
      invariant forall day :: day in days <==> Targets(events, now, day) * done != {}
      invariant forall day :: day in days ==> days[day] == Targets(events, now, day) * done
      decreases ids
    {
      var id :| id in ids;
      ids := ids - {id};
      var r := events[id];
      var day := DayStart(r.publishedAt);
      forall d ensures Targets(events, now, d) * (done + {id}) ==
          Targets(events, now, d) * done + (if FollowedUp(r, now) && d == day then {id} else {}) {
      }
      done := done + {id};
      if r.processed || r.publishedAt <= 0 || r.publishedAt >= now - WINDOW {
        continue;
      }
      if r.recordDate != 0 && !Due(r, now) {
        continue;
      }
      days := days[day := (if day in days then days[day] else {}) + {id}];
    }
    forall day ensures Targets(events, now, day) * done == Targets(events, now, day) {
    }
  }

  /** The queries made so far for the given tickers: recent ones, and old days. */
  ghost predicate Collected(a: Account, now: int, recent: set<string>, daily: set<string>, jobs: seq<FetchJob>) {
    && (forall j :: j in jobs <==> Issued(a, now, j) && (if j.recent then j.symbol in recent else j.symbol in daily))
    && forall i, k :: 0 <= i < k < |jobs| ==> jobs[i] != jobs[k]
  }

  lemma IssuedApart(a: Account, now: int, j: FetchJob, k: FetchJob)
    requires Issued(a, now, j) && Issued(a, now, k) && j != k
    ensures Before(j, k) || Before(k, j)
  {
    LessTotal(j.symbol, k.symbol);
    if j.symbol == k.symbol && j.recent != k.recent {
      var daily := if j.recent then k else j;
      var id :| id in daily.targets;
      DayStartBelow(EventsOf(a.dividends, daily.symbol)[id].publishedAt);
    }
  }

  lemma DayStartBelow(ms: int)
    ensures DayStart(ms) <= ms < DayStart(ms) + DAY
  {
  }

  method DividendFetchJobs(a: Account, now: int) returns (jobs: seq<FetchJob>)
    ensures InOrder(jobs) && forall j :: j in jobs <==> Issued(a, now, j)
  {
    hide Before, Targets;
    jobs := [];
    var symbols := a.assets.Keys;
    while symbols != {}
      invariant symbols <= a.assets.Keys
      invariant Collected(a, now, a.assets.Keys - symbols, {}, jobs)
      decreases symbols
    {
      var symbol :| symbol in symbols;
      symbols := symbols - {symbol};
      if a.assets[symbol].quantity > 0 {
        jobs := jobs + [RecentJob(symbol, now)];
      }
    }
    symbols := a.dividends.Keys;
    while symbols != {}
      invariant symbols <= a.dividends.Keys
      invariant Collected(a, now, a.assets.Keys, a.dividends.Keys - symbols, jobs)
      decreases symbols
    {
      var symbol :| symbol in symbols;
      ghost var before := jobs;
      ghost var done := a.dividends.Keys - symbols;
      symbols := symbols - {symbol};
      if Holds(a, symbol) {
        var days := GroupByDay(a.dividends[symbol], now);
        var keys := days.Keys;
        while keys != {}
          invariant keys <= days.Keys
          invariant forall j :: j in jobs <==>
              j in before || (!j.recent && j.symbol == symbol && Issued(a, now, j) && j.after !in keys)
          invariant forall i, k :: 0 <= i < k < |jobs| ==> jobs[i] != jobs[k]
          decreases keys
        {
          SomeDay(keys);
          var day :| day in keys;
          keys := keys - {day};
          jobs := jobs + [DayJob(symbol, day, days[day])];
        }
      }
      assert Collected(a, now, a.assets.Keys, done + {symbol}, jobs);
      assert a.dividends.Keys - symbols == done + {symbol};
    }
    forall i, k | 0 <= i < k < |jobs| ensures Before(jobs[i], jobs[k]) || Before(jobs[k], jobs[i]) {
      IssuedApart(a, now, jobs[i], jobs[k]);
    }
    forall j | Issued(a, now, j) && !j.recent ensures j.symbol in a.dividends {
      TargetsRemembered(a.dividends, j.symbol, now, j.after);
    }
    jobs := SortJobs(jobs);
  }

  lemma SomeDay(days: set<int>)
    ensures days == {} || exists day :: day in days
  {
    if forall day :: day !in days {
      assert days == {};
    }
  }

  lemma TargetsRemembered(h: History, symbol: string, now: int, day: int)
    ensures Targets(EventsOf(h, symbol), now, day) != {} ==> symbol in h
  {
  }

  // ----- What the queries can bring back -----

  /** An event that is applied or forgotten is asked for only among the recent publications. */
  lemma {:induction false} AppliedOnlyIfRecent(a: Account, now: int, job: FetchJob, e: Event)
    requires Issued(a, now, job) && job.Includes(e)
    requires Has(a.dividends, e.symbol, e.id) ==> a.dividends[e.symbol][e.id].processed
    ensures job.recent && now - WINDOW <= e.record.publishedAt <= now && Holds(a, e.symbol)
  {
  }

  /** Which version of an event the queries let in, of a ticker held: any one published in the last thirty
      days; and one published on the same day as remembered, when that is longer ago and the event is not
      applied and not waiting for a later Record date. */
  lemma {:induction false} LetInExactly(a: Account, now: int, e: Event)
    ensures (exists job :: Issued(a, now, job) && job.Includes(e)) <==>
              && Holds(a, e.symbol)
              && (now - 30 * 86400000 <= e.record.publishedAt <= now
                  || (Has(a.dividends, e.symbol, e.id)
                      && var r := a.dividends[e.symbol][e.id];
                         && !r.processed && 0 < r.publishedAt < now - 30 * 86400000
                         && (r.recordDate == 0 || (r.recordDate > 0 && DayStart(r.recordDate) <= now))
                         && DayStart(r.publishedAt) <= e.record.publishedAt < DayStart(r.publishedAt) + 86400000))
  {
    if Holds(a, e.symbol) && now - WINDOW <= e.record.publishedAt <= now {
      assert Issued(a, now, RecentJob(e.symbol, now)) && RecentJob(e.symbol, now).Includes(e);
    }
    if Has(a.dividends, e.symbol, e.id) {
      var r := a.dividends[e.symbol][e.id];
      DueFrom(r, now);
      var day := DayStart(r.publishedAt);
      var targets := Targets(EventsOf(a.dividends, e.symbol), now, day);
      if Holds(a, e.symbol) && FollowedUp(r, now) && day <= e.record.publishedAt < day + DAY {
        assert e.id in targets;
        assert Issued(a, now, DayJob(e.symbol, day, targets)) && DayJob(e.symbol, day, targets).Includes(e);
      }
    }
    if job :| Issued(a, now, job) && job.Includes(e) {
      if !job.recent {
        assert e.id in job.targets;
      }
    }
  }

  lemma DueFrom(r: DividendRecord, now: int)
    ensures Due(r, now) <==> r.recordDate > 0 && DayStart(r.recordDate) <= now
  {
  }
}
