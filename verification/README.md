# Verified models of the bot's algorithms and protocols

A Dafny model of what is intricate in a Telegram bot that keeps paper stock and coin portfolios,
converts lunar dates, filters words, counts usage and renders wheel animations, with proofs about
every input, run or interleaving. `dafny verify dfyconfig.toml` checks all of it.

| Area | Modules | Main result |
|---|---|---|
| Lunar calendar | JulianDay, LunarCalendar, MeanSkyExample | Conversions equal a direct naming rule and undo each other, except leap month 12 |
| Dividend application | DividendMath, StockPortfolio, Ledger, DividendHistory, DividendFetch, PendingDividend, DividendProtocol, DividendOnce, DividendAgain, DividendCredit, DividendHandlers, KeyLock | Exactly when an event is credited at most once, when a credit is paid, and what it pays |
| Stored documents | DocStore, OptimisticUpdate, Keys | No update is lost; both backends behave alike |
| Packing and layout | Packing, LabelLayout | Lossless and optimal |
| DevTools pipe | CdpPipe | Exactly when chunking matters; calls are settled once |
| Counting and scoring | UsageStats, UsageNames, Counters, Wordle | Nothing lost or counted twice; which name leads to whom |
| Word filter | Blacklist, ScopeKeys | The verdict is exact; scopes do not leak |

GoInt, Wrappers, Decimal and Text hold Go's integer division, results, decimal numerals and string
search, order and replacement.

## How things are modelled

- Go methods that change a receiver are methods of a class with those fields; loops stay loops. Each
  is proved against a function of the old state, and the properties are proved of that function.
- Go's 64-bit integers are unbounded integers with their limits written out where the source checks
  them. Floating-point amounts are reals. Strings are sequences of bytes or characters.
- The sky is given by two functions, the day of the k-th new moon and the number of major solar
  terms passed by a day, and by the years between which it is relied on. The hypotheses of
  `LunarCalendar.Regular` range over the lunations, days and years of that window only: months last 29
  or 30 days and begin within two days of the mean new moon; the term count never falls and rises by at
  most one in 29 days; the winter solstice comes between 20 and 25 December. The commands take the years
  1800 to 2199 (`internal/modules/amlich/lunar.go:29-35`), which the window 1799 to 2200 serves;
  `MeanSkyIsRegular` shows that the hypotheses can be met there.
  The naming rule (`LunarCalendar.Names`) does not use the source's offset search.
- The dividend protocol has any number of users and presses. Trades, syncs and suggestions are one step
  each, taken while no press holds the user's lock, as command handlers run one at a time
  (`internal/telegram/client.go:25-29`). A press is split at every access to the store, and any save or
  delete may fail. The clock never goes back.
- A sync takes any answers to the queries the source makes for the account at that time. The condition of
  `DividendOnce.AtMostOneCredit` can be read off before each merge: an event that was paid, and that its
  history drops or has dropped, is not among the answers in range and unexpired. The source cannot test it,
  since pruning forgets that the event was paid. A provider whose dates do not move later meets it.
- Updaters of a key interleave at every read and every write, together with plain overwrites and deletes,
  over the memory store and over MongoDB documents with or without a version. A plain overwrite in a run is
  one step; the bounded loop behind it on MongoDB is `OptimisticUpdate.SharedKey.Put`, whose last round is
  that step.

## Where the source differs from what it says or suggests

- A leap month after month 12 gets leap number 0, so `lunarToSolar` refuses it though `solarToLunar`
  names it (`internal/modules/amlich/lunar.go:230-238`). `MeanSkyExample.LeapTwelveRefused` shows it under a
  sky of mean motion; the source's own series gives no leap month 12 in the lunar years 1800 to 2199, so no
  date the commands take reaches it.
- The store contract lets a write with version 0 adopt a key that is not yet versioned; the memory store
  reports a conflict for any present key (`internal/storage/memory_provider.go:96-116`).
  `DocStore.BackendsAgree` is exact about it.
- Versions restart when a key is deleted, though they are described as monotonic
  (`internal/storage/doc_store.go:31-35`, `OptimisticUpdate.VersionsRiseExactly`).
- A processed mark is meant to make applying a dividend safe to repeat, but it is pruned with its event: one
  published in the last thirty days whose Record date is corrected after its retention ended is paid again
  (`DividendAgain.SecondCredit`).
- An unparsable DevTools message stays at the head of the buffer, and every later chunk throws at it
  again and delivers nothing (`CdpPipe.StuckForGood`). A null throws once it is taken out, and what follows
  it waits for the next chunk (`CdpPipe.ChunkingExactly`).
- A prefix of 0xFF bytes only gets an empty range (`Keys.RangeAgreesExactly`).
- The packer loses the separator before any section but the first that arrives while the open message is
  empty (`Packing.LosslessExactly`); its callers pass no empty section, so it does not happen there.

## Model

| member | source | states |
|---|---|---|
| JulianDay.JdRoundTrip | internal/modules/amlich/lunar.go:44-72 | For every day number from 0 on, jdToDate gives a real calendar date and jdFromDate takes it back; the Gregorian branch is taken from 2299161 on and nowhere else |
| JulianDay.DateRoundTrip | internal/modules/amlich/lunar.go:44-72 | A day-month-year triple has a day number from 0 on and survives jdFromDate then jdToDate if and only if it is a date of the mixed Julian and Gregorian calendar; the ten dropped days of October 1582 do not |
| JulianDay.JdCountsDays | internal/modules/amlich/lunar.go:42-53 | jdFromDate counts days: the next calendar date has the next number, across month ends, leap days and the 1582 gap, starting from 0 on 1 January -4712 |
| LunarCalendar.Month11Exact | internal/modules/amlich/lunar.go:137-147 | getLunarMonth11 picks the month holding the last midnight before the winter solstice |
| LunarCalendar.SuiLength | internal/modules/amlich/lunar.go:193-194 | Two successive eleventh months are 12 or 13 months apart, and more than 365 days apart exactly when there are 13 |
| LunarCalendar.LunationCount | internal/modules/amlich/lunar.go:192 | Dividing the days between two month starts by 29 counts the months between them, up to 28 of them |
| LunarCalendar.GetLeapMonthOffset | internal/modules/amlich/lunar.go:152-165 | The arc-stepping loop stops within its 14 rounds and returns the offset of the specification |
| LunarCalendar.LeapOffsetExact | internal/modules/amlich/lunar.go:149-165 | In a 13-month year the offset is 1 to 12 and is the first month after month 11 in which the sun enters no new term |
| LunarCalendar.SolarToLunar | internal/modules/amlich/lunar.go:169-210 | The conversion, step-back loop included, gives every date between the years relied on the name the naming rule gives its day: month, leap flag, year, and a day from 1 to 30 |
| LunarCalendar.NamesOnce | internal/modules/amlich/lunar.go:167-210 | The naming rule gives a day at most one lunar name |
| LunarCalendar.LunarToSolarExact | internal/modules/amlich/lunar.go:216-252 | For every request between the years relied on, lunarToSolar answers with a date if and only if that date bears the asked lunar name and the name is not a leap month 12; every other request is refused |
| LunarCalendar.SolarRoundTrip | internal/modules/amlich/lunar.go:169-252 | lunarToSolar undoes solarToLunar on every date between the years relied on, except exactly the days of a leap month 12, which it refuses as having no such leap month |
| LunarCalendar.LunarRoundTrip | internal/modules/amlich/lunar.go:169-252 | Every lunar date lunarToSolar accepts comes back unchanged from solarToLunar |
| MeanSkyExample.LeapTwelveRefused | internal/modules/amlich/lunar.go:230-238 | A sky that meets every hypothesis over the years 1799 to 2200 has a day named as leap month 12 that lunarToSolar refuses |
| MeanSkyExample.MonthTwelveAccepted | internal/modules/amlich/lunar.go:169-252 | The same sky has a 13-month year whose ordinary month 12 goes both ways, so the hypotheses of the round trips can be met |
| DividendOnce.AtMostOneCredit | internal/modules/stock/dividend_callback.go:95-157 | Over every run: an event is never paid and open, or paid twice, at any point if and only if no sync takes in an event that had been paid and that its history no longer keeps; without such a sync it is credited at most once |
| DividendOnce.ReopensExactly | internal/modules/stock/dividend_notifications.go:122-171 | Unless its event survives the pruning, a slot is open after a sync if and only if some query brought the event, in its own range and not expired |
| DividendOnce.PaidComesBackRecent | internal/modules/stock/dividend_notifications.go:52-63 | What had been paid can only come back as a publication of the last thirty days, for a ticker held: the follow-up queries never let in an event that is applied or forgotten |
| DividendOnce.HonestIsEnough | internal/modules/stock/dividend_history.go:125-128 | A provider that never moves the dates of an event later once its retention is over never brings back what had entered, and so never what was paid |
| DividendAgain.PaidAgainExactly | internal/modules/stock/dividend_callback.go:95-157 | After any run that paid an event once, a sync and then a press at once pay it again if and only if the sync took it in although its history does not keep it |
| DividendAgain.PressPays | internal/modules/stock/dividend_callback.go:57-157 | Suggested and pressed on its own, an open event of a position in order is credited once, to the account the checks prescribe, and locks and presses are as before |
| DividendAgain.SecondCredit | internal/modules/stock/dividend_notifications.go:122-171 | A run from the start that pays one dividend twice: its Record date is corrected by a day after retention ended, with the publication still in the query window |
| DividendCredit.CreditExactly | internal/modules/stock/dividend_callback.go:95-157 | In every run, a press with its account loaded pays, if the save succeeds, exactly when its event is eligible and can be paid to a valid account, in plain figures: cash is held shares times the record per-share amount within 2^53, shares are the whole times owned goes into held times new within 64 bits; the owner is left with that account, all others with theirs |
| DividendCredit.JudgeExactly | internal/modules/stock/dividend_callback.go:95-157 | A press is rejected exactly when the event is unknown, applied, not due, or the position is gone, another one, or opened after Record date; and applied exactly when the event can then be paid, leaving the account that pays it |
| DividendCredit.DueAndExpiredFrom | internal/modules/stock/dividend_history.go:125-146 | An event falls due at the Saigon midnight that begins its Record date and expires at the one ninety days later, or ninety days after its publication while it has no Record date |
| DividendCredit.AdmittedExactly | internal/modules/stock/dividend_callback.go:61-93 | In every run, a press is admitted if and only if a pending action names its presser as owner, its chat and its message, and has not expired |
| DividendCredit.SuggestExactly | internal/modules/stock/dividend_notifications.go:299-351 | An action is stored if and only if the event is eligible for the position expected and its button fits; it carries the message just sent and a day of life |
| DividendCredit.CleanupExactly | internal/modules/stock/pending_dividend.go:82-99 | A cleanup step takes away exactly the expired actions it can read and delete, and touches nothing else |
| DividendCredit.SyncLeaves | internal/modules/stock/dividend_notifications.go:122-171 | After a sync every event is as the last answer in range and unexpired gives it, its applied mark kept if it was kept; without an answer it is as before unless it expired; the rest of the account stays |
| DividendFetch.DividendFetchJobs | internal/modules/stock/dividend_notifications.go:173-219 | The loops make exactly the specified queries, each once, sorted: the recent window of every ticker held, and every old publication day with an event to follow up |
| DividendFetch.LetInExactly | internal/modules/stock/dividend_notifications.go:52-63 | A version of an event gets past some query if and only if its ticker is held and it was published in the last thirty days, or on the day remembered for an older event that is not applied and not waiting for its Record date |
| DividendProtocol.CreditsBoundedByInsertions | internal/modules/stock/dividend_callback.go:95-157 | With no assumption on the provider, an event is credited at most as often as it newly entered the history |
| DividendProtocol.CreditsAreDue | internal/modules/stock/dividend_callback.go:95-157 | Every credit in every run was paid to a position in hand, opened when the suggestion says and no later than the Record date, and on or after the Record date in Saigon days, for an action that had been suggested |
| DividendProtocol.StepKeeps | internal/modules/stock/dividend_callback.go:57-157 | Every step of every actor keeps the invariant tying locks, pending actions, presses in flight, processed flags and credits together |
| DividendOnce.InsertedOnce | internal/modules/stock/dividend_notifications.go:122-171 | An event enters the history at most once in a run if and only if no sync takes in again what had entered and is no longer kept |
| DividendHandlers.StockState.ConsumeDividendAction | internal/modules/stock/dividend_callback.go:95-157 | The locked press handler applies exactly when the judgement is to apply, the account stays valid and the save succeeds, and deletes the action exactly on a rejection or an applied credit whose delete succeeds |
| DividendHandlers.ConsumeIsItsSteps | internal/modules/stock/dividend_callback.go:95-157 | A locked press taken through its protocol steps with no one in between leaves the store as the handler does, and pays exactly when the handler applies |
| DividendHandlers.StockState.ResolveDividendCallback | internal/modules/stock/dividend_callback.go:61-93 | Resolving a button either rejects it, dropping an expired action if the delete succeeds, or yields the press the protocol step yields |
| DividendHandlers.ApplySuggestedDividend | internal/modules/stock/dividend_callback.go:159-202 | The in-place application changes the portfolio to the specified value or, on any refusal, leaves it as it was |
| DividendHandlers.StockState.SendDividendSuggestion | internal/modules/stock/dividend_notifications.go:299-351 | Suggesting stores the one action the protocol step stores, only for an open, due event of the expected position, and only when the message goes out and the write succeeds |
| DividendHandlers.StockState.CleanupExpiredDividends | internal/modules/stock/pending_dividend.go:82-99 | Cleanup removes exactly the pending actions whose expiry has come, but for keys that fail to be read or deleted, and nothing when listing fails |
| DividendHistory.SyncHistory | internal/modules/stock/dividend_notifications.go:122-171 | Sync prunes, then merges every fetched event in range and not expired; a change is reported exactly when something expired or some merge altered the history, and none means every record is as before; the failed tickers are listed in order |
| DividendHistory.UpsertDividendEvent | internal/modules/stock/dividend_history.go:98-107 | Upserting rewrites only that event, never clears a processed flag through a re-fetch, and reports exactly whether anything changed |
| DividendHistory.PruneDividendHistory | internal/modules/stock/dividend_history.go:109-123 | Pruning keeps exactly the unexpired events, drops empty tickers, and reports a change exactly when something was expired |
| PendingDividend.CallbackRoundTrip | internal/modules/stock/pending_dividend.go:46-80 | A callback is built exactly for a positive user and a valid event id that fit 64 bytes with the prefix, and parses back to the same pair |
| PendingDividend.PendingKeyInjective | internal/modules/stock/pending_dividend.go:39-44 | Different user and event pairs have different pending keys |
| KeyLock.MutualExclusion | internal/keylock/keylock.go:23-33 | In every interleaving, two callers never hold the lock of one key at once |
| KeyLock.OnlyOwnKeyBlocks | internal/keylock/keylock.go:23-33 | A waiting caller gets in if and only if no one holds its own key, whatever the other keys do |
| KeyLock.FreeKeyAcquired | internal/keylock/keylock.go:23-33 | A newcomer to a key no one holds gets in, whether or not the key had a mutex |
| KeyLock.HandsOver | internal/keylock/keylock.go:23-33 | Once the holder leaves, any caller waiting for the key can get in |
| DividendMath.EntitlementFloor | internal/modules/stock/dividends.go:53-63 | The entitlement is the floor of held shares times new over owned, and fails exactly when that exceeds 64 bits |
| DividendMath.EntitlementScales | internal/modules/stock/dividends.go:53-63 | Scaling both sides of the ratio changes nothing |
| DividendMath.EntitlementMonotone | internal/modules/stock/dividends.go:53-63 | A larger holding is never entitled to less |
| DividendMath.MinimumHoldingExact | internal/modules/stock/dividends.go:65-67 | The minimum holding is exactly the least one entitled to a share |
| DividendMath.CashTotalExact | internal/modules/stock/dividends.go:76-85 | The cash guard accepts exactly the positive products that stay within 2^53, and then returns the product |
| StockPortfolio.CashPaidExactly | internal/modules/stock/dividend_callback.go:159-178 | A cash dividend is paid exactly when it is positive and amount and new balance stay within 2^53; it moves as much as there is of the basis into cash, the rest being gain |
| StockPortfolio.SharesPaidExactly | internal/modules/stock/dividend_callback.go:179-202 | A share dividend adds exactly the floor of held times new over owned, at least one share and with the sum within 64 bits, which is what the holding guard accepts; nothing else changes |
| StockPortfolio.Portfolio.DeductVND | internal/modules/stock/portfolio.go:152-160 | Deducts exactly when the cash suffices; a refusal changes nothing |
| StockPortfolio.Portfolio.BuyTicker | internal/modules/stock/portfolio.go:162-186 | The in-place purchase equals its value-level form, errors and unchanged state included |
| StockPortfolio.BoughtExactly | internal/modules/stock/portfolio.go:162-186 | A purchase succeeds exactly when its numbers are positive and the holding fits 64 bits; it adds quantity and basis, keeps the opening time of a position held and opens a new one now |
| StockPortfolio.Portfolio.SellTicker | internal/modules/stock/portfolio.go:188-207 | The in-place sale equals its value-level form: sold basis, remaining quantity, closing a position, and the refusals |
| StockPortfolio.SoldExactly | internal/modules/stock/portfolio.go:188-207 | A sale succeeds exactly when that many are held; sold and remaining basis are in proportion to the shares sold and left, the opening time stays, and selling all closes the position |
| StockPortfolio.Portfolio.ApplyCashDividend | internal/modules/stock/portfolio.go:209-226 | The in-place return of capital equals its value-level form |
| StockPortfolio.Portfolio.ApplyShareDividend | internal/modules/stock/portfolio.go:228-242 | The in-place share dividend equals its value-level form; basis and opening time stay |
| Ledger.PostConserves | internal/modules/stock/portfolio.go:148-242 | Every top-up, trade or dividend keeps the account valid and moves cash plus bases minus invested by exactly its gain: revenue less sold basis, or dividend less basis returned |
| Ledger.LedgerConserves | internal/modules/stock/portfolio.go:148-242 | Over every run, accounts stay valid and cash plus bases minus invested equals its start plus all gains |
| Ledger.MoneyInExactly | internal/modules/stock/portfolio.go:148-186 | When a top-up and a purchase command are accepted, and the account each leaves, in figures |
| Ledger.SaleExactly | internal/modules/stock/portfolio.go:188-207 | A sale command brings in its revenue and takes quantity and basis in proportion from that position alone; refused, it changes nothing |
| Ledger.CashCommandExactly | internal/modules/stock/portfolio.go:209-226 | A cash dividend command moves held shares times the amount into cash, as far as there is basis out of it, or changes nothing |
| Ledger.ShareCommandExactly | internal/modules/stock/portfolio.go:228-242 | A share dividend command adds the whole times owned goes into held times new, or changes nothing |
| Ledger.PartialSellsAddUp | internal/modules/stock/portfolio.go:188-207 | Selling a position in any number of parts leaves the same account and removes the same basis as one sale of the total |
| OptimisticUpdate.NoLostUpdate | internal/modules/coin/portfolio.go:72-96 | In every interleaving of any number of updaters, overwrites and deletes on either backend in which no write goes through blind, every write edits the value in place, so the stored value is the fold of what was committed in order, each edit accepted by the value before it |
| OptimisticUpdate.NeverDeletedIsSighted | internal/modules/coin/portfolio.go:72-96 | While the key is never deleted no write goes through blind, documents without a version included |
| OptimisticUpdate.BlindExactly | internal/storage/memory_provider.go:96-126 | A write goes through over data its client has not seen if and only if the key was deleted after the read and the version read equals the commits since the last delete, positive unless a document without a version was read |
| OptimisticUpdate.VersionsRiseExactly | internal/storage/doc_store.go:31-35 | A key's version never falls in a run if and only if no delete finds it at a positive version, which is whenever it finds it present unless a document without a version was there first |
| OptimisticUpdate.AbaLosesUpdate | internal/storage/memory_provider.go:96-126 | A five-step run of a blind write: read version 1, delete, write afresh, and write over the value never seen |
| OptimisticUpdate.MongoWrites | internal/storage/mongo_doc_store.go:74-118 | To the rows that documents stand for, the filtered replacement is a test of the version alone |
| OptimisticUpdate.CommitsAtMostOnce | internal/modules/coin/portfolio.go:72-96 | A client commits exactly once if it reports success and never otherwise; one that gives up was overtaken by at least five writes or deletes of others since it began |
| OptimisticUpdate.FateExactly | internal/modules/coin/portfolio.go:75-96 | A client is aborted if and only if a store call of its own failed or its edit refused a value it read, has given up exactly after losing five rounds, and short of that has committed or is still trying with as many rounds behind it as it lost |
| OptimisticUpdate.QuietRoundCommits | internal/modules/coin/portfolio.go:75-96 | A round with nobody in between commits the edit of the value stored |
| OptimisticUpdate.SharedKey.Update | internal/modules/coin/portfolio.go:75-96 | The retry loop, with others writing between its read and its write: success means its edit was applied to the value just before it, aborting means its edit refused a value that was stored meanwhile, giving up means at least five foreign commits |
| OptimisticUpdate.SharedKey.Put | internal/storage/mongo_doc_store.go:120-142 | The bounded overwrite loop: success means the value was written as given, giving up means at least as many foreign commits as attempts |
| DocStore.MemoryStore.PutVersioned | internal/storage/memory_provider.go:96-116 | Writes exactly when the expected version is current (0 for an absent key); a conflict changes nothing |
| DocStore.MemoryStore.List | internal/storage/memory_provider.go:128-142 | Lists exactly the keys with the prefix, sorted, each once |
| DocStore.MemoryStore.Scan | internal/storage/memory_provider.go:144-164 | The same listing with each key's row |
| DocStore.MongoStore.PutVersioned | internal/storage/mongo_doc_store.go:74-118 | The filtered replacement follows its specification over documents; a conflict changes nothing |
| DocStore.MongoStore.Put | internal/storage/mongo_doc_store.go:120-142 | Undisturbed, a Put always succeeds and ends in the rows the memory store would have |
| DocStore.MongoStore.Delete | internal/storage/mongo_doc_store.go:144-152 | Removes that document and leaves all others as they are |
| DocStore.MongoStore.List | internal/storage/mongo_doc_store.go:154-188 | The range query lists exactly the keys with the prefix, sorted, each once; for a prefix of 0xFF bytes only it lists nothing |
| DocStore.MongoStore.Scan | internal/storage/mongo_doc_store.go:190-221 | The same listing with each key's row; nothing for a prefix of 0xFF bytes only |
| DocStore.BackendsAgree | internal/storage/mongo_doc_store.go:74-118 | PutVersioned on documents and on the map agree, in verdict and in resulting rows, except exactly for a first write over a document with no version or version 0 |
| DocStore.ListingsAgree | internal/storage/mongo_doc_store.go:154-188 | A prefix has one sorted listing, so both backends list the same |
| Keys.PrefixSuccessor | internal/storage/keys.go:52-66 | The backward byte loop computes the successor, or gives the prefix back when every byte is 0xFF |
| Keys.KeysExactly | internal/storage/keys.go:19-41 | A key is accepted exactly when it has 1 to 1500 bytes, no slash, is neither dot nor two dots, and does not both begin and end with two underscores |
| Keys.RangeIsPrefix | internal/storage/keys.go:52-66 | A key lies in the range from the prefix to its successor if and only if it starts with the prefix |
| Keys.RangeAgreesExactly | internal/storage/keys.go:52-66 | Range and prefix agree on all keys if and only if some byte of the prefix is not 0xFF; the empty prefix counts as all 0xFF |
| Packing.PackSections | internal/modules/util/help.go:75-93 | The loop gives the specified messages: the greedy packing unless a separator is swallowed, and no message over the limit unless it is one section alone |
| Packing.LosslessExactly | internal/modules/util/help.go:75-93 | The messages joined are the sections joined if and only if no section but the first arrives while the open message is empty, as it never does when all are non-empty |
| Packing.LeadingEmptyLost | internal/modules/util/help.go:75-93 | A leading empty section loses its separator; one between others that fit does not |
| Packing.PackingLossless | internal/modules/util/help.go:27-35 | Joining the messages of any order-preserving packing with blank lines gives back the joined sections |
| Packing.TightIsOptimal | internal/modules/util/help.go:75-93 | A packing that never leaves room for the next section uses the fewest messages of all order-preserving packings, oversized sections included |
| Packing.ChunkBodies | internal/modules/stock/stock_events.go:142-176 | Every body is non-empty and within the body limit, and the bodies are the greedy packing of the clipped events |
| Packing.ClippedExactly | internal/modules/stock/stock_events.go:142-176 | A block of up to 3920 characters stays whole; a longer one keeps its first 3903 and is marked as cut, within 3920 |
| Packing.ChunkReplies | internal/modules/stock/stock_events.go:142-176 | Each reply is its numbered heading over its body, and within Telegram's limit for tickers of up to 16 characters |
| Packing.HeadingsRead | internal/modules/stock/stock_events.go:142-176 | Parts are numbered from 1 out of their number, and a single part is not numbered |
| LabelLayout.Candidates.Visit | renderer/src/remotion/wheel-label-layout.js:52-75 | The recursive push into the shared list appends exactly every cut of the remaining units, in order |
| LabelLayout.CutsExact | renderer/src/remotion/wheel-label-layout.js:52-75 | The candidates are exactly the cuts of the units into that many contiguous non-empty lines |
| LabelLayout.CutsInOrder | renderer/src/remotion/wheel-label-layout.js:52-75 | The cuts are tried with shorter first lines first, and none twice |
| LabelLayout.WidthsExactly | renderer/src/remotion/wheel-label-layout.js:82-93 | The two measures of a candidate are the greatest and the least width of its lines |
| LabelLayout.SortedHeadIsBest | renderer/src/remotion/wheel-label-layout.js:82-93 | The head of any stable sort of the candidates is the first one with least longest line, then least spread |
| LabelLayout.BestIsBalanced | renderer/src/remotion/wheel-label-layout.js:82-93 | The chosen lines are a cut of the units, and beat every other cut into as many lines: by longest line, then spread, then the shorter line where two first differ |
| LabelLayout.GetLabelLines | renderer/src/remotion/wheel-label-layout.js:104-128 | The result is the best cut into its number of lines, rejoins to the normalised label, has the fewest lines that fit, and fits whenever any allowed cut fits; when none fits it has as many lines as are allowed or there are units |
| LabelLayout.RejoinLines | renderer/src/remotion/wheel-label-layout.js:104-128 | Joining the lines of any cut gives back the joined units |
| CdpPipe.Connection.Receive | renderer/src/render/cdp-pipe.js:43-64 | One chunk moves buffer, call table and deliveries as specified, and the handler throws as specified: at text that does not parse, still in the buffer, and at null, already taken out |
| CdpPipe.ChunkingExactly | renderer/src/render/cdp-pipe.js:43-64 | Receiving chunks one by one ends in the same state as receiving their concatenation if and only if no null came before the last chunk or nothing after it could be taken out; without a null, chunking never matters |
| CdpPipe.NullSplitsChunks | renderer/src/render/cdp-pipe.js:43-64 | A message right after a null is delivered when it comes in the next chunk, and waits when it comes in the same one |
| CdpPipe.DeliversPieces | renderer/src/render/cdp-pipe.js:43-64 | For any stream and chunks, the NUL-separated pieces are taken in order, none garbled, and delivered but for nulls; the buffer is the stream after them, and what stopped the reading is the end of the pieces, a garbled one, or a null just taken |
| CdpPipe.ThrowsExactly | renderer/src/render/cdp-pipe.js:43-64 | The handler throws if and only if some piece in its buffer is garbled or null; otherwise just the tail behind the last NUL is left |
| CdpPipe.StuckForGood | renderer/src/render/cdp-pipe.js:43-64 | Once garbled text stands at the front of the buffer, every later chunk throws, delivers nothing and leaves it there |
| CdpPipe.Connection.SendCall | renderer/src/render/cdp-pipe.js:75-80 | A call takes a fresh id and is pending under it |
| CdpPipe.Connection.Fail | renderer/src/render/cdp-pipe.js:91-96 | Failing rejects every pending call once and empties the table |
| CdpPipe.SettledOnce | renderer/src/render/cdp-pipe.js:43-96 | In every run of sends, chunks and failures, each sent id is either pending or settled exactly once: resolved by a delivered message of its own id without an error, rejected by one with an error, or failed |
| CdpPipe.AnsweredByFirst | renderer/src/render/cdp-pipe.js:43-64 | A chunk settles a waiting call if and only if it completes a message with its id, and by the first such: rejected when that reports an error and resolved otherwise |
| UsageStats.UsageKeyInjective | internal/modules/stats/usage_store.go:51-58 | Different command and user pairs have different rows |
| UsageStats.DocUsageStore.Increment | internal/modules/stats/usage_store.go:70-107 | An increment changes the store as specified: one row up by one, retired commands ignored, usernames refreshed; it succeeds exactly for retired commands and storable keys |
| UsageStats.DocUsageStore.RefreshUsername | internal/modules/stats/usage_store.go:109-133 | The scan takes the new name away from other users and gives it to every row of this one |
| UsageStats.UsageInvariant | internal/modules/stats/usage_store.go:70-133 | After any run, rows sit under their own keys, a username belongs to one user, a user has one username, and the rows of a command add up to its uses (none when retired or when the key is not storable) |
| UsageNames.RowsExactly | internal/modules/stats/usage_store.go:70-133 | Over every run: a command and a user have a row if and only if a use of theirs was stored; it counts those uses and carries the name in the last stored use of the user, unless somebody else has used that name since |
| UsageNames.FoundAfterUse | internal/modules/stats/usage_store.go:188-219 | Right after a stored use, its name leads to its user, however the rows are scanned |
| UsageStats.CommandsByUser | internal/modules/stats/usage_store.go:188-219 | The loops find the user of a name and collect exactly that user's shown rows, each as often as scanned, sorted and cut at the limit |
| UsageStats.ScanOrderFree | internal/modules/stats/usage_store.go:188-219 | Permuting the scan changes neither the user found nor the rows collected |
| UsageStats.ViewUnique | internal/modules/stats/views.go:150-157 | The same rows have one sorted view |
| Counters.NothingLost | internal/metrics/counters.go:60-111 | In every interleaving of increments and drains, the completed increments of a name are those reported plus those still in its counter |
| Counters.IncrementCounts | internal/metrics/counters.go:60-91 | An increment with nobody in between counts one for its name, known or new, and none for any other |
| Counters.SwapReports | internal/metrics/counters.go:93-111 | A drain moves the live count of a name to its report and keeps the name at zero, leaving the other names alone |
| Counters.Drain | internal/metrics/counters.go:93-111 | A drain reports exactly the non-zero counters, resets all of them and keeps the entries |
| Wordle.CompareWords | internal/modules/wordle/compare.go:38-65 | The two passes over a shrinking pool give every letter the score of the declarative rule |
| Wordle.CreditIsMinimum | internal/modules/wordle/compare.go:25-65 | A letter is credited exactly as often as the lesser of its counts in guess and target |
| Wordle.IndexOf | internal/modules/wordle/compare.go:67-77 | Finds the first occurrence, or -1 when there is none |
| Blacklist.Occurrences | internal/modules/blacklist/match.go:83-100 | Finds all positions, overlapping ones included, in order; an empty word occurs at every offset, and callers skip it |
| Blacklist.AllowSpans | internal/modules/blacklist/match.go:69-80 | Collects every whitelist occurrence, entry by entry in sorted order |
| Blacklist.Check | internal/modules/blacklist/match.go:42-67 | The nested loops give the specified verdict, and block exactly when some blacklist occurrence lies inside no whitelist occurrence |
| Blacklist.CoverExact | internal/modules/blacklist/match.go:102-110 | The containment search finds a span exactly when some whitelist occurrence contains the match |
| Blacklist.VerdictExact | internal/modules/blacklist/match.go:42-110 | Blocked if and only if an uncovered occurrence exists, and the entry named is the least of the blocking entries |
| Blacklist.RescueExact | internal/modules/blacklist/match.go:42-110 | An unblocked verdict names the least blacklist entry that occurs and the least whitelist entry that contains its first occurrence, or nothing, and then no entry occurs |
| Blacklist.OrderFree | internal/modules/blacklist/match.go:42-67 | The whole verdict is independent of the order of both lists |
| Blacklist.Monotone | internal/modules/blacklist/match.go:42-67 | More blacklist entries never unblock; more whitelist entries never block |
| ScopeKeys.DecodeEncode | internal/modules/blacklist/scope.go:42-63 | Decoding an encoded text gives it back, under leftmost non-overlapping replacement |
| ScopeKeys.EncodeIsEscape | internal/modules/blacklist/scope.go:42-55 | The two replacement passes escape each character by itself, so no slash is left |
| ScopeKeys.PrefixExact | internal/modules/blacklist/scope.go:25-35 | Two keys that agree come from the same scope and the same text |
| ScopeKeys.ScopesAreIsolated | internal/modules/blacklist/scope.go:25-40 | Listing one scope finds an entry if and only if it is that scope's entry |
| ScopeKeys.EntryKeyExact | internal/modules/blacklist/scope.go:37-63 | Entry keys are equal exactly for the same scope and text, and the text is read back from the key |
| ScopeKeys.EntryKeyIsValid | internal/modules/blacklist/scope.go:25-55 | Every entry of up to the allowed length, in any 64-bit chat and thread, has a key the store accepts |

## Left out

- LunarCalendar.SolarToLunar: only for windows of Gregorian years, from 1583; the commands only take 1800 to 2199 (`internal/modules/amlich/lunar.go:29-35`).
- The Meeus series for new moons and sun longitude: trigonometry on floats, replaced by a sky under hypotheses, which are not proved of the series.
- The remarks on disputed month boundaries and the stem and branch names: table lookups.
- IEEE rounding, including the test that a balance is representable: amounts are reals.
- Sending, reply wording, HTTP clients, JSON and BSON encoding: input and output.
- A portfolio that changes between the queries of a sync and its merge: handlers run one at a time, so both see the same account.
- Notices of future dividends and the creation time of a portfolio: no bearing on credits.
- The edits themselves in the coin portfolio (dust threshold) and the gold portfolio: OptimisticUpdate takes any edit.
- A MongoDB write that takes effect but reports an error: writes are atomic and truthful.
- Byte-wise collation of MongoDB string ranges is taken as given.
- The aggregation pipelines of the MongoDB usage store, the other usage views, and rows from before usernames were kept.
- The sort call inside the line chooser: given as any order the comparator allows.
- The error counters: the same algorithm as the usage counters on a second map.
- Listeners of the DevTools pipe, the payloads of its messages and exceptions its callbacks throw.
- Track lengths and font size of wheel labels; grapheme segmentation, normalisation and text width are given functions.
- Unicode normalisation and case folding before the word filter and the Wordle guess.
- Timeouts, panics and progress of scheduling: safety only, besides the conflict bound of the retry loop.
