# Stock monitor: change detection, in Dafny

This project models the core of `stock_monitor.py`, a poller that fetches a
list of product pages, extracts a stock count and a price from each page, and
sends a messaging-channel notification when either value changes.

The model has three modules:

- `Wrappers` (`wrappers.dfy`): `Option`, standing for Python's `None` or a value.
- `Extract` (`extract.dfy`): the two extraction rules.
  - `ExtractStockDigits` finds the leftmost `库存(<digits>)`, and
    `ExtractStock` reads its digits as a number.
  - `StockIntRaises` says when `int()` refuses those digits for exceeding
    its 4300-digit cap.
  - `ExtractPriceLexeme` finds the leftmost `¥`, optional white space and
    `<digits>.<digits>`. `ExtractPrice` applies a `float()` conversion,
    given as a parameter, to that lexeme.
  - Both searches go through one generic leftmost-match search (`Search`).
    It is specified against an anchored match function (`StockGroupAt`,
    `PriceLexemeAt`).
- `Monitor` (`monitor.dfy`): the per-target state machine of
  `check_stock_changes`.
  - `Process` is the specification of one target's step and `Cycle` of one
    pass over the target list. `Run` is a sequence of successive cycles.
  - `FetchOutcome` is the fetch unit (`get_current_stock_and_price`): a
    request error or a 4xx/5xx status gives `(None, None)`. A stock group
    that `int()` refuses raises out of the unit.
  - `RunProjectsOntoTarget` and `RunSentIsPerTarget` show that, with
    distinct URLs, each target of a list behaves as if it were monitored
    alone. The lemmas about one target's run therefore hold for each
    target of a list.
  - The class `StockMonitor` holds the two dictionaries `stockStates` and
    `priceStates` (URL to optional value) and an `outbox` of messages sent.
    Its methods `ProcessTarget` and `CheckStockChanges` (a loop over the
    targets) are proved to follow `Process` and `Cycle`.

Prices are a type parameter `P` with equality. The source only converts
prices with `float()` and compares them. A message is a structured record
(`StockChange` with name, both stocks, both prices and URL; `CheckFailed`
with the name), not formatted text.

Two behaviours of the code are worth knowing; the model follows the code.

- A failed fetch on a seeded target is reported as a change: the code has
  no guard against it.
  - The message reports the stock and price going to `None`.
  - Both dictionaries are cleared to `None`.
  - The next good read re-seeds silently, so a real change across a failure
    is never reported.
  - `FailedFetchIsReportedAsChange`, `FlappingReportsEveryFailure` and
    `FiveCycleScenario` state this.
- A first read that finds nothing still writes `None` entries. Since `.get`
  reads them like missing keys, the next read seeds again.

## Model

| member | source | states |
|---|---|---|
| `Extract.RunLength` | stock_monitor.py:35-36 | the run a greedy `\d+`/`\s*` consumes: every character in it matches, and the next one does not (or the text ends) |
| `Extract.RunLengthUnique` | stock_monitor.py:35-36 | a run that is followed by a non-matching character is exactly the greedy run, so backtracking finds no other split |
| `Extract.DigitsValue` | stock_monitor.py:73 | `int()` of k digits is below 10^k; `DecimalRoundTrip` and `CanonicalDigitsRoundTrip` relate it to `str()` |
| `Extract.DecimalRoundTrip` | stock_monitor.py:73 | `int()` of the decimal rendering of n is n |
| `Extract.CanonicalDigitsRoundTrip` | stock_monitor.py:73 | rendering `int()` of a digit string with no leading zero gives the string back |
| `Extract.FirstMatchFrom` | stock_monitor.py:70-71 | the first position at or after `from` where the pattern matches: it matches there and nowhere before; None only if it matches nowhere |
| `Extract.Search` | stock_monitor.py:70-71 | `re.search`: None iff the pattern matches at no position, otherwise the match at the leftmost matching position |
| `Extract.StockGroupAt` | stock_monitor.py:35 | a match of `库存\((\d+)\)` at a position is a real occurrence: `库存(` there, then the group (one or more digits), then `)` |
| `Extract.StockGroupAtIsOnlyMatch` | stock_monitor.py:35 | whatever digit count lets `库存\((\d+)\)` match at a position, the anchored match yields exactly those digits as its group |
| `Extract.ExtractStockDigits` | stock_monitor.py:70 | the stock group is None iff the stock pattern occurs nowhere, otherwise the group of the leftmost occurrence |
| `Extract.ExtractStock` | stock_monitor.py:70-73 | stock is None iff `库存(<digits>)` occurs nowhere, otherwise `int()` of the digits of the leftmost occurrence |
| `Extract.StockIntRaises` | stock_monitor.py:70-73 | `int()` of the stock group raises iff the leftmost stock match has more than 4300 digits; `FetchOutcome` and `OverlongStockRaises` turn this into a raised fetch |
| `Extract.StockDigitsRoundTrip` | stock_monitor.py:70 | a page with `库存(` + digits + `)` after text without `库` has those digits as its stock group, whatever follows |
| `Extract.StockRoundTrip` | stock_monitor.py:70-73 | a page with `库存(` + str(n) + `)` after text without `库` yields n, whatever follows |
| `Extract.NumberAt` | stock_monitor.py:36 | a match of `\d+\.\d+` at a position is digits, `.`, digits |
| `Extract.NumberAtIsText` | stock_monitor.py:36 | the number matched at a position is the text of the page there, and no digit follows it |
| `Extract.PriceLexemeAt` | stock_monitor.py:36 | a match of `¥\s*(\d+\.\d+)` at a position starts with `¥` there; its group is digits, `.`, digits; the group is the page's text right after the `¥` and the white space that follows it, and no digit follows the group |
| `Extract.PriceLexemeAtRuns` | stock_monitor.py:36 | `¥`, white space, digits, `.` and a maximal digit run match at the `¥`, and the group is the number's text |
| `Extract.ExtractPriceLexeme` | stock_monitor.py:71 | the price group is None iff the price pattern occurs nowhere, otherwise the group of the leftmost occurrence |
| `Extract.ExtractPrice` | stock_monitor.py:71-74 | the price is None iff the price pattern occurs nowhere, otherwise `float()` of the group of the leftmost occurrence |
| `Extract.PriceRoundTrip` | stock_monitor.py:71-74 | `¥` + white space + digits + `.` + digits after text without `¥`, not followed by a digit, yields exactly that number's text |
| `Monitor.FetchOutcome` | stock_monitor.py:62-84 | the unit raises iff the request raised something other than a request error, or a good page's stock group is longer than `int()` accepts; a request error or a 4xx/5xx status yields (None, None); otherwise a good page yields the two extractions |
| `Monitor.PageRoundTrip` | stock_monitor.py:66-81 | a good page showing `库存(n)` and later `¥whole.frac` yields stock n and price float(`whole.frac`), when n has at most 4300 digits |
| `Monitor.OverlongStockRaises` | stock_monitor.py:70-73 | a good page whose first `库存(<digits>)` has more than 4300 digits makes the unit raise `ValueError` out of `int()` |
| `Monitor.Process` | stock_monitor.py:115-133 | one target's step either leaves the store alone or records the fetched observation for its URL in both dictionaries, and sends at most one message |
| `Monitor.Cycle` | stock_monitor.py:109-138 | one pass over the target list sends at most one message per target |
| `Monitor.Run` | stock_monitor.py:145-148 | successive `check_stock_changes` calls never touch the entries of a URL outside the list; the lemmas below state what they send and store |
| `Monitor.SeedsSilently` | stock_monitor.py:115-121 | a missing or None stored stock or price: the observation is stored as it is, even with None in it, and nothing is sent |
| `Monitor.NotifiesOnceOnChange` | stock_monitor.py:123-133 | both values stored and one differs: exactly one message with name, old and new stock, old and new price, and URL; both values are overwritten |
| `Monitor.QuietWhenUnchanged` | stock_monitor.py:115-123 | both values stored and equal to the observation: nothing sent, store unchanged |
| `Monitor.ErrorIsScopedToTarget` | stock_monitor.py:135-138 | an exception for one target sends one error message naming it and writes no state |
| `Monitor.ProcessFrame` | stock_monitor.py:119-133 | one target's step changes only the entries keyed by its URL, and either writes nothing or writes the fetched observation to both dictionaries |
| `Monitor.ProcessReadsOwnEntry` | stock_monitor.py:115-116 | a step's messages and its new entry depend only on the stored entries for the target's URL |
| `Monitor.CycleFrame` | stock_monitor.py:109-133 | a cycle leaves the entries of all other URLs untouched and keeps both dictionaries on one key set |
| `Monitor.CycleIsPerTargetInListOrder` | stock_monitor.py:104-138 | with distinct URLs, the messages of a cycle are each target's diff against the starting state, in list order; each target ends where its own diff puts it, whatever the others did |
| `Monitor.RunProjectsOntoTarget` | stock_monitor.py:109-133 | with distinct URLs, after any number of cycles each target's entries are those a run of that target alone, on its own outcomes, leaves |
| `Monitor.DiffsAreOwnMessages` | stock_monitor.py:109-133 | with distinct URLs, each target's messages in a cycle are those it sends in the same round when monitored alone |
| `Monitor.RunSentIsPerTarget` | stock_monitor.py:109-138 | with distinct URLs, the messages of any number of cycles are, round after round and in list order, what each target sends when monitored alone |
| `Monitor.RepeatedObservationNotifiesAtMostOnce` | stock_monitor.py:118-133 | the same observation over N ≥ 1 cycles sends only what the first cycle sends (at most one message) and leaves it stored; stated for one target, and `RunProjectsOntoTarget`/`RunSentIsPerTarget` carry it to each target of a list |
| `Monitor.StockNeverFoundNeverNotifies` | stock_monitor.py:118-121 | a target whose stock is never found sends no message in any number of cycles, whatever its price does; stated for one target and carried to lists as above |
| `Monitor.FailedFetchIsReportedAsChange` | stock_monitor.py:118-133 | a failed fetch on a seeded target sends one "stock and price went to None" message and clears the state; the next read then seeds silently; stated for one target and carried to lists as above |
| `Monitor.FlappingReportsEveryFailure` | stock_monitor.py:118-133 | alternating a failed fetch and the same good read n times sends n failure-as-change messages; stated for one target and carried to lists as above |
| `Monitor.FiveCycleScenario` | stock_monitor.py:109-133 | seed, change, repeat, failure, then recovery with new values: two messages (5→3, then 3→None), and the recovery is never reported |
| `Monitor.StockMonitor.constructor` | stock_monitor.py:53-54 | the monitor starts with both dictionaries empty and nothing sent |
| `Monitor.StockMonitor.ProcessTarget` | stock_monitor.py:110-133 | one loop iteration updates the dictionaries and the outbox exactly as `Process` says, keeping the key sets equal |
| `Monitor.StockMonitor.CheckStockChanges` | stock_monitor.py:99-138 | the loop over the targets leaves the dictionaries and outbox exactly as `Cycle` says for the outcomes in list order |

## Left out

- Installing `requests` at start-up with pip (stock_monitor.py:5-15): packaging, process I/O.
- The HTTP session, its headers and the 10-second timeout (stock_monitor.py:55-60, 67): a fetch is the `Reply` it produced.
- Sending to the messaging service (stock_monitor.py:86-97): a send appends to `outbox`. Delivery failures are only logged there, so every attempted send is recorded. The bot token and chat id are not modelled.
- The thread pool and waiting on its futures (stock_monitor.py:103-107): the outcomes arrive as a sequence, one per target, in list order.
- The endless `monitor` loop, its sleep, its outer exception handler and `KeyboardInterrupt` (stock_monitor.py:140-168): `Run` covers any finite number of successive cycles.
- `float()` of the price lexeme (stock_monitor.py:74): it is the parameter `toFloat`, and the price is an abstract type with equality.
- Logging, `traceback` text and the exact text of messages (stock_monitor.py:40-47, 121, 124-128, 136-137): a message is a structured record.
- Python's `\d` also matches non-ASCII decimal digits, which `int()` also reads: the model uses the ASCII digits only. `\s` is modelled with Python's full white-space set.
- Monitor.FetchOutcome: the `int()` digit cap is CPython's default of 4300, present in 3.11 and later and in 3.7.14, 3.8.14, 3.9.14 and 3.10.7 onward. Changing it through `PYTHONINTMAXSTRDIGITS` or `sys.set_int_max_str_digits`, and earlier interpreters without a cap, are not modelled.
- Monitor.ErrorIsScopedToTarget: models only exceptions raised by the fetch unit (through `result()`), which occur before any write. An exception after a dictionary write in the same iteration is not modelled.
- The configuration constants (target list, check interval, worker count; stock_monitor.py:26-37) are not modelled beyond the two patterns.
