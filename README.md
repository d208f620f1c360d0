# Trade alert change detection, modelled in Dafny

Two small Python scripts watch public trade disclosures and mail an alert when new ones
appear:

- `quiver_congress_alerts.py` reads the congressional trades embedded in a QuiverQuant page.
- `openinsider_alerts.py` reads the rows of the OpenInsider screener table.

Both scripts run the same change-detection step:

1. **Fetch.** Each script turns its scraped records into trades.
   - The congressional script keeps only trades whose amount range starts at 50,000 or more.
   - The insider script keeps only purchase rows.
   - Each trade gets a string identity key made of fields joined by `|`.
2. **Filter by date.** Each script keeps the trades filed since a cutoff one week before now.
3. **Partition.** The recent trades are split into seen and unseen, against a persisted set of keys.
4. **Decide.** If anything is unseen, the script emails the whole recent list, then saves the seen set grown by the unseen keys. Otherwise it does nothing.

This project models that step, and proves what each stage promises.

The model is split into seven modules:

| module | file | what it holds |
|---|---|---|
| `Wrappers` | `wrappers.dfy` | `Option` and `Result` |
| `Seqs` | `seqs.dfy` | order-preserving filter and map, and the subsequence relation |
| `Text` | `text.dfy` | the Python string built-ins the scripts use, on `seq<char>` |
| `Dates` | `dates.dfy` | `strptime` for `%Y-%m-%d` and `%m/%d/%Y`, and naive `datetime` comparison |
| `Pipeline` | `pipeline.dfy` | the part both scripts share: fetch fold, recency filter, partition, decision, body, and the loops of `main` and `send_email` as methods |
| `CongressAlerts` | `congress_alerts.dfy` | the congressional script |
| `InsiderAlerts` | `insider_alerts.dfy` | the insider script |

The `Text` module models these built-ins:

- `str.strip()`, using Python's full `isspace` set;
- `str.replace(c, "")`;
- `str.split(sep)` and `sep.join(...)`, for a one-character separator;
- `str.lower()`, on ASCII;
- `int(str)`, with its optional sign, surrounding whitespace and single underscores between digits.

A run of either script is modelled twice:

- `RunSpec` is a function. It takes the loaded seen set, the scraped records, the cutoff instant, and whether `send_email` returned.
- `Run` is a method. It performs the loops and is proved equal to `RunSpec`.

A run produces a `Pipeline.Run` value with two parts:

- **effects:** the attempt to send the email and the seen set saved, in the order they happen. A `SendEmail` effect marks the call of `send_email`. When that call raises (at the login, say), no message may have left;
- **status:** the printed outcome (`NoNewTrades`, or `Notified` with both counts), or the exception that ended the run (`FetchFailed`, `SendFailed`).

Two behaviours are modelled as the code has them:

- **Recency at the boundary.** The cutoff `datetime.now() - timedelta(days=7)` carries a time of day, but a parsed filing date denotes midnight. So a trade filed on the cutoff's own calendar day passes `filed >= cutoff` only when the run happens exactly at midnight. The model follows the code: the cutoff is a `Dates.DateTime` with a time of day, and `Dates.RecencyBoundary` states the rule. In consequence, a trade filed seven calendar days before the run is dropped unless the run happens at exactly 00:00:00.000000.
- **Unescaped keys.** A `|` inside a field lets two different trades share one key. The model keeps this behaviour and exhibits it (`KeyCollision` in both script modules). Injectivity is proved only for fields free of `|`.

## Model

| member | source | states |
|---|---|---|
| Text.Strip | quiver_congress_alerts.py:90 | `strip()` returns a slice of the text with only whitespace before and after it, and neither end of the slice is whitespace |
| Text.Remove | quiver_congress_alerts.py:90 | `replace(c, "")` leaves no `c` and keeps every other character present |
| Text.ParseDigitRun | quiver_congress_alerts.py:90 | `int()` of a run of ASCII digits (single underscores allowed between them) is the number they spell, without the interpreter's digit limit (see Left out) |
| Text.DecimalRoundTrip | openinsider_alerts.py:36 | `int(str(n)) == n` for every natural `n` (without the interpreter's digit limit, see Left out), so a count written into a subject reads back as itself |
| Text.SplitJoin | openinsider_alerts.py:72 | splitting a join at its separator returns the joined pieces when none holds the separator |
| Text.JoinSplit | openinsider_alerts.py:72 | joining the pieces of a split with the separator rebuilds the string |
| Text.JoinInjective | openinsider_alerts.py:72 | joins of separator-free pieces are equal only when the pieces are |
| Text.JoinSeparatorCount | quiver_congress_alerts.py:44-50 | a join of separator-free pieces holds one separator fewer than it has pieces |
| Text.Lower | openinsider_alerts.py:69 | `lower()` keeps the length and lower-cases each ASCII letter, position by position |
| Seqs.FilterMembers | quiver_congress_alerts.py:128 | the comprehension keeps exactly the elements satisfying the test |
| Seqs.FilterIsSubsequence | quiver_congress_alerts.py:128 | a filtered list is a subsequence of its input, order kept |
| Seqs.FilterAppend | quiver_congress_alerts.py:119-126 | filtering a concatenation filters each part independently |
| Dates.ParseIsoDate | quiver_congress_alerts.py:122 | a `%Y-%m-%d` parse that succeeds yields a date `datetime` can represent (year 1-9999, a day that exists in its month) |
| Dates.ParseUsDate | openinsider_alerts.py:96 | the same for `%m/%d/%Y` |
| Dates.IsoRoundTrip | quiver_congress_alerts.py:122 | parsing the zero-padded `YYYY-MM-DD` rendering of any valid date gives that date back |
| Dates.UsRoundTrip | openinsider_alerts.py:96 | parsing the zero-padded `MM/DD/YYYY` rendering of any valid date gives that date back |
| Dates.RecencyBoundary | quiver_congress_alerts.py:116-123 | a filed date passes `>= now - 7 days` exactly when it is after the cutoff's day, or is that day and the cutoff is midnight |
| Pipeline.CollectError | openinsider_alerts.py:64-83 | once a record raises, later records change nothing: the fetch fails with that record's error |
| Pipeline.CollectContents | quiver_congress_alerts.py:81-109 | the fetch loop raises exactly when a record it does not skip raises, with that record's error; otherwise it returns, in input order, the trades of the records it does not skip |
| Pipeline.Recent | quiver_congress_alerts.py:118-126 | a trade is recent exactly when its filing date parses and is not before the cutoff |
| Pipeline.FilterRecent | quiver_congress_alerts.py:119-126 | the loop building `recent` returns `Recent` of the trades |
| Pipeline.UndatedIsDropped | quiver_congress_alerts.py:121-126 | a trade whose date does not parse is dropped and leaves the recent list of the other trades unchanged |
| Pipeline.Unseen | openinsider_alerts.py:103 | `new_trades` holds exactly the recent trades whose key is not in `seen`, and is no longer than the recent list |
| Pipeline.PartitionKeepsOrder | quiver_congress_alerts.py:119-128 | `recent` is a subsequence of the fetched trades and `new_trades` a subsequence of `recent` |
| Pipeline.QuietExactlyWhenAllSeen | quiver_congress_alerts.py:130-143 | a run sends and saves nothing exactly when every recent key is already seen, and then reports no new trades |
| Pipeline.SaveOnlyAfterSend | quiver_congress_alerts.py:130-141 | the only effect sequences are none, the email alone (when sending raises), or the email followed by saving `seen ∪ keys(new_trades)`; the counts reported are `len(recent)` and a positive `len(new_trades)` no larger |
| Pipeline.SeenGrowsToCoverRecent | openinsider_alerts.py:105-112 | the stored seen set only grows; after a run that did not fail to send, it holds every recent key; after a failed send it is unchanged |
| Pipeline.Idempotent | openinsider_alerts.py:103-112 | rerunning on the same recent trades with the stored seen set sends nothing and saves nothing |
| Pipeline.MarkSeen | quiver_congress_alerts.py:134-135 | the `seen.add` loop yields `seen ∪ keys(new_trades)` |
| Pipeline.BodyAppend | quiver_congress_alerts.py:42-50 | the body of a concatenation of trade lists is the concatenation of their bodies |
| Pipeline.BodyLineBreaks | openinsider_alerts.py:40-47 | when every block holds `n` line breaks the body holds `n` per trade |
| Pipeline.ComposeBody | quiver_congress_alerts.py:42-50 | the `body +=` loop yields the blocks of all trades, concatenated in order |
| CongressAlerts.LowerBoundOfRange | quiver_congress_alerts.py:88-90 | for an amount `$<a>,<b> - <anything>` with digits `a`, `b`, the parsed lower bound is the number the digits of `a` and `b` spell |
| CongressAlerts.LowerBoundExample | quiver_congress_alerts.py:83-90 | the amount `$50,001 - $100,000` has lower bound 50001 |
| CongressAlerts.ExtractCases | quiver_congress_alerts.py:84-107 | a record with no amount, an amount `int()` rejects, or a lower bound under 50000 is skipped; otherwise a missing `name`, `ticker`, `filed` or `transaction` raises a `KeyError` naming the first one missing; otherwise the record yields its trade |
| CongressAlerts.FetchTrades | quiver_congress_alerts.py:81-109 | the record loop returns what `Fetch` specifies |
| CongressAlerts.FetchContents | quiver_congress_alerts.py:81-109 | `fetch_trades` raises exactly when a record meeting the threshold lacks a key field, naming it; otherwise it returns, in input order, the trade of every record meeting the threshold |
| CongressAlerts.FetchedTradesQualify | quiver_congress_alerts.py:94-107 | every fetched trade's amount has a lower bound of at least 50000, and its id is its own name, ticker, filed and transaction joined by bars |
| CongressAlerts.KeyInjective | quiver_congress_alerts.py:97 | for bar-free fields, equal keys mean equal name, ticker, filed and transaction |
| CongressAlerts.KeyCollision | quiver_congress_alerts.py:97 | for any texts `x`, `y`, `z` and any `filed` and `transaction`, the names `x` bar `y` and `x` differ, yet the name and ticker pairs (`x` bar `y`, `z`) and (`x`, `y` bar `z`) give the same key |
| Pipeline.ComposeEmail | quiver_congress_alerts.py:36-52 | the message `send_email` builds, in both scripts, is the subject with the trade count and the body made of each trade's block in order |
| Pipeline.SubjectCount | quiver_congress_alerts.py:38 | the subject starts with its fixed text and ends with `)`, and the number between the parentheses reads back as the number of trades emailed, in both scripts |
| CongressAlerts.BlockLayout | quiver_congress_alerts.py:44-50 | for fields without line breaks, a trade's block splits at line breaks into its five lines followed by a blank line, and holds six line breaks |
| CongressAlerts.BodyLineBreaks | quiver_congress_alerts.py:42-50 | for fields without line breaks, the body holds six line breaks per trade |
| CongressAlerts.Run | quiver_congress_alerts.py:112-143 | the method performing `main` produces exactly the effects and status `RunSpec` specifies |
| CongressAlerts.RunEmailsAllRecent | quiver_congress_alerts.py:128-136 | when some recent trade is unseen, the run emails every recent trade and then saves `seen ∪ keys(new_trades)`; it sends and saves nothing exactly when nothing recent is unseen |
| CongressAlerts.RunIdempotent | quiver_congress_alerts.py:112-136 | a second run on the same records and cutoff with the stored seen set sends and saves nothing, unless the first run failed to send |
| InsiderAlerts.DataRows | openinsider_alerts.py:62 | the loop visits every row after the first |
| InsiderAlerts.Cells | openinsider_alerts.py:66 | `cols` has one stripped text per cell of the row |
| InsiderAlerts.FirstSix | openinsider_alerts.py:72 | `cols[:6]` is the first six cells, or all of them when there are fewer |
| InsiderAlerts.ReadRow | openinsider_alerts.py:66-81 | one pass of the row loop raises `IndexError` for cell 6 on a row of at most six cells, skips a row whose cell 6 is not a purchase, raises `IndexError` for cell 11 on a shorter purchase row, and otherwise yields the trade projected from the stripped cells |
| InsiderAlerts.FetchTrades | openinsider_alerts.py:57-83 | the row loop returns what `Fetch` specifies |
| InsiderAlerts.ExtractRowExtracts | openinsider_alerts.py:65-81 | a row with no seventh cell raises an `IndexError`; one whose cell 6 is not `purchase` once lower-cased is skipped; a purchase row with no twelfth cell raises; any other row yields its trade |
| InsiderAlerts.FetchContents | openinsider_alerts.py:62-83 | `fetch_trades` raises exactly when a data row has no seventh cell or a purchase row has no twelfth, with that `IndexError`; otherwise it returns, in order, the trade of every purchase row |
| InsiderAlerts.FetchedTradesProject | openinsider_alerts.py:72-81 | every fetched trade comes from a purchase row of at least twelve cells; its id is the first six stripped cells joined by bars, and its fields are cells 1, 3, 4, 5 and 11 |
| InsiderAlerts.HeaderIgnored | openinsider_alerts.py:62 | the first table row never influences the result |
| InsiderAlerts.PurchaseAnyCase | openinsider_alerts.py:68-69 | the purchase test holds exactly for the eight letters of `purchase` in any mix of cases, so `P - Purchase` fails it |
| InsiderAlerts.KeyIgnoresLaterCells | openinsider_alerts.py:72 | rows equal in cells 0-5 get equal keys, whatever their type, value or later cells |
| InsiderAlerts.KeyInjective | openinsider_alerts.py:72 | for bar-free cells, equal keys mean equal first six cells |
| InsiderAlerts.KeyCollision | openinsider_alerts.py:72 | for any texts `x`, `y`, `z` and any four further cells, the six-cell rows that begin (`x` bar `y`, `z`) and (`x`, `y` bar `z`) are different but get the same key |
| InsiderAlerts.BlockLayout | openinsider_alerts.py:42-47 | for fields without line breaks, a trade's block splits at line breaks into its four lines followed by a blank line, and holds five line breaks |
| InsiderAlerts.BodyLineBreaks | openinsider_alerts.py:40-47 | for fields without line breaks, the body holds five line breaks per trade |
| InsiderAlerts.Run | openinsider_alerts.py:86-119 | the method performing `main` produces exactly the effects and status `RunSpec` specifies |
| InsiderAlerts.RunEmailsAllRecent | openinsider_alerts.py:103-112 | when some last-week trade is unseen, the run emails every last-week trade and then saves `seen ∪ keys(new_trades)`; it sends and saves nothing exactly when nothing is unseen |
| InsiderAlerts.RunIdempotent | openinsider_alerts.py:86-112 | a second run on the same table and cutoff with the stored seen set sends and saves nothing, unless the first run failed to send |

## Left out

- **Fetching.** The HTTP requests, `raise_for_status`, the `window.__NUXT__` regular expression, `json.loads`, the search of the state tree for `trades`, and the BeautifulSoup lookup of the table are network and parsing I/O. The model starts from the list of records (field maps with string values) or the list of rows (cell texts). A missing page, table or trade list is not modelled.
- **Non-string JSON values.** A congressional record's values are taken to be strings, so the following behaviour for a JSON number or `null` is not modelled:
  - A `null` or zero `amount` is falsy and the record is skipped (quiver_congress_alerts.py:85-86).
  - Any other numeric `amount` makes `.replace` raise `AttributeError` inside the `try`. The `except Exception` skips the record, so a numeric amount of 75000 is never reported (quiver_congress_alerts.py:89-92).
  - A number or `null` in `name`, `ticker`, `transaction`, `party` or `state` raises nothing. The key and the email render it as its digits or as `None` (quiver_congress_alerts.py:97, 45-49).
  - A non-string `filed` on a record that passes the amount test makes `datetime.strptime` raise `TypeError`. The `except ValueError` does not catch it, so the run ends before any email is sent (quiver_congress_alerts.py:122-126).
- **Sending and storage.**
  - SMTP, the `From` and `To` headers and credentials from the environment are foreign I/O. Sending is the `delivered` parameter: it says whether `send_email` returns or raises.
  - `load_seen` and `save_seen` are file I/O. The seen set is an in-memory `set<string>`, and saving is an effect. A missing file reads as the empty set. A corrupt file, JSON encoding and the lack of an atomic write are not modelled. Nor is a `save_seen` that raises after the email went out (quiver_congress_alerts.py:136, openinsider_alerts.py:112). Its `open(..., "w")` has already truncated the file, so the next run would load an empty or partial seen set.
- **Clock.** `datetime.now() - timedelta(days=7)` is not modelled. The cutoff is a parameter, and date arithmetic is left out.
- **Printed lines.** `print` is modelled only through the counts in `Notified`.
- **Unicode.** `int()` and the `\d` of `strptime` also accept non-ASCII digits, and `str.lower()` also lower-cases non-ASCII letters. The model accepts ASCII digits and lower-cases ASCII letters only.
- **Thousands separators.** The subject's `≥ $50,000` is a literal rendering of `MIN_VALUE` with its thousands separator. The formatting itself is not modelled.
- Dates.IsoRoundTrip: round trips are proved for the zero-padded forms only. The other forms `strptime` accepts (`5`, ` 5`) are parsed by the model but not rendered.
- CongressAlerts.LowerBoundOfRange: stated for amounts of the form `$<digits>,<digits> - …`. Other accepted shapes (no comma, a sign, underscores) are covered by `LowerBound` itself, but no lemma is stated for them.
- CongressAlerts.LowerBoundExample: the amount is given as the concatenation `"$" + "50" + "," + "001" + " - " + "$100,000"`, not as one literal. This keeps the verifier from evaluating the string functions on an eighteen-character literal.
- InsiderAlerts.ToTrade: it is total, reading a missing cell as `""`. It is only ever applied to rows with at least twelve cells, where it is the projection of the source.
- Text.ParseInt: does not model the interpreter's limit on the number of digits `int()` converts from a decimal string. CPython 3.11 and later, and the security releases 3.7.14, 3.8.14, 3.9.14 and 3.10.7, raise `ValueError` above 4300 digits by default, and the limit can be changed at run time with `sys.set_int_max_str_digits`. With that limit, an amount such as `$` followed by 4301 digits makes `int()` raise, and `fetch_trades` skips the record. The model reads the number and keeps the record when it meets the threshold. `LowerBound`, `ExtractTrade`, `Fetch` and the lemmas about them inherit this.
- Text.DecimalRoundTrip: for the same reason `str(n)` raises for a number of more than 4300 digits. The round trip is stated for every natural; the count of trades it is used for is never near that size.
