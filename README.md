# SyncIBKR — a verified model of the IBKR-to-ledger synchroniser

`SyncIBKR.py` runs a one-way import from an Interactive Brokers flex report into a
portfolio ledger. It works through these steps:

- It resolves the ledger's accounts named "IBKR" into an id-to-currency dictionary.
- It pushes each account's ending cash as a full-replace balance update.
- It turns every trade of the first flex statement into an activity dictionary:
  - trades that are skipped produce nothing;
  - the account is looked up by the trade's currency;
  - the symbol is remapped and its spaces become hyphens;
  - BUY/SELL, |quantity|, a fee of 0, the price, and the date at midnight in ISO form.
- For every account it compares the activities of that account's currency with what the
  ledger already lists for the account, and imports what the comparison lets through, in
  chunks of ten, each chunk sorted by date. As written, this comparison lets everything
  through (see "## Findings").

A second entry point deletes every listed activity of the IBKR accounts.

The Dafny project models this core:

| module | file | what it holds |
|---|---|---|
| `Types` | `types.dfy` | `Option` and the `Reply` of one HTTP request (a status code, or a transport exception) |
| `Records` | `records.dfy` | trades, cash entries, the report, account records, activities, listed records, balance updates |
| `Strings` | `strings.dfy` | Python's substring test, `str.replace`, and lexicographic string order |
| `Dates` | `dates.dfy` | the ISO midnight rendering of a trade date, and its order |
| `Symbols` | `symbols.dfy` | the first-match-wins remap table and the space-to-hyphen rule |
| `Accounts` | `accounts.dfy` | the dict comprehension over "IBKR" accounts, the resolver's decision, and the lookup by currency |
| `Cash` | `cash.dfy` | the bucket sum of ending cash, the zero guard and the update body |
| `Transformer` | `transformer.dfy` | the per-trade transformation and the trade loop |
| `DiffEngine` | `diff.dfy` | `get_diff`, the per-account and per-currency filters, a failed listing, the comparison as written, and the field comparison evidently intended |
| `Importer` | `importer.dfy` | chunking, the stable sort by date, and the import loop with its ghost log of payloads |
| `Deletion` | `deletion.dfy` | the listing of the accounts' activities and the delete loop |
| `Sync` | `sync.dfy` | a whole run as written, the per-account loop, and the idempotence property of the intended comparison |

The network calls are oracles, each a function from an index to a `Reply` or a
`ListReply`:
- the cash oracle of `Sync.PushCash` takes the account's position in the dictionary,
  and an account with zero cash sends no request, so its answer is never read;
- a listing oracle takes the account's position in the dictionary;
- an import oracle takes the chunk's position (`post(j)` answers the imports of the
  j-th account);
- the deletion oracle of `Deletion.DeleteActs` takes the record's position. The account list and the parsed report are
plain inputs.

The step-by-step loops of the source are `method`s with loop invariants, each proved
against a specification function:

- `CollectActivities`, the trade loop;
- `RemapSymbol`, the remap loop with its `break`;
- `GetCashAmount`, the `cash +=` loop;
- `ImportAct`, the chunk loop with `continue` and an early `return False`;
- `DeleteActs`, the accumulator `complete = complete and act_complete`;
- `PushCash`, the cash loop over the dictionary;
- `SyncAccounts`, the per-account loop;
- `ListActs`, the `extend` loop of the deletion.

`SyncAccount`, `SyncIbkr` and `DeleteAllActs` are methods without loops of their own,
which call these in the source's order. The comprehensions and searches are functions
with lemmas.

The run follows the code as written. In particular, its per-account filter is
`DiffEngine.DiffAsWritten` over the account's whole listed records, so every account's
diff is its whole currency bucket (`Sync.SyncAccount`). The comparison of activity
fields that the code evidently intends is `DiffEngine.AccountDiff`. Its properties,
including idempotence (`Sync.SecondRunImportsNothing`), are proved separately and are
not claimed of the run.

Places where the model follows the code rather than what the code evidently intends:

- *The indicator test does not test for CLOSE.* Line 54 reads the member `CLOSE` off the
  indicator value, and that is always truthy. So every trade with an indicator passes,
  including opening trades (`Transformer.OpeningTradeEmitted`).
- *The lookup precedes the currency check.* The account lookup at line 59 runs before the
  empty-currency check at line 65. A trade without a currency is therefore skipped for
  want of an account in dictionary mode (`Transformer.LookupBeforeCurrencyCheck`).
- *A single IBKR account never resolves.* The resolver returns the dictionary only for
  more than one distinct id. Otherwise it calls account creation, which reads the
  attribute `IBKRCATEGORY` (line 277). The constructor sets only `ibkr_category`
  (line 15), so that read raises before any request is sent. A run therefore either has
  a dictionary or ends with an exception (`Accounts.Resolve`, `Sync.SyncIbkr`,
  `Deletion.DeleteAllActs`). The `Single` variant is still modelled where the functions
  handle it: the lookup, the cash of one account, and the deletion listing.
- *Single-account cash is labelled "USD".* Line 46 omits the currency argument, so the
  default of line 193 applies (`Cash.SingleCashIsUsd`).
- *A transport error does not abort the import.* The chunk is skipped (line 255). Only a
  status other than 201 ends the loop and returns False (lines 262-263).
- *A failed listing reads as an empty ledger* (line 367). The whole currency bucket is
  then offered again (`DiffEngine.FailedListingDiffsEverything`).
- *Two accounts in one currency.* The currency's activities carry the first account's id
  (lines 147-149). Even with the field comparison, a later account of that currency is
  offered them on every run (`Sync.SharedCurrencyReimports`). The idempotence property
  `Sync.SecondRunImportsNothing` requires distinct currencies for this reason.

## Model

| member | source | states |
|---|---|---|
| Strings.Contains | SyncIBKR.py:83 | Python's `key in symbol`: the key starts at some position of the symbol; `Strings.ContainsChars` and `Strings.LongKeyAbsent` state its consequences |
| Strings.ContainsChars | SyncIBKR.py:83 | every character of a contained key occurs in the string |
| Strings.LongKeyAbsent | SyncIBKR.py:83 | a key longer than the string is not contained in it |
| Strings.ReplaceAll | SyncIBKR.py:84 | `str.replace` with an absent key leaves the string unchanged |
| Strings.RemoveShortens | SyncIBKR.py:84 | removing a key never makes the symbol longer |
| Strings.RemoveDoesNotRescan | SyncIBKR.py:84 | removal scans once, left to right: "EENGINGI" without "ENGI" is "ENGI", as Python's `str.replace` gives |
| Strings.ReplaceCharAt | SyncIBKR.py:106 | replacing one character by another keeps the length and changes exactly the positions that held it |
| Strings.Less | SyncIBKR.py:244 | Python's `<` on strings, code point by code point with a proper prefix first; the lemmas below state it is a strict total order |
| Strings.LessIrreflexive | SyncIBKR.py:244 | Python string order, the sort key's order, is irreflexive |
| Strings.LessTransitive | SyncIBKR.py:244 | Python string order is transitive |
| Strings.LessTotal | SyncIBKR.py:244 | any two strings are equal or ordered one way |
| Strings.LessAsymmetric | SyncIBKR.py:244 | Python string order is asymmetric |
| Strings.LessConcat | SyncIBKR.py:244 | strings with equal-length prefixes compare on the prefixes first, then on the rests |
| Dates.Pad | SyncIBKR.py:55-56 | a zero-padded field has exactly the requested width and holds only digits |
| Dates.IsoMidnight | SyncIBKR.py:55-56 | the activity's date is the 10-character "YYYY-MM-DD" followed by "T00:00:00" |
| Dates.PadOrder | SyncIBKR.py:55-56 | zero-padded numbers of one width compare and are equal as strings exactly as the numbers do |
| Dates.IsoMidnightOrder | SyncIBKR.py:55-56 | ISO midnight timestamps sort as strings in chronological order and are equal exactly when the dates are, so the date sort of an import chunk is a chronological sort |
| Dates.IsoMidnightExample | SyncIBKR.py:55-56 | 2024-01-15 becomes "2024-01-15T00:00:00" |
| Symbols.FirstMatchFrom | SyncIBKR.py:82-83 | finds the least table index at or after the start whose key occurs in the symbol, or reports that none does |
| Symbols.Remapped | SyncIBKR.py:74-85 | the first key in table order that occurs in the symbol wins, and every occurrence of it is removed before its value is appended; a symbol containing no key is unchanged |
| Symbols.RemapSymbol | SyncIBKR.py:82-85 | the loop with `break` computes exactly the remapped symbol |
| Symbols.Hyphenated | SyncIBKR.py:106 | keeps the length, turns each space into a hyphen, leaves every other character, and leaves no space |
| Symbols.HyphenatedWithoutSpace | SyncIBKR.py:106 | a symbol without spaces is unchanged |
| Symbols.FinalSymbol | SyncIBKR.py:84-106 | an emitted symbol never contains a space |
| Symbols.RemapArrdd | SyncIBKR.py:74-85 | "ARRDd" becomes "MT.AS" |
| Symbols.RemapAkza | SyncIBKR.py:74-85 | "AKZA" becomes "AKZA.AS" |
| Symbols.RemapEngi | SyncIBKR.py:74-85 | "ENGI" becomes "ENGI.PA" |
| Symbols.RemapEngiTwice | SyncIBKR.py:84 | "ENGIxENGI" becomes "x" + "ENGI.PA": every occurrence of the key is removed, not only the first |
| Symbols.RemapAlfen | SyncIBKR.py:74-85 | "ALFEN" becomes "ALFEN.AS", since none of the earlier keys occurs in it |
| Symbols.RemapVuaa | SyncIBKR.py:76 | "VUAA" becomes the bare ".L" |
| Symbols.RemapUnlisted | SyncIBKR.py:74-85 | a symbol holding no key, "AAPL", passes unchanged |
| Accounts.Upsert | SyncIBKR.py:318 | dict assignment keeps keys distinct: an existing key keeps its place and takes the new value, a new key is appended, and other entries are kept |
| Accounts.IbkrAccounts | SyncIBKR.py:318 | the dictionary has distinct ids; each entry is an "IBKR" account's id with the currency of the last "IBKR" account of that id; every "IBKR" id has an entry |
| Accounts.IbkrAccountsInOrder | SyncIBKR.py:318 | with distinct ids the dictionary is the "IBKR" accounts' pairs in listing order |
| Accounts.Resolve | SyncIBKR.py:315-325 | resolves to the dictionary exactly when two "IBKR" accounts with different ids exist; otherwise it goes to account creation |
| Accounts.SingleAccountNeedsCreate | SyncIBKR.py:319-323 | an existing single "IBKR" account still goes to account creation |
| Accounts.CurrencyIndex | SyncIBKR.py:147-149 | finds the first dictionary entry with the currency, or reports that none has it |
| Accounts.AccountIdForCurrency | SyncIBKR.py:146-152 | a single id is returned whatever the currency; for a dictionary, the id of the first entry with the trade's currency, or None when there is none |
| Cash.CashAmount | SyncIBKR.py:167-176 | the bucket sum of `get_cash_amount_from_flex`; `Cash.GetCashAmount`, `Cash.CashAmountOfBucket`, `Cash.NoEntriesNoCash` and `Cash.CashAmountAppend` state its properties |
| Cash.Bucket | SyncIBKR.py:169-171 | the bucket holds exactly the entries whose currency field is present and equal to the target |
| Cash.CashAmountOfBucket | SyncIBKR.py:169-172 | the cash amount depends on the bucket's entries alone |
| Cash.BucketOnly | SyncIBKR.py:169-172 | two reports with the same bucket give the same cash amount |
| Cash.NoEntriesNoCash | SyncIBKR.py:167-176 | no matching entry gives 0 |
| Cash.CashAmountAppend | SyncIBKR.py:169-172 | the amount of two concatenated reports is the sum of their amounts |
| Cash.CashExample | SyncIBKR.py:167-176 | EUR 100 + USD 50 + EUR 25 + an entry without currency gives 125 for EUR and 0 for GBP |
| Cash.GetCashAmount | SyncIBKR.py:167-176 | the `cash +=` loop computes the bucket sum |
| Cash.UpdateBody | SyncIBKR.py:194-206 | the zero guard and full-replace body of a balance update; `Cash.SetCashToAccount` states it |
| Cash.SetCashToAccount | SyncIBKR.py:193-224 | zero cash sends nothing and returns False; otherwise the full-replace body holds the cash, id, currency, not excluded, "IBKR" and the platform id, and the result is True exactly when the reply is status 200 |
| Cash.CashUpdates | SyncIBKR.py:37-46 | the update requests of one run: per dictionary account, or for the single account labelled "USD"; `Cash.MultiCashUpdatesSound` and `Cash.SingleCashIsUsd` state them |
| Cash.MultiCashUpdates | SyncIBKR.py:37-40 | the dictionary's update requests, in dictionary order; `Cash.MultiCashUpdatesSound` states them and `Sync.PushCash` computes them |
| Cash.MultiCashUpdatesSound | SyncIBKR.py:37-40 | every pushed balance is the non-zero bucket sum of a dictionary account in that account's currency; every account with a non-zero bucket gets its update |
| Cash.MultiCashUpdatesAppend | SyncIBKR.py:37-40 | the updates follow dictionary order: those of joined account lists are each list's updates, joined |
| Cash.SingleCashIsUsd | SyncIBKR.py:42-46 | one account gets exactly one update when the configured currency's bucket is non-zero and none otherwise, with that cash, labelled "USD" |
| Transformer.Transform | SyncIBKR.py:51-111 | the body of the trade loop for one trade: a skip with its reason, or the activity; `Transformer.TransformSkips`, `Transformer.EmittedFields`, `Transformer.LookupBeforeCurrencyCheck` and `Transformer.OpeningTradeEmitted` state it |
| Transformer.TransformSkips | SyncIBKR.py:51-93 | a trade yields nothing exactly when it has no indicator, is a cash record, finds no account, has no currency, or is neither buy nor sell |
| Transformer.EmittedFields | SyncIBKR.py:55-108 | an emitted activity has the trade's currency; a quantity of ± the trade's, non-negative; fee 0; the trade price; BUY/SELL matching the side; the date at midnight; the remapped and hyphenated symbol; the looked-up non-empty account; "YAHOO"; no comment |
| Transformer.LookupBeforeCurrencyCheck | SyncIBKR.py:59-67 | a trade without a currency is skipped for its currency in single-account mode and for its account in dictionary mode |
| Transformer.OpeningTradeEmitted | SyncIBKR.py:52-54 | an opening trade passes the indicator test like a closing one |
| Transformer.Emitted | SyncIBKR.py:32-111 | the `activities` list the trade loop builds; `Transformer.EmittedExactly`, `Transformer.EmittedAppend` and `Transformer.EmittedSingle` state its members, order and multiplicity |
| Transformer.EmittedExactly | SyncIBKR.py:51-111 | the collected activities are exactly the transformations of trades that are emitted, and there are no more activities than trades |
| Transformer.CollectAppend | SyncIBKR.py:51-111 | the trade loop over joined trade lists yields the two lists' activities, joined |
| Transformer.EmittedAppend | SyncIBKR.py:51-111 | the activities of joined trade lists are each list's activities in trade order, so order and multiplicity follow the trades |
| Transformer.EmittedSingle | SyncIBKR.py:51-111 | one trade contributes exactly one activity when it transforms and none when it is skipped |
| Transformer.EmittedAccount | SyncIBKR.py:59 | in dictionary mode an activity carries the id of the first account of its currency |
| Transformer.CollectActivities | SyncIBKR.py:51-111 | the trade loop, with its `continue`s, collects the emitted activities in trade order |
| Transformer.EngiExample | SyncIBKR.py:51-109 | a closing EUR buy of −10 ENGI at 50 on 2024-01-15 becomes a buy of 10 ENGI.PA at 50, fee 0, for the EUR account |
| DiffEngine.Diff | SyncIBKR.py:191 | the diff holds exactly the new activities not in the old ones, and is no longer than the new ones |
| DiffEngine.DiffEmptyIff | SyncIBKR.py:191 | the diff is empty exactly when every new activity is already present |
| DiffEngine.DiffOfSelf | SyncIBKR.py:191 | diff(X, X) is empty |
| DiffEngine.DiffDisjoint | SyncIBKR.py:191 | new activities absent from the old ones all pass, in order |
| DiffEngine.DiffFromNothing | SyncIBKR.py:191 | diff([], new) is new |
| DiffEngine.DiffAppend | SyncIBKR.py:191 | the diff distributes over concatenation of the new activities |
| DiffEngine.DiffIdempotent | SyncIBKR.py:191 | diff(old, diff(old, new)) is diff(old, new) |
| DiffEngine.DiffAfterImport | SyncIBKR.py:191 | once the ledger keeps what it had and gains what the diff offered, the same new activities give an empty diff |
| DiffEngine.ActsForAccount | SyncIBKR.py:351-353 | the records kept are exactly the listed records of the account |
| DiffEngine.ActsForAccountAppend | SyncIBKR.py:351-353 | the per-account filter keeps the listing's order and multiplicity: filtering joined listings joins the filtered parts |
| DiffEngine.Bodies | SyncIBKR.py:191 | the activity fields of listed records, in order |
| DiffEngine.CurrencyActs | SyncIBKR.py:116 | the bucket holds exactly the new activities of that currency |
| DiffEngine.CurrencyActsAppend | SyncIBKR.py:116 | the currency bucket keeps the activities' order and multiplicity: the bucket of joined lists joins the buckets |
| DiffEngine.AllActs | SyncIBKR.py:355-367 | the listed activities on status 200; otherwise, including a transport error, none |
| DiffEngine.AccountDiff | SyncIBKR.py:114-122 | the per-account diff with the comparison evidently intended: activity fields of the account's listed records against its currency's new activities; not what the run computes (see "## Findings"); `DiffEngine.AccountDiffMembers` states it |
| DiffEngine.AccountDiffMembers | SyncIBKR.py:114-122 | with the intended field comparison, an account's diff holds exactly the new activities of its currency that no listed record of that same account holds |
| DiffEngine.FailedListingDiffsEverything | SyncIBKR.py:361-367 | with the intended field comparison too, a failed listing makes the whole currency bucket the diff |
| DiffEngine.AccountDiffIgnoresOtherAccounts | SyncIBKR.py:119-122 | with the intended field comparison, listed records of other accounts never change an account's diff |
| DiffEngine.DictEqual | SyncIBKR.py:122 | Python's dict `==` behind `not in`: equal key sets and equal values; `DiffEngine.RecordNeverEqualsActivity` states that it never holds for a listed record, which carries "id" |
| DiffEngine.RecordNeverEqualsActivity | SyncIBKR.py:122 | a listed record never equals a new activity's dictionary |
| DiffEngine.DiffAsWritten | SyncIBKR.py:119-122 | the filter as the code applies it, comparing whole listed records with activity dictionaries |
| DiffEngine.DiffAsWrittenKeepsAll | SyncIBKR.py:119-122 | as written, the filter lets every new activity through whatever the ledger holds |
| DiffEngine.ReimportAsWritten | SyncIBKR.py:119-122 | an activity the ledger already holds is offered again as written, but not by the comparison of activity fields |
| Importer.Chunks | SyncIBKR.py:266-268 | `generate_chunks`: consecutive slices of n; `Importer.ChunksPartition`, `Importer.ChunkAt` and `Importer.ChunkCount` state them |
| Importer.ChunksPartition | SyncIBKR.py:266-268 | the chunks concatenate back to the list; each holds 1 to n activities; all but the last hold exactly n |
| Importer.ChunkAt | SyncIBKR.py:266-268 | chunk i is the slice from 10·i to 10·i + 10, cut at the end of the list |
| Importer.ChunkCount | SyncIBKR.py:266-268 | there are ⌈len/10⌉ chunks |
| Importer.TwentyThreeActivities | SyncIBKR.py:266-268 | 23 activities give chunks of 10, 10 and 3 |
| Importer.Insert | SyncIBKR.py:244 | insertion into a date-sorted list keeps it sorted |
| Importer.InsertPermutes | SyncIBKR.py:244 | insertion adds exactly the inserted activity |
| Importer.SortByDate | SyncIBKR.py:244 | the payload is sorted by its date string |
| Importer.SortByDatePermutes | SyncIBKR.py:244 | the payload is a permutation of the chunk |
| Importer.OfDate | SyncIBKR.py:244 | the activities of one date, in order, the measure of the sort's stability |
| Importer.InsertOfDate | SyncIBKR.py:244 | insertion puts an activity before every activity of its own date already in the list, so the equal-date activities taken first end up first |
| Importer.SortByDateStable | SyncIBKR.py:244 | the sort is stable: for every date, the activities of that date keep their input order, as Python's `sorted` does |
| Importer.Rejected | SyncIBKR.py:262-263 | the test that ends the import: a status other than 201, and not a transport error; `Importer.ImportLogFromShape` and `Importer.ImportAct` state its effect |
| Importer.ImportLogFrom | SyncIBKR.py:242-263 | the payloads posted for the remaining chunks, up to and including the first rejected one; `Importer.ImportLogFromShape` states it |
| Importer.ImportLog | SyncIBKR.py:240-264 | the payloads one import posts; `Importer.ImportLogShape` states it and `Importer.ImportAct` computes it |
| Importer.ImportLogFromShape | SyncIBKR.py:242-263 | payloads go out in chunk order, each the sorted chunk; sending stops right after the first rejected chunk; all chunks go out when none is rejected |
| Importer.ImportLogShape | SyncIBKR.py:240-264 | the same for a whole bulk import from its first chunk |
| Importer.ImportAct | SyncIBKR.py:240-264 | returns True exactly when no chunk is answered by a status other than 201 (transport errors skip), and the payloads sent are the import log |
| Importer.PayloadsArePermutationsOfChunks | SyncIBKR.py:241-244 | each payload sent is a date-sorted permutation of its chunk, holding 1 to 10 activities |
| Importer.PayloadsKeepChunkOrderPerDate | SyncIBKR.py:241-244 | within each payload sent, the activities of one date appear in their chunk's order |
| Importer.PayloadMember | SyncIBKR.py:241-252 | every activity sent is one of the bulk |
| Deletion.MultiActs | SyncIBKR.py:330-332 | the accumulated records are exactly the listed records of the dictionary's accounts |
| Deletion.ActsToDelete | SyncIBKR.py:330-334 | the records a deletion addresses: those of every dictionary account, or of the single account; `Deletion.ActsToDeleteBelongToAccounts` and `Deletion.DeleteAllActs` state them |
| Deletion.ActsToDeleteBelongToAccounts | SyncIBKR.py:327-334 | only records of the resolved accounts are deleted |
| Deletion.ListActs | SyncIBKR.py:330-332 | the `extend` loop accumulates the accounts' records in dictionary order |
| Deletion.Ids | SyncIBKR.py:343-346 | the ids addressed, one per record, in order |
| Deletion.DeleteActs | SyncIBKR.py:336-349 | one deletion is requested per record, in order, without stopping at a failure; the result is True exactly when every deletion got status 200, and True when there is nothing to delete |
| Deletion.DeleteAllActs | SyncIBKR.py:327-349 | without a dictionary of IBKR accounts the deletion raises before any request; otherwise it requests the deletion of every record of those accounts and reports completion as above |
| Sync.PushCash | SyncIBKR.py:37-40 | the cash loop sends the dictionary's non-zero bucket updates in dictionary order |
| Sync.ImportsFor | SyncIBKR.py:127-131 | the `if len(diff) == 0` guard before the import; `Sync.ImportsForEmptyIff` states it |
| Sync.ImportsForEmptyIff | SyncIBKR.py:127-131 | an account posts payloads exactly when its diff is not empty |
| Sync.SyncAccount | SyncIBKR.py:114-131 | as written, one account's diff is its whole currency bucket whatever the ledger lists, and the payloads are that bucket's import log, none when the bucket is empty |
| Sync.Tabulate | SyncIBKR.py:114 | the values of a per-account function, in account order |
| Sync.AccountDiffs | SyncIBKR.py:114-122 | as written, one diff per dictionary account: that account's currency bucket |
| Sync.SyncLog | SyncIBKR.py:114-131 | as written, one import log per dictionary account, from that account's currency bucket |
| Sync.SyncAccounts | SyncIBKR.py:114-131 | the per-account loop computes every account's diff and import log in dictionary order; no listing changes them |
| Sync.SyncIbkr | SyncIBKR.py:17-131 | a run raises exactly when no dictionary resolves, and then sends no import; otherwise it pushes the cash updates, collects the emitted activities, and as written offers and imports every account's whole currency bucket |
| Sync.SecondRunImportsNothing | SyncIBKR.py:113-131 | with the intended field comparison and distinct currencies: once the ledger keeps its records and holds every activity of the first run's diff (every import went through), the second run's diffs are all empty |
| Sync.SharedCurrencyReimports | SyncIBKR.py:114-122 | with the intended field comparison, an account sharing its currency with an earlier account is offered that currency's activities on every run |
| Sync.ImportedActivitiesReferenceAccounts | SyncIBKR.py:114-131 | every activity in a payload the run posts carries the id and currency of an "IBKR" account listed before the run |

## Left out

- HTTP requests, URLs, headers and JSON serialisation are left out: they are foreign I/O. Every reply is an input indexed by request.
- Downloading and parsing the flex report with ibflex (lines 29-31) is a foreign library. The model starts from a parsed `Report`.
- Only the first flex statement is read, as in the code. Trade and cash fields other than those used are not modelled.
- `float()` coercions and the `try/except` around the activity append (lines 97-111) are not modelled. Quantities, prices and cash are exact `real`s, standing for ibflex's decimals.
- The `try/except` around the cash loop (lines 168-174) is not modelled. The report is taken as well-formed, with a first statement whose entries have an optional currency and an ending cash.
- Calendar validation by `strptime` (line 55) is not modelled. A date is a triple in the ranges that fix its rendered width.
- `print` logging and the EUR debug output (lines 123-125) are left out.
- `get_account`'s error handling (lines 305-313) is left out. The account list is an input.
- `create_ibkr_account` (lines 270-297) is modelled only by its outcome: it raises on the missing attribute before any request. Its POST and the id it would return are left out.
- `Accounts.Resolve`: the isinstance test for an integer id (lines 42-46 and 333-334) is unreachable from resolution, since creation raises. The single-account cases are modelled separately (`Cash.SingleCashIsUsd`, `Accounts.AccountIdForCurrency`, `Deletion.ActsToDelete`).
- `Sync.SyncIbkr`: the "Failed to retrieve IBKR accounts" return (lines 47-49) is unreachable, because resolution either yields the dictionary or raises.
- `Sync.PushCash`: the booleans returned by `set_cash_to_account` are not used by the run, so the model drops them. `Cash.SetCashToAccount` states them.
- `Sync.SyncAccounts`: the value returned by `import_act` is not used by the run, so only its payload log is kept. `Importer.ImportAct` states the value.
- `Dates.IsoMidnight`: the rendering assumes four-digit years, as `isoformat` gives for years 1 to 9999.
- The remap rule "VUAA" → ".L" (line 76) is kept as written, although a suffix was presumably meant.

## Findings

| source | as written | input that shows it | evidently intended | confidence | as-written member | corrected member |
|---|---|---|---|---|---|---|
| SyncIBKR.py:119-122 | `get_diff` compares the listed records, which carry the ledger's "id" key, with new activity dictionaries, which have no "id" key. Python dict equality needs equal key sets, so no new activity ever equals a listed record, and every run re-imports everything. | a ledger listing `StoredAct(id, a)` for the account, and the new activities `[a]` | compare the activity fields of the listed records, so an activity already in the ledger is not imported again | not executed | DiffEngine.ReimportAsWritten | Sync.SecondRunImportsNothing |
