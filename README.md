# Commission tracker: a Dafny model

The application records the work of a clinic's staff member in four categories and pays a
commission on each record:

- sales (`Vendas`), which pay by sale type;
- collections (`Cobrancas`), which pay 3% of the negotiated amount;
- consultations (`Consultas`), which pay a fixed 20.00;
- procedures (`Procedimentos`), which pay a fixed 200.00.

The general report (`relatorios`) shows four things:

- the lifetime total;
- a month-by-month history, newest key first, labelled in Portuguese;
- a month/year filter that falls back to the current month;
- the records and the total of the selected month.

Accounts are keyed by the full name typed at registration. One full name unlocks the admin
user list.

This project models those rules and proves what they promise.

| file | module | models |
|---|---|---|
| `wrappers.dfy` | `Wrappers` | `Option`, for NULL columns and absent request values |
| `text.dfy` | `Text` | the Python string behaviour the rules rely on: `str.strip()`, `str.lower()`, `f"{n}"` and `f"{n:0wd}"`, `int()` on digit strings, `str.split`, code-point string order, `sorted(..., reverse=True)` over a set of keys |
| `commission.dfy` | `Commission` | the four commission formulas |
| `records.dfy` | `Records` | the four record kinds (models.py) and `Ledger`, the store the four record views append to |
| `history.dfy` | `History` | `agregar` and the `historico` dictionary, month keys, the sorted and labelled `lista_historico` |
| `report.dfy` | `Report` | lifetime totals, the filter fallback, the detail lists, the selected month's total, and the whole report |
| `identity.dfy` | `Identity` | `Registry` (the users table) with `register`, plus `login`, the admin check and `admin_users` |

Modelling choices:

- Amounts are exact `real`s.
- A date is `Option<PyDate>`, where `PyDate` is a Python `date` with a year of 1..9999. The
  date columns were added to existing tables by ALTER TABLE migrations, so a stored row can
  hold NULL there. `if ano and mes` skips such rows.
- The SQL `GROUP BY year, month` followed by `historico[k] += valor` is modelled record by
  record. With exact reals, the per-record sum and the per-group sum are equal.
- Everything that comes from outside the rules is a parameter:
  - the two clocks are two parameters. Records are dated by the `utcnow` column default
    (models.py:26,36,45,54), the UTC date, passed as `utcToday` to the record views. The report's
    fallback filter reads `datetime.now()` (app.py:130), the local date, passed as `localToday` to
    `Report.BuildReport`. The two can name different days: a sale entered late on 31 March
    local time west of Greenwich is dated 1 April, so it is missing from that evening's default
    report (`Report.UtcDateMissesLocalMonth`);
  - `request.args.get(..., type=int)` is an `Option<int>`;
  - the salted password hash is a string parameter of `Register`;
  - `check_password_hash` is a function parameter of `Login`.

Two behaviours of the code hold only for four-digit years, and the model keeps both as
written:

- History keys are built with an unpadded year (`f"{int(ano)}-{int(mes):02d}"`, app.py:105).
  For years below 1000, string order on those keys is not chronological:
  `History.ShortYearSortsAsRecent` proves that "999-03" sorts above "2024-03".
- The selected month's total is looked up with a zero-padded year (`f"{ano_filtro:04d}-..."`,
  app.py:141). For the year 999 the lookup key "0999-03" misses the history key "999-03", so
  the total shown is 0 while the detail lists are not empty (`Report.ShortYearLookupMisses`).

`Report.BuildReport` states the exact relations for every year. The agreement with the
detail totals, and reverse chronological order, are proved only under the four-digit
precondition.

## Model

| member | source | states |
|---|---|---|
| `Commission.SaleCommissionFollowsRates` | app.py:156-159 | a sale earns amount × rate for "Talão" (1/2), "Cartão" (1/20) and "PIX" (1/12 × 1/5 = 1/60), and exactly 0 for every other sale type |
| `Commission.SaleCommissionBounds` | app.py:156-159 | for a non-negative amount the commission lies between 0 and half the amount, and is positive exactly when the amount is positive and the type is one of the three paying types |
| `Commission.CommissionsAreLinear` | app.py:156-174 | sale and collection commissions are additive in the amount, so splitting a sale in two earns the same |
| `Commission.CommissionExamples` | app.py:156-174 | worked values: a card sale of 1000 earns 50, a collection of 500 earns 15, a "Talão" sale of 1000 earns 500, a PIX sale of 1200 earns 20, an unknown type earns 0 |
| `Records.Ledger.AddSale` | app.py:152-163 | appends one sale dated with the UTC date whose commission is the sale formula for its type and amount; other tables are unchanged, and every stored commission still follows its formula |
| `Records.Ledger.AddCollection` | app.py:171-178 | appends one collection dated with the UTC date earning 3% of the negotiated amount; nothing else changes |
| `Records.Ledger.AddConsultation` | app.py:186-191 | appends one consultation dated with the UTC date with status "Realizada" and commission 20.00; nothing else changes |
| `Records.Ledger.AddProcedure` | app.py:199-205 | appends one procedure dated with the UTC date with the submitted type and commission 200.00; nothing else changes |
| `Text.StripSplits` | app.py:30 | the typed name is whitespace, then the stripped name, then whitespace |
| `Text.StripEnds` | app.py:30 | a non-empty stripped name neither starts nor ends with whitespace |
| `Text.StripBlank` | app.py:46 | the stripped name is empty exactly when the typed name is all whitespace |
| `Text.StripIdempotent` | app.py:46 | stripping an already stripped name changes nothing |
| `Text.ParsePadZero` | app.py:119 | `int()` of a zero-padded decimal reads back the number it was formatted from, sign included, for every number and width |
| `Text.ParseShow` | app.py:119 | `int(str(n))` reads back n, for every n |
| `Text.SplitAt` | app.py:119 | splitting at the first separator yields the part before it followed by the split of the rest |
| `Text.BelowTotal` | app.py:113 | code-point string order is total: two strings are equal or one is below the other |
| `Text.BelowTransitive` | app.py:113 | code-point string order is transitive |
| `Text.BelowAppend` | app.py:113 | for equal-length prefixes, order on concatenations is decided by the prefixes first, then the suffixes |
| `Text.FixedDigitsOrder` | app.py:113 | fixed-width decimals compare as strings exactly as their values compare as numbers |
| `Text.SortDescending` | app.py:113 | the sorted keys are exactly the keys of the set, each once, in strictly descending string order |
| `History.MonthKeyRoundTrip` | app.py:105-119 | splitting a history key at "-" and reading both parts with `int()` gives back the year and month it was built from, for every non-negative year and month |
| `History.MonthKeyInjective` | app.py:105 | distinct periods never share a history key |
| `History.MonthKeyIsFixedWidth` | app.py:105 | for a four-digit year the key is exactly "YYYY-MM" |
| `History.MonthKeyOrder` | app.py:105-113 | for four-digit years, key order is (year, month) order in both directions |
| `History.ShortYearSortsAsRecent` | app.py:105-113 | the key of March 999 sorts above the key of March 2024, so the four-digit precondition is needed |
| `History.Aggregate` | app.py:95-106 | after folding one table into the history, every key's total is its old total plus the user's commissions of that month in the table; the key set grows by exactly that table's months of the user |
| `History.BucketKeysAreMonthKeys` | app.py:104-105 | every key the user's records add is a month key of a real year 1..9999 and month 1..12 |
| `History.BuildHistory` | app.py:94-111 | the history holds one key per month in which the user has a dated record in any table, and each key's total is the sum of those records' commissions across the four tables; a key not in the history has nothing to add |
| `History.MonthKeyFacts` | app.py:119 | every history key parses back to a year in 1..9999 and a month in 1..12 that rebuild the key |
| `History.KeyRow` | app.py:119-124 | the row built from a key carries that key's month and year, its total, and the caption `meses_nomes[mes] + "/" + ano`, and its key is the key it was built from |
| `History.LabelRows` | app.py:118-124 | one row per key in the given order, each describing its key's bucket |
| `History.ListHistory` | app.py:113-124 | the list has one row per history key and no key twice; its keys are in strictly descending order, and each row carries its bucket's total and label |
| `History.HistoryIsReverseChronological` | app.py:113 | with four-digit years, the listed months run strictly from the most recent back |
| `Report.AppendRaisesLifetime` | app.py:85-91 | a record appended to any of the four tables raises its owner's lifetime total by exactly its commission and leaves every other user's total unchanged |
| `Report.TotalAppend` | app.py:87-90 | a category total is additive over any split of the table |
| `Report.TotalIgnoresOtherUsers` | app.py:87-90 | adding records of other users never changes a user's category total |
| `Report.OthersTotalZero` | app.py:87-91 | a table with no record of the user contributes 0 |
| `Report.DatedTotalIsTotal` | app.py:104 | when every record of the user is dated, the history part of a table equals its lifetime part |
| `Report.SumAddsOnce` | app.py:103-106 | a record adds its commission to exactly one month's bucket |
| `Report.SumBucketsIsDatedTotal` | app.py:94-106 | adding up a table's buckets over distinct keys that cover all of them gives the table's dated total |
| `Report.SumTotalsByTable` | app.py:118-124 | the history rows' totals add up table by table |
| `Report.TablesSumToLifetime` | app.py:87-106 | over distinct keys covering every month of the user, the four tables' buckets add up to the lifetime total when every record of the user is dated |
| `Report.HistoryAddsUpToLifetime` | app.py:87-124 | when every record of the user is dated, the history rows add up to the lifetime total |
| `Report.ResolveFilter` | app.py:127-132 | both parts of the filter come from the request when both are truthy, otherwise both come from the local date; never half of each, and never 0 |
| `Report.ResolveFilterIsStable` | app.py:127-132 | a resolved filter sent back as the request is kept as it is, whatever the date is then |
| `Report.DetailCounts` | app.py:134-139 | a detail list holds each of the user's records dated in the selected month and year, as often as the table does, and nothing else |
| `Report.AddsToIffInDetail` | app.py:104-139 | a record adds to a month's bucket exactly when it is listed in that month's detail |
| `Report.BucketIsDetailSum` | app.py:97-139 | a month's bucket equals the sum of that month's detail list, for every year and month |
| `Report.NoMatchIsEmpty` | app.py:134-139 | a table without matching records gives an empty detail list |
| `Report.EmptyPeriod` | app.py:134-141 | a month without records of the user lists nothing in any category, and its bucket is 0 |
| `Report.LookupKeyIsMonthKey` | app.py:141 | for four-digit years, the padded lookup key is the history key |
| `Report.SelectedTotalIsDetailTotal` | app.py:134-141 | for four-digit years, the selected month's total is the sum of the commissions in its four detail lists |
| `Report.UtcDateMissesLocalMonth` | app.py:127-141 | a sale dated 1 April (UTC) is missing from the default report on 31 March (local): that month lists nothing and totals 0, while April's bucket holds its commission |
| `Report.ShortYearLookupMisses` | app.py:105-141 | a sale of 10.00 dated March 999 is in the history under "999-03" and in the detail of 3/999, yet the selected total is 0 |
| `Report.RowsCarryHistoryTotals` | app.py:118-124 | rows that describe history entries carry the report's month totals |
| `Report.HistorySection` | app.py:94-124 | the history map gives every key its total across the four tables, and the list lists every key once, descending, labelled |
| `Report.TotalsAgree` | app.py:87-141 | for four-digit years the selected total equals the sum of the detail lists, and when every record is dated the listed history adds up to the lifetime total |
| `Report.BuildReport` | app.py:85-147 | the whole report: lifetime total; history rows; filter; detail lists; the selected total as the lookup of the padded key, equal to the detail total for four-digit years; history summing to the lifetime total when all records are dated |
| `Identity.Registry.Register` | app.py:43-65 | a blank stripped name and an exact duplicate are refused and leave the table unchanged. Otherwise exactly one user is added, under the stripped name, with username and full name both equal to it, the next id and the given hash. The table invariant (unique, stripped, non-empty names and distinct ids) is kept |
| `Identity.InsertKeepsValid` | app.py:58-62 | adding a fresh stripped name with the next id keeps names unique and ids distinct |
| `Identity.StrippedIffFixed` | app.py:46 | a name is one `strip()` can produce exactly when stripping leaves it unchanged |
| `Identity.LoginFindsRow` | app.py:30-36 | over a valid users table, login succeeds exactly when some row's username is the stripped name and the password checks against that row's hash; the user returned is that row, the only one with that username |
| `Identity.LoginIgnoresOuterSpace` | app.py:30-34 | whitespace around the typed name never changes the result of login |
| `Identity.LoginAfterRegister` | app.py:30-62 | right after a registration, login returns the new user exactly when the typed name strips to its username and the password checks; a login under any other name gives what it gave before the registration |
| `Identity.LoginIsCaseSensitive` | app.py:34 | "ana souza" does not find the account "Ana Souza" |
| `Identity.IsAdminIffPadded` | app.py:214 | the admin check passes exactly when the name is "lusiane gomes simão" in some letter case with only whitespace around it |
| `Identity.StripOfPadded` | app.py:214 | stripping whitespace-padded text that neither starts nor ends with whitespace gives the text back |
| `Identity.LowerKeepsSpace` | app.py:214 | lower-casing never turns whitespace into another character, nor another character into whitespace |
| `Identity.AdminNameAsRegistered` | app.py:214 | "Lusiane Gomes Simão" passes the admin check |
| `Identity.ShoutedNameLowers` | app.py:214 | "LUSIANE GOMES SIMÃO" lower-cases to the admin name |
| `Identity.AdminNameShoutedAndPadded` | app.py:214 | "  LUSIANE GOMES SIMÃO\n" passes the admin check |
| `Identity.AdminNameWithoutAccent` | app.py:214 | "Lusiane Gomes Simao" fails the admin check |
| `Identity.AdminNameWithDoubleSpace` | app.py:214 | "Lusiane  Gomes Simão", with two inner spaces, fails the admin check |
| `Identity.Registry.AdminUsers` | app.py:210-219 | refused exactly when the current user's full name fails the admin check; otherwise it returns every account once, in ascending full-name order |
| `Identity.ByName` | app.py:218 | every account once, ascending by full name |
| `Identity.ReversedListsAllByName` | app.py:218 | reversing the names sorted greatest first gives every account once in ascending order |

## Left out

- Flask routing, templates, `flash` messages, redirects and flask_login sessions. Each outcome is a value: `RegisterOutcome`, `Option` for login and for the admin list.
- SQL execution, `db.create_all` and commits. Queries are modelled as filters and sums over sequences of records.
- The `order_by(date desc)` listings and per-category totals of the four record views. The per-category totals are `Report.Total`, the same sum the report uses. The listings are display order only.
- Werkzeug password hashing and checking. It is a foreign, salted computation, so the hash is a parameter and the check a function parameter.
- `datetime.now()` and `datetime.utcnow()` themselves. They are the `localToday` and `utcToday` parameters, so the offset between them is whatever the caller passes.
- Float arithmetic and the `Numeric(10, 2)` rounding of stored amounts. All amounts are exact reals.
- `float(...)` of form input, and missing form fields. A missing `full_name` makes `.strip()` raise, which is a server error, not modelled. The model takes the values as already read.
- `Records.Ledger.AddProcedure` stores the submitted procedure type as received. It does not model whether the column default "Cirurgia" replaces an absent value, because that is decided inside the ORM.
- `Text.Lower` covers only ASCII and Latin-1 capital letters. Python lower-cases every Unicode capital, but the admin name needs only these.
- `Text.ParseInt` models `int()` only on an optional sign followed by ASCII digits. Python also accepts surrounding whitespace, underscores between digits and non-ASCII digits, but the parts of a history key contain none of these.
- Record ids, client names beyond being stored, and the `status` column default. They take no part in any rule.
- The ngrok tunnel and server start-up, the schema migration and diagnostic scripts, and the configuration module. These are I/O and setup.
- Editing and deleting records, and password recovery. The application has no code for them.
