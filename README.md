# CFO helper what-if engine, modelled in Dafny

This project models the calculation engine of a small what-if calculator for a
company's finances (`utils/calculations.py`). The engine has four parts:

- `load_finances` reads baseline figures from `key,value` rows. It coerces each
  value to a number where it can, fills in nine required fields, truncates the
  head count and units sold to whole numbers, and attaches the runway.
- `compute_runway` gives the months the cash lasts at the monthly burn. The
  answer is unbounded when the burn is zero or negative.
- `simulate_scenario` applies extra hires, a marketing change and a price
  change to the baseline. It returns the new figures and a snapshot of the
  baseline.
- `pretty_summary` turns a result into six lines of text in a fixed order.

Modules, leaves first:

- `Wrappers` holds `Option` and `Result`.
- `Strings` models Python's `str.strip()` and `replace(',', '')`.
- `Decimal` holds the numeric syntax the loader accepts, `int()` truncation, and
  plain and comma-grouped renderings of whole numbers.
- `Runways` holds `Runway = Finite(months) | Unbounded` and `ComputeRunway`.
- `Loader` holds the dictionary `Value = Num | Text | Months`, the coercion
  chain, the `LoadFinances` method and the function `Load` that it computes.
- `Scenario` holds `SimulateScenario` and the lemmas about what a scenario
  does to expenses, revenue, burn and runway.
- `Summary` builds the summary lines with `PrettySummary`.

Python's `float('inf')` runway is the `Unbounded` variant, so it can never be
used in arithmetic. The Python exceptions the loader can raise are `LoadError`
values. All numbers are `real`.

Three behaviours of the code a reader might not expect, all modelled as the
code has them:

- The baseline runway is left out of the summary only when it is absent. When
  the baseline runway is infinite, the code still prints it (as `inf`), and the
  model keeps it in the `RunwayChange` line.
- `int(add_hires)` truncates toward zero and does not make a negative count
  non-negative.
- The loader also fails when a field holds text that the code uses in
  arithmetic: `int()` of a text count raises ValueError; inside
  `compute_runway`, comparing a text burn with 0, or dividing a text cash by a
  positive burn, raises TypeError. Reading the file is not the only failure.

## Model

| member | source | states |
|---|---|---|
| `Strings.TrimIsMiddle` | utils/calculations.py:8 | the stripped key is a contiguous piece of the raw key, and only whitespace is cut on either side |
| `Strings.Trim` | utils/calculations.py:8 | the stripped key is no longer than the raw key, and is empty or neither starts nor ends with whitespace |
| `Strings.TrimIdempotent` | utils/calculations.py:8 | stripping a stripped key changes nothing |
| `Strings.StripCommas` | utils/calculations.py:15 | the result has no comma and is no longer than the input; text without commas comes back unchanged |
| `Strings.StripCommasSingle` | utils/calculations.py:15 | on one character, a comma is removed and anything else is kept; with `StripCommasAppend` this fixes the function on every text as `replace(',', '')` |
| `Strings.StripCommasAppend` | utils/calculations.py:15 | removing the commas of a concatenation removes them from each piece |
| `Strings.StripCommasKeeps` | utils/calculations.py:15 | every character other than a comma is kept as often as it occurs, and every comma goes |
| `Decimal.ParseDecimal` | utils/calculations.py:11 | text that `float()` accepts here has no comma |
| `Decimal.ParseUnsigned` | utils/calculations.py:11 | a parsed unsigned number is non-negative and its text has only digits and '.' |
| `Decimal.ParseUnsignedSyntax` | utils/calculations.py:11 | an unsigned decimal parses exactly when its text has only digits and '.', at most one '.', and at least one digit |
| `Decimal.ParseDecimalSyntax` | utils/calculations.py:11 | a text parses exactly when it is an unsigned decimal, alone or after one '-' or '+'; any other text, such as "-abc", "+1.2.3" or "1e3", fails |
| `Decimal.UnsignedFractionValue` | utils/calculations.py:11 | digits, a '.' and digits (at least one digit in all) parse unsigned as the digits' number shifted by the length of the fraction; the fraction may be empty ("12.") and so may the whole part (".5") |
| `Decimal.ParseFraction` | utils/calculations.py:11 | the same text parses to that number at the level of the signed parser |
| `Decimal.Signed` | utils/calculations.py:11 | text that parses unsigned and starts with no sign parses as that number, also after a '+' |
| `Decimal.Negated` | utils/calculations.py:11 | after a '-', any text that parses unsigned parses as the negated number |
| `Decimal.RejectSamples` | utils/calculations.py:11 | ".", "1.2.3", "+-1" and the empty text do not parse |
| `Decimal.ParseDigits` | utils/calculations.py:11 | any non-empty run of digits, with or without a minus sign, parses as the number it denotes |
| `Decimal.ParseRender` | utils/calculations.py:11 | a whole number written in digits, with or without a minus sign, parses back to itself |
| `Decimal.StrippedGrouped` | utils/calculations.py:15 | removing the commas of a grouped number leaves a non-empty run of digits denoting that number |
| `Decimal.GroupedParses` | utils/calculations.py:14-15 | a comma-grouped number parses back to itself once its commas are removed; it fails the first parse exactly when it is 1000 or more |
| `Decimal.GroupedIntParses` | utils/calculations.py:14-15 | a signed grouped number parses back to itself once its commas are removed |
| `Decimal.GroupedIntNeedsStripping` | utils/calculations.py:11-15 | a signed grouped number fails the first parse exactly when its magnitude is 1000 or more |
| `Decimal.Trunc` | utils/calculations.py:32-33 | `int()` of a float truncates toward zero: never more than one away from x and on the zero side of x |
| `Decimal.TruncMonotone` | utils/calculations.py:54 | truncation keeps order and leaves whole numbers alone |
| `Runways.ComputeRunway` | utils/calculations.py:37-40 | unbounded exactly when the burn is not positive; otherwise the months m with m × burn = cash, non-negative when the cash is |
| `Runways.MoreBurnNoLonger` | utils/calculations.py:37-40 | with non-negative cash, a larger burn never gives a longer runway |
| `Runways.MoreCashNoShorter` | utils/calculations.py:37-40 | at the same burn, more cash never gives a shorter runway |
| `Loader.Coerce` | utils/calculations.py:10-17 | a value is stored as a number exactly when its comma-free text parses, and then as that number; otherwise the raw text is kept unchanged |
| `Loader.RowsHoldNoRunway` | utils/calculations.py:7-17 | the row loop stores only numbers and text |
| `Loader.RowKeyPresent` | utils/calculations.py:7-11 | every row's stripped key ends up in the dictionary |
| `Loader.RowsKeys` | utils/calculations.py:7-8 | a key is in the dictionary exactly when some row's stripped key equals it |
| `Loader.LastRowWins` | utils/calculations.py:7-17 | the value under a key is the coerced value of the last row with that stripped key |
| `Loader.DefaultedFields` | utils/calculations.py:19-31 | after `setdefault`, every required key is present; a key already present keeps its loaded value; an absent one is 0 |
| `Loader.Baseline` | utils/calculations.py:19-31 | every required field, including cash, burn and the two counts, is in the defaulted dictionary |
| `Loader.FoldRows` | utils/calculations.py:6-17 | the row loop builds exactly the row fold `Rows(rows)` |
| `Loader.SetDefaults` | utils/calculations.py:30-31 | the defaults loop builds exactly `Defaulted(m, RequiredKeys)` |
| `Loader.Load` | utils/calculations.py:3-35 | a successful load holds every required field and the runway; the two counts are whole numbers and the runway is stored as a runway (finite or unbounded) |
| `Loader.LoadFinances` | utils/calculations.py:3-35 | its result is `Load(rows)`; it fails exactly when a count is text, the burn is text, or the burn is positive and the cash is text, with the first exception Python raises; otherwise returns the defaulted dictionary with the counts truncated and `runway` = compute_runway(cash, burn) |
| `Loader.OtherKeysKeepRequired` | utils/calculations.py:7-31 | a row whose key is not a required field (such as `notes`) leaves all nine required fields as they were |
| `Loader.EmptySourceDefaults` | utils/calculations.py:19-34 | with no rows, the nine required fields are all 0, nothing else is present, and the load succeeds with an unbounded runway |
| `Loader.CoerceGrouped` | utils/calculations.py:10-17 | a whole number written with thousands separators, as `format(i, ',')` writes it, loads as that number |
| `Loader.CoerceFraction` | utils/calculations.py:10-11 | digits with a fraction load as the decimal number they spell |
| `Loader.CoerceSeparated` | utils/calculations.py:14-15 | "1,000,000" loads as 1000000 |
| `Loader.CoerceWord` | utils/calculations.py:16-17 | "hello" is kept as text |
| `Scenario.SimulateScenario` | utils/calculations.py:42-91 | added hires are int(add_hires); their cost is that count × cost per hire; the marketing change enters both marketing and expenses; price scales by the percentage and revenue with it; burn = expenses − revenue; profit = −burn; runway is unbounded exactly when profit ≥ 0, and otherwise months × burn = cash; the snapshot is the input's cash, burn, revenue, expenses and runway (None when absent) |
| `Scenario.NewRunwayIsComputeRunway` | utils/calculations.py:70 | the guarded runway equals compute_runway(cash, new burn) |
| `Scenario.ZeroDeltaScenario` | utils/calculations.py:54-65 | with all deltas zero, hires, marketing and expenses are the baseline's, the hire cost is 0, and revenue is price × units |
| `Scenario.ZeroDeltaKeepsConsistentRunway` | utils/calculations.py:68-70 | on a baseline whose burn is expenses − price × units, and whose runway was computed from that burn, doing nothing gives back that burn and runway |
| `Scenario.FractionalHiresTruncated` | utils/calculations.py:54 | a fractional number of hires acts exactly as its truncation |
| `Scenario.BurnDecomposes` | utils/calculations.py:55-68 | the new burn is the zero-delta burn, plus the hire cost, plus the marketing change, minus price × units × pct / 100 |
| `Scenario.MoreHiresNoLonger` | utils/calculations.py:54-70 | with non-negative cost per hire and cash, more hires never lower expenses and never lengthen the runway |
| `Scenario.MoreMarketingNoLonger` | utils/calculations.py:58-70 | with non-negative cash, marketing spend raises expenses one for one and never lengthens the runway |
| `Scenario.HigherPriceNoShorter` | utils/calculations.py:64-70 | with non-negative cash, price and units, a higher price never lowers revenue and never shortens the runway |
| `Scenario.WorkedExample` | utils/calculations.py:42-91 | on the 100000-cash baseline, 2 hires, +5000 marketing and +10% price give 79000 expenses, 55000 revenue, a 24000 burn, a runway of 100000/24000 months (instead of 5) and a profit of −24000 |
| `Summary.RunwayLine` | utils/calculations.py:102-108 | the fixed infinite-runway message exactly when the new runway is unbounded; otherwise old → new when a baseline runway is present, and the new months alone when it is not |
| `Summary.PrettySummary` | utils/calculations.py:93-110 | exactly six lines: hires with added cost, marketing, expenses, revenue, runway, profit; amounts are truncated as int() does; only the line at index 4 (the fifth) is a runway line |
| `Summary.ProfitableSummary` | utils/calculations.py:70-71 | for a simulated scenario, the summary shows the profitability message exactly when profit ≥ 0; otherwise the months shown times the loss equal the cash |

## Left out

- Reading the CSV file (`pd.read_csv`) and its failures for a missing or malformed file. The input is the sequence of `(key, value)` rows.
- What pandas does to cells before the loader sees them: numeric columns arriving as floats, empty cells and pandas' default missing-value strings ("NA", "N/A", "null", "None", "nan", "NaN", "#N/A" and the like) arriving as NaN, and keys that are not text. The model keeps such a value as text, for example `Text("None")`, where the code stores a float NaN. Values and keys are taken as text.
- Parts of Python's `float()` beyond an optional sign, ASCII digits and an optional fraction: exponents, `inf`/`nan`, underscores, surrounding whitespace, non-ASCII decimal digits (such as Arabic-Indic or full-width digits) and IEEE-754 rounding. Numbers are exact reals.
- Scenario.SimulateScenario: its requires `CanSimulate` excludes the inputs on which Python raises: a KeyError when one of the nine fields is absent (utils/calculations.py:44-52), and a TypeError when a field used in arithmetic holds text, or when the cash holds text and the new burn is positive. The model has no error result for these.
- The text of the summary lines: the ₹ prefix, `:,` thousands grouping, `.1f` rounding, and the join with blank lines. A line is kept as the figures it would show. `Decimal.GroupedInt` models `:,` only to show that the loader reads such numbers back.
- Summary.PrettySummary: when the baseline runway is text, Python's `.1f` format raises. The model keeps that value in the `RunwayChange` line, because formatting is outside the model.
- Python dictionary insertion order. A dictionary is a `map`.
- Determinism and freedom from shared state are not stated as lemmas: every function here is deterministic by construction.
- `app.py`: the interactive page, the chart, the session counter, the report download and the reload. They are presentation around the engine.
