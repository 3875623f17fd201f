# Bill splitter and argument parser, modelled in Dafny

This project models two parts of a small TypeScript program that splits restaurant bills:

- **The bill-splitting core.** `splitBill` takes a bill: a date, a location, a tip percentage, and items that are either shared by everybody or personal to one person. It returns a settlement:
  - the date written as `Y年M月D日`;
  - the subtotal;
  - the tip, rounded to the closest 10 cents;
  - the total;
  - one row per named person with the amount they owe.

  The helpers are `formatDate`, `calculateSubTotal`, `calculateTip`, `scanPersons`, `calculateItems`, `calculatePersonAmount` and `adjustAmount`.
- **`parseArgs` of the command-line processor.** It scans the argument list for `--input=`, `--output=` and `--format=`. It rejects a format other than `json` or `text`. It also rejects a missing or empty input or output.

Modules, one per file:

| file | module | contents |
|---|---|---|
| `wrappers.dfy` | `Wrappers` | `Option`, `Result` |
| `text.dfy` | `Text` | `startsWith`; the `split` of a string on one character, with its inverse `Join`; decimal digit strings and their values |
| `date_format.dfy` | `DateFormat` | `formatDate` |
| `bill.dfy` | `Bill` | the bill data model, `calculateSubTotal`, the tip and its rounding |
| `persons.dfy` | `Persons` | `scanPersons` |
| `allocation.dfy` | `Allocation` | `calculatePersonAmount`, `calculateItems`, `adjustAmount`, and conservation of the subtotal |
| `split_bill.dfy` | `Splitter` | `splitBill` and two worked bills |
| `args.dfy` | `ArgParser` | `parseArgs` |

Modelling choices:

- **Amounts are exact `real`s.** The tip is `Math.round(x * 10) / 10` style rounding: `floor(10x + 1/2) / 10`, so halves go up.
- **`calculatePersonAmount`.** A person's amount is their personal items plus `1/N` of every shared item, where `N` is the number of people named. This is scaled by `1 + tip/100`.
- **`adjustAmount` puts the whole difference on the first row.** The difference is the total minus the rows' sum. Every other row is left unchanged.
- **`formatDate`.** It reads the first three `-`-separated fields as decimal numbers, which are exact naturals here. It prints them with their leading zeros removed. Extra fields are ignored.
- **`parseArgs` is a left fold of one loop step over the arguments.** The step follows the three `if`s of the loop body in order. After the fold comes the check for input and output. A flag's value is `arg.split("=")[1]`: the text between the first and the second `=`.
- **I/O is kept out.** File reading, JSON parsing and printing are not part of the modelled functions, so the model needs no parameters for them.

## Model

| member | source | states |
|---|---|---|
| Bill.ReducePrices | 00-Assignment/01/src/core.ts:76 | Reducing with `sum + item.price` from an accumulator gives that accumulator plus the sum of all prices. |
| Bill.CalculateSubTotal | 00-Assignment/01/src/core.ts:74-77 | The subtotal is the sum of every item's price. It is 0 for no items and never negative when no price is. |
| Bill.SubTotalAppend | 00-Assignment/01/src/core.ts:74-77 | The subtotal of two item lists put together is the sum of their subtotals. |
| Bill.SubTotalSplitsByKind | 00-Assignment/01/src/core.ts:74-77 | Shared and personal items both count: the subtotal is the shared total plus the personal total. |
| Bill.RoundToTenths | 00-Assignment/01/src/core.ts:80 | The rounding is a whole number of tenths, within half a tenth of the input, with halves rounded up. |
| Bill.RoundToTenthsIsNearest | 00-Assignment/01/src/core.ts:80 | No multiple of 0.1 is closer to the input than its rounding. |
| Bill.RoundToTenthsExamples | 00-Assignment/01/src/core.ts:80 | 12.34 rounds to 12.3 (the comment's example), 12.35 rounds to 12.4 and 12.345 rounds to 12.3. |
| Bill.CalculateTip | 00-Assignment/01/src/core.ts:79-81 | The tip is a whole number of 10-cent units, within 5 cents of the percentage of the subtotal. |
| Text.Split | 00-Assignment/01/src/core.ts:68-70 | `split` yields at least one field and no field contains the separator. Joining the fields gives the string back. There are two or more fields exactly when the separator occurs. |
| Text.SplitJoin | 00-Assignment/01/src/core.ts:68-70 | Splitting the join of separator-free fields gives those fields back. |
| Text.SplitAround | 00-Assignment/01/src/core.ts:68-70 | Splitting `left + sep + right` gives the fields of `left` followed by those of `right`. |
| Text.StripLeadingZeros | 00-Assignment/01/src/core.ts:68-71 | The result is canonical (no leading zero unless it is "0"). It is a suffix of the digits, and everything cut off is a zero. |
| Text.RenderedValueStripsZeros | 00-Assignment/01/src/core.ts:68-71 | Converting a digit string to a number and printing it gives the string without its leading zeros. |
| Text.DigitsToNat | 00-Assignment/01/src/core.ts:68-70 | `+s` on a digit string is the string's decimal value; it is 0 exactly when every digit is a zero. |
| Text.NatToString | 00-Assignment/01/src/core.ts:71 | `${n}` prints canonical decimal digits (no leading zero unless it is "0"); it prints a single digit exactly when n < 10. |
| Text.DigitsOfNatToString | 00-Assignment/01/src/core.ts:68-71 | Reading back the printed form of a number gives the number. |
| DateFormat.FormatDate | 00-Assignment/01/src/core.ts:65-72 | The result is the first three `-`-fields without leading zeros, followed by 年, 月 and 日 respectively. |
| DateFormat.FormatDateOfNumbers | 00-Assignment/01/src/core.ts:65-72 | A date printed from three numbers without padding is well formed and comes back as those three numbers with 年, 月 and 日. |
| DateFormat.FormatDateOfFields | 00-Assignment/01/src/core.ts:65-72 | `a-b-c` with three digit fields is well formed and formats as each field stripped of its leading zeros. |
| DateFormat.FormatDateIgnoresExtraFields | 00-Assignment/01/src/core.ts:68-70 | Appending `-extra` to a well-formed date leaves the result unchanged. |
| DateFormat.FormatDateExample | 00-Assignment/01/src/core.ts:66-67 | "2024-03-21" becomes "2024年3月21日". |
| Persons.ScanPersons | 00-Assignment/01/src/core.ts:83-85 | The names are distinct. A name occurs exactly when it owns some personal item. There are no names exactly when all items are shared. |
| Persons.ScanPersonsPrefix | 00-Assignment/01/src/core.ts:83-85 | Scanning more items only appends names: the names of a prefix are a prefix of the names. |
| Persons.ScanOrderIsFirstSeen | 00-Assignment/01/src/core.ts:83-85 | The names are in first-seen order. If name i comes before name j, each personal item of name j is preceded by a personal item of name i. |
| Allocation.PreTipShareFormula | 00-Assignment/01/src/core.ts:104-113 | Before tip, a person pays their own personal items in full plus `1/persons` of the shared total. |
| Allocation.CalculatePersonAmount | 00-Assignment/01/src/core.ts:104-113 | A person's amount is (own personal spend + shared total / persons) × (1 + tip/100): personal items are not split, shared ones are split evenly, and the tip applies to both. |
| Allocation.EqualSpendEqualAmount | 00-Assignment/01/src/core.ts:110-112 | Shared items are split evenly: two people with equal personal spend owe equal amounts. |
| Allocation.NonOwnerSpendsNothing | 00-Assignment/01/src/core.ts:111 | Someone who owns no personal item has a personal spend of 0. |
| Allocation.Rows | 00-Assignment/01/src/core.ts:93-101 | `names.map(...)`: one row per name, in the same order, each carrying that name's amount. |
| Allocation.CalculateItems | 00-Assignment/01/src/core.ts:87-102 | There is one row per scanned person, in scan order. Each amount is that person's amount for a headcount of all rows. There are no rows exactly when every item is shared. |
| Allocation.SharesConserve | 00-Assignment/01/src/core.ts:110-111 | Among distinct names that include every owner, the pre-tip shares add up to the sum of all prices. |
| Allocation.PreTipSharesSumToSubTotal | 00-Assignment/01/src/core.ts:91-101 | When anyone is named, the scanned persons' pre-tip shares add up to the subtotal. |
| Allocation.ItemsCarryTaxedSubTotal | 00-Assignment/01/src/core.ts:87-113 | When anyone is named, the rows add up to the subtotal plus the unrounded tip. |
| Allocation.AdjustAmount | 00-Assignment/01/src/core.ts:115-117 | Names are kept and rows after the first are unchanged. A non-empty list then adds up to the total, and the first row moves by exactly (total − old sum). |
| Allocation.AdjustBalancedIsIdentity | 00-Assignment/01/src/core.ts:115-117 | Rows that already add up to the total are left unchanged. |
| Splitter.SplitBill | 00-Assignment/01/src/core.ts:44-63 | The call fails exactly on a malformed date. Otherwise: the location passes through, and the date is the formatted date. The subtotal is the sum of prices and the tip is the rounded percentage. The total is the subtotal plus the tip. The rows are the scanned persons in order, empty exactly when all items are shared, and add up to the total when non-empty. |
| Splitter.ResidualIsTipRounding | 00-Assignment/01/src/core.ts:47-54 | The reconciliation only undoes the tip's rounding. The first person pays their amount plus (rounded tip − unrounded tip), which lies in (−0.05, 0.05]. Everybody else pays exactly their amount. |
| Splitter.EvenSplitScenario | 00-Assignment/01/src/core.ts:44-63 | A shared 100 plus personal 50s for Alice and Bob at 10% give a subtotal of 200, a tip of 20, a total of 220, and 110 each. |
| Splitter.RoundedTipScenario | 00-Assignment/01/src/core.ts:44-63 | Personal 1.23 (Ann) and 1.00 (Bob) at 10% give a tip of 0.2 and a total of 2.43. Ann pays 1.33 after reconciliation and Bob pays 1.1. |
| ArgParser.Matched | src/processor.ts:22-25 | An argument gives a flag a value exactly when it starts with that flag's prefix. |
| ArgParser.MatchedValueStopsAtEquals | src/processor.ts:22-25 | The value of `prefix + rest` is the part of `rest` before its first `=`: a prefix of `rest` that is free of `=`. |
| ArgParser.FlagValue | src/processor.ts:22-25 | `arg.split("=")[1]` holds no `=`. |
| ArgParser.FlagValueSpan | src/processor.ts:22-25 | `arg.split("=")[1]` starts right after the first `=` of `arg`, and it ends at the end of `arg` or at the second `=`. |
| ArgParser.ValueEndsAtSecondEquals | src/processor.ts:22-25 | For every flag and every `=`-free `x`, the argument `prefix + x + "=" + y` gives the value `x`, whatever `y` is. |
| ArgParser.SecondEqualsTruncates | src/processor.ts:22 | `--input=a=b` gives the input "a". |
| ArgParser.Step | src/processor.ts:21-32 | One loop step fails exactly on a `--format=` whose value is neither json nor text, and the error is the format error. Otherwise each flag the argument sets takes its value, and the other fields are kept. |
| ArgParser.Scan | src/processor.ts:21-32 | The scan can only fail with the format error. |
| ArgParser.ScanSpec | src/processor.ts:21-32 | The scan fails exactly when some `--format=` has a bad value. Otherwise each field is unset if no argument sets it, or else holds the value of the last argument that does. |
| ArgParser.Finish | src/processor.ts:33-35 | A scan error is passed on unchanged. After a successful scan, the result is the missing error exactly when the input or output is unset or empty, and it is never the format error. On success the three fields are the scanned ones. |
| ArgParser.ParseArgs | src/processor.ts:33-35 | On success, input and output are non-empty. |
| ArgParser.ParseArgsSpec | src/processor.ts:11-36 | The format error occurs exactly when some `--format=` is bad, and it takes precedence. The missing error occurs exactly when no format is bad but the input or output is not given a non-empty last value. On success, each field is its last given value. |
| ArgParser.LastInputWins | src/processor.ts:22 | Appending `--input=v` to a successful parse replaces the input by `v`, or makes the input missing when `v` is empty. |
| ArgParser.IgnoresUnrelatedArgs | src/processor.ts:21-32 | An argument that starts with none of the three flags can be removed without changing the result. |
| ArgParser.TypicalInvocation | src/processor.ts:11-36 | `ts-node src/cli.ts --input=i --output=o` gives input i, output o and no format. |
| ArgParser.FormatErrorTakesPrecedence | src/processor.ts:24-34 | `--format=xml` alone is a format error, not a missing-input error. |

## Left out

- **File I/O, JSON parsing, output rendering, the command-line entry point and batch processing.** These live outside the modelled functions. They are I/O, and their validation happens before the core is called.
- **The tests.** They are not modelled.
- **Concurrency.** The program has none in the core.
- **JavaScript floating point.** Amounts are exact reals, so binary rounding errors (0.1 + 0.2) and `NaN` or `Infinity` prices are not modelled. This also means the equality "rows add up to the total" holds exactly here, whereas in floating point it would hold up to representation error.
- **DateFormat.FormatDate: only inputs whose first three `-`-fields are non-empty digit strings are covered.**
  - `formatDate` in core.ts converts each field with unary `+`. That accepts much more number syntax than digit strings:
    - surrounding blanks and a sign (`" 7"`, `"+7"`);
    - a fraction or an exponent (`"7.5"`, `"1e3"`);
    - `0x`, `0o` and `0b` prefixes (`"0x7"`, `"0o7"`, `"0b11"`);
    - `"Infinity"`.
  - `""` and blank text become 0. A missing field (`undefined`) and any other text become `NaN`.
  - `formatDate` prints whatever number results, `NaN` included, without raising an error.
  - The model instead makes `SplitBill` fail with `MalformedDate` on every date outside this form. That failure is the model's own choice, not something core.ts does or documents.
- **Bill.CalculateTip, Persons.ScanPersons, Allocation.CalculatePersonAmount and Allocation.AdjustAmount: their bodies are empty in core.ts.** Only their comments say what they do.
  - Rounding to the closest 10 cents, and splitting shared items evenly but not personal ones, come from the comments.
  - Distinct owners in first-seen order, and putting the whole difference on the first person, are the model's own choices. The comments only say "scan the persons in the items" and "adjust the personal amount to match the total amount".
  - Other readings would also fit the comments, for example spreading the difference over several rows.
- **Allocation.AdjustAmount: an empty list of rows is returned unchanged.** With no rows there is nobody to put the difference on, so the rows cannot add up to the total. This happens when every item is shared.
- **Allocation.CalculatePersonAmount: per-person amounts are not rounded to cents.**
  - core.ts does not say amounts are rounded, and its only rounding is the tip's.
  - Because of this, the reconciliation residual is exactly the tip's rounding error.
- **Allocation.CalculatePersonAmount requires at least one person.** `calculateItems` only calls it with the number of scanned names, and it never calls it when there are none.
- **Allocation.CalculateItems takes the item list and the tip percentage as two arguments.**
  - `splitBill` passes them as one object (core.ts:50-53), but `calculateItems` is declared with two parameters (core.ts:87-90).
  - The model follows the evident intent: both values reach the function.
- **DateFormat.FormatDate: fields are exact naturals, whereas JavaScript reads them as doubles.**
  - Above 2^53 the double rounds: `"9007199254740993-1-1"` prints `9007199254740992年1月1日`.
  - From 10^21 on, `${}` prints exponent form (`1e+21`), and beyond about 1.8e308 it prints `Infinity`.
  - The contract therefore matches core.ts only for field values below 2^53.
- DateFormat.FormatDateOfFields: agrees with core.ts only for field values below 2^53, for the reason above.
- DateFormat.FormatDateOfNumbers: agrees with core.ts only for numbers below 2^53, for the reason above.
- Text.RenderedValueStripsZeros: models `${+s}` exactly, so it agrees with JavaScript only for values below 2^53.
- Text.DigitsToNat: models `+s` on digit strings exactly, so it agrees with JavaScript only for values below 2^53.
- Text.NatToString: models `${n}` on integers exactly, so it agrees with JavaScript only for values below 2^53 (and never uses exponent form).
- **ArgParser: the error messages are not modelled.** The two thrown errors are modelled as the two `ParseError` values, without their message text.
