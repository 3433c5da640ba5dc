# Payslip rendering and payslip filtering, modelled in Dafny

This project models the non-trivial core of a small Django payroll
application (`myapp/views.py`):

- **Emphasis font fallback** (`fonts.dfy`): at module load the application
  tries to register the DejaVu Sans regular and bold fonts and settles on the
  name of the font used for the money tables, the net-payable row and the
  signature table's name row, falling back to the built-in Helvetica-Bold. File existence and the success of each
  registration are inputs.
- **Payslip content builder** (`payslip_document.dfy`): `generate_payslip_pdf`
  assembles the elements of the one-page payslip: a two-column header (logo
  and company address, employee statement), the earnings and deductions
  tables side by side, the net-payable row, the amount in words, the
  acknowledgement title and the signature table. The builder is a method
  that appends step by step, as the view does. It is proved equal to a
  function that describes the whole document, and the properties of the
  document are proved about that function.
- **Month filter** (`months.dfy`): the filter key `"<Mon>-<year>"` built
  from the month code and year chosen on the payslip list page, and the
  month-name search loop that maps an abbreviation back to its code.
- **Filter choices** (`pay_periods.dfy`): the loop that reads every stored
  pay period such as `"1-Oct-2025 to 30-Oct-2025"`, collects the distinct
  month codes and years of the start dates, and sorts them (months
  ascending, years descending).

Python's string operations used on the way are modelled in `strings.dfy`
(`in`, `split`, `join`) and `string_order.dfy` (string `<` and
`list.sort()`). `wrappers.dfy` holds the `Option` type.

The callers pass `int` and `Decimal` values in the context
(`myapp/views.py:535-559`, `myapp/views.py:608-645`). The builder's
f-strings turn each one into text with `str()`. The model takes that `str()`
text as input, one string field per context key, and leaves the conversion
out. On that text the model proves that:

- the six money fields, the employee's name and the amount in words
  appear in the document unchanged and can be read back;
- each of the six employee details (name, ID, pay period, paid days,
  loss-of-pay days, payment date) appears right after its own label.

Behaviour of the code worth noting:

- If registering the bold DejaVu font raises after the regular one
  succeeded, the bare `except` at `myapp/views.py:38-40` ("Ultimate
  fallback") sets the emphasis font to Helvetica-Bold. It does not go back
  to the DejaVu Sans font that is already registered. `Fonts.ResolveFont`
  states exactly this.
- The builder reads every value with `context[...]`, so a missing key
  raises `KeyError`. The model's `Payslip` always has every field, and a
  blank field is shown blank.
- Amounts are shown exactly as `str()` renders them. Nothing forces two
  fractional digits.
- Years in the filter list are sorted as strings, not as numbers, with
  `reverse=True` ("Most recent years first", `myapp/views.py:758`). For
  four-digit years the two orders agree.

## Model

| member | source | states |
|---|---|---|
| Fonts.ResolveFont | myapp/views.py:25-40 | The emphasis font is always registered or built in. It is DejaVuSans-Bold exactly when both files exist and both registrations succeed. It is DejaVuSans exactly when only the regular file exists and loads. Otherwise it is Helvetica-Bold. DejaVuSans is registered exactly when its file exists and loads, and the bold font is never registered without it. |
| Strings.FindFrom | myapp/views.py:733-735 | The index found is the first occurrence of the separator at or after the start position. No result means there is no occurrence there. |
| Strings.Find | myapp/views.py:733-735 | The first occurrence of `sep` in `s`, or none exactly when `sep` does not occur anywhere. |
| Strings.Contains | myapp/views.py:733-735 | Python's `sep in s`: true exactly when `sep` occurs somewhere in `s`. `Strings.SplitFirst` and `PayPeriods.DatePart` state their results in its terms. |
| Strings.Split | myapp/views.py:734-736 | `s.split(sep)` for a non-empty separator: at least one field, joining the fields with `sep` gives back `s`, and no field contains `sep`. |
| Strings.SplitFirst | myapp/views.py:734-736 | Splitting gives a single field exactly when the separator is absent; otherwise the first field is the text before the first occurrence. |
| Strings.SplitJoinChar | myapp/views.py:736 | Splitting on a one-character separator undoes joining fields that do not contain it. |
| Strings.Join | myapp/views.py:734-736 | `sep.join(fields)`, used here as the inverse of `split`: `Strings.Split` joins back to its input, and `Strings.SplitJoinChar` splits a join back into its fields. |
| Strings.JoinSix | myapp/views.py:95-102 | Six joined fields are the fields separated by the separator, written out in full. |
| Strings.JoinHasField | myapp/views.py:95-102 | Every field of a joined sequence occurs in the joined string. |
| Strings.FindAfterClean | myapp/views.py:733-734 | In `a + sep + b`, where `a` does not contain the separator's first character, the first occurrence of the separator is right after `a`. |
| StringOrder.Less | myapp/views.py:757-758 | Python's `str <`, compared code point by code point with a proper prefix first. The four lemmas below prove it is a strict total order. |
| StringOrder.LessIrreflexive | myapp/views.py:757-758 | No string sorts before itself. |
| StringOrder.LessTransitive | myapp/views.py:757-758 | Python's string order is transitive. |
| StringOrder.LessTotal | myapp/views.py:757-758 | Any two different strings are ordered one way or the other. |
| StringOrder.LessAsymmetric | myapp/views.py:757-758 | Two strings never each sort before the other. |
| StringOrder.Insert | myapp/views.py:757-758 | Inserting into a sorted list keeps it sorted and adds exactly that one element. |
| StringOrder.Sort | myapp/views.py:757-758 | `list.sort()` and `list.sort(reverse=True)` give a permutation of the list in ascending or descending order. |
| StringOrder.SortedDistinctIsStrict | myapp/views.py:750-758 | A sorted list without duplicates is strictly ordered. |
| Months.MonthName | myapp/views.py:716-721 | `month_map.get(code, '')` gives a name exactly for the twelve codes, and the month search maps that name back to the same code. |
| Months.MonthNumber | myapp/views.py:743-748 | The code the search assigns to an abbreviation is paired with it in the month list. No code means no pair has that abbreviation. |
| Months.LookupMonthNumber | myapp/views.py:742-748 | The search loop returns the code of the first pair with that abbreviation, as `MonthNumber` does. It returns nothing exactly when no pair has that abbreviation. |
| Months.CodeToNameToCode | myapp/views.py:716-745 | Each code in the filter's month map is found again by searching for its abbreviation. |
| Months.NameToCodeToName | myapp/views.py:716-745 | Each abbreviation the search recognises is the map's name for the code it yields. |
| Months.RecognisedNames | myapp/views.py:716-745 | The search recognises an abbreviation exactly when it is a value of the filter's month map. |
| Months.FilterKey | myapp/views.py:714-723 | A filter key exists exactly when the year is non-empty and the month is one of the twelve codes. The key is the abbreviation that the search maps to that code, then a hyphen, then the year. |
| PayPeriods.DatePart | myapp/views.py:733-734 | There is a start date exactly when the period contains `" to "`. It is all the text before the first `" to "`, so it contains no `" to "` itself. |
| PayPeriods.MonthYearOfDate | myapp/views.py:735-750 | A date gives a result only with a month code of the map and a non-empty year. `MonthYearOfDateFields` states exactly which pair it gives. |
| PayPeriods.ExtractMonthYear | myapp/views.py:732-750 | What a period contributes is always a month code of the map paired with a non-empty year. `ExtractMonthYearFields` states exactly which pair it is: the one read from the start date. |
| PayPeriods.MonthYearOfDateFields | myapp/views.py:735-750 | A start date yields (m, y) exactly when, split on `"-"`, its second field is the abbreviation the search maps to m and its third field is y, which is non-empty. |
| PayPeriods.ExtractMonthYearFields | myapp/views.py:732-750 | A period contributes (m, y) exactly when it contains `" to "` and the text before the first `" to "`, split on `"-"`, has the abbreviation of m as its second field and the non-empty y as its third. |
| PayPeriods.ReadPayPeriod | myapp/views.py:732-750 | The loop body for one period, including the month search, computes exactly `ExtractMonthYear`. |
| PayPeriods.FilterOptions | myapp/views.py:727-758 | The month list holds exactly the month codes contributed by the periods, once each and strictly ascending. The year list holds exactly the years contributed, once each and strictly descending. Every listed month with every listed year gives a filter key. |
| PayPeriods.MonthsOfContributed | myapp/views.py:750-752 | A month code is collected exactly when some period contributes it. |
| PayPeriods.YearsOfContributed | myapp/views.py:750-754 | A year is collected exactly when some period contributes it. |
| PayPeriods.OfferedAreFilterable | myapp/views.py:714-754 | Any collected month combined with any collected year gives a filter key. |
| PayPeriods.DatePartOfWellFormed | myapp/views.py:733-734 | A start date without spaces is exactly the text before `" to "`. |
| PayPeriods.MonthYearOfWellFormed | myapp/views.py:735-750 | A date `day-Mon-year` gives Mon's code and that year. |
| PayPeriods.ExtractWellFormed | myapp/views.py:731-750 | A period `day-Mon-year to ...` contributes Mon's code and that year, whatever follows `" to "`. |
| PayPeriods.DateContainsKey | myapp/views.py:714-750 | A start date that gives (month, year) contains the month's abbreviation, a hyphen and the year. |
| PayPeriods.ExtractedPeriodMatchesFilter | myapp/views.py:714-750 | Choosing the month and year read from a period gives a filter key that occurs verbatim in that period, so the filter finds the payslip the choice came from. |
| PayPeriods.ExampleOctober2025 | myapp/views.py:731-734 | The documented format `"1-Oct-2025 to 30-Oct-2025"` gives month `"10"` and year `"2025"`. |
| PayslipDocument.Money | myapp/views.py:132-144 | A money cell (`f'{rupee} {amount}'`) reads back as exactly the amount written into it, and is two characters longer than the amount. The net-payable cell at line 271 is built the same way. |
| PayslipDocument.MoneyParsedBack | myapp/views.py:132-135 | Any text that reads as a money cell is the money cell of the amount read from it. |
| PayslipDocument.EarningsData | myapp/views.py:133-138 | Four rows of two cells: the header, then Basic, Incentive and Gross Earnings. Each amount cell reads back as the payslip's own amount text. |
| PayslipDocument.DeductionsData | myapp/views.py:140-145 | Four rows of two cells: the header, Income Tax, an all-blank row, then Total Deduction. The amounts read back verbatim. |
| PayslipDocument.EmployeeText | myapp/views.py:95-102 | The employee details f-string with its six labels, line breaks and indentation. `EmployeeTextIsJoinedLines` and `EmployeeDetailsShown` state what it shows. |
| PayslipDocument.EmployeeTextIsJoinedLines | myapp/views.py:95-102 | The paragraph is the six labelled lines joined by line breaks, between the opening and closing indentation. |
| PayslipDocument.EmployeeDetailsShown | myapp/views.py:95-102 | Each of the six employee details occurs right after its own label. |
| PayslipDocument.CompanyColumn | myapp/views.py:78-88 | The left header column: the optional logo and its spacer, then the company text. `LogoOptional` states what it contains. |
| PayslipDocument.EmployeeColumn | myapp/views.py:91-110 | The right header column: a 15-point spacer, the "Employee Statement" title, then the employee details paragraph. |
| PayslipDocument.PayslipElements | myapp/views.py:127-327 | The whole element list. `ElementOrder`, `MoneyTablesAligned`, `NetPayableVerbatim`, `AmountInWordsVerbatim` and `FieldsRecoverable` state its properties. |
| PayslipDocument.SignatureData | myapp/views.py:310-314 | Three rows of two cells: two lines of 25 underscores, the employee's name beside "AUTHORISED NAME", and the two company captions. |
| PayslipDocument.GeneratePayslip | myapp/views.py:54-327 | The appending builder produces exactly the document `PayslipElements` describes. |
| PayslipDocument.ElementOrder | myapp/views.py:127-327 | There are exactly ten elements in a fixed order: the header table holding `CompanyColumn` and `EmployeeColumn`, spacer 25, the money tables, spacer 30, the net-payable row, spacer 10, the amount in words, spacer 20, the acknowledgement title and the signature table. The net-payable row is `NetPayableTitle` beside the money cell of the net payable, and the signature table is `SignatureData`. |
| PayslipDocument.AmountInWordsVerbatim | myapp/views.py:304 | The amount-in-words paragraph is the bold label followed by exactly the caller's text. |
| PayslipDocument.MoneyTablesAligned | myapp/views.py:147-226 | The earnings and deductions tables sit side by side with a 20-point spacer between them. They have the same row count and the same column widths. |
| PayslipDocument.NetPayableVerbatim | myapp/views.py:270-273 | The net-payable cell reads back as the payslip's net payable. |
| PayslipDocument.LogoOptional | myapp/views.py:78-88 | The company column has an image exactly when the logo file exists. The four lines of company text are always last. |
| PayslipDocument.FieldsRecoverable | myapp/views.py:132-314 | Two payslips that differ in a money field, the employee's name or the amount in words never give the same document. |
| PayslipDocument.ExampleAshaRao | myapp/views.py:133-314 | For an example payslip, the gross-earnings cell reads "₹ 55000.00", the net payable reads "₹ 50000.00", and "Asha Rao" appears in the signature table. |
| PayslipDocument.ExampleAshaRaoDetails | myapp/views.py:95-102 | For an example payslip, the header's employee details paragraph is `EmployeeText` of it, and it shows "Asha Rao" after the name label and "E100" after the ID label. |

## Left out

- Page layout, painting and styling: the `ParagraphStyle` definitions, `TableStyle` commands, page frame and border, and `doc.build` (`myapp/views.py:42-53`, `myapp/views.py:329-351`). These are calls into the PDF library. Paragraphs keep only their style names.
- Where the chosen emphasis font is used: every row of the earnings table (`myapp/views.py:152`, `myapp/views.py:160`, `myapp/views.py:168`) and of the deductions table (`myapp/views.py:191`, `myapp/views.py:199`, `myapp/views.py:207`), the `NetPayableTitle` paragraph style (`myapp/views.py:242`), the net-payable amount cell (`myapp/views.py:284`) and the signature table's name row (`myapp/views.py:319`). The other bold paragraphs use styles without it. Styles are left out, so `Fonts.ResolveFont` models the choice but does not connect it to the document.
- Font files and the logo are checked on disk. Whether each exists, and whether each font registration succeeds, are boolean inputs.
- `str()` of the `int` and `Decimal` context values inside the builder's f-strings: the model takes the resulting text as its input.
- A context dictionary without one of the keys raises `KeyError`. The model's payslip record always has every field.
- Request handling: login and logout, form parsing, saving, the duplicate-payslip check, deleting payslips, the file response, and the timer that deletes the generated file. These are database, filesystem and thread work.
- The name search (`icontains` on name and ID), and applying the filter key through the case-insensitive `pay_period__icontains` query. These are database queries. `PayPeriods.ExtractedPeriodMatchesFilter` proves that the key occurs exactly in the period, and exact occurrence implies the case-insensitive match.
- The order in which the database returns payslips. `PayPeriods.FilterOptions` takes the pay periods as a sequence in any order, and its result does not depend on that order.
- `models.py`, `urls.py`, `admin.py` and the templates are not part of this model.
