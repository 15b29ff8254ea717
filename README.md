# Document-context helpers of the HR document generator, in Dafny

The generator fills Word templates (employment contract, order, job
description) for each selected employee. Before rendering, it derives a set
of text fields from the employee's table row, from the company data and from
the model's answers. This project models the deterministic helpers behind
those fields and proves what they promise.

- **Passport line** (`passport.dfy`, module `Passport`):
  - `clean_val` turns a table cell into "absent" or a trimmed string.
  - The row's labels are lower-cased and trimmed into a dictionary, with Python's dict-comprehension semantics for labels that collide.
  - `build_passport_string` makes three scans over the labels. They find the document number, the issuer and the issue date.
  - It then joins `Паспорт: …`, `выдан …` and `дата выдачи …` with `", "`.
  - The scans are `for` loops with `break` and `continue`, proved against a first-match specification.
- **Morphology** (`morphology.dfy`, module `Morphology`):
  - `get_inflected` is a loop over the whitespace tokens.
  - `get_initials`.
  - `get_gender_word`: the patronymic rule first, then the analyzer on the first name.
  - `clean_case`.
  - The `pymorphy3` analyzer is a value of type `Analyzer` holding two functions, passed in by the caller. `None` in its place models "the analyzer could not be loaded".
- **Document numbers** (`doc_number.dfy`, module `DocNumber`): `increment_doc_number` bumps the leftmost maximal run of ASCII digits.
- **Dates** (`dates.dfy`, module `Dates`):
  - `strftime("%d.%m.%Y")`, used for the issue date and for the short document date.
  - The long form `«DD» месяца YYYY г.`.
- **Context strings** (`context.dfy`, module `DocContext`):
  - `salary_digits` is `f"{salary:,}"` with the commas replaced by spaces.
  - The archive entry name of each per-person document.
- **JSON fences** (`json_fence.dfy`, module `JsonFence`): `clean_json_response` strips the reply, removes the ```` ```json ```` and ```` ``` ```` markers, and keeps the span from the first `{` to the last `}`.
- **Python built-ins** (`pystr.dfy`, `decimal.dfy`, `wrappers.dfy`): the `str` methods the helpers rely on, written out on `seq<char>`:
  - `split`, `join`, `strip`, `lower`, `upper`, `capitalize`, `replace`, `find`, `rfind` and `in`;
  - `int(s)`, `str(n)` and zero padding;
  - an `Option` type.

Exceptions caught by the source become `Option` values:
- `morph.parse` or `inflect` raising, or returning nothing, is `None` from `Analyzer.inflect`.
- `pd.to_datetime(...).strftime(...)` raising is `None` from the `parseDate` parameter.

## Model

| member | source | states |
|---|---|---|
| `Passport.CleanVal` | main.py:46-50 | a missing cell, or one that is blank or "nan" after trimming, is absent; otherwise the value is the trimmed text, which is non-empty and already trimmed |
| `Passport.CleanValIdempotent` | main.py:46-50 | cleaning a cleaned value again gives the same value |
| `Passport.NormKey` | main.py:53 | a normalised label is already trimmed and has no upper-case character |
| `Passport.NormKeyIdempotent` | main.py:53 | normalising a normalised label changes nothing |
| `Passport.Put` | main.py:53 | after assigning `d[k] = v`, the keys stay distinct. The key list is unchanged when `k` was present and gains `k` at the end otherwise. The pair `(k, v)` is in the result, and every entry with another key keeps its place and value |
| `Passport.DictFrom` | main.py:53 | the dictionary built from pairs has distinct keys |
| `Passport.Lowered` | main.py:53 | the normalised row has distinct labels |
| `Passport.DictFromKeys` | main.py:53 | the dictionary's keys are exactly the keys of the pairs |
| `Passport.DictFromLastWins` | main.py:53 | a key carries the value of its last pair |
| `Passport.LoweredKeys` | main.py:53 | the labels of the normalised row are exactly the lower-cased, trimmed labels of the row |
| `Passport.LoweredLastWins` | main.py:53 | when labels collide after normalisation, the later column's value wins |
| `Passport.DictFromDistinct` | main.py:53 | pairs whose keys are already distinct build a dictionary with the same entries in the same order |
| `Passport.LoweredInColumnOrder` | main.py:53 | when no two labels collide after normalisation, the normalised row is the row's columns in order, each under its normalised label |
| `Passport.Matches` | main.py:56-73 | a label is a number candidate exactly when it contains "паспорт", "серия", "номер" or "документ"; an issuer candidate exactly when it contains "выдан" or "кем" and neither "дата" nor "когда"; a date candidate exactly when it contains "дата", "когда" or "число" |
| `Passport.FieldPick` | main.py:56-74 | a column yields a value exactly when its label is a candidate for the field and its cell cleans to a value, and the value yielded is the cleaned cell |
| `Passport.FirstPick` | main.py:55-78 | a value found by a scan is the value of some column |
| `Passport.FirstPickIsFirstHit` | main.py:55-78 | a scan finds nothing exactly when no column yields a value; otherwise its value is that of the first column that yields one |
| `Passport.FirstPickSuffix` | main.py:55-78 | a column that yields nothing can be skipped |
| `Passport.FirstValue` | main.py:55-78 | a found field value is never empty |
| `Passport.IssuerNotFromDateLabel` | main.py:64-69 | the issuer is the cleaned value of a column whose label contains neither "дата" nor "когда" |
| `Passport.FormatNumber` | main.py:58-60 | a ten-digit value becomes four digits, a space and the other six; anything else is kept |
| `Passport.RenderDate` | main.py:75-78 | a date the parser accepts is re-rendered as `DD.MM.YYYY`, ten characters with dots at positions 2 and 5; otherwise the text is kept |
| `Passport.PassportParts` | main.py:81-85 | the list holds one entry, plus one for an issuer and one for a date. The first entry is `Паспорт: ` and the number, or the placeholder when there is none; an issuer gives `выдан …` second; a date gives `дата выдачи …` last |
| `Passport.JoinedParts` | main.py:81-86 | joining the parts gives the number clause (or the placeholder), then `, выдан …` only when there is an issuer, then `, дата выдачи …` only when there is a date |
| `Passport.PassportString` | main.py:52-86 | the passport line always starts with `Паспорт: ` |
| `Passport.PassportClauses` | main.py:52-86 | the passport line, clause by clause, in terms of the three scan results |
| `Passport.PassportOpening` | main.py:55-62 | the line starts with `Паспорт: `, followed by the formatted first usable number, or by the placeholder of 18 underscores when there is none |
| `Passport.ScanNumber` | main.py:54-62 | the first loop yields the formatted number of the first usable number column, or `""` |
| `Passport.ScanIssuer` | main.py:64-69 | the second loop yields the first usable issuer that is not under a date label, or `""` |
| `Passport.ScanIssueDate` | main.py:71-78 | the third loop yields the rendered first usable date, or `""` |
| `Passport.BuildPassportString` | main.py:52-86 | the method's result equals the first-match specification `PassportString` |
| `Morphology.InflectWord` | main.py:168-180 | a token the analyzer cannot inflect is kept verbatim; an inflected token is capitalised when the original began upper-case; tokens stay tokens |
| `Morphology.InflectedText` | main.py:164-185 | empty text, or text with no analyzer, is returned as is; otherwise the result never starts with a lower-case letter |
| `Morphology.GetInflected` | main.py:164-185 | the loop's result equals `InflectedText` |
| `Morphology.InflectedTokens` | main.py:167-185 | when the analyzer returns single words, the result has as many tokens as the input, and they are the inflected tokens with the first upper-cased |
| `Morphology.BlankTextInflectsToEmpty` | main.py:181-185 | whitespace-only text comes back as `""` once the analyzer is loaded |
| `Morphology.GetInitials` | main.py:187-192 | with three or more tokens, the result is the capitalised surname, a space and the upper-cased initials of tokens 2 and 3, each followed by a dot; with fewer tokens, the input is returned |
| `Morphology.InitialsTokens` | main.py:187-192 | the initials form exactly two tokens |
| `Morphology.InitialsIgnoreExtraTokens` | main.py:189-191 | tokens after the third do not change the result |
| `Morphology.InitialsExample` | main.py:187-192 | "Иванов Иван Иванович" gives "Иванов И.И." |
| `Morphology.ShortNameExample` | main.py:187-192 | "Иванов" is returned unchanged |
| `Morphology.GetGenderWord` | main.py:194-208 | the result is one of the two words: masculine for a nameless input, feminine for a patronymic ending вна/чна/шна, masculine for one ending вич, otherwise the analyzer's reading of the first name, with masculine by default |
| `Morphology.PatronymicOverridesAnalyzer` | main.py:197-202 | once the patronymic decides, the analyzer does not matter |
| `Morphology.GenderIff` | main.py:194-208 | with distinct words, the feminine word comes out exactly when there is feminine evidence |
| `Morphology.FeminineExample` | main.py:198-200 | "Иванова Мария Петровна" gives "принята", with or without an analyzer |
| `Morphology.MasculineExample` | main.py:201-202 | "Петров Иван Сергеевич" gives "принят", with or without an analyzer |
| `Morphology.CountUpper` | main.py:93 | the count of upper-case characters is at most the length |
| `Morphology.MostlyUpper` | main.py:93-94 | the test holds exactly when the text is longer than four characters and fewer than a fifth of them are not upper-case; then at least five are upper-case |
| `Morphology.CleanCase` | main.py:88-96 | the length is kept; text longer than four characters and more than 80% upper-case is capitalised; anything else is returned unchanged |
| `Morphology.CleanCaseIdempotent` | main.py:88-96 | applying `clean_case` twice is the same as once |
| `DocNumber.FirstDigitRun` | main.py:212 | the leftmost maximal run of digits: none exactly when the text has no digit, otherwise the bounds of a digit run with no digit before it and a non-digit (or the end) after it |
| `DocNumber.IncrementDocNumber` | main.py:210-217 | step 0 returns the input; no digit gives the input + `-` + str(step+1); otherwise only the first digit run is replaced, by the decimal of its value plus the step |
| `DocNumber.IncrementAdditive` | main.py:210-217 | bumping by s and then by t is bumping by s+t |
| `DocNumber.Examples` | main.py:210-217 | ("12-К", 0) → "12-К", ("12-К", 3) → "15-К", ("ABC", 1) → "ABC-2" |
| `Dates.StrftimeDMY` | main.py:449 | a valid date prints as ten characters with dots at positions 2 and 5 |
| `Dates.ParseDMY` | main.py:449 | the reference inverse of the printed form (the source itself parses with `pd.to_datetime`, the `parseDate` oracle): only a ten-character text is read back as a date |
| `Dates.StrftimeRoundTrip` | main.py:449 | reading the printed date back gives the date |
| `Dates.StrftimeInjective` | main.py:449 | distinct valid dates print differently |
| `Dates.DateShort` | main.py:449 | the short date is the printed date followed by " г." |
| `Dates.DateFull` | main.py:450-451 | the long date is exactly four words joined by single spaces: «DD», the month's genitive name, the unpadded year and "г." |
| `Dates.DateFullInjective` | main.py:450-451 | distinct valid dates have distinct long forms |
| `Dates.MonthNamesDistinct` | main.py:450 | the twelve month names are pairwise distinct |
| `DocContext.CommaGrouped` | main.py:602 | the numeral with commas is its groups of three digits, counted from the right, joined by commas |
| `DocContext.FormatThousands` | main.py:602 | a formatted integer is its sign, then the groups of its magnitude's numeral joined by commas: one to three digits first, exactly three after, and together the numeral |
| `DocContext.SalaryDigits` | main.py:602 | the salary string is the sign, then the digit groups joined by single spaces |
| `DocContext.SalaryDigitsGroups` | main.py:602 | the salary string is the sign, then digit groups joined by single spaces: one to three digits first, exactly three after; the groups together are the numeral |
| `DocContext.SalaryDigitsValue` | main.py:602 | deleting the spaces gives `str(salary)` |
| `DocContext.SalaryDigitsWords` | main.py:602 | for a non-negative salary, the space-separated words are exactly the groups |
| `DocContext.SalaryExample` | main.py:602 | 120000 gives "120 000" |
| `DocContext.SafeFio` | main.py:628 | the person's part of the name has no dot |
| `DocContext.PersonPrefix` | main.py:630 | the entry name's prefix starts with at least two digits before its first `_`, and they are the number i+1 |
| `DocContext.OutputFileName` | main.py:628-630 | the entry name ends with `_<style>.docx` |
| `DocContext.FileNameIndex` | main.py:630 | the digits before the first `_` are the number i+1 |
| `DocContext.FileNameIndexInjective` | main.py:630 | documents of different people never share a name |
| `DocContext.FileNameDocInjective` | main.py:630 | for one person, role and style, different documents get different names |
| `JsonFence.RemoveFencesComplete` | ai_utils.py:35 | after ```` ``` ```` is replaced by nothing, no ```` ``` ```` is left |
| `JsonFence.RemoveFencesLeadingTicks` | ai_utils.py:35 | the removal leaves fewer than three leading backticks, and keeps a shorter leading run as it is |
| `JsonFence.Unfenced` | ai_utils.py:33-35 | the stripped, de-fenced text has no ```` ``` ````; a reply without a fence is only stripped |
| `JsonFence.BraceSpanOf` | ai_utils.py:36-39 | the result is a piece of its input. With no `{` or no `}`, it is the input. When the first `{` comes before the last `}`, it is that inclusive span, which starts with `{` and ends with `}`. When the last `}` comes first, it is empty |
| `JsonFence.CleanJsonResponse` | ai_utils.py:32-40 | the reply never contains ```` ``` ````, and is a piece of the stripped, de-fenced text: all of it without braces, the inclusive brace span when `{` comes first, and empty when `}` comes first. Whitespace that fence removal exposes is kept |

## Left out

- The Streamlit interface, session state, uploads, the progress bar and the download button are user interface and I/O.
- The names of the shared archive entries are not modelled: `00_INFO.txt` (main.py:471), `00_Опись<style>.docx` (main.py:496), `00_Сводный_приказ_Ответственные<style>.docx` (main.py:535), and the responsible person's order `00_Приказ_Ответственный_<initials or Директор><style>.docx` (main.py:545, 548, 573).
- The batch loop is not modelled. Its `role` is always `"emp"`, so the `"resp"` role of `DocContext.Role` is never produced.
- Reading CSV and XLSX files is not modelled: it is pandas I/O with encoding fallbacks.
- PDF extraction and the LLM calls in `ai_utils.py` are not modelled: they are network calls.
- Image trimming and overlay, the docx rich-text wrappers and zip writing are not modelled: they are library calls.
- `num2words` for `salary_words` is a foreign library.
- `pd.to_datetime` is an oracle: the `parseDate` parameter of `BuildPassportString`. It hands back a valid date (`Dates.ParsedDate`) or nothing, and the model prints the date with its own `%d.%m.%Y`.
- `pymorphy3` is an oracle: the `Analyzer` value. Its `inflect` gives the inflected word or `None`; its `feminine` gives whether the first parse is tagged `femn`, or `None` when parsing raises.
- Letter case is modelled only for ASCII and for Cyrillic U+0400..U+045F. Python's full Unicode case mapping, including characters whose upper case is two characters long, is not modelled.
- `isdigit` and `\d` are modelled for ASCII digits only. Other Unicode digits are not.
- Cell values are modelled as the text `str(val)` gives. `Missing` stands for what `pd.isna` recognises.
- `Dates.StrftimeDMY`: years below 1000 print zero-padded to four digits. The source's `%Y` on such years depends on the platform.
- A valid date has a day of at most 31, whatever the month. The calendar's month lengths are left to the parser and to `datetime.date`.
- `Morphology.CleanCase`: the source's floating-point test `upper / len > 0.8` is written as the exact integer comparison `5 * upper > 4 * len`. The two agree while the text is shorter than about 2^50 characters.
- Grammatical cases are limited to the three tags the builder uses: `gent`, `accs` and `datv`.
- The model takes `str` arguments only for `clean_case`, `get_inflected` and `get_initials`; the `str(text)` conversion is not modelled. `clean_case` gets raw JSON values from the model's answer (main.py:370-373), which need not be strings. A row with an empty `ФИО` or `Должность` cell gets a NaN `search_key` (main.py:132) and shows as "nan" in the selector; selecting it makes the lookup at main.py:418 empty, since NaN never equals NaN, and `.iloc[0]` raises before the per-person loop runs, so no archive is produced. This failure path is not modelled.
