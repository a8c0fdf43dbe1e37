# img2excel: reply parsing, validation, date normalisation and row flattening

img2excel reads photographed expense claims (报销单) with a vision model
and turns the model's replies into a spreadsheet. This project models the
decision logic between the model's free-text reply and the spreadsheet rows,
and proves properties of it in Dafny.

- `QwenProcessor.process_image`, after the request. The first `{` through the
  last `}` of the reply is cut out. The candidate is decoded strictly. If that
  fails, every `'` is replaced by `"` and the text is decoded once more.
  `json.loads` is an abstract partial decoder, the parameter
  `decode: string -> Option<Json>`.
- `QwenProcessor.validate_response`. The reply must be a dict holding the six
  required keys, with `项目` a list of dicts that each hold `名称` and `金额`.
  The total is never compared with the items. Any exception raised inside
  reads as `False`. Python's `in` and subscript are modelled on every kind of
  JSON value, with the exceptions they raise.
- `ExcelProcessor._format_date`. Four `strptime` formats are tried in order:
  `%Y年%m月%d日`, `%Y-%m-%d`, `%Y/%m/%d` and `%Y.%m.%d`. The first parse is
  rendered as an ISO 8601 calendar date in extended format, `YYYY-MM-DD`
  (ISO 8601:2004 section 4.1.2.2). If none parses, the input is returned
  unchanged. `strptime` is modelled as CPython's `_strptime` works for these
  directives:
  - the format becomes a regular expression of alternations;
  - `%Y` is `\d\d\d\d`, `%m` is `1[0-2]|0[1-9]|[1-9]`, and `%d` is
    `3[01]|[12]\d|0[1-9]|[1-9]| [1-9]`;
  - the expression is matched at the start with backtracking, first
    alternative first;
  - a match that leaves characters over is rejected;
  - `datetime.date` rejects a day that does not exist (Gregorian leap years,
    year 1 to 9999).
- `ExcelProcessor.create_excel`, up to `to_excel`. This is an imperative
  method. It appends one row per line item of every record to a sequence of
  rows. Each row repeats the record's header fields and its total. The first
  exception aborts the whole call. `float()` on a string is the abstract
  parameter `parseFloat`.

Modules:
- `Wrappers`: Option and Result.
- `JsonData`: the decoded JSON value and Python's `in`, `[]` and `float()` on it.
- `Dates`: calendar, decimal digits and the ISO rendering.
- `Strptime`: the regex engine, strptime, and the description of the strings
  each format accepts.
- `DateFormat`: `_format_date`.
- `QwenProcessor`: extraction, repair, retry and validation.
- `ExcelProcessor`: row building and the `CreateExcel` method.
- `Pipeline`: validated replies feeding row building, and one reply end to end.

What the proofs establish:
- Under the four formats, `strptime` accepts exactly the spellings of real
  dates: `StrptimeOfSpelling` and `StrptimeSound`.
- The four formats exclude each other. They differ in their first separator,
  so the order in which they are tried never changes the result.
- The output of `_format_date` is a fixed point, so `_format_date` is
  idempotent.
- The extracted candidate is exactly the slice between the braces.
- The repair keeps the length and removes every `'`.
- The decoder is consulted at most twice.
- `validate_response` is equivalent to a declarative shape predicate.
- `CreateExcel` computes the recursive specification `Flatten`. That
  specification yields one row per item, in record order and then item order.

## Model

| member | source | states |
|---|---|---|
| `Dates.DaysInMonth` | utils/excel_processor.py:27 | The length of a month as `datetime.date` checks it: between 28 and 31, and 29 exactly for February of a Gregorian leap year. |
| `Dates.DigitsValue` | utils/excel_processor.py:28 | Rendering a number with the zero padding `%Y`/`%m`/`%d` use and reading the digits back gives the number. |
| `Dates.Digits` | utils/excel_processor.py:28 | A zero-padded field of width w is exactly w decimal digits; `Digits1` and `Digits2` give the one- and two-digit renderings digit by digit. |
| `Dates.ValueDigits` | utils/excel_processor.py:27 | Reading a digit string and rendering it at its own width gives the string back. |
| `Dates.RenderIsIso` | utils/excel_processor.py:28 | `Render` models `strftime('%Y-%m-%d')`. For a valid date it gives a 10-character YYYY-MM-DD string that spells that same date. |
| `Dates.IsoIsRender` | utils/excel_processor.py:28 | Every YYYY-MM-DD string naming a real date is the rendering of that date. |
| `Strptime.Search` | utils/excel_processor.py:27 | The regex match captures one group per directive, each group in its directive's language, and the groups together form a prefix of the input. |
| `Strptime.TryAlternatives` | utils/excel_processor.py:27 | Trying a directive's alternatives in order yields captures in each directive's language that form a prefix of the input. |
| `Strptime.Strptime` | utils/excel_processor.py:27 | Whatever `datetime.strptime` returns is a real calendar date. |
| `Strptime.SearchSpelling` | utils/excel_processor.py:27 | The first-alternative-first engine matches every spelling of a date in full, one group per directive. |
| `Strptime.StrptimeOfSpelling` | utils/excel_processor.py:27 | Completeness. Every spelling of an in-range date parses, to that date, when the date is real, and fails otherwise. Spellings are: a 4-digit year; the month with or without its zero; the day as "05", "5" or " 5". |
| `Strptime.StrptimeSound` | utils/excel_processor.py:27 | Soundness. Whatever a format accepts is a real date, and the input is one of that date's spellings: no partial matches and no extra characters. |
| `Strptime.FirstSeparatorAt4` | utils/excel_processor.py:18-23 | A format accepts only strings that carry its first separator at index 4. |
| `Strptime.FieldsOfPattern` | utils/excel_processor.py:27 | The three captured groups of a match are numerals, and `strptime` assigns `int()` of the first to the year, of the second to the month and of the third to the day. |
| `Strptime.MonthTextValue` | utils/excel_processor.py:27 | `int()` of a month spelled with or without its leading zero is that month. |
| `Strptime.DayTextValue` | utils/excel_processor.py:27 | `int()` of a day spelled as "05", "5" or " 5" is that day. |
| `DateFormat.FirstLayout` | utils/excel_processor.py:25-30 | The loop over the formats stops at the first one that parses. The index it returns points at a format that parses, or past the end when none does, and every format before it fails. |
| `DateFormat.FormatDate` | utils/excel_processor.py:14-36 | `_format_date` returns its input or a valid YYYY-MM-DD date. |
| `DateFormat.LayoutsExclusive` | utils/excel_processor.py:18-30 | At most one of the four formats parses any string. |
| `DateFormat.FormatDateParses` | utils/excel_processor.py:25-28 | Whichever format parses the input, the output is that date in YYYY-MM-DD form. |
| `DateFormat.FormatDateFailOpen` | utils/excel_processor.py:32-36 | When no format parses, the input is returned verbatim. |
| `DateFormat.FormatDateSound` | utils/excel_processor.py:25-28 | A changed output means the input spelled a real date under one of the formats, and the output renders that date. |
| `DateFormat.OthersReject` | utils/excel_processor.py:18-30 | A spelling under one format is rejected by each of the other three formats. |
| `DateFormat.FormatDateOfSpelling` | utils/excel_processor.py:18-36 | A spelling under any of the four formats becomes YYYY-MM-DD if the date is real, and is left unchanged otherwise. |
| `DateFormat.CanonicalFixedPoint` | utils/excel_processor.py:20-28 | A YYYY-MM-DD date re-parses under `%Y-%m-%d` to itself. |
| `DateFormat.FormatDateIdempotent` | utils/excel_processor.py:14-36 | `_format_date(_format_date(s)) == _format_date(s)`. |
| `DateFormat.FormatDateNoSeparator` | utils/excel_processor.py:25-36 | A string without one of the four first separators at index 4 is returned unchanged. |
| `DateFormat.ChineseDate` | utils/excel_processor.py:19 | "2024年5月1日" becomes "2024-05-01". |
| `DateFormat.SlashedDate` | utils/excel_processor.py:21 | "2023/12/31" becomes "2023-12-31". |
| `DateFormat.BlankLedDay` | utils/excel_processor.py:22 | "2024.05. 7" becomes "2024-05-07", because `%d` admits a blank before a single digit. |
| `DateFormat.LeapDay` | utils/excel_processor.py:20 | "2024-02-29" is already canonical and stays. |
| `DateFormat.NotALeapDay` | utils/excel_processor.py:32-36 | "2023-02-29" is rejected by every format and comes back unchanged. |
| `DateFormat.YearZero` | utils/excel_processor.py:32-36 | "0000-01-01" matches the pattern, but year 0 is not a date, so it comes back unchanged. |
| `DateFormat.NotADate` | utils/excel_processor.py:32-36 | "not-a-date" comes back unchanged. |
| `JsonData.Subscript` | utils/excel_processor.py:54-57 | `v[key]` succeeds iff v is a dict holding the key, and then yields the key's value. It raises KeyError for a dict without the key and TypeError for any other value. |
| `JsonData.Contains` | utils/qwen_processor.py:109 | `key in v` succeeds iff v is a dict, a list or a str, and raises TypeError otherwise. On a dict it tests the keys, on a list whether some element equals the string, on a str whether the key occurs as a substring at some index. |
| `JsonData.InfixIff` | utils/qwen_processor.py:109 | The substring test on a str holds iff the key occurs at some index. |
| `JsonData.ToFloat` | utils/excel_processor.py:65-66 | `float(v)` succeeds iff v is a number, a bool or a str that `parseFloat` accepts. A number keeps its value, True and False give 1.0 and 0.0, a str gives the parsed value. A rejected str raises ValueError; None, a list or a dict raises TypeError. |
| `QwenProcessor.Find` | utils/qwen_processor.py:71 | `find` returns -1 iff the character is absent, and otherwise the index of its first occurrence. |
| `QwenProcessor.RFind` | utils/qwen_processor.py:72 | `rfind` returns -1 iff the character is absent, and otherwise the index of its last occurrence. |
| `QwenProcessor.Slice` | utils/qwen_processor.py:75 | `s[start:end]` has length `end - start`, or is empty when the end is not past the start, and its character i is `s[start + i]`. |
| `QwenProcessor.ExtractCandidate` | utils/qwen_processor.py:71-75 | Fails with NoJsonFound iff a `{` or a `}` is missing. Otherwise the candidate is exactly the text from the first `{` to the last `}` inclusive, or empty when the last `}` comes first. The candidate is a substring of the reply, and if non-empty it starts with `{` and ends with `}`. |
| `QwenProcessor.RepairQuotes` | utils/qwen_processor.py:82 | The replace keeps the length, turns each `'` into `"`, leaves every other character as it was, and leaves no `'`. |
| `QwenProcessor.RepairQuotesIdempotent` | utils/qwen_processor.py:82 | Repairing twice is repairing once. |
| `QwenProcessor.SingleQuoted` | utils/qwen_processor.py:50 | The single-quoted JSON style of the prompt's example keeps the length and leaves no `"`. |
| `QwenProcessor.RepairUndoesSingleQuoted` | utils/qwen_processor.py:50-82 | The repair restores any single-quoted text that had no `'` of its own. |
| `QwenProcessor.ParseResponse` | utils/qwen_processor.py:69-90 | NoJsonFound iff a brace is missing. A strict decode that succeeds is returned and no repair is made. Otherwise the outcome succeeds iff the repaired candidate decodes. Any value returned comes from one of those two decodes. |
| `QwenProcessor.ParseResponseConsults` | utils/qwen_processor.py:78-83 | At most one retry: the outcome depends on the decoder only at the candidate and its repaired form. |
| `QwenProcessor.RepairedCandidate` | utils/qwen_processor.py:78-83 | A candidate the strict decode rejects but whose repaired form decodes yields the repaired value. |
| `QwenProcessor.SingleQuotedReplyRecovered` | utils/qwen_processor.py:69-86 | A reply carrying single-quoted JSON between brace-free prose is recovered by the repair when the strict decode rejects it. |
| `QwenProcessor.FramedCandidate` | utils/qwen_processor.py:71-75 | A text that starts with `{` and ends with `}` is the candidate, when the prose before it has no `{` and the tail after it has no `}`. |
| `QwenProcessor.ReversedBraces` | utils/qwen_processor.py:71-75 | For "}{" the candidate is empty, so the call fails as malformed, not as missing JSON. |
| `QwenProcessor.CheckRequired` | utils/qwen_processor.py:104-111 | On a dict, the field loop reports whether every required key is present. On None, a bool or a number, `in` raises TypeError. |
| `QwenProcessor.CheckItems` | utils/qwen_processor.py:119-122 | The item loop accepts iff every item is a dict holding `名称` and `金额`. |
| `QwenProcessor.ValidationSteps` | utils/qwen_processor.py:106-133 | The steps inside the `try` never raise on a dict; whatever they raise is TypeError. They return True exactly for a well-shaped reply. |
| `QwenProcessor.ValidateResponse` | utils/qwen_processor.py:100-137 | `validate_response` returns True iff the reply is well shaped: a dict with the six keys, `项目` a list, and every item a dict with `名称` and `金额`. It always returns a boolean. |
| `QwenProcessor.MissingFieldRejected` | utils/qwen_processor.py:108-111 | A missing required key fails validation. |
| `QwenProcessor.TotalIgnored` | utils/qwen_processor.py:124-133 | Replacing the total by any value keeps a valid reply valid. |
| `QwenProcessor.EmptyItemsAccepted` | utils/qwen_processor.py:119-133 | An empty item list is accepted. |
| `QwenProcessor.NonObjectRejected` | utils/qwen_processor.py:106-137 | Only dicts are accepted. |
| `QwenProcessor.ListOfFieldNamesRaises` | utils/qwen_processor.py:108-137 | A list of the six key names passes the membership loop, then raises TypeError on `data["项目"]`. The catch-all turns that into False. |
| `ExcelProcessor.Cells` | utils/excel_processor.py:10-12 | A row has one cell per entry of `self.columns`, in that order: 报销单号, 日期, 报销人, 部门, 项目名称, 金额 and 总金额. The last two are the coerced numbers. |
| `ExcelProcessor.FormatDateValue` | utils/excel_processor.py:55 | The header date is either kept, or it was a string and is now a valid YYYY-MM-DD date. A non-string makes `strptime` raise, and that exception is swallowed. |
| `ExcelProcessor.FormatDateValueIdempotent` | utils/excel_processor.py:55 | Normalising a header date twice is normalising it once. |
| `ExcelProcessor.HeaderOf` | utils/excel_processor.py:53-58 | `base_info` exists iff the record is a dict with the four header keys, and then holds their values with the date normalised. It raises TypeError for a non-dict and KeyError for a missing key. |
| `ExcelProcessor.ItemsOf` | utils/excel_processor.py:61 | Iterating `result['项目']` goes through iff the record is a dict holding `项目` and that value is a list, or an empty dict or str. A missing `项目` raises KeyError. A non-dict record, a None/bool/number `项目`, or a non-empty dict or str raises TypeError. When it goes through, it visits `len(result['项目'])` items, exactly the list's elements when `项目` is a list. |
| `ExcelProcessor.ItemRow` | utils/excel_processor.py:62-67 | A row is built iff the item is a dict with `名称` and a coercible `金额`, and the record holds a coercible `总金额`. The row copies the header and the name, and holds the two coerced amounts. |
| `ExcelProcessor.CellsOfItemRow` | utils/excel_processor.py:62-67 | The cells of a built row are the header's four values, the item's `名称`, `float(item['金额'])` and `float(result['总金额'])`. |
| `ExcelProcessor.ItemRows` | utils/excel_processor.py:61-69 | The inner loop over the items, as a recursive function: when it goes through, it yields one row per item. |
| `ExcelProcessor.ItemRowsSpec` | utils/excel_processor.py:61-69 | The item loop yields one row per item, in item order, or the exception of the first item that raises. |
| `ExcelProcessor.RecordRows` | utils/excel_processor.py:51-69 | One record's pass, header then items: when it goes through, it yields `len(result['项目'])` rows. |
| `ExcelProcessor.RecordRowsSpec` | utils/excel_processor.py:51-69 | A record contributes `len(result['项目'])` rows. Every row carries the record's 报销单号, normalised 日期, 报销人, 部门 and the same coerced 总金额. |
| `ExcelProcessor.FlattenOk` | utils/excel_processor.py:51-77 | `Flatten` is the outer loop over the records, as a recursive specification. It produces rows iff every record goes through. |
| `ExcelProcessor.FlattenAppend` | utils/excel_processor.py:51-69 | Rows appear in record order: the rows of two record lists concatenated are the first list's rows followed by the second's, and the first exception wins. |
| `ExcelProcessor.FlattenFailsAt` | utils/excel_processor.py:75-77 | The first record that raises decides the exception of the whole call. |
| `ExcelProcessor.FlattenErrPrefix` | utils/excel_processor.py:51-77 | Once the records so far raise, more records change nothing: the call raises that same exception. |
| `ExcelProcessor.FlattenCount` | utils/excel_processor.py:51-69 | The number of rows is the sum of `len(result['项目'])` over the records. |
| `ExcelProcessor.FlattenPlacesRecord` | utils/excel_processor.py:51-69 | Record i's rows sit, in item order, directly after the rows of the records before it. |
| `ExcelProcessor.AmountCoercionFails` | utils/excel_processor.py:65 | An item amount that `float()` rejects makes the whole call raise. |
| `ExcelProcessor.TotalCoercionFails` | utils/excel_processor.py:66 | A total that `float()` rejects, in a record with an item, makes the whole call raise. |
| `ExcelProcessor.EmptyRecordSkipsTotal` | utils/excel_processor.py:61-66 | A record with an empty item list adds no rows and raises nothing, whatever its total, even when it has none. |
| `ExcelProcessor.CreateExcel` | utils/excel_processor.py:38-77 | The loop's outcome is exactly the specification `Flatten`: every row in order, or the first exception. |
| `Pipeline.ShapedRecordRows` | utils/excel_processor.py:61-67 | For a reply `validate_response` accepts, rows exist iff every item amount coerces, and the total coerces whenever there is an item. Row k then names item k and holds its coerced amount. |
| `Pipeline.ReplyCandidate` | utils/qwen_processor.py:71-75 | The candidate of the sample reply "Here is the data: {'报销单号':'A001',…}" is its single-quoted JSON. |
| `Pipeline.ReplyValidates` | utils/qwen_processor.py:100-133 | The sample reply's value passes validation. |
| `Pipeline.ReplyHeaderOf` | utils/excel_processor.py:53-58 | The sample record's `base_info`, with its date normalised to 2024-05-01. |
| `Pipeline.ReplyRecordRows` | utils/excel_processor.py:51-69 | The sample record becomes two rows, with the header and total repeated. |
| `Pipeline.ReplyParses` | utils/qwen_processor.py:78-86 | The sample reply fails the strict decode and is recovered by the repair. |
| `Pipeline.ReplyEndToEnd` | utils/qwen_processor.py:69-137 | The sample reply parses, validates and becomes two spreadsheet lines, in column order: (A001, 2024-05-01, 张三, 财务部, 打印, 12.5, 42.5) and (A001, 2024-05-01, 张三, 财务部, 交通, 30, 42.5). |

## Left out

- The request to the vision model is not modelled. This covers the OpenAI client, the base64 data URL and the prompt (utils/qwen_processor.py:14-66). It is foreign I/O, so the reply text is an input.
- `json.loads` is the abstract decoder parameter `decode`. Its grammar (RFC 8259) is not modelled.
- `float()` on a string is the abstract parameter `parseFloat`. Amounts are exact reals: IEEE rounding and the int/float distinction are not modelled.
- Logging and the nested wrapping of exception messages are not modelled (utils/qwen_processor.py:85-98, utils/excel_processor.py:35, 73, 76). Failures are typed values: `ParseError`, and `Exc` for Python's KeyError/TypeError/ValueError.
- `df.to_excel` and the output path are not modelled (utils/excel_processor.py:72). The model ends at the sequence of rows.
- utils/storage.py, utils/image_processor.py and streamlit_app.py are not part of this model. They do object storage, image resizing, and UI and file handling. `Pipeline` only chains the modelled calls.
- Dict key order is not modelled: JSON objects are maps.
- ExcelProcessor.ItemsOf: iterating a dict or a str `项目` is collapsed. Empty gives no items. Non-empty raises TypeError at once, which is where the first `item['名称']` on a str would raise. The individual keys or characters are not listed.
- Strptime.Strptime: `\d` and `int()` accept only ASCII digits here. Python's str regexes also accept other Unicode decimal digits.
- Dates.RenderIsIso: years below 1000 render zero-padded to four digits. That is what `strftime('%Y')` does on platforms that pad; some C libraries do not pad.
- Only the `%Y`, `%m`, `%d` directives and literal characters of `strptime` are modelled, which is all the four formats use.
- QwenProcessor.ParseResponse: the retry runs only on `json.JSONDecodeError` (utils/qwen_processor.py:80). Other exceptions of `json.loads`, such as the ValueError of the integer-string digit limit or a RecursionError on deep nesting, skip the retry. `decode` has one failure value, so here every failure goes to the retry.
- JsonData.ToFloat: `float()` of a JSON integer too large for a double raises OverflowError. Here a number always converts, because amounts are exact reals.
