# Chatbot query pipeline — a Dafny model

This project models the deterministic core of a Django chatbot that answers
questions about a product database:

- A language model turns a question into SQL.
- The chatbot cleans that SQL and checks it against a fixed list of rules.
- It runs the checked query and answers with a short bullet-list summary of
  the rows.

Each module below models one piece of that core. The lemmas beside each
piece prove the properties the code promises.

- `Text` gives the Python string built-ins the code relies on:
  - `str.isspace`, `strip`, `split()` and `' '.join`;
  - `lower`, on ASCII letters;
  - substring tests (`in`, `startswith`, `endswith`);
  - `sorted` on strings, `str(n)` on a count, and `split('\n')`.
- `Records` models a row dictionary `dict(zip(columns, row))` as an ordered
  association list. A duplicate column keeps its first position and its last
  value, as a Python `dict` does.
- `Errors` names the three custom exceptions, plus "any other exception".
  `Outcome` is "returns a value or raises".
- `Validation` is `validate_query`. It runs eight rules in the source's
  order:
  1. empty query;
  2. forbidden keyword;
  3. not a SELECT;
  4. no tables;
  5. unknown tables, with suggestions;
  6. no FROM clause;
  7. comments;
  8. a semicolon before the end.

  The first rule that fails decides the message.
- `Generation` is the post-processing of the model's answer in
  `generate_sql_query`:
  1. strip;
  2. remove the code fences;
  3. strip again;
  4. normalise whitespace;
  5. append a `;`.

  It also models how that function re-raises exceptions. The model call
  itself is a parameter, `Completion`.
- `Report` holds the items both summarisers build: a name, a price and
  `column: value` fields. It also has the bullet line and the
  `Found N thing(s):` header.
- `Summary` is `format_result_summary`. It appears twice: as the imperative
  loop of the source (`FormatResultSummary`) and as the function that
  specifies it (`ProductSummary`).
- `ColumnNames` is `clean_column_name`, with `str.title` on ASCII letters.
- `ChatbotView` covers two things:
  - `ChatbotView._format_summary`, as the loop and as its specification,
    including the `IndexError` a short row raises;
  - `ChatbotView.post`, which turns the outcomes of the five stages into the
    HTTP status, the JSON body, and the trace of stages that ran.

Number formatting (`str(v)` on a number and `f"{v:.2f}"`) is a parameter
`fmt: Formatting`. The database, the language model and the table listing
are parameters too: `TableListing`, `Execution`, `Completion`.

Behaviour worth noting, modelled as the code is written:

- **Execution errors.** `ChatbotView._execute_query` does not wrap driver
  errors in `DatabaseError`. A failing query therefore reaches
  `except Exception` and is answered with status 500, "An unexpected error
  occurred." It is not answered with 400.
- **`_format_summary` on a short row.** A row shorter than the column list
  makes `_format_summary` index past the row's end. The resulting
  `IndexError` is also answered with 500.
- **Indentation.** In `views.py` the bodies of `_execute_query` (lines
  77-94) and `_format_summary` (lines 96-133) are not indented under their
  `def` lines. The model gives them their evident meaning as methods of
  `ChatbotView`.

## Model

| member | source | states |
|---|---|---|
| Text.StripFacts | chatbot_app/utils.py:95-96 | `strip()` is empty exactly when the query is all whitespace, leaves no whitespace at either end, and never lengthens the text |
| Text.JoinWordsNormalized | chatbot_app/utils.py:229 | `' '.join(s.split())` yields text with no whitespace at its ends and exactly one space between words |
| Text.SplitJoinNormalized | chatbot_app/utils.py:229 | the normalisation leaves already-normalised text unchanged |
| Text.SplitContent | chatbot_app/utils.py:229 | the words of `split()`, laid end to end, are exactly the text's non-whitespace characters in order |
| Text.SplitWord | chatbot_app/utils.py:229 | a non-empty text without whitespace splits into itself as the only word |
| Text.SplitAtWhitespace | chatbot_app/utils.py:229 | a whitespace character separates words: splitting `a`, whitespace, `b` gives the words of `a` followed by those of `b`; with `SplitWord` this determines `split()` |
| Text.NormalizeKeepsContent | chatbot_app/utils.py:229 | `' '.join(s.split())` keeps every non-whitespace character of `s`, in order |
| Text.StripKeepsContent | chatbot_app/utils.py:225 | `strip()` keeps every non-whitespace character, in order |
| Text.SortStrings | chatbot_app/utils.py:142 | `sorted(valid_tables)` is ordered and a permutation of its input |
| Text.NatToStringRoundTrip | chatbot_app/utils.py:251 | the count in the header is the decimal text of the row count: its digits read back to that number |
| Text.SplitOnJoin | chatbot_app/utils.py:278 | lines free of newlines, joined with `"\n"`, split back into exactly those lines |
| Records.Keys | chatbot_app/utils.py:255 | the keys of a dictionary are its entries' columns in insertion order |
| Records.Get | chatbot_app/utils.py:258 | `d.get(k)` finds a value exactly when `k` is a key |
| Records.GetOr | chatbot_app/utils.py:258 | `d.get(k, default)` returns the stored value, even a `None`, when the key is present, and the default when it is absent |
| Records.Put | chatbot_app/views.py:108 | `d[k] = v` makes `k` map to `v` and leaves every other key's lookup unchanged |
| Records.PutKeys | chatbot_app/views.py:106-108 | assigning an existing key keeps the key order; a new key goes to the end |
| Records.PutUnique | chatbot_app/views.py:106-108 | assignment keeps every key unique |
| Records.FromPairsKeys | chatbot_app/utils.py:255 | a column is a key of `dict(pairs)` iff some pair has that column |
| Records.FromPairsLast | chatbot_app/utils.py:255 | the last pair with a given column decides that column's value in `dict(pairs)` |
| Records.RowRecordLookup | chatbot_app/utils.py:255 | in `dict(zip(columns, row))`, a column's value is the row's value at the column's last position |
| Records.RowRecordKeys | chatbot_app/views.py:48 | when the row is as long as the column list, the record's keys are exactly the column names; `RowRecordOrder` gives their order |
| Records.RowRecordOrder | chatbot_app/views.py:48 | with distinct columns and a row at least as long, the record's keys are the columns in column order, so the fields of a summary line follow the column order |
| Records.RowRecordSnoc | chatbot_app/views.py:106-108 | one step of the loop `row_dict[col] = row[i]` turns the dictionary of the first i columns into that of the first i+1 columns, so the loop builds `dict(zip(columns, row))` |
| Validation.Validate | chatbot_app/utils.py:79-158 | `validate_query` itself: its contract is carried by `ValidateByChecks`, `ValidateIsFirstFailingRule` and the rule lemmas below |
| Validation.ScanTables | chatbot_app/utils.py:116-117 | every name `re.findall` extracts is a non-empty run of `\w` characters; the scan is determined by `ScanEmptyIff` (no match gives no names) and `ScanFirst` (the leftmost match gives the next name and the scan resumes at its end), with `ScanSound` |
| Validation.ExtractTables | chatbot_app/utils.py:116-117 | the table names of the lower-cased query: `ScanTables` from position 0 |
| Validation.FirstForbiddenIff | chatbot_app/utils.py:102-109 | the keyword scan reports a keyword iff some forbidden keyword is a substring of the lower-cased query; it reports the first such keyword in list order, and that keyword does occur |
| Validation.ScanEmptyIff | chatbot_app/utils.py:116-120 | `re.findall` of the FROM/JOIN pattern from a position on is empty iff the pattern matches at no later position |
| Validation.ScanSound | chatbot_app/utils.py:116-117 | every extracted table name is the captured group of a match at some position |
| Validation.ScanFirst | chatbot_app/utils.py:116-117 | the leftmost match gives the first name, and the rest are the names found from the end of that match on: every later non-overlapping match is extracted |
| Validation.KeywordTableShift | chatbot_app/utils.py:116 | the pattern has no word boundary: a keyword match at the start of a text is still a match after any prefix |
| Validation.NoWordBoundary | chatbot_app/utils.py:116 | `xfrom t` is read as naming table `t` |
| Validation.Unknown | chatbot_app/utils.py:123-124 | `set(found) - valid_tables_lower` holds each found name that is not a lower-cased valid table, each exactly once |
| Validation.UnknownEnumerates | chatbot_app/utils.py:123-124 | the model's order of the unknown set is one duplicate-free enumeration of that set |
| Validation.Similar | chatbot_app/utils.py:131-134 | a valid table is suggested for an unknown name iff the name is a substring of the table's lower-cased name |
| Validation.Suggested | chatbot_app/utils.py:128-136 | a name gets a suggestion line iff it is unknown and has at least one similar table; no name has one when none has a similar table |
| Validation.BuildSuggestions | chatbot_app/utils.py:128-136 | the suggestion loop produces exactly the suggestion lines |
| Validation.CheckAgrees | chatbot_app/utils.py:95-156 | each rule as stated on its own (all whitespace, a forbidden keyword, no table match, an extracted name outside the valid set, a comment marker at some position, a `;` before the last character) fails exactly when the code's check for it fails; the SELECT and FROM rules are stated by the code's own tests |
| Validation.ValidateByChecks | chatbot_app/utils.py:93-158 | `validate_query` accepts iff none of the eight checks fails; a rejection's check fails, no earlier check fails, and the message is that rule's message |
| Validation.ValidateIsFirstFailingRule | chatbot_app/utils.py:93-158 | acceptance iff no rule fails; a rejection names a failing rule and every earlier rule passes |
| Validation.EmptyRejectedFirst | chatbot_app/utils.py:95-96 | an all-whitespace query is rejected as empty, whatever else holds |
| Validation.EmptyPasses | chatbot_app/utils.py:95-96 | a query with a non-whitespace character passes the empty check |
| Validation.ForbiddenRejected | chatbot_app/utils.py:107-109 | a query that is not all whitespace and contains forbidden keyword k, and no earlier one, is rejected naming keyword k |
| Validation.DeleteReportsKeyword | chatbot_app/utils.py:102-113 | a `DELETE …` query is rejected as forbidden, not as not-a-SELECT |
| Validation.JoinOnlyMissingFrom | chatbot_app/utils.py:116-148 | a query that passes the earlier rules but whose every table match is a JOIN is rejected for having no FROM clause |
| Validation.AcceptedTablesValid | chatbot_app/utils.py:123-126 | an accepted query names at least one table, and every name it extracts is the lower-cased form of some valid table |
| Validation.SemicolonRule | chatbot_app/utils.py:155-158 | a query that passes the earlier rules is accepted iff no `;` comes before its last character |
| Validation.LastRuleDecides | chatbot_app/utils.py:93-158 | once every earlier rule passes, a failing rule decides the verdict and its message; if the last rule also passes the query is accepted |
| Validation.MessageNamesInvalid | chatbot_app/utils.py:138 | the unknown-tables message names every invalid table |
| Validation.MessageSuggestions | chatbot_app/utils.py:136-140 | the message contains the suggestion line of each invalid name that has similar tables |
| Validation.MessageWithSuggestions | chatbot_app/utils.py:139-140 | with suggestions, the message is the invalid list, a newline, and then the suggestion lines |
| Validation.MessageWithoutSuggestions | chatbot_app/utils.py:141-142 | without suggestions, the message ends with the valid tables, sorted and a permutation of the list |
| Generation.CleanQuery | chatbot_app/utils.py:225-234 | the cleanup itself: its contract is carried by `CleanQueryShape`, `CleanQueryContent`, `CleanFixpoint` and `CleanQueryIdempotent` |
| Generation.RemoveFences | chatbot_app/utils.py:228 | the fence-marker substitution `re.sub` of the cleanup: the scan `RemoveFencesFrom` from position 0, characterised by `RemoveFencesPlain`, `FencedBlock` and `CleanQueryNotIdempotent` |
| Generation.RemoveFencesFrom | chatbot_app/utils.py:228 | removing fences from a position on never yields more than the remaining text |
| Generation.RemoveFencesPlain | chatbot_app/utils.py:228 | `re.sub` leaves text with no "```" unchanged |
| Generation.FencedBlock | chatbot_app/utils.py:228 | an answer fenced as "```sql", whitespace, body, whitespace, "```" loses exactly its fences and that whitespace |
| Generation.CleanQueryShape | chatbot_app/utils.py:225-232 | the cleaned query ends with `;` and its whitespace is normalised |
| Generation.CleanQueryContent | chatbot_app/utils.py:225-232 | the cleaned query has exactly the non-whitespace characters the fence removal leaves, in order, followed by a `;` exactly when those characters do not already end with one |
| Generation.CleanFixpoint | chatbot_app/utils.py:225-232 | cleaning a normalised query that ends with `;` and has no "```" changes nothing |
| Generation.CleanQueryIdempotent | chatbot_app/utils.py:225-234 | cleaning twice equals cleaning once, whenever the first result holds no "```" |
| Generation.CleanQueryNotIdempotent | chatbot_app/utils.py:228 | the cleanup is not idempotent in general: "`` ````" cleans to "```;", which cleans to ";" |
| Generation.GenerateSqlQuery | chatbot_app/utils.py:224-240 | returns a query iff the model call succeeded, and that query is `CleanQuery` of the answer, so it ends with `;`, is normalised and keeps the content `CleanQueryContent` states; a configuration failure re-raises `APIConfigError` with its message; any other failure raises `DatabaseError("Failed to generate SQL query: …")` |
| Report.HeaderShape | chatbot_app/utils.py:251 | the header starts `Found <n> <noun>`, has the plural `s:` ending iff n ≠ 1, and contains no newline |
| Report.FieldItems | chatbot_app/utils.py:272-274 | the field items are non-null entries whose columns are not skipped, each taken from the dictionary |
| Report.FieldItemsAppend | chatbot_app/utils.py:272 | field selection follows the dictionary's order |
| Report.FieldItemsComplete | chatbot_app/utils.py:272-274 | every non-null, non-skipped entry appears as a field item |
| Report.FieldTexts | chatbot_app/utils.py:272-274 | the field loop yields the text of exactly the selected items, in order |
| Report.HeaderAndLines | chatbot_app/utils.py:278 | the joined summary splits into the header followed by the row lines |
| Summary.ProductSummary | chatbot_app/utils.py:242-278 | what `format_result_summary` returns: specified by `SummaryLines` and implemented by `FormatResultSummary` |
| Summary.ProductItems | chatbot_app/utils.py:257-274 | the items of one row line: characterised by `ProductItemsShape`, `ProductPriceAfterName` and `ProductItemsComplete` |
| Summary.ProductPrice | chatbot_app/utils.py:258 | the price is `ListPrice` when that key exists, even if its value is null; otherwise `StandardCost`; otherwise none |
| Summary.ProductName | chatbot_app/utils.py:262 | the name is `Name` when that key exists, otherwise `ProductName`, otherwise `''` |
| Summary.ProductItemsShape | chatbot_app/utils.py:257-274 | a row line lists the name iff the name is truthy, and first when present; it lists the price iff the price is not null; every other item is a field outside the skipped columns with a non-null value |
| Summary.ProductItemsComplete | chatbot_app/utils.py:272-274 | every non-null field outside the skipped columns is listed |
| Summary.ProductPriceAfterName | chatbot_app/utils.py:265-274 | a price, when there is one, stands right after the name, or first when the name is not shown, before every field |
| Summary.NullListPriceHidesCost | chatbot_app/utils.py:258-259 | a present but null `ListPrice` hides `StandardCost`, so the line has no price |
| Summary.FormatResultSummary | chatbot_app/utils.py:242-278 | the procedure returns the specified summary, and "No products found." for no rows |
| Summary.BuildProductLines | chatbot_app/utils.py:254-276 | the row loop yields one line per row, in order |
| Summary.FormatProductLine | chatbot_app/utils.py:255-276 | one row line is the bullet followed by its items joined with " - " |
| Summary.ProductLinesAt | chatbot_app/utils.py:254-276 | line i of the body is the line of row i |
| Summary.SummaryLines | chatbot_app/utils.py:250-278 | for rows with newline-free texts, the summary's lines are the count header (plural iff count ≠ 1), then one bullet line per row, in row order |
| ColumnNames.CleanColumnName | chatbot_app/utils.py:287-289 | `clean_column_name` itself: characterised by `CleanColumnNameShape`, `CleanKeepsLetters`, `TitleIsTitled` and `CleanColumnNameIdempotent` |
| ColumnNames.TitleIsTitled | chatbot_app/utils.py:289 | `title()` upper-cases the letters that start a word and lower-cases every other letter |
| ColumnNames.CleanColumnNameShape | chatbot_app/utils.py:287-289 | the cleaned name has the input's length and no underscore; each underscore becomes a space; other characters keep their letter-ness |
| ColumnNames.CleanKeepsLetters | chatbot_app/utils.py:289 | a character of the cleaned name is a letter iff the original character is |
| ColumnNames.CleanColumnNameIdempotent | chatbot_app/utils.py:287-289 | cleaning a cleaned name changes nothing |
| ChatbotView.ResultSummary | chatbot_app/views.py:96-133 | what `_format_summary` returns or raises: specified by `ResultSummaryLines` and `ShortRowRaises`, and implemented by `FormatSummary` |
| ChatbotView.ResultItems | chatbot_app/views.py:111-128 | the items of one row line: characterised by `ResultItemsShape`, `ResultPriceAfterName`, `ResultItemsComplete` and `PriceIsFirstUsable` |
| ChatbotView.FirstPriceFrom | chatbot_app/views.py:118-122 | the price loop picks the first of ListPrice, StandardCost, UnitPrice that is present and not `None`; none if there is no such field |
| ChatbotView.FindPrice | chatbot_app/views.py:118-122 | the `break`ing loop computes that first usable price |
| ChatbotView.ResultItemsShape | chatbot_app/views.py:111-128 | a row line lists `Name` first when the key exists; it lists the first usable price when there is one, and no other price; every field item is a non-null entry outside the skipped columns |
| ChatbotView.ResultPriceAfterName | chatbot_app/views.py:113-128 | the price, when there is one, stands right after the name, or first when `Name` is absent, before every field |
| ChatbotView.ResultItemsComplete | chatbot_app/views.py:125-128 | every non-null column outside the skip list is listed |
| ChatbotView.ResultItemsOnePrice | chatbot_app/views.py:118-122 | a row line holds at most one price |
| ChatbotView.PriceIsFirstUsable | chatbot_app/views.py:117-122 | a price appears iff it is the value of a price field that is present and not `None` while every earlier price field is absent or `None` |
| ChatbotView.FormatSummary | chatbot_app/views.py:96-133 | the procedure returns the specified result: "No results found." for no rows; it raises only `IndexError("tuple index out of range")`, and only when some row is shorter than the column list |
| ChatbotView.BuildResultLines | chatbot_app/views.py:104-131 | the row loop yields every line when every row covers the columns, and stops with an error otherwise |
| ChatbotView.BuildRowDict | chatbot_app/views.py:106-108 | the index loop builds `dict(zip(columns, row))` when the row is long enough, and fails when it is short |
| ChatbotView.FormatResultLine | chatbot_app/views.py:111-131 | one row line is the bullet followed by its items joined with " - " |
| ChatbotView.ResultLinesAt | chatbot_app/views.py:104-131 | line i of the body is the line of row i |
| ChatbotView.ResultSummaryLines | chatbot_app/views.py:101-133 | with covering rows and newline-free values, the summary's lines are the count header (plural iff count ≠ 1), then one line per row |
| ChatbotView.ShortRowRaises | chatbot_app/views.py:107-108 | any row shorter than the column list makes the summary raise "tuple index out of range" |
| ChatbotView.FetchTables | chatbot_app/utils.py:55-63 | the table listing fails iff the database call fails, raising `DatabaseError("Failed to fetch table names: …")` |
| ChatbotView.ErrorResponse | chatbot_app/views.py:51-75 | `DatabaseError` and `QueryValidationError` become 400 with the message as `error`; `APIConfigError` and any other exception become 500 with a fixed `error` and the message as `details`; every error body echoes the input |
| ChatbotView.Post | chatbot_app/views.py:18-75 | `post` itself, over the outcomes of its stages: its contract is carried by the lemmas below |
| ChatbotView.NoInputShortCircuit | chatbot_app/views.py:20-26 | a missing or empty input gets 400 `No input provided` and runs no stage; otherwise the first stage is generation |
| ChatbotView.CallsFollowOrder | chatbot_app/views.py:28-41 | stages run in the fixed order: generate, list tables, validate, execute, summarise; each runs only after the previous one |
| ChatbotView.ExecutesOnlyAfterAccept | chatbot_app/views.py:30-35 | the query is executed iff the input is present, generation and table listing succeed, and validation accepts |
| ChatbotView.RejectionNeverExecutes | chatbot_app/views.py:32-57 | a rejected query gets 400 with the validation message and is never executed |
| ChatbotView.StatusClassification | chatbot_app/views.py:22-75 | the status is 200, 400 or 500; it is 200 iff every stage succeeded, and then the body is a success body; it is 400 iff the input is missing, a stage raised `DatabaseError` or `QueryValidationError`, or validation rejected |
| ChatbotView.ErrorsEchoInput | chatbot_app/views.py:51-75 | every error response for a present input echoes that input, and its status and message follow the exception that stopped the pipeline |
| ChatbotView.SuccessEnvelope | chatbot_app/views.py:43-49 | a 200 body carries the summary, the input, the generated SQL, and one record per executed row |
| ChatbotView.PipelineExecutesOnlyValidated | chatbot_app/views.py:30-35 | over concrete stages, the query is executed iff the cleaned model answer is accepted against the listed tables |
| ChatbotView.GenerationFailures | chatbot_app/utils.py:236-240 | a model configuration failure is answered with 500; any other model failure with 400 and `Failed to generate SQL query: …` |
| ChatbotView.TableFailure | chatbot_app/utils.py:61-63 | a failing table listing is answered with 400 and `Failed to fetch table names: …` |
| ChatbotView.ExecutionFailure | chatbot_app/views.py:68-75 | a failing execution of a validated query is answered with 500, "An unexpected error occurred.", with the driver message as details |
| ChatbotView.PipelineSuccess | chatbot_app/views.py:30-49 | a 200 answer means every stage succeeded: its SQL is the cleaned, accepted model answer ending in `;`, its summary is the specified summary of the rows, and each record is keyed by exactly the column names |

## Left out

- The language-model call itself is not modelled: the prompt, the schema
  lookup `get_table_info`, `initialize_gemini_api` and the Gemini client
  (utils.py lines 43-53, 65-77 and 168-224). The model's answer, or its failure, is
  the parameter `Completion`.
- Database access is not modelled: `SHOW TABLES` inside `get_table_names`,
  and `ChatbotView._execute_query`. The outcomes are the parameters
  `TableListing` and `Execution`.
- `chatbot.py`, `__init__.py`, `format_currency`, `TABLE_MAPPINGS` and all
  logging are not part of this model: they do not affect the answers of the
  core.
- Number formatting is abstract. `str(v)` of a number and `f"{v:.2f}"` are
  the functions of `Formatting`. A `:.2f` applied to a non-numeric price
  would raise in Python; the model treats it as formatting. Floating point is
  a `real`.
- `\w`, `lower()` and `title()` are modelled on ASCII letters, digits and
  `_` only. `isspace()` is modelled with Python's full set of whitespace
  characters. Non-string request input is not modelled: `input` is absent or
  text.
- The `try`/`except` around the body of `validate_query` (utils.py lines
  160-164) is not modelled: nothing in the modelled body can raise.
- Validation.Unknown: Python's set-iteration order of the invalid tables is
  not modelled. The model enumerates them in first-occurrence order. The
  message lemmas (`MessageNamesInvalid`, `MessageSuggestions`) hold for any
  duplicate-free enumeration.
- Text.Split: its own contract says only that each word is non-empty and free
  of whitespace. What it keeps and where it cuts are stated beside it, in
  `SplitContent`, `SplitWord` and `SplitAtWhitespace`, so that every use of
  `Split` does not carry them.
- Generation.CleanQueryIdempotent is conditional: it holds when the first
  result contains no "```". `CleanQueryNotIdempotent` shows it fails without
  that condition.
- Summary.SummaryLines assumes values, column names and formatted numbers
  contain no newline. Otherwise the summary's lines cannot be recovered by
  splitting.
- ChatbotView.ResultSummaryLines makes the same newline-free assumption.
- ChatbotView.Stages fills in a placeholder verdict and summary for stages
  that `post` never reaches. Those stages are the ones after a failure.
- ChatbotView.Post: the lemmas about the response are stated over arbitrary
  stage outcomes. Short rows combine `ShortRowRaises` with `ErrorsEchoInput`:
  the response is 500 with "tuple index out of range" as details. There is
  no separate lemma for that case.
