# ai-experiments: the deterministic logic, modelled and proved in Dafny

The asuzukosi/ai-experiments repository is a set of example scripts around
language-model, embedding, dataframe and UI libraries. This project models the
parts of those scripts that compute something by themselves and states what
they promise as Dafny contracts and lemmas. Library results enter as
parameters: the agent's answer and its JSON decoding, trained-model
predictions, the token counter, similarity scores and CSV contents.

| module | file | what it models |
|---|---|---|
| `Prelude` | prelude.dfy | Option/Result, and Python's `str.split`, `str.join` and `str.find` (also used as JavaScript's `indexOf`), plus ASCII lower-casing |
| `Tools` | tools.dfy | AFJ Limited agent tools: the `list.index` label encoders, label handling in the two prediction tools, the `tool_map` comprehension, `run_agent_executor` |
| `IngestData` | ingest_data.dfy | `TRANSLATION_MAP`, file-name metadata parsing and the `.csv` loop of `load_dataset` |
| `Routing` | routing.dfy | argmax template selection in `prompt_router` |
| `PromptSize` | prompt_size.dfy | the `condense_prompt` loop |
| `CodeWriting` | code_writing.dfy | `_sanitize_output` |
| `Agents` | agents.dfy | `convert_intermediate_steps`, `convert_tools`, `search` |
| `Currency` | currency.dfy | `exchange_rate`, the `Currency` record's validation, `currency_calculator` |
| `TicTacToe` | tic_tac_toe.dfy | `calculateWinner`, the status line, `handleClick`, `handlePlay`, `jumpTo`, `xIsNext`, initial state |
| `ProductTable` | product_table.dfy | the row-building `forEach` of `ProductTable` |
| `Q3` | q3.dfy | `getmax`, `isdivbyall`, `lowestcommonmulitple` |
| `Q2` | q2.dfy | `smallest`, `largestdenominator` |

Python exceptions become `Err` values. A tool's outcome is `Returns(result)`
or `Raises(msg)`. An exception that escapes `run_agent_executor` becomes the
outcome `Crashed`. Loops in the source are methods with loop invariants. Most
methods (`LoadDataset`, `BuildRows`, `ConvertIntermediateSteps`,
`CalculateWinner`, `LargestDenominator`) are proved equal to a specification
function, and the properties are proved about that function. The others
(`Q3.GetMax`, `Q3.IsDivByAll`, `Q3.LowestCommonMultiple`,
`PromptSize.CondensePrompt`) state their properties directly in their
postconditions. The React `App` component's state is the class
`TicTacToe.Game`, and its methods state the whole new state.

In these places the code does less than a reader might expect, and the model
follows the code:
- The tool table is a plain dict comprehension. Duplicate names are not
  rejected; the later tool wins.
- Arguments are not checked against a schema before a tool runs. Whatever
  checking happens is part of each tool's abstract outcome.
- An unknown tool name is reported as the text
  `"function call failed with error " + str(e)`, not as a separate error value.
- A malformed decoded call (not a non-empty list of objects with `name` and
  `arguments`) is not caught and escapes.

## Model

| member | source | states |
|---|---|---|
| Prelude.Find | src/langchaincookbook/codewriting.py:31-32 | the leftmost occurrence of a separator, or none exactly when it does not occur |
| Prelude.Split | src/langchaincookbook/codewriting.py:31-32 | Python `split` always gives at least one piece |
| Prelude.JoinSplit | src/afjlimitedagent/afjlimitedapp/ingest_data.py:35 | joining the pieces of a split with the same separator gives the text back |
| Prelude.SplitPiecesAvoidSeparator | src/langchaincookbook/codewriting.py:32 | no piece of a split contains the separator |
| Prelude.JoinSnoc | src/langchaincookbook/agents.py:37 | joining one more part adds the separator and that part at the end |
| Prelude.SplitJoin | src/langchaincookbook/agents.py:37 | splitting a join at a one-character separator that no part contains gives the parts back |
| Prelude.Lower | src/prompt_store/thinking-in-react/thinkingreact/src/App.tsx:39 | lower-casing keeps the length, maps each character, and leaves no upper-case ASCII letter |
| Tools.IndexOf | src/afjlimitedagent/afjlimitedapp/tools.py:37-47 | `list.index`: the first position holding the value, and a ValueError exactly when the value is absent |
| Tools.TransformBrand | src/afjlimitedagent/afjlimitedapp/tools.py:25-38 | succeeds iff the brand is listed; the list holds the brand at the result |
| Tools.TransformModel | src/afjlimitedagent/afjlimitedapp/tools.py:26-41 | succeeds iff the model is listed; the list holds the model at the result |
| Tools.TransformLocation | src/afjlimitedagent/afjlimitedapp/tools.py:27-44 | succeeds iff the location is listed; the list holds the location at the result |
| Tools.TransformCondition | src/afjlimitedagent/afjlimitedapp/tools.py:28-47 | succeeds iff the condition is listed; the list holds the condition at the result |
| Tools.IndexOfDistinct | src/afjlimitedagent/afjlimitedapp/tools.py:37-47 | in a list without repeats, encoding the label at position k gives k |
| Tools.PyIndex | src/afjlimitedagent/afjlimitedapp/tools.py:264 | Python list indexing: valid for -n <= k < n, negative indices counting from the end, IndexError otherwise |
| Tools.ConditionText | src/afjlimitedagent/afjlimitedapp/tools.py:264 | the answer exists iff the index is within -7..6, and then names one of the seven conditions |
| Tools.DecodeInvertsTransformCondition | src/afjlimitedagent/afjlimitedapp/tools.py:264 | decoding the encoding of a known condition gives "The predicted condition is " + that condition |
| Tools.TransformConditionInvertsDecode | src/afjlimitedagent/afjlimitedapp/tools.py:46-47 | encoding the label decoded from a valid index gives the index back |
| Tools.PredictVehicleCondition | src/afjlimitedagent/afjlimitedapp/tools.py:250-264 | an unknown source, then an unknown destination, raises first; with both known, the answer is the condition text of the index the classifier gives for (speed, encoded source, encoded destination, hour, minute), or the IndexError of an out-of-range index; success names one of the seven conditions |
| Tools.PredictVehicleVelocity | src/afjlimitedagent/afjlimitedapp/tools.py:225-238 | succeeds iff source, destination and condition are all known labels, raising for the first unknown one in that order; the answer is the forecaster's rendering for (coolant temperature, manifold pressure, rpm, encoded source, encoded destination, encoded condition) followed by " Km/h" |
| Tools.ToolMap | src/afjlimitedagent/afjlimitedapp/tools.py:294 | every tool's name is a key, every entry sits under its own name, and every entry is a listed tool |
| Tools.ToolMapLastWins | src/afjlimitedagent/afjlimitedapp/tools.py:294 | a name's entry is the last tool in the list carrying it |
| Tools.RegisteredToolsReachable | src/afjlimitedagent/afjlimitedapp/tools.py:284-294 | each of the six registered tools is the entry for its own name |
| Tools.FirstCall | src/afjlimitedagent/afjlimitedapp/tools.py:303-307 | `output[0]["name"]` and `["arguments"]` succeed exactly on a non-empty list whose head is an object with both keys; an empty list or string raises IndexError and an object raises KeyError |
| Tools.CallParts | src/afjlimitedagent/afjlimitedapp/tools.py:306-307 | `call["name"]` and `call["arguments"]` succeed exactly on an object with both keys and give their values; a value that is not an object raises TypeError |
| Tools.TraceMessage | src/afjlimitedagent/afjlimitedapp/tools.py:304-307 | with single-line renderings, the dedented message is an empty line, "function name : " with the name, "function arguments : " with the arguments, and an empty last line |
| Tools.RunAgentExecutor | src/afjlimitedagent/afjlimitedapp/tools.py:296-314 | undecodable output is returned with "No function call"; an exception escapes exactly when the decoded value is malformed, and it is the one `output[0]["name"]` raises |
| Tools.RunAgentExecutorTrace | src/afjlimitedagent/afjlimitedapp/tools.py:303-314 | for a well-formed call the message is the dedented name/arguments trace, on success and on failure |
| Tools.RunAgentExecutorUnknownTool | src/afjlimitedagent/afjlimitedapp/tools.py:309-314 | a name with no tool gives "function call failed with error " + the KeyError's text, and no tool runs |
| Tools.LookupErrorText | src/afjlimitedagent/afjlimitedapp/tools.py:310-314 | a list or dict name gives an "unhashable type: " text; any other name gives the KeyError text, its repr |
| Tools.RunAgentExecutorRunsTool | src/afjlimitedagent/afjlimitedapp/tools.py:309-314 | a known name runs that name's tool on the arguments; its value is the answer, and a raised message becomes the failure text |
| IngestData.ParseFileName | src/afjlimitedagent/afjlimitedapp/ingest_data.py:35-46 | keys 0-4 are date, brand, model, source and destination; 6 or 7 keys translate the condition token; fewer than 5 keys raise IndexError, 5 or more than 7 raise the explicit exception, an unknown token raises KeyError |
| IngestData.FileKeys | src/afjlimitedagent/afjlimitedapp/ingest_data.py:35 | split at the first dot and then at underscores, a name always gives at least one key |
| IngestData.FileKeysPieces | src/afjlimitedagent/afjlimitedapp/ingest_data.py:35 | no key contains an underscore, and joining the keys with underscores gives the name up to its first dot |
| IngestData.TranslationsAreConditions | src/afjlimitedagent/afjlimitedapp/ingest_data.py:8-18 | every translated label is one of the tool layer's conditions |
| IngestData.ParsedConditionEncodable | src/afjlimitedagent/afjlimitedapp/ingest_data.py:41-44 | any successfully parsed condition is accepted by `transform_condition` |
| IngestData.TwoNormalIsNormal | src/afjlimitedagent/afjlimitedapp/ingest_data.py:43-44 | the seven-key spelling `2_Normal` gives the token "2 Normal" and the label Normal |
| IngestData.Tag | src/afjlimitedagent/afjlimitedapp/ingest_data.py:50-65 | every row of a file gets that file's metadata, and the rows keep their order |
| IngestData.Loaded | src/afjlimitedagent/afjlimitedapp/ingest_data.py:32-68 | the loader state after a listing: the first exception once raised, None before any `.csv` file, else the frame so far with the newest file last |
| IngestData.LoadDataset | src/afjlimitedagent/afjlimitedapp/ingest_data.py:22-68 | the loop's result equals the specification `Loaded` of the whole listing, including the first exception |
| IngestData.LoadedKeepsError | src/afjlimitedagent/afjlimitedapp/ingest_data.py:41-46 | once a name fails to parse, later files change nothing |
| IngestData.CsvFiles | src/afjlimitedagent/afjlimitedapp/ingest_data.py:33 | exactly the names ending in ".csv" are selected |
| IngestData.LoadedIsAllTagged | src/afjlimitedagent/afjlimitedapp/ingest_data.py:32-68 | the load succeeds iff every `.csv` name parses; with no `.csv` name the result is None; otherwise it is every `.csv` file's rows tagged with that file's metadata, in listing order, the first file treated like the rest |
| IngestData.OnlyCsvMatters | src/afjlimitedagent/afjlimitedapp/ingest_data.py:33 | a name that does not end in ".csv", anywhere in the listing, changes nothing |
| IngestData.RecordsCarryTheirFileMetadata | src/afjlimitedagent/afjlimitedapp/ingest_data.py:49-65 | every loaded record comes from some `.csv` file and carries that file's parsed metadata |
| Routing.ArgMax | src/langchaincookbook/routingbysemanticsimilarity.py:77 | the index of a maximal score, with no maximum before it |
| Routing.FirstMaxUnique | src/langchaincookbook/routingbysemanticsimilarity.py:77 | any first maximum is argmax's answer, so the choice is determined by the scores |
| Routing.PromptRouter | src/langchaincookbook/routingbysemanticsimilarity.py:71-78 | the chosen template is one of the two templates |
| Routing.RouterLogNamesWinner | src/langchaincookbook/routingbysemanticsimilarity.py:76-78 | "Using MATH" iff the math score is strictly higher, "Using PHYSICS" iff the physics score is at least as high |
| Routing.RouterPicksBestScore | src/langchaincookbook/routingbysemanticsimilarity.py:76-77 | the chosen template scores at least as high as every template |
| Routing.RouterTieGoesToFirst | src/langchaincookbook/routingbysemanticsimilarity.py:77-78 | equal scores choose the physics template and log "Using PHYSICS" |
| PromptSize.Head | src/langchaincookbook/managingpromptsize.py:45-47 | `messages[:2]`: at most two messages, the first ones |
| PromptSize.Tail | src/langchaincookbook/managingpromptsize.py:41 | `messages[2:]`: the head and the tail make up the messages |
| PromptSize.CondensePrompt | src/langchaincookbook/managingpromptsize.py:38-48 | the result is within 4000 tokens, keeps the first two messages, is the tail with the 2k oldest dropped for the least such k that fits, and equals the input when the input already fits |
| PromptSize.HeadFitsTerminates | src/langchaincookbook/managingpromptsize.py:42-46 | when the first two messages alone fit, the loop stops |
| CodeWriting.SanitizeOutput | src/langchaincookbook/codewriting.py:26-32 | the unpack finds too few values exactly when "```python" does not occur |
| CodeWriting.SanitizeOkIffOneOpenFence | src/langchaincookbook/codewriting.py:31 | the unpack succeeds iff "```python" occurs exactly once; without it the unpack finds too few values |
| CodeWriting.SanitizeOutputExtracts | src/langchaincookbook/codewriting.py:31-32 | the code is the contiguous text right after the opening fence, ending at the first "```" after it or at the end of the text (no "```" starts inside it), and contains no "```" |
| CodeWriting.NoClosingFenceTakesRemainder | src/langchaincookbook/codewriting.py:32 | with no closing fence, the code is the whole remainder after the opening fence |
| CodeWriting.OnlyFirst | src/langchaincookbook/codewriting.py:31 | with the first opening fence at i and none after it, i is its only occurrence |
| Agents.Fragment | src/langchaincookbook/agents.py:30-32 | one step's text: the tool, its input and the observation, each in its own tags; it opens with "<tool>" and the tool, closes with the observation and "</observation>", and is 65 characters longer than the three fields |
| Agents.Log | src/langchaincookbook/agents.py:27-33 | the scratchpad is empty exactly when there are no steps, and otherwise opens with "<tool>" |
| Agents.LogSnoc | src/langchaincookbook/agents.py:29-32 | one more step appends exactly that step's fragment |
| Agents.LogAppend | src/langchaincookbook/agents.py:29-32 | the scratchpad of two runs of steps is the two scratchpads in step order |
| Agents.LogPrefix | src/langchaincookbook/agents.py:29-32 | the scratchpad of the first steps is a prefix of the whole scratchpad |
| Agents.ConvertIntermediateSteps | src/langchaincookbook/agents.py:27-33 | the loop's log is the fragments of all steps in order, and "" for no steps |
| Agents.Lines | src/langchaincookbook/agents.py:37 | one "name: description" line per tool, in order |
| Agents.ConvertTools | src/langchaincookbook/agents.py:36-37 | no tools give "" and one tool gives its line with no newline |
| Agents.ConvertToolsSnoc | src/langchaincookbook/agents.py:37 | one more tool adds a newline and its line |
| Agents.ConvertToolsLines | src/langchaincookbook/agents.py:36-37 | when names and descriptions have no newline, splitting the rendering at newlines gives one line per tool |
| Agents.Search | src/langchaincookbook/agents.py:14-19 | every query gets "32 degrees" |
| Currency.ExchangeRate | src/autogenexamples/baseexample.py:52-61 | a rate exists iff the currencies are equal or are USD/EUR in either order; rates are positive; otherwise the ValueError text names both currencies |
| Currency.SameCurrencyIsUnit | src/autogenexamples/baseexample.py:53-54 | equal currencies give 1.0, even outside USD and EUR |
| Currency.ExchangeRateReciprocal | src/autogenexamples/baseexample.py:56-59 | whenever a rate exists the reverse rate exists, and the two multiply to 1 |
| Currency.FieldErrors | src/autogenexamples/baseexample.py:63-65 | the currency is reported iff it is not "USD" or "EUR"; the amount iff it is negative |
| Currency.NewCurrency | src/autogenexamples/baseexample.py:63-65 | a record exists iff both fields validate, and it holds the given values |
| Currency.QuoteAmount | src/autogenexamples/baseexample.py:76 | the converted amount exists iff the rate does and is then rate × base amount; the ValueError text is the rate's, and the amount is not negative iff the base amount is not |
| Currency.CurrencyCalculatorAsWritten | src/autogenexamples/baseexample.py:70-77 | an unknown currency pair raises the rate's ValueError |
| Currency.AsWrittenNeverSucceeds | src/autogenexamples/baseexample.py:76-77 | as written, no input yields a record: the amount in the currency field always fails validation |
| Currency.AsWrittenExampleFails | src/autogenexamples/baseexample.py:70-83 | the chat's own question, 123.45 with the default currencies, fails on the currency field alone |
| Currency.CurrencyCalculatorConverts | src/autogenexamples/baseexample.py:70-77 | corrected: a record exists iff both currencies are USD/EUR and the amount is not negative, and it is the quote currency with rate times amount |
| Currency.CurrencyCalculator | src/autogenexamples/baseexample.py:70-77 | corrected: an unknown currency pair gives the ValueError, and a returned record is in the quote currency |
| Currency.CurrencyCalculatorRoundTrip | src/autogenexamples/baseexample.py:56-77 | corrected: converting there and back returns the original amount in the base currency |
| TicTacToe.WinnerFrom | src/prompt_store/tick-tack-toe/src/App.tsx:29-47 | the mark of the first completed line from index k, or none exactly when no later line is complete |
| TicTacToe.Winner | src/prompt_store/tick-tack-toe/src/App.tsx:28-47 | a winner is never the empty square |
| TicTacToe.CalculateWinner | src/prompt_store/tick-tack-toe/src/App.tsx:28-47 | the loop returns the first complete line's mark, and null iff no line is complete |
| TicTacToe.StatusText | src/prompt_store/tick-tack-toe/src/App.tsx:49-57 | "Winner: " + mark with a winner, else "Next player: X" or "Next player: O" according to whose turn it is |
| TicTacToe.CountUpdate | src/prompt_store/tick-tack-toe/src/App.tsx:62-67 | setting one square moves one count from its old mark to its new one |
| TicTacToe.OnlyMoverCanWin | src/prompt_store/tick-tack-toe/src/App.tsx:59-68 | on a board with no winner, a move can only make its own mark the winner |
| TicTacToe.Game.constructor | src/prompt_store/tick-tack-toe/src/App.tsx:99-100 | the history is one empty board and the current move is 0 |
| TicTacToe.Game.XIsNext | src/prompt_store/tick-tack-toe/src/App.tsx:103 | X is next iff the current move is even |
| TicTacToe.Game.CurrentSquares | src/prompt_store/tick-tack-toe/src/App.tsx:101 | the board on show has nine squares, and it is the empty board at move 0 |
| TicTacToe.Game.Status | src/prompt_store/tick-tack-toe/src/App.tsx:49-57 | the status line of the board on show |
| TicTacToe.Game.BoardCounts | src/prompt_store/tick-tack-toe/src/App.tsx:62-67 | history board k has k marks, and as many X as O or one X more |
| TicTacToe.Game.HandlePlay | src/prompt_store/tick-tack-toe/src/App.tsx:105-109 | the history becomes the boards up to the one on show plus the new board, later moves are dropped, and the new board is on show |
| TicTacToe.Game.HandleClick | src/prompt_store/tick-tack-toe/src/App.tsx:58-69 | an occupied square or a won board changes nothing; otherwise the board on show with the next player's mark at i is played |
| TicTacToe.Game.JumpTo | src/prompt_store/tick-tack-toe/src/App.tsx:111-113 | only the current move changes; the history is kept |
| ProductTable.FilterMembers | src/prompt_store/thinking-in-react/thinkingreact/src/App.tsx:39-44 | only input products that pass both filters are kept |
| ProductTable.Filter | src/prompt_store/thinking-in-react/thinkingreact/src/App.tsx:38-44 | the listed products, no more than the input |
| ProductTable.FilterKeepsMember | src/prompt_store/thinking-in-react/thinkingreact/src/App.tsx:39-44 | every input product that passes both filters is kept |
| ProductTable.Layout | src/prompt_store/thinking-in-react/thinkingreact/src/App.tsx:45-59 | no rows iff no products; the last row is the last product |
| ProductTable.Rows | src/prompt_store/thinking-in-react/thinkingreact/src/App.tsx:34-60 | the product rows of the table are exactly the listed products, in order |
| ProductTable.BuildRows | src/prompt_store/thinking-in-react/thinkingreact/src/App.tsx:34-60 | the loop's rows are the layout of the filtered products |
| ProductTable.VisitProduct | src/prompt_store/thinking-in-react/thinkingreact/src/App.tsx:38-60 | one callback step extends the rows and the last category exactly as one more kept product, or not at all for a filtered-out one |
| ProductTable.LastCategory | src/prompt_store/thinking-in-react/thinkingreact/src/App.tsx:36-59 | the last category is null iff no product was listed yet |
| ProductTable.LayoutProducts | src/prompt_store/thinking-in-react/thinkingreact/src/App.tsx:45-59 | the product rows are exactly the kept products in order; there are no more headers than products, and at least one when there is a product |
| ProductTable.LayoutGrouped | src/prompt_store/thinking-in-react/thinkingreact/src/App.tsx:45-59 | the first row is a header; each header is followed by a product of its category; a header follows a product only on a category change; adjacent products share their category |
| ProductTable.FilteredOutChangesNothing | src/prompt_store/thinking-in-react/thinkingreact/src/App.tsx:39-59 | a filtered-out product neither adds nor suppresses any row |
| ProductTable.ListedIffKept | src/prompt_store/thinking-in-react/thinkingreact/src/App.tsx:39-58 | a product gets a row iff it is in the input and passes both filters |
| ProductTable.NoFilterKeepsAll | src/prompt_store/thinking-in-react/thinkingreact/src/App.tsx:39-44 | empty search text with the switch off keeps every product in order |
| ProductTable.SplitCategoryRepeatsHeader | src/prompt_store/thinking-in-react/thinkingreact/src/App.tsx:45-52 | a category interrupted by another gets a second header |
| Q3.Largest | cpptests/chapter1/q3.cpp:3-10 | the largest value: an element that no element exceeds |
| Q3.GetMax | cpptests/chapter1/q3.cpp:3-10 | the result is an element, no element exceeds it, and it is `Largest` |
| Q3.IsDivByAll | cpptests/chapter1/q3.cpp:12-20 | true iff every value divides the multiple; true for no values |
| Q3.ModNegDivisor | cpptests/chapter1/q3.cpp:14 | the remainder modulo a negative value is the remainder modulo its magnitude, so a zero test does not depend on the sign |
| Q3.AbsProductIsCommon | cpptests/chapter1/q3.cpp:25-30 | the product of the magnitudes of non-zero values is a multiple of every value |
| Q3.SearchBoundIsCommon | cpptests/chapter1/q3.cpp:22-31 | the search meets a common multiple no smaller than the largest value: the product of magnitudes when the largest value is positive, 0 when all are negative |
| Q3.LowestCommonMultiple | cpptests/chapter1/q3.cpp:22-31 | for any non-zero values: the first multiple of every value counting up from the largest value; no smaller positive integer is one, so for positive values it is the least common multiple |
| Q3.NegativeValuesStopByZero | cpptests/chapter1/q3.cpp:22-31 | when every value is negative the search stops at 0 or below |
| Q2.Smallest | cpptests/chapter1/q2.cpp:2-5 | the minimum of the two arguments |
| Q2.CommonDivisorUpTo | cpptests/chapter1/q2.cpp:10-14 | at least 1; 1 when n < 1; otherwise a common divisor in 1..n with none larger up to n |
| Q2.LargestDenominator | cpptests/chapter1/q2.cpp:8-16 | the loop computes the largest common divisor up to the smaller argument; 1 when the smaller argument is below 1 |
| Q2.LargestDenominatorIsGcd | cpptests/chapter1/q2.cpp:10-15 | for positive arguments the result divides both and no larger integer does |
| Q2.LargestDenominatorSymmetric | cpptests/chapter1/q2.cpp:8-16 | swapping the arguments does not change the result |

## Left out

- Language-model, embedding, database and network calls are left out. The agent's answer, the similarity scores, the token counter and the CSV contents are parameters.
- JSON parsing is left out. The decoded value is an `Option<Json>` parameter, with None for a JSONDecodeError.
- No tool body is wired into `Tools.RunAgentExecutor`: it takes `run` as a parameter, which gives each tool's returned value or raised message, and argument-schema checks inside the library's `tool.run` are part of that outcome. The bodies of `predict_vehicle_condition` and `predict_vehicle_velocity` are modelled on their own (`Tools.PredictVehicleCondition`, `Tools.PredictVehicleVelocity`), with the trained models as parameters; the bodies of the other four tools are library calls and are left out.
- Python's `str()` and `repr()` of decoded JSON values are left out. They are parameters (`Show`). Only the two "unhashable type" messages of the tool-table lookup are written out.
- Tools.RunAgentExecutor: text `dedent` would change is not modelled. The trace message assumes single-line renderings of the name and the arguments.
- The `print(text)` at the start of `_sanitize_output` (codewriting.py:30) is left out. It is console output and does not affect the result.
- Float formatting of the velocity forecast (`str(result)`) is left out. `forecast` gives the rendered text.
- The trained models and pandas frame building are left out. The classifier's predicted index and the forecaster's result are parameters.
- The random file pick in `load_dataset` (ingest_data.py:27) is left out. Its result is overwritten before use; it can only make the load crash when there are fewer than 11 files.
- `postprocess_dataset` and the other pandas steps are left out.
- IngestData.LoadDataset: a frame is a sequence of tagged records. Column layout and pandas' `concat` index handling are not modelled.
- PromptSize.CondensePrompt: requires that some number of drops brings the prompt within budget. That is exactly when the loop stops; otherwise the source loops forever on the empty tail.
- Currency.CurrencyCalculatorRoundTrip: rates and amounts are exact reals, and the round trip holds only for them. In IEEE doubles the product `(1/1.1) * 1.1` is exactly 1.0, but the amounts are rounded at each step: 21.06 USD becomes 19.145454545454545 EUR, which converts back to 21.060000000000002 USD.
- Currency.FieldErrors: only the two constraints of the `Currency` model are modelled. Pydantic's error texts and its lax coercion of other input types are not.
- Prelude.Lower: lower-casing is ASCII-only. `toLowerCase` also maps non-ASCII letters.
- The JSX rendering is left out, and rows and boards are data. This covers the move list's "Go to move #n" labels, the red styling of out-of-stock names, and the `SearchBar` and page components.
- TicTacToe.Game.HandlePlay: requires the new board to be the current board plus one legal mark, and requires the current board to have no winner. That is all `handleClick` passes: it returns before calling `handlePlay` when the square is taken or the board already has a winner (App.tsx:59-61). This keeps the history invariant.
- TicTacToe.Game.JumpTo: requires a move inside the history, which is all the move buttons pass.
- Q3, Q2: C++ `int` overflow is not modelled; integers are unbounded. Divisibility tests do not depend on the sign convention of `%`.
- Q3.GetMax, Q3.LowestCommonMultiple: require a non-empty vector, because `values[0]` on an empty vector is undefined behaviour.
- Q3.LowestCommonMultiple, Q3.IsDivByAll: require non-zero values, because `%` by zero is undefined behaviour. Negative values are allowed, as in the source: `{-2, 3}` gives 6 and `{-2, -3}` gives 0.
- The description `@tool` derives for `search` from its docstring is not modelled. `convert_tools` takes each tool's name and description as given.

## Findings

| source | as written | input that shows it | evidently intended | confidence | as-written member | corrected member |
|---|---|---|---|---|---|---|
| src/autogenexamples/baseexample.py:77 | `Currency(amount=quote_maount, currency=quote_maount)` puts the converted number into the `currency` field, whose type is the literal "USD" or "EUR" | `currency_calculator(123.45)` with the defaults: the amount 112.227… fails validation of `currency` | `currency=quote_currency`: the record holds the quote currency and the converted amount | high, not executed | Currency.AsWrittenNeverSucceeds | Currency.CurrencyCalculator, Currency.CurrencyCalculatorConverts |
