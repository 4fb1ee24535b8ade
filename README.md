# robotframework-pipe: a verified model of the `Pipe` keyword

PipeLibrary adds a `Pipe` keyword to Robot Framework. The keyword takes a flat
list of tokens such as `Get User Id  alice  >>  Fetch User  $`. It cuts the list
into keyword calls at every pipe operator (`>>` by default), then runs the calls
in order. The value each call returns is passed into the arguments of the next
call:

- if the next call's arguments contain the placeholder (`$` by default), that
  value replaces every occurrence of it;
- otherwise the value is appended (strategy `append`) or inserted first (any
  other strategy; the default is `prepend`).

A call that returns `None` passes nothing on. The first failing keyword is
logged and its error re-raised, so later calls never run. The library object
holds the three settings, fixed at construction.

The model is generic in one token type `V` with equality. Results share the
type `V`, and Python's `None` is `Option.None`. It has five modules:

- `Calls` (`calls.dfy`): `Option`, `Call(name, args)`, and the dispatcher's
  `Reply` and `Responder` types.
- `Splitter` (`splitter.dfy`): `Split` defines the splitter independently of
  the loop: skip separators, take each maximal run of other tokens as a call.
  `Scan`/`Step` follow the source loop token by token. The lemmas prove the
  loop state always agrees with `Split`, and prove the splitter's properties.
- `Executor` (`executor.dfy`): `Substitute` (the list comprehension),
  `EffectiveArgs` (the placeholder/append/prepend rule) and `Run`, the run of a
  pipeline against a dispatcher. The lemmas state order, threading, fail-fast
  and the returned value.
- `Dispatcher` (`dispatcher.dfy`): `BuiltIn` replaces `BuiltIn().run_keyword`.
  It answers through a `respond` function of the calls it has already received
  and the current call, so keywords with side effects are covered. It records
  every call in `trace`.
- `PipeLibrary` (`pipe_library.dfy`): the class `PipeLibrary`, with the three
  settings as constant fields, an `errorLog` field standing for the error
  logger, and imperative methods:
  - `SplitPipeKeywords`, the splitter loop;
  - `ThreadArgs`, the argument rule;
  - `Pipe`, the keyword.

  `Pipe` calls the splitter, then hands the calls to `RunKeywordCalls`, which
  holds the source's loop (lines 123-145).

`Scenarios` (`scenarios.dfy`) works through small example pipelines: a doubled
separator, prepend, placeholder, append, a keyword returning `None`, and a
failing first keyword.

The type annotation `Literal["prepend", "append"]` and the docstring name two
strategies, but the code only tests `== "append"` (line 134). So the model
accepts any strategy string and prepends for every value other than
`"append"`.

## Model

| member | source | states |
|---|---|---|
| `Splitter.Split` | PipeLibrary/__init__.py:155-166 | defines the split independently of the loop: separators are skipped, and each maximal run of other tokens becomes one call, its first token the name and the rest the arguments |
| `Splitter.Step` | PipeLibrary/__init__.py:157-163 | defines one iteration of the loop: a separator closes a non-empty open group as a call and resets it, or is absorbed when the group is empty; any other token joins the open group |
| `Splitter.Scan` | PipeLibrary/__init__.py:155-163 | defines the loop's state (closed calls, open group) after reading a prefix of the tokens left to right, starting from no calls and an empty group |
| `Splitter.Finish` | PipeLibrary/__init__.py:164-166 | defines the close-up after the loop: a non-empty open group becomes the last call |
| `Splitter.RunLength` | PipeLibrary/__init__.py:157-163 | the open group is the longest leading run of the input with no separator in it: every token before the result is not the separator, and the token at the result, if any, is |
| `Splitter.SplitOnlySeparators` | PipeLibrary/__init__.py:155-166 | an input made only of separators, the empty input included, splits into no calls |
| `Splitter.SplitWithoutSeparator` | PipeLibrary/__init__.py:163-165 | a non-empty input with no separator is exactly one call: first token the name, the remaining tokens, in order, the arguments |
| `Splitter.SplitAvoidsSeparator` | PipeLibrary/__init__.py:158-163 | no produced call has the separator as its name or among its arguments |
| `Splitter.SplitFlattensToStripped` | PipeLibrary/__init__.py:157-165 | writing each call as name then arguments, in order, gives the input with every separator removed: nothing reordered, dropped or duplicated |
| `Splitter.SplitCountBound` | PipeLibrary/__init__.py:158-161 | the number of calls is at most the number of separators plus one |
| `Splitter.SplitJoinRoundTrip` | PipeLibrary/__init__.py:155-166 | calls that contain no separator, joined with one separator between calls, split back into the same calls |
| `Splitter.SplitClosesGroup` | PipeLibrary/__init__.py:158-161 | a separator after a non-empty separator-free group closes that group as one call and splitting continues after it |
| `Splitter.SplitSkipsSeparator` | PipeLibrary/__init__.py:158-159 | a separator met while no group is open is absorbed: it produces no call |
| `Splitter.StepKeepsSplit` | PipeLibrary/__init__.py:157-163 | one token read by the loop keeps "closed calls, then the split of open group plus unread tokens" equal, and keeps the open group separator-free |
| `Splitter.ScanInvariant` | PipeLibrary/__init__.py:155-163 | after any prefix, the loop's closed calls followed by the split of the open group and the unread tokens are the split of the whole input |
| `Splitter.ScanSplits` | PipeLibrary/__init__.py:164-166 | closing the non-empty open group at the end turns the loop's state into the split of the input |
| `Executor.EffectiveArgs` | PipeLibrary/__init__.py:127-137 | defines the arguments a call is dispatched with: unchanged when no result is piped; otherwise the result at every placeholder when one is present, else appended for "append" and prepended for any other strategy |
| `Executor.Run` | PipeLibrary/__init__.py:123-145 | defines the run: dispatch the calls in order with their effective arguments, thread each returned value into the next call, stop at the first `Raised`, and return the last value, or the starting value when there are no calls |
| `Executor.Pipeline` | PipeLibrary/__init__.py:119-145 | defines the whole keyword: split the tokens at the pipe operator, then run the calls from an absent result |
| `Executor.Substitute` | PipeLibrary/__init__.py:130-132 | same length; every placeholder position holds the piped value and every other position is unchanged; the value occurs when a placeholder did, and no placeholder is left unless the value is one |
| `Executor.EffectiveArgsRule` | PipeLibrary/__init__.py:127-137 | no piped result: arguments unchanged, a placeholder kept as a literal; placeholder present: substitution in place, same length; otherwise one more argument, the result last for "append" and first for any other strategy; a piped result always reaches the call |
| `Executor.RunDispatchCount` | PipeLibrary/__init__.py:126-143 | a run dispatches at most one call per pipeline call; all of them when it succeeds, at least one when it fails |
| `Executor.RunInvokesInOrder` | PipeLibrary/__init__.py:126-140 | the k-th dispatched call carries the name of the k-th pipeline call: calls are dispatched left to right, each once |
| `Executor.RunThreadsResults` | PipeLibrary/__init__.py:126-140 | the first call gets the starting piped result; for every later call k+1, call k returned, and its return value is what was threaded into call k+1's arguments |
| `Executor.RunOutcome` | PipeLibrary/__init__.py:123-145 | a successful run returns the last call's return value, or the starting value (None) when there are no calls; a failed run returns the failure its last dispatched call raised |
| `Executor.RunStopsAtFirstFailure` | PipeLibrary/__init__.py:139-143 | a run succeeds exactly when every pipeline call was dispatched and returned; a call that raised is the last one dispatched, so later calls never run, and its failure is the run's result |
| `Executor.RunOfTwoCalls` | PipeLibrary/__init__.py:126-140 | when the first of two calls returns, both are dispatched and the second gets that return value threaded into its arguments |
| `Executor.PipelineOfSeparatorsOnly` | PipeLibrary/__init__.py:120-123 | the empty token list, or one of separators only, dispatches nothing and returns None |
| `Dispatcher.BuiltIn.constructor` | PipeLibrary/__init__.py:88 | a fresh dispatcher has received no calls |
| `Dispatcher.BuiltIn.RunKeyword` | PipeLibrary/__init__.py:140 | records exactly the call it receives and answers with the reply for that call, given the calls it received before |
| `PipeLibrary.RunStep` | PipeLibrary/__init__.py:126-143 | one iteration: dispatching call i either ends the run with that call's failure or continues from call i+1 with its return value |
| `PipeLibrary.PipeLibrary.constructor` | PipeLibrary/__init__.py:70-91 | the library holds the given dispatcher, strategy, placeholder and pipe operator, and has logged nothing |
| `PipeLibrary.PipeLibrary.SplitPipeKeywords` | PipeLibrary/__init__.py:147-166 | the loop's result equals the reference split of the tokens at the pipe operator |
| `PipeLibrary.PipeLibrary.ThreadArgs` | PipeLibrary/__init__.py:127-137 | the arguments built are exactly the effective arguments for the current piped result and the library's settings |
| `PipeLibrary.PipeLibrary.Pipe` | PipeLibrary/__init__.py:95-145 | result and dispatcher trace are those of the specification run of the split tokens from an absent result; exactly one error report, naming the failing keyword and its cause, is logged on failure and none on success |
| `PipeLibrary.PipeLibrary.RunKeywordCalls` | PipeLibrary/__init__.py:123-145 | the loop dispatches exactly the calls of the specification run, in order, and returns its result; on failure it logs one report for the failing keyword |
| `Scenarios.DoubleSeparatorCollapses` | PipeLibrary/__init__.py:155-166 | `A >> >> B` splits into exactly the two calls `A` and `B` |
| `Scenarios.ResultIsPrepended` | PipeLibrary/__init__.py:136-137 | with the defaults, `GetUserId alice >> FetchUser`, where the first call returns "42", dispatches `FetchUser("42")` |
| `Scenarios.PlaceholderIsReplaced` | PipeLibrary/__init__.py:128-132 | for `A x >> B $ y`, the second call is dispatched as `B(result, y)`: the placeholder is replaced in place and nothing is appended |
| `Scenarios.ResultIsAppended` | PipeLibrary/__init__.py:134-135 | with strategy append, `A >> B y`, where A returns "7", dispatches `B("y", "7")` |
| `Scenarios.NoneIsNotPiped` | PipeLibrary/__init__.py:127 | after a keyword returns None, `B $` is dispatched with the literal placeholder |
| `Scenarios.FailureStopsPipeline` | PipeLibrary/__init__.py:139-143 | if `A` fails in `A >> B`, `B` is never dispatched and the failure is the result |

## Left out

- Robot Framework's `BuiltIn().run_keyword` (lines 88 and 140) is not part of this model. Its behaviour is an arbitrary total reply function of the call history and the current call. So a keyword that never returns is not modelled.
- The constructor receives the dispatcher. The source builds `BuiltIn()` itself at line 88.
- `logger.error` (line 142): only the keyword and the failure message are kept, as an `ErrorReport` appended to `errorLog`. Message formatting and the log destination are not modelled.
- Python exceptions: a failure is an `Err` carrying its message. Exception types and tracebacks are not modelled, nor which exception object is re-raised. The source catches only `Exception` (line 141), so a `BaseException` such as `SystemExit` or `KeyboardInterrupt` propagates without being logged; every `Raised` reply of the model stands for an `Exception`, and such escapes are not modelled.
- `PipeLibrary.PipeLibrary.constructor`: it has no default arguments, because the defaults `"$"` and `">>"` are strings and the model is generic in `V`. The defaults are given as the constants `DefaultPipeStrategy`, `DefaultPlaceholder`, `DefaultPipeOperator` and `DefaultConfig`, for `V = string`.
- The `Literal["prepend", "append"]` annotation is not enforced, as in Python at run time: any string is accepted, and every value other than `"append"` prepends.
- The `run_keyword_variant`, `register_run_keyword`, `@library` and `@keyword` decorators (lines 9-16, 19, 93-94) are registration with the host framework.
- `ROBOT_LIBRARY_VERSION` (read through `importlib.metadata`), `ROBOT_LIBRARY_SCOPE`, `ROBOT_LIBRARY_FORMAT` (lines 66-68) and all docstrings are metadata.
