# Conversation pre-processing handlers, modelled in Dafny

This project models the data-preparation handlers of a sales-chat language-model pipeline
(`dags/nlg/handlers.py`). There are four of them:

- **Session segmenter** (`PretrainingTextHandler.handle`, module `Segmenter`,
  `segmenter.dfy`). It turns transcript rows (customer id, timestamp, speaker, text,
  message and voice counts) into tagged lines: `客户：` for the customer, `销售：` for the
  agent. A standalone `<eod>` line goes between two conversations. When the next row of
  the same conversation comes after a pause of more than an hour, or in a burst of more
  than five messages, `<eop>` is appended to the previous line in place.
- **Long-text segmenter** (`PretrainingLongTextHandler.handle`, module
  `LongTextSegmenter`, `long_text.dfy`). The same loop, run after an order-preserving
  filter. The filter keeps the customers whose summary row counts more than two
  customer messages.
- **Window packer** (`PretrainingDataHandler.handle`, module `WindowPacker`,
  `window_packer.dfy`). It packs the tagged lines into training windows of about 256
  tokens, using three things:
  - `mem1`, the window being assembled;
  - `mem2`, the lines since the last customer line;
  - the reply counters `reply` and `reply2`.

  At `<eod>`, `mem1` is emitted when `reply > 0`. Reaching the budget emits `mem1`
  and restarts it from a deep copy of `mem2`. With `reply2` reset at customer lines,
  `reply > 0` means that `mem1` ends with an agent reply. The code as written gives no
  such guarantee: it can emit a window with no agent reply (see "## Findings"). Even
  with the reset, a `mem1` that ends with a customer line is dropped at `<eod>`, whatever
  replies it holds (`WindowPacker.CorrectedSessionEnd`).
- **Benchmark handler** (`BenchmarkHandler.get_input` and `BenchmarkHandler.handle`,
  module `Benchmark`, `benchmark.dfy`). It keeps a deque of the current session's
  lines. At every customer line it behaves as follows:
  - it trims the deque in place from the front until at most 200 characters remain;
  - it builds a prompt from the encodings of the kept lines, followed by the encoding
    of `销售：`;
  - it asks the model for a continuation.

Each source loop is a `method` with a loop. Its invariant ties the loop variables to a
specification function:

- the segmenter and packer loops (`Segmenter.Segment`, `WindowPacker.Pack`) follow a
  back-recursive fold, `Run`, of a `Step` function that mirrors the loop body;
- the three loops of `get_input` (`Benchmark.GetInput`) follow `TotalLength`, `Trimmed`
  and `Encoded`;
- the loop of the benchmark `handle` (`Benchmark.Respond`) keeps `Answered`, which says
  that every entry so far is its line's `Response`, and `Tracks`, which says that the deque
  lies between the session's trimmed form and the session.

Lemmas then relate these functions to independent descriptions:

- for the segmenter, `Annotated`, a front-to-back description row by row;
- for trimming, the longest suffix that fits the budget;
- for the benchmark session, the longest suffix free of `<eod>`;
- for the packer, the buffer invariants and the reply counts.

The objects the source mutates are classes:

- the Python lists `mem1`/`mem2` are `WindowPacker.LineList`, where `copy.deepcopy` is
  the constructor `CopyOf`, which makes a fresh object;
- the deque is `Benchmark.Deque`.

External code is passed in as function parameters:

- the tokenizer's token count, `count: string -> nat`;
- its encoder, `encode: string -> seq<int>`;
- generation followed by decoding and joining the samples, `generate: seq<int> -> string`.

Integers are unbounded. The source's integers are Python integers, so nothing wraps.

The two guards of the segmenter (`== cur_customer` and `!= cur_customer`) exclude each
other. `Segmenter.PauseAndBoundaryExclusive` proves that `<eop>` and `<eod>` never both
fire for one row.

Shared suffix facts (`IsSuffix` and its lemmas) are in module `LineSequences`,
`sequences.dfy`.

## Model

| member | source | states |
|---|---|---|
| Segmenter.Step | dags/nlg/handlers.py:30-38 | once a customer has been seen there is always a last line, so the in-place `data[-1] + '<eop>'` is always defined |
| Segmenter.Run | dags/nlg/handlers.py:21-38 | the loop state after any prefix of the rows keeps that last-line guarantee |
| Segmenter.Segment | dags/nlg/handlers.py:17-41 | the loop returns the segmented lines; their number is the row count plus the number of conversation changes, and exactly that many lines are `<eod>` |
| Segmenter.RunMatchesAnnotated | dags/nlg/handlers.py:21-38 | the loop's output equals the front-to-back reference description; `cur_customer` and `last_timestamp` end as the last row's customer and timestamp |
| Segmenter.StepMatchesExtended | dags/nlg/handlers.py:30-38 | one loop iteration after at least one row produces exactly the extended reference description |
| Segmenter.AnnotatedSnoc | dags/nlg/handlers.py:30-38 | a new row changes only the end of the output: it may add `<eop>` to the last line, then adds `<eod>` on a customer change, then adds the tagged line |
| Segmenter.AnnotatedRows | dags/nlg/handlers.py:25-37 | with boundaries dropped there is exactly one line per row, in input order: the speaker prefix plus the text, marked `<eop>` exactly when the next row is the same customer after a pause of more than 3600 s or a burst of more than 5 messages; boundaries are exactly the customer changes |
| Segmenter.AnnotatedSplit | dags/nlg/handlers.py:33-37 | the first row contributes one utterance, and one boundary exactly when the next row belongs to another customer |
| Segmenter.SegmentedCounts | dags/nlg/handlers.py:33-39 | output length is rows plus changes, and the `<eod>` count equals the number of adjacent row pairs with different customers (`<eop>` never adds a line) |
| Segmenter.SegmentedEnds | dags/nlg/handlers.py:33-39 | output is empty exactly for no rows; the first line is never `<eod>`; the last line is the last row's tagged text, so nothing follows the last row; every line is non-empty |
| Segmenter.PauseAndBoundaryExclusive | dags/nlg/handlers.py:30-36 | a line marked `<eop>` and an `<eod>` line are never followed by `<eod>`: the pause and boundary guards never both fire for one row |
| Segmenter.TaggedLineIsNotMarker | dags/nlg/handlers.py:25-37 | a tagged line, with or without `<eop>`, is never the `<eod>` marker and still starts with a speaker prefix |
| Segmenter.ScenarioOneConversation | dags/nlg/handlers.py:33-37 | two rows of one customer give two tagged lines and no boundary |
| Segmenter.ScenarioTwoConversations | dags/nlg/handlers.py:33-37 | rows of two customers give `<eod>` between their lines |
| Segmenter.ScenarioPause | dags/nlg/handlers.py:30-32 | a gap of 4000 s inside one conversation appends `<eop>` to the earlier line |
| LongTextSegmenter.EligibleIds | dags/nlg/handlers.py:49 | an id is eligible exactly when some summary row with that id has more than two customer messages |
| LongTextSegmenter.KeepCustomers | dags/nlg/handlers.py:50 | the filter never adds rows, and every row it keeps belongs to an eligible customer |
| LongTextSegmenter.KeepCustomersMembers | dags/nlg/handlers.py:50 | a row survives the filter exactly when it is an input row whose customer is eligible |
| LongTextSegmenter.KeepCustomersAppend | dags/nlg/handlers.py:50 | the filter distributes over concatenation, so surviving rows keep their order |
| LongTextSegmenter.KeepAllCustomers | dags/nlg/handlers.py:50 | when all customers are eligible the filter is the identity, and the long-text handler agrees with the plain one |
| LongTextSegmenter.SegmentLong | dags/nlg/handlers.py:47-73 | the output is the plain segmenter applied to the filtered rows, with the matching length |
| WindowPacker.LineList.constructor | dags/nlg/handlers.py:96-97 | a new empty buffer |
| WindowPacker.LineList.CopyOf | dags/nlg/handlers.py:126 | `deepcopy`: a fresh list with the same lines |
| WindowPacker.LineList.Append | dags/nlg/handlers.py:120-121 | the line is appended and nothing else changes |
| WindowPacker.LineList.Clear | dags/nlg/handlers.py:106-107 | the buffer becomes empty |
| WindowPacker.Join | dags/nlg/handlers.py:125-129 | `' '.join` of one line is that line, and a join always starts with its first line |
| WindowPacker.EndSession | dags/nlg/handlers.py:102-111 | the `<eod>` branch keeps the windows already emitted and adds one more exactly when `reply > 0` |
| WindowPacker.Absorb | dags/nlg/handlers.py:113-123 | a non-`<eod>` line emits nothing and is appended to `mem1`; `reply` is 0 afterwards exactly when the line is a customer line |
| WindowPacker.Flush | dags/nlg/handlers.py:124-131 | at 256 tokens or more, `mem1` is emitted and replaced by `mem2`; below that nothing changes |
| WindowPacker.Step | dags/nlg/handlers.py:101-131 | one iteration only appends windows, at most one |
| WindowPacker.TokensAppend | dags/nlg/handlers.py:123 | token counts, added line by line, add up over a concatenation of lines |
| WindowPacker.Pack | dags/nlg/handlers.py:94-131 | the loop emits the windows of the fold; at most one per line; every window is a non-empty run of consecutive input lines without `<eod>` |
| WindowPacker.WindowsWellFormed | dags/nlg/handlers.py:101-131 | at most one window per input line; every window is a non-empty, `<eod>`-free run of consecutive input lines |
| WindowPacker.EndSessionKeepsInv | dags/nlg/handlers.py:102-111 | the `<eod>` branch keeps the buffer invariant |
| WindowPacker.AbsorbKeepsInv | dags/nlg/handlers.py:113-123 | appending a line keeps `mem2` a suffix of `mem1`, with a customer line at most at its head |
| WindowPacker.FlushKeepsInv | dags/nlg/handlers.py:124-131 | the forced flush keeps the invariant: the emitted window is a slice of the input |
| WindowPacker.StepKeepsInv | dags/nlg/handlers.py:101-131 | one loop iteration keeps the invariant |
| WindowPacker.RunKeepsInv | dags/nlg/handlers.py:101-131 | after any prefix, `mem1` is an `<eod>`-free suffix of the input, `mem2` a suffix of `mem1`, an empty `mem1` has no reply, and every window is a non-empty `<eod>`-free slice |
| WindowPacker.LineWithoutFlush | dags/nlg/handlers.py:113-123 | a non-`<eod>` line below the budget is appended to both buffers (`mem2` restarted at a customer line), adds its tokens, resets `reply` at a customer line and leaves `reply2` alone there as written, otherwise increments both, and emits nothing |
| WindowPacker.ForcedFlushCarriesPending | dags/nlg/handlers.py:113-131 | reaching 256 tokens emits the pre-flush `mem1` with the new line; `mem1` becomes the lines since the last customer line, `mem2` empties, `reply` takes the value of `reply2` as updated by the line, `reply2` is 0, and `cur_len` is the token count of the joined carried lines |
| WindowPacker.SessionEndFlush | dags/nlg/handlers.py:102-111 | at `<eod>`, `mem1` is emitted exactly when `reply > 0`, and afterwards both buffers are empty and all counters are 0 |
| WindowPacker.WindowsOnlyGrow | dags/nlg/handlers.py:101-131 | windows are emitted in trigger order: the windows of a prefix are a prefix of the windows, at most one per additional line |
| WindowPacker.PrimaryKeepsPrefix | dags/nlg/handlers.py:113-123 | within a session, while no window is emitted, `mem1` only grows |
| WindowPacker.CarriedLinesLeadNextWindow | dags/nlg/handlers.py:124-131 | the lines carried into `mem1` lead the next window emitted in the same session |
| WindowPacker.StepEmits | dags/nlg/handlers.py:102-131 | an iteration emits at most one window, and it begins with the `mem1` held before the iteration |
| WindowPacker.NoFlushBelowBudget | dags/nlg/handlers.py:113-124 | lines without `<eod>` that keep `cur_len` below 256 emit nothing: they are appended to `mem1` and their tokens added to `cur_len` |
| WindowPacker.ShortSessionEmitsNothing | dags/nlg/handlers.py:102-124 | any session, at the start of the input or just after an `<eod>`, of fewer than 256 tokens emits nothing before its `<eod>`: `mem1` holds exactly its lines and `cur_len` their tokens, and lines left there at the end of the input are never emitted |
| WindowPacker.Replies | dags/nlg/handlers.py:116-118 | the reply count of some lines is at most their number |
| WindowPacker.TrailingReplies | dags/nlg/handlers.py:113-118 | the replies after the last customer line are at most all the replies |
| WindowPacker.CorrectedReplyCounts | dags/nlg/handlers.py:113-128 | with the correction, `reply` is the number of replies after the last customer line of `mem1` and `reply2` the number of replies in `mem2` |
| WindowPacker.CorrectedStepCounts | dags/nlg/handlers.py:113-128 | one corrected iteration keeps both reply counts exact |
| WindowPacker.CorrectedSessionEnd | dags/nlg/handlers.py:102-111 | with the correction, `<eod>` emits `mem1` exactly when it ends with an agent reply, so such a window always holds a reply |
| WindowPacker.SpikeRun | dags/nlg/handlers.py:113-130 | in the counterexample, the second customer line forces a flush of all three lines, and `reply` becomes 1 as written and 0 corrected |
| WindowPacker.AsWrittenEmitsReplyFreeWindow | dags/nlg/handlers.py:113-128 | as written, four concrete lines make the packer emit a window holding only a customer line; the corrected packer does not |
| WindowPacker.ScenarioTwoLines | dags/nlg/handlers.py:113-124 | a customer line and a reply of 100 tokens each stay in both buffers and emit nothing, with one reply counted |
| WindowPacker.ScenarioThreeLines | dags/nlg/handlers.py:124-131 | a third 100-token line emits all three lines and carries them over as `mem1`, with `reply` 2 |
| WindowPacker.ScenarioBudgetReached | dags/nlg/handlers.py:124-131 | three 100-token lines emit one window at the third, and a following `<eod>` emits the carried lines again |
| Benchmark.Deque.constructor | dags/nlg/handlers.py:169 | a new empty deque |
| Benchmark.Deque.Append | dags/nlg/handlers.py:177 | the line is appended at the right |
| Benchmark.Deque.Clear | dags/nlg/handlers.py:174 | the deque becomes empty |
| Benchmark.Deque.PopLeft | dags/nlg/handlers.py:150 | removes and returns the leftmost line |
| Benchmark.TotalLength | dags/nlg/handlers.py:146-148 | no single line is longer than the character total |
| Benchmark.TotalLengthAppend | dags/nlg/handlers.py:147-148 | the character total of a concatenation is the sum of the totals |
| Benchmark.Trimmed | dags/nlg/handlers.py:149-151 | trimming never adds lines, and what it keeps is within the 200-character budget |
| Benchmark.TrimmedIsFittingSuffix | dags/nlg/handlers.py:149-151 | trimming keeps a suffix of at most 200 characters, and keeps the input whole when it already fits |
| Benchmark.TrimmedTailExceeds | dags/nlg/handlers.py:149-151 | every suffix longer than the trimmed one exceeds the budget |
| Benchmark.TrimmedIsLongestFittingSuffix | dags/nlg/handlers.py:147-151 | trimming keeps the longest suffix whose total length is within the budget, in original order, and an input that fits is unchanged |
| Benchmark.TrimmedDropsFront | dags/nlg/handlers.py:149-151 | lines whose removal is forced can be dropped first without changing the result |
| Benchmark.TrimmedIdempotent | dags/nlg/handlers.py:149-151 | trimming an already trimmed deque changes nothing |
| Benchmark.TrimmedOfTail | dags/nlg/handlers.py:172-179 | a deque that was already trimmed in place, once more lines arrive, trims to what the whole session would |
| Benchmark.ContextStep | dags/nlg/handlers.py:177-179 | appending a line keeps the deque between the session's trimmed form and the session, and trimming it gives the session's trimmed form |
| Benchmark.Encoded | dags/nlg/handlers.py:152-153 | one line encodes to its own encoding |
| Benchmark.EncodedAppend | dags/nlg/handlers.py:152-158 | the encodings of a concatenation are the concatenated encodings of its parts, as `tf.concat` joins them |
| Benchmark.Prompt | dags/nlg/handlers.py:152-158 | the prompt starts with the encodings of the context lines and ends with the encoding of `销售：` |
| Benchmark.GetInput | dags/nlg/handlers.py:144-159 | the caller's deque is trimmed in place to its longest suffix within 200 characters; the prompt is the kept lines' encodings followed by the encoding of `销售：` |
| Benchmark.Session | dags/nlg/handlers.py:172-177 | the context lines are no more than the lines so far and never contain `<eod>` |
| Benchmark.SessionIsLastRun | dags/nlg/handlers.py:172-177 | the context lines are the longest `<eod>`-free suffix of the lines so far |
| Benchmark.SessionIsSuffix | dags/nlg/handlers.py:172-177 | the context lines are a suffix of the lines so far |
| Benchmark.SessionFollowsEnd | dags/nlg/handlers.py:172-177 | a line just before the session is `<eod>` |
| Benchmark.SessionRestartsAfterEnd | dags/nlg/handlers.py:172-177 | `<eod>` starts a fresh context: what follows it is the whole session |
| Benchmark.SessionSnoc | dags/nlg/handlers.py:172-177 | `<eod>` clears the context, and any other line is appended to it |
| Benchmark.TracksAfterEnd | dags/nlg/handlers.py:173-176 | after `<eod>` the empty deque is the whole, already trimmed, new session |
| Benchmark.TracksAfterLine | dags/nlg/handlers.py:177 | appending a line keeps the deque between the session and its trimmed form, and trimming the deque then gives the session's trimmed form |
| Benchmark.TracksTrimmed | dags/nlg/handlers.py:178-179 | a deque trimmed in place to the session's trimmed form still lies between the two |
| Benchmark.Response | dags/nlg/handlers.py:172-197 | an entry is non-empty only for a customer line, never for `<eod>` |
| Benchmark.CustomerResponse | dags/nlg/handlers.py:178-194 | a customer line gets the generation for the prompt of the trimmed session |
| Benchmark.NonCustomerResponse | dags/nlg/handlers.py:196-197 | any line not starting with `客` gets `''` |
| Benchmark.RespondUtterance | dags/nlg/handlers.py:177-197 | a line other than `<eod>` joins the deque; at a customer line the deque then holds exactly the session's trimmed form and the entry is the generation for its prompt; at any other line the deque is the old one plus the line and the entry is `''` |
| Benchmark.RespondLine | dags/nlg/handlers.py:172-197 | one iteration: `<eod>` empties the deque and yields `''`; a customer line leaves the deque holding exactly the session's trimmed form; any other line is appended to it; the deque keeps tracking the session, and the entry is the line's response |
| Benchmark.Respond | dags/nlg/handlers.py:169-197 | one output entry per line: `''` at `<eod>` and at agent lines, and at a customer line the generation for the prompt of the trimmed session so far |
| Benchmark.Handle | dags/nlg/handlers.py:167-198 | segments the rows and returns the lines with the per-line outputs above |

## Left out

- Tokenizer: the tokenizer is the parameter `count` (token count) or `encode` (token ids).
  Its padding and truncation to 256 tokens (`max_length=256`, `truncation`,
  `padding='max_length'`) are not modelled, so an emitted window is the `mem1` line list.
  A window emitted by a forced flush can exceed 256 tokens, and the source relies on
  truncation for those.
- TensorFlow: feature construction, the TFRecord writer and `tf.concat` are
  serialisation and I/O. The prompt is the concatenated id sequence.
- Generation: `model.generate` sampling (beam search with `do_sample`), decoding and
  joining of samples are one deterministic function, `generate`. Sampling
  non-determinism and the `leng` slicing are not modelled.
- WindowPacker.Run, WindowPacker.Windows and WindowPacker.Tokens: these specification
  functions carry no contract of their own, because one makes the proof of `Pack` too
  costly. Their properties are lemmas: `RunKeepsInv`, `WindowsOnlyGrow`,
  `WindowsWellFormed` and `TokensAppend`.
- Benchmark.Respond: requires every line to be non-empty, because the source reads
  `row['data'][0]` and raises on an empty line. `Segmenter.SegmentedEnds` proves that
  segmented lines are never empty.
- Not modelled, as they are I/O or glue without logic:
  - `print` and `tqdm`;
  - model loading;
  - the `sys.path` manipulation;
  - the CSV `__main__` script;
  - `IdsHandler`, a one-line tokenizer wrapper;
  - `common/utils.py`'s `DFHandler` and `columns_obj`. The rows are a plain datatype
    with named fields, not a DataFrame.
- pandas: `apply(str)` coercion and DataFrame construction are not modelled. Text is
  already a string.
- `custom_operator/utils.py` contains only file handling and is not part of this model.

## Findings

| source | as written | input that shows it | evidently intended | confidence | as-written member | corrected member |
|---|---|---|---|---|---|---|
| dags/nlg/handlers.py:113-128 | a customer line clears `mem2` but not `reply2`, so `reply2` still counts agent replies of an earlier exchange; a forced flush copies that count into `reply`, and the next `<eod>` emits a window holding no agent reply | lines `客户：a`, `销售：b`, `客户：c`, `<eod>`, with `客户：c` counting 300 tokens and the others 1: the windows are `[客户：a 销售：b 客户：c]` and then `[客户：c]` | `reply2` counts the replies in `mem2` (it is reset with `mem2`), so a session-end window always holds an agent reply | not executed | WindowPacker.AsWrittenEmitsReplyFreeWindow | WindowPacker.CorrectedSessionEnd |
