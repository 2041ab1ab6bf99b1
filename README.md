# archlinter action runner: a Dafny model

This project models the runner of the archlinter GitHub action (`src/runner.ts`). That file holds
the action's one piece of logic: it takes a baseline, checks for it or fetches it, runs the
archlinter `diff` command against it, and decodes the JSON result the tool prints.

- `RefResolver` models `ensureRefExists`:
  - A baseline ending in `.json` is a snapshot file and never reaches git.
  - Any other baseline is first checked with `git rev-parse --verify`.
  - Only if that check throws does the runner issue a shallow `git fetch`.
  - The fetch's remote and branch come from splitting the baseline at its first `/`. Without a `/`, the remote is `origin` and the branch is the whole baseline.
  - A fetch that throws only becomes a warning, so the resolution has no failure result. The fetch ignores its exit code, so a `git fetch` that exits non-zero resolves (`FetchResolved`) and is not warned about; only a fetch that cannot be run at all throws.
- `DiffRunner` models `runArchlintDiff`:
  - the fixed argument list of the tool call;
  - the two stream listeners, which only append to their buffers (`CaptureOutput`, a loop over the delivered chunks);
  - the decision after the output is captured (`Settle`, and `Finish` for the tool call's whole outcome);
  - the `catch`, which replaces every `Error` with one whose message is prefixed by `Archlint execution failed: ` and lets any other thrown value through unchanged.
- `Extractor` models how the payload is found: the text from the first `{` to the last `}` of stdout, taken with JavaScript's `substring`. When the last `}` comes before the first `{`, `substring` swaps its arguments. The model keeps that swap as written and proves what the decoder then receives: the text strictly between the two braces, which holds no brace at all.
- `JsString` gives `indexOf`, `lastIndexOf`, `endsWith`, `substring`, `split` and `join` their ECMAScript meaning, for the one-character arguments the runner uses.
- `Exec` models the process boundary:
  - Each `exec.exec` call is a `Command` value handed to an oracle.
  - The oracle answers from the commands issued earlier in the run: it resolves with an exit code and the output chunks, or it rejects with a thrown value.
  - The methods return the trace of issued commands. The properties about which commands are issued are stated on that trace.

`RunArchlintDiff`'s contract fixes three things, each as a function of the options, the oracle and the decoder:

- its trace;
- its resolution;
- its result.

Two runs with the same options against the same environment therefore give the same result.

Two behaviours of the code are kept as written:

- A decode failure is not a separate kind of error. `JSON.parse`'s `SyntaxError` is prefixed like every other `Error`, so only its message tells it apart.
- The payload extraction fails only when a brace is missing. When the braces come out of order, the decoder still receives a span.

## Model

| member | source | states |
|---|---|---|
| JsString.IndexOf | src/runner.ts:43 | the result is -1 exactly when the character is absent; otherwise it is the position of its first occurrence |
| JsString.LastIndexOf | src/runner.ts:44 | the result is -1 exactly when the character is absent; otherwise it is the position of its last occurrence |
| JsString.EndsWith | src/runner.ts:64 | `s.endsWith(suffix)`: `s` is at least as long as `suffix` and its last characters are `suffix`; used by SnapshotTouchesNoGit |
| JsString.Substring | src/runner.ts:52 | `substring` clamps both arguments to between 0 and the length of `s`, and swaps them when the first exceeds the second; specified by SubstringOrdered, SubstringSwapped, OrderedSpan and SwappedSpan |
| JsString.SubstringOrdered | src/runner.ts:52 | with in-range arguments in order, `substring` is the slice between them |
| JsString.SubstringSwapped | src/runner.ts:52 | with in-range arguments in reverse order, `substring` is the slice between them, swapped |
| JsString.Split | src/runner.ts:81 | `split` on a one-character separator; specified by SplitAtFirst, JoinSplit and SplitJoin |
| JsString.Join | src/runner.ts:82 | `join` with a one-character separator; specified by SplitAtFirst, JoinSplit and SplitJoin |
| JsString.SplitAtFirst | src/runner.ts:81-82 | the first segment of `split("/")` is the text before the first `/`, and the other segments joined with `/` are exactly the text after it |
| JsString.JoinSplit | src/runner.ts:81-82 | joining the segments of a split with the same separator gives back the original string |
| JsString.SplitJoin | src/runner.ts:81-82 | splitting a join of separator-free segments gives back those segments (the other direction of the round trip) |
| Exec.StreamText | src/runner.ts:32-37 | the text a listener has accumulated; specified by StreamTextOfChunk, StreamTextAppend, StreamTextIgnoresOtherStream and CaptureOutput |
| Exec.StreamTextOfChunk | src/runner.ts:32-37 | a single chunk contributes its data to its own stream and nothing to the other |
| Exec.StreamTextAppend | src/runner.ts:32-37 | a stream's buffer is append-only: after more chunks arrive, it is the old text followed by the new chunks' text, in delivery order |
| Exec.StreamTextIgnoresOtherStream | src/runner.ts:32-37 | a chunk of the other stream, wherever it is delivered, leaves a stream's text unchanged: each stream is ordered independently |
| RefResolver.VerifyCommand | src/runner.ts:68-74 | `git rev-parse --verify <ref>`, silent, recorded with `ignoreReturnCode` off, so that an environment honouring `Exec.HonoursReturnCode` rejects a non-zero exit (LocalRefMeansVerified); used by SnapshotTouchesNoGit, FetchOnlyAfterFailedVerify and RunTrace |
| RefResolver.FetchCommand | src/runner.ts:85-116 | `git fetch --no-tags --prune --depth=1 <remote> <refspec>` in the working directory, with the exit code ignored; specified by FetchedTarget |
| RefResolver.FetchWarning | src/runner.ts:119-121 | the warning `Failed to fetch ref "<ref>": <message>`; specified by FetchedTarget |
| RefResolver.Resolve | src/runner.ts:62-124 | what `ensureRefExists` makes of a baseline; specified by SnapshotTouchesNoGit, FetchOnlyAfterFailedVerify and FetchedTarget, and matched step by step by EnsureRefExists |
| RefResolver.EnsureRefExists | src/runner.ts:62-124 | the classification is the one `Resolve` gives; the commands issued are exactly those of that classification, appended to the trace; the method has no failure outcome |
| RefResolver.LocalRefMeansVerified | src/runner.ts:68-75 | against an environment that honours the exit-code rule, a baseline is classified as local only when its verification resolved with exit code 0 |
| RefResolver.SnapshotTouchesNoGit | src/runner.ts:64 | the baseline is classified as a snapshot iff it ends in `.json`, and then no command at all is issued; every command issued otherwise runs git |
| RefResolver.FetchOnlyAfterFailedVerify | src/runner.ts:66-79 | a fetch is among the issued commands iff the baseline is not a snapshot and `git rev-parse --verify` threw; a successful verification issues no fetch |
| RefResolver.FetchedTarget | src/runner.ts:79-122 | after a failed verification, exactly two commands are issued: the verification, then `git fetch --no-tags --prune --depth=1 <remote> <refspec>` for `TargetOf(ref)`, in the working directory with the exit code ignored; the fetch's status is failed iff it threw, with the warning `Failed to fetch ref "<ref>": <message>` |
| RefResolver.TargetOf | src/runner.ts:80-116 | the remote and branch of a baseline; specified by TargetOfSplitsAtFirstSlash, TargetOfRecoversTarget and TargetOfWithoutSlash |
| RefResolver.TargetOfSplitsAtFirstSlash | src/runner.ts:80-82 | for a ref containing `/`, the remote is the text before the first `/` and contains no `/`, the branch is everything after it, and remote + "/" + branch == ref |
| RefResolver.TargetOfRecoversTarget | src/runner.ts:80-82 | conversely, a remote without `/` and any branch are recovered from remote + "/" + branch |
| RefResolver.TargetOfWithoutSlash | src/runner.ts:100-116 | a ref without `/` is fetched from `origin` with refspec `+refs/heads/<ref>:refs/remotes/origin/<ref>` |
| RefResolver.FeatureBranchExample | src/runner.ts:80-82 | `origin/feature-x` is fetched as branch `feature-x` of `origin` |
| RefResolver.NestedBranchExample | src/runner.ts:80-82 | `origin/release/1.2` is fetched as branch `release/1.2` of `origin`: the branch keeps its `/` |
| RefResolver.BareBranchExample | src/runner.ts:100-110 | `main` is fetched as branch `main` of `origin` |
| RefResolver.Refspec | src/runner.ts:93-110 | the forced refspec of a target; specified by RefspecText, RefspecInjective and TargetOfWithoutSlash |
| RefResolver.RefspecText | src/runner.ts:93 | the refspec is `+refs/heads/<branch>:refs/remotes/<remote>/<branch>` |
| RefResolver.RefspecInjective | src/runner.ts:93 | for branch names without `:`, the refspec determines the remote and the branch: different targets give different refspecs |
| Extractor.ExtractPayload | src/runner.ts:43-52 | extraction fails iff stdout lacks `{` or lacks `}`, and then its message is `Failed to parse archlint output. Raw output:\n` + stdout + `\n` + stderr |
| Extractor.OrderedSpan | src/runner.ts:43-52 | when the first `{` is no later than the last `}`, the span is stdout from that `{` to that `}` inclusive, starts with `{` and ends with `}`; no `{` precedes it and no `}` follows it |
| Extractor.SwappedSpan | src/runner.ts:52 | when the last `}` precedes the first `{`, `substring` swaps its arguments: the span is the text strictly between the two braces and contains no brace |
| Extractor.PayloadAmidLogs | src/runner.ts:42-52 | a brace-framed payload with no `{` before it and no `}` after it is extracted whole, whatever it nests |
| Extractor.NestedPayloadExample | src/runner.ts:42-53 | stdout `log line\n{"a":1, "nested":{"b":2}}\nmore log` yields exactly the nested object's text |
| Extractor.SwappedExample | src/runner.ts:52 | stdout `}{` reaches the decoder as the empty string instead of raising the parse-failure error |
| DiffRunner.Settle | src/runner.ts:42-58 | once the output is captured, the run returns a value iff stdout has both braces and the decoder accepts the span; otherwise it throws an `Error` carrying the `Archlint execution failed: ` prefix |
| DiffRunner.Finish | src/runner.ts:42-58 | the run returns a value iff the tool call resolved, the output has both braces and the decoder accepts the span; every `Error` it throws carries the `Archlint execution failed: ` prefix |
| DiffRunner.CaptureOutput | src/runner.ts:14-38 | starting from empty strings, stdout (resp. stderr) is exactly the in-order concatenation of the chunks delivered to that stream |
| DiffRunner.RunArchlintDiff | src/runner.ts:11-60 | the run resolves the baseline as `Resolve` does, then issues the tool command last; its result is `Finish` applied to the tool call's outcome |
| DiffRunner.ToolArgs | src/runner.ts:17-24 | the arguments of the `diff` sub-command; specified by ToolCommandShape |
| DiffRunner.ToolCommand | src/runner.ts:29-40 | the tool's `exec.exec` call; specified by ToolCommandShape |
| DiffRunner.ToolCommandShape | src/runner.ts:17-40 | the tool is run as `npx @archlinter/cli diff <baseline> --fail-on <failOn> --explain --json` in the working directory, with `ignoreReturnCode`; the command determines the options |
| DiffRunner.RunTrace | src/runner.ts:26-29 | every run reaches the tool command, with the failure or success of the verification and the fetch making no difference: snapshot → [tool]; found locally → [verify, tool]; otherwise → [verify, fetch, tool] |
| DiffRunner.ExitCodeIgnored | src/runner.ts:39 | two tool outcomes that differ only in their exit code give the same result |
| DiffRunner.MissingBraceFails | src/runner.ts:46-49 | captured output without `{` or without `}` throws `Archlint execution failed: Failed to parse archlint output. Raw output:\n` + stdout + `\n` + stderr |
| DiffRunner.DecoderDecides | src/runner.ts:52-53 | captured output with both braces hands the decoder `stdout.substring(first "{", last "}" + 1)`; the decoded value is returned, or the decoder's error is prefixed |
| DiffRunner.FinishOnRejection | src/runner.ts:54-58 | a rejected tool call surfaces as the prefixed `Error`, or the thrown non-`Error` value unchanged |
| DiffRunner.Normalize | src/runner.ts:54-58 | specified by FinishOnRejection, NormalizeKeepsKind and NormalizeInjective: an `Error`'s message gains the `Archlint execution failed: ` prefix, any other value is rethrown as is |
| DiffRunner.NormalizeKeepsKind | src/runner.ts:55-58 | an `Error` never becomes a non-`Error` value, and a non-`Error` value is rethrown unchanged |
| DiffRunner.NormalizeInjective | src/runner.ts:55-56 | distinct messages stay distinct: the original message can be told back from the prefixed one |

## Left out

- Process spawning by `@actions/exec` (`git` and `npx`) is I/O. It is the `Exec.Oracle` parameter. The library's own rule, that a non-zero exit code becomes a rejection when `ignoreReturnCode` is off, is the predicate `Exec.HonoursReturnCode`. The properties of the model hold for every oracle; only `RefResolver.LocalRefMeansVerified` assumes the rule.
- The oracle's outcome for a rejected call carries no output. Chunks delivered before a rejection are not modelled: the runner discards the buffers on that path.
- `JSON.parse` and the `JsDiffResult` schema belong to foreign libraries. They are the opaque `DiffRunner.Decoder<V>` and its type parameter `V`.
- The `core.debug` and `core.info` log lines are left out, because they only produce output. The `core.warning` text for a failed fetch is kept in `RefResolver.FetchFailed`.
- `async`/`await` is not modelled. The pipeline is strictly sequential, so the model runs its steps in order.
- `Buffer.toString()` decoding of output chunks is not modelled: chunks arrive as text. Strings are sequences of Dafny characters rather than UTF-16 code units, which does not change any search for `{`, `}` or `/`.
- The `silent` option of the verification call is recorded in its command value. Its no-op stderr listener is not modelled, and neither is their effect on the action's own log.
- `dist/github.d.ts` (posting comments, annotations and summaries) and `dist/runner.d.ts` (a type declaration repeating `RunOptions`) are not part of this model. They hold declarations only.
- An `Error` is represented by its message alone, and any other thrown value by the text `String(value)` gives. The class of an `Error` (`SyntaxError`, `TypeError`, …) and its stack are not modelled; the runner's `new Error(...)` drops both anyway.
- RefResolver.RefspecInjective: stated only for branch names without `:`. Git's reference names cannot contain a colon.
