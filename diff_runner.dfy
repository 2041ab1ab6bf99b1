/** `runArchlintDiff`: resolves the baseline, runs `npx @archlinter/cli diff` in the working
    directory, accumulates its output and decodes the payload found in stdout, turning every
    `Error` raised on the way into one uniformly prefixed error. */
module DiffRunner {
  import opened JsString
  import opened Exec
  import opened RefResolver
  import opened Extractor

  /** The options of one run. */
  datatype RunOptions = RunOptions(baseline: string, failOn: string, workingDirectory: string)

  /** What `JSON.parse` makes of a span: a value, or the message of the `SyntaxError` it throws. */
  datatype Decoded<V> = Parsed(value: V) | Malformed(message: string)

  /** `JSON.parse`, treated as an opaque decoder of the extracted span. */
  type Decoder<V> = string -> Decoded<V>

  /** How a run settles: the decoded result is returned, or a value is thrown. */
  datatype RunResult<V> = Returned(value: V) | Threw(thrown: Thrown)

  /** The prefix every `Error` leaving the run carries. */
  const FailurePrefix := "Archlint execution failed: "

  /** The arguments of the tool's `diff` sub-command. */
  function ToolArgs(options: RunOptions): seq<string>
  {
    ["diff", options.baseline, "--fail-on", options.failOn, "--explain", "--json"]
  }

  /** `npx @archlinter/cli diff ...` in the working directory, with its exit code ignored. */
  function ToolCommand(options: RunOptions): Command
  {
    Command("npx", ["@archlinter/cli"] + ToolArgs(options), options.workingDirectory, false, true)
  }

  /** The `catch` of the run: an `Error` is replaced by a new one with the prefixed message; any
      other thrown value passes through unchanged. */
  function Normalize(t: Thrown): Thrown
  {
    match t
    case ErrorValue(m) => ErrorValue(FailurePrefix + m)
    case OtherValue(_) => t
  }

  /** What the run settles to once the tool's output has been captured: the payload of `stdout`,
      decoded, or the prefixed `Error` of whichever step failed. */
  function Settle<V>(stdout: string, stderr: string, decode: Decoder<V>): (r: RunResult<V>)
    ensures r.Returned? <==>
      var extraction := ExtractPayload(stdout, stderr);
      extraction.Payload? && decode(extraction.span).Parsed?
    ensures r.Threw? ==> r.thrown.ErrorValue? && FailurePrefix <= r.thrown.message
  {
    match ExtractPayload(stdout, stderr)
    case NoPayload(message) => Threw(Normalize(ErrorValue(message)))
    case Payload(span) =>
      match decode(span)
      case Parsed(v) => Returned(v)
      case Malformed(message) => Threw(Normalize(ErrorValue(message)))
  }

  /** What the run settles to once the tool's `exec.exec` call has settled with `tool`. */
  function Finish<V>(tool: Outcome, decode: Decoder<V>): (r: RunResult<V>)
    ensures r.Returned? <==>
      tool.Resolved? &&
      var extraction := ExtractPayload(StreamText(tool.output, Stdout), StreamText(tool.output, Stderr));
      extraction.Payload? && decode(extraction.span).Parsed?
    ensures r.Threw? && r.thrown.ErrorValue? ==> FailurePrefix <= r.thrown.message
  {
    match tool
    case Rejected(t) => Threw(Normalize(t))
    case Resolved(_, chunks) => Settle(StreamText(chunks, Stdout), StreamText(chunks, Stderr), decode)
  }

  /** The two stream listeners of the tool call: each appends every chunk of its stream to its
      buffer, starting from the empty string. */
  method CaptureOutput(chunks: seq<Chunk>) returns (stdout: string, stderr: string)
    ensures stdout == StreamText(chunks, Stdout)
    ensures stderr == StreamText(chunks, Stderr)
  {
    stdout, stderr := "", "";
    for i := 0 to |chunks|
      invariant stdout == StreamText(chunks[..i], Stdout)
      invariant stderr == StreamText(chunks[..i], Stderr)
    {
      assert chunks[..i + 1][..i] == chunks[..i];
      match chunks[i].stream
      case Stdout =>
        stdout := stdout + chunks[i].data;
      case Stderr =>
        stderr := stderr + chunks[i].data;
    }
    assert chunks[..|chunks|] == chunks;
  }

  /** `runArchlintDiff(options)` against the environment `exec` and the decoder `decode`:
      `issued` is the trace of the commands it runs, `resolution` what became of the baseline. */
  method RunArchlintDiff<V>(options: RunOptions, exec: Oracle, decode: Decoder<V>)
    returns (issued: seq<Command>, resolution: Resolution, result: RunResult<V>)
    ensures resolution == Resolve(options.baseline, options.workingDirectory, exec, [])
    ensures issued == ResolutionCommands(options.baseline, options.workingDirectory, resolution) + [ToolCommand(options)]
    ensures result == Finish(exec(issued[..|issued| - 1], ToolCommand(options)), decode)
  {
    var stdout := "";
    var stderr := "";
    var args := ToolArgs(options);
    var before;
    resolution, before := EnsureRefExists(options.baseline, options.workingDirectory, exec, []);
    assert before == ResolutionCommands(options.baseline, options.workingDirectory, resolution) by {
      assert [] + ResolutionCommands(options.baseline, options.workingDirectory, resolution) == before;
    }
    var tool := Command("npx", ["@archlinter/cli"] + args, options.workingDirectory, false, true);
    assert tool == ToolCommand(options);
    var settled := exec(before, tool);
    issued := before + [tool];
    assert issued[..|issued| - 1] == before;
    match settled
    case Rejected(t) =>
      result := Threw(Normalize(t));
    case Resolved(_, chunks) =>
      stdout, stderr := CaptureOutput(chunks);
      ghost var extraction := ExtractPayload(stdout, stderr);
      var jsonStart := IndexOf(stdout, '{');
      var jsonEnd := LastIndexOf(stdout, '}');
      if jsonStart == -1 || jsonEnd == -1 {
        assert extraction == NoPayload(ParseFailurePrefix + stdout + "\n" + stderr);
        result := Threw(Normalize(ErrorValue(ParseFailurePrefix + stdout + "\n" + stderr)));
      } else {
        var jsonStr := Substring(stdout, jsonStart, jsonEnd + 1);
        assert extraction == Payload(jsonStr);
        match decode(jsonStr)
        case Parsed(v) =>
          result := Returned(v);
        case Malformed(message) =>
          result := Threw(Normalize(ErrorValue(message)));
      }
      assert result == Settle(stdout, stderr, decode);
  }

  /** The tool command is `npx @archlinter/cli diff <baseline> --fail-on <failOn> --explain --json`
      in the working directory with the exit code ignored, and it determines the options it was
      built from. */
  lemma ToolCommandShape(options: RunOptions, other: RunOptions)
    ensures ToolCommand(options).program == "npx"
    ensures ToolCommand(options).args ==
      ["@archlinter/cli", "diff", options.baseline, "--fail-on", options.failOn, "--explain", "--json"]
    ensures ToolCommand(options).cwd == options.workingDirectory
    ensures ToolCommand(options).ignoreReturnCode
    ensures ToolCommand(options) == ToolCommand(other) ==> options == other
  {
    if ToolCommand(options) == ToolCommand(other) {
      assert ToolCommand(options).args[2] == ToolCommand(other).args[2];
      assert ToolCommand(options).args[4] == ToolCommand(other).args[4];
    }
  }

  /** Every run reaches the tool, whatever became of the verification and the fetch, and the
      commands it issues are, per case: only the tool for a snapshot; verification then tool for
      a local reference; verification, fetch of `TargetOf(baseline)`, then tool otherwise. */
  lemma RunTrace(options: RunOptions, exec: Oracle)
    ensures var ref, cwd := options.baseline, options.workingDirectory;
      var res := Resolve(ref, cwd, exec, []);
      var issued := ResolutionCommands(ref, cwd, res) + [ToolCommand(options)];
      issued[|issued| - 1] == ToolCommand(options) &&
      (EndsWith(ref, SnapshotSuffix) ==> issued == [ToolCommand(options)]) &&
      (!EndsWith(ref, SnapshotSuffix) && exec([], VerifyCommand(ref, cwd)).Resolved? ==>
        issued == [VerifyCommand(ref, cwd), ToolCommand(options)]) &&
      (!EndsWith(ref, SnapshotSuffix) && exec([], VerifyCommand(ref, cwd)).Rejected? ==>
        issued == [VerifyCommand(ref, cwd), FetchCommand(TargetOf(ref), cwd), ToolCommand(options)])
  {
  }

  /** The exit code of the tool plays no part in the result. */
  lemma ExitCodeIgnored<V>(code1: int, code2: int, chunks: seq<Chunk>, decode: Decoder<V>)
    ensures Finish(Resolved(code1, chunks), decode) == Finish(Resolved(code2, chunks), decode)
  {
  }

  /** Output without `{` or without `}` fails with the prefixed message carrying the raw stdout
      and stderr. */
  lemma MissingBraceFails<V>(stdout: string, stderr: string, decode: Decoder<V>)
    requires '{' !in stdout || '}' !in stdout
    ensures Settle(stdout, stderr, decode) ==
      Threw(ErrorValue(FailurePrefix + (ParseFailurePrefix + stdout + "\n" + stderr)))
  {
    assert ExtractPayload(stdout, stderr) == NoPayload(ParseFailurePrefix + stdout + "\n" + stderr);
  }

  /** Output holding both braces hands the decoder the `substring` from the first `{` to just past
      the last `}`, and the decoder's verdict decides: its value is returned, its error prefixed. */
  lemma DecoderDecides<V>(stdout: string, stderr: string, decode: Decoder<V>)
    requires '{' in stdout && '}' in stdout
    ensures var span := Substring(stdout, IndexOf(stdout, '{'), LastIndexOf(stdout, '}') + 1);
      (decode(span).Parsed? ==> Settle(stdout, stderr, decode) == Returned(decode(span).value)) &&
      (decode(span).Malformed? ==>
        Settle(stdout, stderr, decode) == Threw(ErrorValue(FailurePrefix + decode(span).message)))
  {
    SpanIsSubstring(stdout, stderr);
  }

  /** A rejected tool call surfaces as the prefixed `Error`, or as the very value thrown when it
      is not an `Error`. */
  lemma FinishOnRejection<V>(t: Thrown, decode: Decoder<V>)
    ensures t.ErrorValue? ==> Finish(Rejected(t), decode) == Threw(ErrorValue(FailurePrefix + t.message))
    ensures t.OtherValue? ==> Finish(Rejected(t), decode) == Threw(t)
  {
  }

  /** An `Error` stays an `Error` and any other thrown value stays what it was. */
  lemma NormalizeKeepsKind(t: Thrown)
    ensures Normalize(t).ErrorValue? <==> t.ErrorValue?
    ensures t.OtherValue? ==> Normalize(t) == t
  {
  }

  /** Normalising never loses the original failure, as the model represents it: distinct
      messages stay distinct. */
  lemma NormalizeInjective(t1: Thrown, t2: Thrown)
    requires Normalize(t1) == Normalize(t2)
    ensures t1 == t2
  {
    if t1.ErrorValue? && t2.ErrorValue? {
      PrefixCancel(FailurePrefix, t1.message, t2.message);
    }
  }
}
