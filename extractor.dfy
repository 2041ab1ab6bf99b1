/** Locating the structured payload in the tool's standard output: the text from the first `{`
    to the last `}`, both included, taken with JavaScript's `substring`. */
module Extractor {
  import opened JsString

  /** The message of the error raised when stdout holds no `{` or no `}`; the raw stdout and
      stderr follow it, separated by a newline. */
  const ParseFailurePrefix := "Failed to parse archlint output. Raw output:\n"

  /** Either the diagnostic message for output without a payload, or the span handed to the decoder. */
  datatype Extraction = NoPayload(message: string) | Payload(span: string)

  /** The span between the first `{` and the last `}` of `stdout`, or the failure message. */
  function ExtractPayload(stdout: string, stderr: string): (r: Extraction)
    ensures r.NoPayload? <==> '{' !in stdout || '}' !in stdout
    ensures r.NoPayload? ==> r.message == ParseFailurePrefix + stdout + "\n" + stderr
  {
    var jsonStart := IndexOf(stdout, '{');
    var jsonEnd := LastIndexOf(stdout, '}');
    if jsonStart == -1 || jsonEnd == -1 then
      NoPayload(ParseFailurePrefix + stdout + "\n" + stderr)
    else
      Payload(Substring(stdout, jsonStart, jsonEnd + 1))
  }

  /** With both braces present, the span is `stdout.substring(first "{", last "}" + 1)`. */
  lemma SpanIsSubstring(stdout: string, stderr: string)
    requires '{' in stdout && '}' in stdout
    ensures ExtractPayload(stdout, stderr)
         == Payload(Substring(stdout, IndexOf(stdout, '{'), LastIndexOf(stdout, '}') + 1))
  {
    assert IndexOf(stdout, '{') != -1 && LastIndexOf(stdout, '}') != -1;
  }

  /** When the first `{` comes no later than the last `}`, the span runs from that `{` to that
      `}`: it starts with `{`, ends with `}`, no `{` precedes it and no `}` follows it. */
  lemma OrderedSpan(stdout: string, stderr: string)
    requires '{' in stdout && '}' in stdout
    requires IndexOf(stdout, '{') <= LastIndexOf(stdout, '}')
    ensures var first, last := IndexOf(stdout, '{'), LastIndexOf(stdout, '}');
      var span := stdout[first..last + 1];
      ExtractPayload(stdout, stderr) == Payload(span) &&
      |span| >= 1 && span[0] == '{' && span[|span| - 1] == '}' &&
      '{' !in stdout[..first] && '}' !in stdout[last + 1..]
  {
    var first, last := IndexOf(stdout, '{'), LastIndexOf(stdout, '}');
    var span := stdout[first..last + 1];
    assert ExtractPayload(stdout, stderr) == Payload(span) by {
      SpanIsSubstring(stdout, stderr);
      SubstringOrdered(stdout, first, last + 1);
    }
    SliceEnds(stdout, first, last);
  }

  /** When the last `}` comes before the first `{` (`}{`, say), `substring` swaps its arguments:
      the span is the text strictly between them, and it holds no brace at all. */
  lemma SwappedSpan(stdout: string, stderr: string)
    requires '{' in stdout && '}' in stdout
    requires LastIndexOf(stdout, '}') < IndexOf(stdout, '{')
    ensures var first, last := IndexOf(stdout, '{'), LastIndexOf(stdout, '}');
      var span := stdout[last + 1..first];
      ExtractPayload(stdout, stderr) == Payload(span) &&
      '{' !in span && '}' !in span
  {
    var first, last := IndexOf(stdout, '{'), LastIndexOf(stdout, '}');
    var span := stdout[last + 1..first];
    assert ExtractPayload(stdout, stderr) == Payload(span) by {
      SpanIsSubstring(stdout, stderr);
      SubstringSwapped(stdout, first, last + 1);
    }
    assert span == stdout[..first][last + 1..];
    assert span == stdout[last + 1..][..first - (last + 1)];
  }

  /** A payload framed by braces, amid log text with no `{` before it and no `}` after it, is
      extracted whole, however many braces it nests inside. */
  lemma {:induction false} PayloadAmidLogs(before: string, payload: string, after: string, stderr: string)
    requires '{' !in before && '}' !in after
    requires |payload| > 0 && payload[0] == '{' && payload[|payload| - 1] == '}'
    ensures ExtractPayload(before + payload + after, stderr) == Payload(payload)
  {
    var stdout := before + payload + after;
    assert stdout == before + (payload + after);
    IndexOfAfterPrefix(before, payload + after, '{');
    LastIndexOfBeforeSuffix(before + payload, after, '}');
    assert stdout[|before|..|before| + |payload|] == payload;
  }

  /** The worked case of a payload with a nested object between two log lines. */
  lemma NestedPayloadExample()
    ensures ExtractPayload("log line\n" + "{\"a\":1, \"nested\":{\"b\":2}}" + "\nmore log", "")
         == Payload("{\"a\":1, \"nested\":{\"b\":2}}")
  {
    assert '{' !in "log line\n";
    assert '}' !in "\nmore log";
    PayloadAmidLogs("log line\n", "{\"a\":1, \"nested\":{\"b\":2}}", "\nmore log", "");
  }

  /** The worked case the swap produces: stdout `}{` hands the decoder the empty string. */
  lemma SwappedExample()
    ensures ExtractPayload("}{", "") == Payload("")
  {
    assert IndexOf("}{", '{') == 1;
    assert LastIndexOf("}{", '}') == 0;
  }
}
