/** The process boundary: the `exec.exec` calls of the runner, seen as commands handed to an
    oracle that answers each one, given the commands issued before it in the same run. */
module Exec {

  /** The two output streams of a child process. */
  datatype Stream = Stdout | Stderr

  /** One `data` event delivered to a stream listener, already decoded to text. */
  datatype Chunk = Chunk(stream: Stream, data: string)

  /** A value thrown by JavaScript code: an `Error` with its message, or any other
      value, kept as the text `String(value)` gives for it. */
  datatype Thrown = ErrorValue(message: string) | OtherValue(text: string)

  /** One `exec.exec(program, args, { cwd, silent, ignoreReturnCode })` call. */
  datatype Command = Command(program: string, args: seq<string>, cwd: string, silent: bool, ignoreReturnCode: bool)

  /** What the promise of an `exec.exec` call settles to: resolved with the exit code, after
      the listeners have seen the output chunks in delivery order, or rejected. */
  datatype Outcome = Resolved(exitCode: int, output: seq<Chunk>) | Rejected(thrown: Thrown)

  /** The environment: the repository, the network and the tools behind `exec.exec`. Its answer
      to a command may depend on every command issued before it (a fetch changes what a later
      command sees). Turning a non-zero exit code into a rejection when `ignoreReturnCode` is
      off is part of what it answers. */
  type Oracle = (seq<Command>, Command) -> Outcome

  /** `@actions/exec`'s own rule, which an environment may be asked to honour: a command run
      without `ignoreReturnCode` never resolves with a non-zero exit code. */
  ghost predicate HonoursReturnCode(exec: Oracle)
  {
    forall h: seq<Command>, c: Command :: !c.ignoreReturnCode && exec(h, c).Resolved? ==> exec(h, c).exitCode == 0
  }

  /** `String(value)` for a thrown value, or its message when it is an `Error`. */
  function Describe(t: Thrown): string
  {
    match t
    case ErrorValue(m) => m
    case OtherValue(s) => s
  }

  /** The text a listener of stream `s` has accumulated after the chunks `chunks` were delivered. */
  function StreamText(chunks: seq<Chunk>, s: Stream): string
  {
    if chunks == [] then ""
    else
      var last := chunks[|chunks| - 1];
      StreamText(chunks[..|chunks| - 1], s) + (if last.stream == s then last.data else "")
  }

  /** Delivering more chunks only appends to each stream's text, in delivery order. */
  lemma {:induction false} StreamTextAppend(a: seq<Chunk>, b: seq<Chunk>, s: Stream)
    ensures StreamText(a + b, s) == StreamText(a, s) + StreamText(b, s)
    decreases |b|
  {
    if b != [] {
      var init := b[..|b| - 1];
      StreamTextAppend(a, init, s);
      assert (a + b)[..|a + b| - 1] == a + init;
    } else {
      assert a + b == a;
    }
  }

  /** A chunk of the other stream, wherever it falls, leaves a stream's text unchanged: the
      two streams are ordered independently. */
  lemma StreamTextIgnoresOtherStream(a: seq<Chunk>, c: Chunk, b: seq<Chunk>, s: Stream)
    requires c.stream != s
    ensures StreamText(a + [c] + b, s) == StreamText(a + b, s)
  {
    StreamTextAppend(a + [c], b, s);
    StreamTextAppend(a, [c], s);
    StreamTextAppend(a, b, s);
    assert StreamText([c], s) == "" by {
      assert [c][..0] == [];
    }
  }

  /** Each chunk of stream `s` contributes its data, in order: the text of a single chunk. */
  lemma StreamTextOfChunk(c: Chunk, s: Stream)
    ensures StreamText([c], s) == if c.stream == s then c.data else ""
  {
    assert [c][..0] == [];
  }
}
