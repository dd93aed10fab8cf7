/**
 * What `main` does with the finished transcript subprocess: the stream
 * buffers grown by the `data` handlers, the `close` handler's three-way
 * failure classification, and the length bound applied on success.
 */
module Transcript {
  import opened Optional
  import opened Text

  const MaxLength: nat := 60000
  const TruncationMarker := "\n\n[Transcript truncated due to length...]"
  const NoTranscriptPhrase := "Could not retrieve a transcript"
  const UnavailablePhrase := "VideoUnavailable"

  const DisabledMessage := "No transcript available for this video (it might be disabled or the video might be private)."
  const UnavailableMessage := "The video is unavailable."

  /**
   * A finished subprocess: the exit code passed to `close` (`None` for the
   * `null` a signal-terminated process reports) and the chunks each stream
   * delivered, in order. Each chunk is the text one `data` event's
   * `data.toString()` produced: every Buffer is decoded as UTF-8 on its own,
   * before it is appended.
   */
  datatype ProcessRun = ProcessRun(code: Option<int>, stdoutChunks: seq<string>, stderrChunks: seq<string>)

  /** How the `close` handler ends. */
  datatype Outcome =
    | Success(text: string)
    | Disabled
    | Unavailable
    | UnknownError(stderr: string)

  /** The concatenation of stream chunks. */
  function Concat(chunks: seq<string>): string {
    if chunks == [] then [] else Concat(chunks[..|chunks| - 1]) + chunks[|chunks| - 1]
  }

  /** A `data` handler run once per chunk: `buffer += data.toString()`. */
  method Accumulate(chunks: seq<string>) returns (buffer: string)
    ensures buffer == Concat(chunks)
    ensures forall i :: 0 <= i < |chunks| ==> |chunks[i]| <= |buffer|
  {
    buffer := "";
    var i := 0;
    while i < |chunks|
      invariant 0 <= i <= |chunks|
      invariant buffer == Concat(chunks[..i])
      invariant forall j :: 0 <= j < i ==> |chunks[j]| <= |buffer|
    {
      assert chunks[..i + 1][..i] == chunks[..i];
      buffer := buffer + chunks[i];
      i := i + 1;
    }
    assert chunks[..i] == chunks;
  }

  /**
   * Once the chunks are decoded text, where the stream was cut does not
   * matter: concatenation distributes over splitting the sequence of chunks.
   */
  lemma {:induction false} ConcatSplit(a: seq<string>, b: seq<string>)
    ensures Concat(a + b) == Concat(a) + Concat(b)
    decreases |b|
  {
    if b == [] {
      assert a + b == a;
    } else {
      var b' := b[..|b| - 1];
      var last := b[|b| - 1];
      assert (a + b)[..|a + b| - 1] == a + b';
      assert (a + b)[|a + b| - 1] == last;
      assert Concat(a + b) == Concat(a + b') + last;
      assert Concat(b) == Concat(b') + last;
      ConcatSplit(a, b');
    }
  }

  /** `transcript.length > maxLength ? transcript.substring(0, maxLength) + marker : transcript`. */
  function Truncate(t: string): string {
    if |t| > MaxLength then t[..MaxLength] + TruncationMarker else t
  }

  /** The `close` handler: any code but 0, `null` included, is a failure, classified by stderr. */
  function Classify(code: Option<int>, stdout: string, stderr: string): Outcome {
    if code != Some(0) then
      if Includes(stderr, NoTranscriptPhrase) then Disabled
      else if Includes(stderr, UnavailablePhrase) then Unavailable
      else UnknownError(stderr)
    else Success(Truncate(stdout))
  }

  /** The outcome of a finished run, both streams fully accumulated. */
  function Finish(run: ProcessRun): Outcome {
    Classify(run.code, Concat(run.stdoutChunks), Concat(run.stderrChunks))
  }

  /** The line the `close` handler writes to stderr before exiting with status 1. */
  function FailureMessage(o: Outcome): string
    requires !o.Success?
  {
    match o
    case Disabled => DisabledMessage
    case Unavailable => UnavailableMessage
    case UnknownError(e) => "Error: " + e
  }

  // ---------------------------------------------------------------------------
  // Truncation

  /**
   * A transcript within the bound is kept unchanged; a longer one becomes
   * exactly its first 60000 characters followed by the marker.
   */
  lemma TruncateShape(t: string)
    ensures |t| <= MaxLength ==> Truncate(t) == t
    ensures |t| > MaxLength ==>
      |Truncate(t)| == MaxLength + |TruncationMarker|
      && Truncate(t)[..MaxLength] == t[..MaxLength]
      && Truncate(t)[MaxLength..] == TruncationMarker
  {
    if |t| > MaxLength {
      var r := Truncate(t);
      assert r[..MaxLength] == t[..MaxLength];
      assert r[MaxLength..] == TruncationMarker;
    }
  }

  /** Truncating an already truncated transcript changes nothing. */
  lemma TruncateIdempotent(t: string)
    ensures Truncate(Truncate(t)) == Truncate(t)
  {
    if |t| > MaxLength {
      var r := Truncate(t);
      assert r[..MaxLength] == t[..MaxLength];
    }
  }

  /** A truncated transcript is never longer than the bound plus the marker. */
  lemma TruncateBound(t: string)
    ensures |Truncate(t)| <= MaxLength + |TruncationMarker|
    ensures |Truncate(t)| <= |t| || |Truncate(t)| == MaxLength + |TruncationMarker|
  {
  }

  lemma TruncateExample(t: string)
    requires |t| == 70000
    ensures Truncate(t) == t[..60000] + "\n\n[Transcript truncated due to length...]"
  {
  }

  // ---------------------------------------------------------------------------
  // Classification

  /**
   * Exit code 0 is success whatever stderr says; any other code, `null`
   * included, is a failure; the disabled-transcript phrase is checked
   * before the unavailable-video phrase, and anything else carries stderr.
   */
  lemma ClassifyCases(code: Option<int>, stdout: string, stderr: string)
    ensures Classify(code, stdout, stderr).Success? <==> code == Some(0)
    ensures Classify(code, stdout, stderr) == Disabled <==>
      code != Some(0) && Occurs(stderr, NoTranscriptPhrase)
    ensures Classify(code, stdout, stderr) == Unavailable <==>
      code != Some(0) && !Occurs(stderr, NoTranscriptPhrase) && Occurs(stderr, UnavailablePhrase)
    ensures Classify(code, stdout, stderr).UnknownError? <==>
      code != Some(0) && !Occurs(stderr, NoTranscriptPhrase) && !Occurs(stderr, UnavailablePhrase)
    ensures Classify(code, stdout, stderr).UnknownError? ==> Classify(code, stdout, stderr).stderr == stderr
    ensures Classify(code, stdout, stderr).Success? ==> Classify(code, stdout, stderr).text == Truncate(stdout)
  {
    IncludesIff(stderr, NoTranscriptPhrase);
    IncludesIff(stderr, UnavailablePhrase);
  }

  /** Both phrases present: the disabled-transcript check wins. */
  lemma DisabledWinsOverUnavailable(code: Option<int>, stdout: string, stderr: string)
    requires code != Some(0)
    requires Occurs(stderr, NoTranscriptPhrase) && Occurs(stderr, UnavailablePhrase)
    ensures Classify(code, stdout, stderr) == Disabled
  {
    ClassifyCases(code, stdout, stderr);
  }

  /** A process killed by a signal (`code === null`) is a failure. */
  lemma NullCodeFails(stdout: string, stderr: string)
    ensures !Classify(None, stdout, stderr).Success?
  {
  }
}
