/**
 * The cache directory and the pipeline `main` runs over it: extract the id,
 * resolve the metadata (cache, else fetch and scrape, degrading on a
 * throw), show it, resolve the transcript (cache, else run the
 * subprocess, classify, truncate, write through) and show it.
 *
 * The network fetch and the subprocess are inputs: a `FetchOutcome` and a
 * finished `ProcessRun`. Console output, fetches and spawns are recorded as
 * `Event`s in order.
 */
module Pipeline {
  import opened Optional
  import opened Text
  import opened VideoId
  import opened PageScrape
  import opened Transcript

  const MetaSuffix := "_meta.json"
  const TranscriptSuffix := "_transcript.txt"
  const WatchPrefix := "https://www.youtube.com/watch?v="
  const TranscriptProgram := "python3"
  const MissingUrlMessage := "Please provide a YouTube URL"
  const InvalidUrlMessage := "Invalid YouTube URL"

  /**
   * A file in `.cache`: a metadata record (its JSON text read back as the
   * record it was written from) or raw transcript text.
   */
  datatype Entry = MetaRecord(meta: Metadata) | TextFile(text: string)

  /** What `await fetch(...)` and `await response.text()` produce: a throw, or a page body. */
  datatype FetchOutcome = Threw | Page(html: string)

  /** The observable effects of a run, in order. */
  datatype Event =
    | Fetch(url: string)
    | Spawn(program: string, args: seq<string>)
    | Out(line: string)
    | Err(line: string)

  predicate EndsWith(s: string, suffix: string) {
    |suffix| <= |s| && s[|s| - |suffix|..] == suffix
  }

  /** `${videoId}_meta.json`. */
  function MetaName(id: string): (name: string)
    ensures |name| == |id| + |MetaSuffix| && EndsWith(name, MetaSuffix) && name[..|id|] == id
  {
    assert (id + MetaSuffix)[..|id|] == id;
    id + MetaSuffix
  }

  /** `${videoId}_transcript.txt`. */
  function TranscriptName(id: string): (name: string)
    ensures |name| == |id| + |TranscriptSuffix| && EndsWith(name, TranscriptSuffix) && name[..|id|] == id
    ensures !EndsWith(name, MetaSuffix)
  {
    var name := id + TranscriptSuffix;
    assert name[..|id|] == id;
    assert name[|name| - 1] == 't' && MetaSuffix[|MetaSuffix| - 1] == 'n';
    name
  }

  /** The watch page fetched for an id. */
  function WatchUrl(id: string): string {
    WatchPrefix + id
  }

  /** `['-m', 'youtube_transcript_api', videoId, '--format', 'text']`. */
  function TranscriptArgs(id: string): seq<string> {
    ["-m", "youtube_transcript_api", id, "--format", "text"]
  }

  /** Every metadata file holds a record and every other file holds text. */
  ghost predicate WellFormed(files: map<string, Entry>) {
    forall name :: name in files ==> (files[name].MetaRecord? <==> EndsWith(name, MetaSuffix))
  }

  // ---------------------------------------------------------------------------
  // The steps, as functions of the cache

  datatype MetaStep = MetaStep(meta: Metadata, files: map<string, Entry>, events: seq<Event>)

  /** `fetchMetadata(videoId)` against cache `files`. */
  function MetadataStep(files: map<string, Entry>, id: string, fetch: FetchOutcome): MetaStep
    requires WellFormed(files)
  {
    var name := MetaName(id);
    if name in files then MetaStep(files[name].meta, files, [])
    else match fetch
      case Threw => MetaStep(Degraded, files, [Fetch(WatchUrl(id))])
      case Page(html) =>
        var meta := Scrape(html);
        MetaStep(meta, files[name := MetaRecord(meta)], [Fetch(WatchUrl(id))])
  }

  datatype TranscriptStep = TranscriptStep(outcome: Outcome, files: map<string, Entry>, events: seq<Event>)

  /** The transcript half of `main` against cache `files`: cache check, spawn, `close` handler. */
  function TranscriptStepOf(files: map<string, Entry>, id: string, run: ProcessRun): TranscriptStep
    requires WellFormed(files)
  {
    var name := TranscriptName(id);
    if name in files then TranscriptStep(Success(files[name].text), files, [])
    else
      var outcome := Finish(run);
      var files' := if outcome.Success? then files[name := TextFile(outcome.text)] else files;
      TranscriptStep(outcome, files', [Spawn(TranscriptProgram, TranscriptArgs(id))])
  }

  datatype SessionResult = SessionResult(exitCode: int, files: map<string, Entry>, events: seq<Event>)

  function TitleLine(m: Metadata): string { "Video Title: " + m.title }
  function DurationLine(m: Metadata): string { "Duration: " + m.duration + "\n" }

  /** One invocation of the tool with argument `arg` (`process.argv[2]`). */
  function Session(files: map<string, Entry>, arg: Option<string>, fetch: FetchOutcome, run: ProcessRun): SessionResult
    requires WellFormed(files)
  {
    if arg.None? || arg.value == "" then SessionResult(1, files, [Err(MissingUrlMessage)])
    else match ExtractVideoId(arg.value)
      case None => SessionResult(1, files, [Err(InvalidUrlMessage)])
      case Some(id) => SessionFor(files, id, fetch, run)
  }

  /** The rest of `main` once the link has yielded `id`. */
  function SessionFor(files: map<string, Entry>, id: string, fetch: FetchOutcome, run: ProcessRun): SessionResult
    requires WellFormed(files)
  {
    var m := MetadataStep(files, id, fetch);
    var t := TranscriptStepOf(m.files, id, run);
    var last := if t.outcome.Success? then Out(t.outcome.text) else Err(FailureMessage(t.outcome));
    SessionResult(if t.outcome.Success? then 0 else 1, t.files,
      m.events + [Out(TitleLine(m.meta)), Out(DurationLine(m.meta))] + t.events + [last])
  }

  /** The console lines of a run, dropping fetches and spawns. */
  function Outputs(events: seq<Event>): (lines: seq<Event>)
    ensures forall k :: 0 <= k < |lines| ==> lines[k].Out? || lines[k].Err?
    ensures |lines| <= |events|
  {
    if events == [] then []
    else
      var rest := Outputs(events[1..]);
      if events[0].Out? || events[0].Err? then [events[0]] + rest else rest
  }

  /** No fetch and no spawn happened. */
  predicate Quiet(events: seq<Event>) {
    forall k :: 0 <= k < |events| ==> events[k].Out? || events[k].Err?
  }

  // ---------------------------------------------------------------------------
  // The cache directory, updated in place

  class CacheDir {
    var files: map<string, Entry>
    var events: seq<Event>

    ghost predicate Valid()
      reads this
    {
      WellFormed(files)
    }

    constructor (initial: map<string, Entry>)
      requires WellFormed(initial)
      ensures Valid() && files == initial && events == []
    {
      files := initial;
      events := [];
    }

    /** `fetchMetadata`: lines 17-45. */
    method ResolveMetadata(id: string, fetch: FetchOutcome) returns (meta: Metadata)
      requires Valid()
      modifies this
      ensures Valid()
      ensures var step := MetadataStep(old(files), id, fetch);
        meta == step.meta && files == step.files && events == old(events) + step.events
    {
      var cachePath := MetaName(id);
      if cachePath in files {
        meta := files[cachePath].meta;
        return;
      }
      events := events + [Fetch(WatchUrl(id))];
      match fetch {
        case Threw =>
          meta := Degraded;
        case Page(html) =>
          var title := ExtractTitle(html);
          var durationMatch := LengthMatch(html, 0);
          var duration := UnknownDuration;
          if durationMatch.Some? {
            duration := FormatDuration(DecimalValue(durationMatch.value));
          }
          meta := Metadata(title, duration);
          files := files[cachePath := MetaRecord(meta)];
      }
    }

    /** The transcript half of `main`: lines 61-105 without the console output. */
    method ResolveTranscript(id: string, run: ProcessRun) returns (outcome: Outcome)
      requires Valid()
      modifies this
      ensures Valid()
      ensures var step := TranscriptStepOf(old(files), id, run);
        outcome == step.outcome && files == step.files && events == old(events) + step.events
    {
      var transcriptCachePath := TranscriptName(id);
      if transcriptCachePath in files {
        outcome := Success(files[transcriptCachePath].text);
        return;
      }
      events := events + [Spawn(TranscriptProgram, TranscriptArgs(id))];
      var transcript := Accumulate(run.stdoutChunks);
      var error := Accumulate(run.stderrChunks);
      if run.code != Some(0) {
        if Includes(error, NoTranscriptPhrase) {
          outcome := Disabled;
        } else if Includes(error, UnavailablePhrase) {
          outcome := Unavailable;
        } else {
          outcome := UnknownError(error);
        }
        return;
      }
      if |transcript| > MaxLength {
        transcript := transcript[..MaxLength] + TruncationMarker;
      }
      files := files[transcriptCachePath := TextFile(transcript)];
      outcome := Success(transcript);
    }

    /** `main`: one invocation, returning the process exit code. */
    method Run(arg: Option<string>, fetch: FetchOutcome, run: ProcessRun) returns (exitCode: int)
      requires Valid()
      modifies this
      ensures Valid()
      ensures var r := Session(old(files), arg, fetch, run);
        exitCode == r.exitCode && files == r.files && events == old(events) + r.events
    {
      if arg.None? || arg.value == "" {
        events := events + [Err(MissingUrlMessage)];
        return 1;
      }
      var videoId := ExtractVideoId(arg.value);
      if videoId.None? {
        events := events + [Err(InvalidUrlMessage)];
        return 1;
      }
      exitCode := RunVideo(videoId.value, fetch, run);
    }

    /** `main` from line 60 on, for the id the link yielded. */
    method RunVideo(id: string, fetch: FetchOutcome, run: ProcessRun) returns (exitCode: int)
      requires Valid()
      modifies this
      ensures Valid()
      ensures var r := SessionFor(old(files), id, fetch, run);
        exitCode == r.exitCode && files == r.files && events == old(events) + r.events
    {
      ghost var start := events;
      ghost var m := MetadataStep(files, id, fetch);
      var metadata := ResolveMetadata(id, fetch);
      events := events + [Out(TitleLine(metadata)), Out(DurationLine(metadata))];
      ghost var t := TranscriptStepOf(m.files, id, run);
      var outcome := ResolveTranscript(id, run);
      assert events == start + (m.events + [Out(TitleLine(m.meta)), Out(DurationLine(m.meta))] + t.events);
      if !outcome.Success? {
        events := events + [Err(FailureMessage(outcome))];
        return 1;
      }
      events := events + [Out(outcome.text)];
      return 0;
    }
  }

  // ---------------------------------------------------------------------------
  // Cache file names

  /** Distinct ids use distinct metadata files and distinct transcript files. */
  lemma NamesInjective(a: string, b: string)
    ensures MetaName(a) == MetaName(b) ==> a == b
    ensures TranscriptName(a) == TranscriptName(b) ==> a == b
  {
    if MetaName(a) == MetaName(b) {
      assert a == MetaName(a)[..|a|];
    }
    if TranscriptName(a) == TranscriptName(b) {
      assert a == TranscriptName(a)[..|a|];
    }
  }

  /** A metadata file and a transcript file never share a name. */
  lemma NamesDisjoint(a: string, b: string)
    ensures MetaName(a) != TranscriptName(b)
  {
    var m := MetaName(a);
    assert EndsWith(m, MetaSuffix);
  }

  /** The page fetched for an id is a link the extractor maps back to that id. */
  lemma WatchUrlRoundTrip(id: string)
    requires IsVideoId(id)
    ensures ExtractVideoId(WatchUrl(id)) == Some(id)
  {
    var pre := "https://www.";
    assert pre in Prefixes;
    assert pre + "youtube.com/watch?v=" == WatchPrefix;
    WatchLink(pre, id, "");
    assert pre + "youtube.com/watch?v=" + id + "" == WatchUrl(id);
  }

  // ---------------------------------------------------------------------------
  // The metadata cache

  /**
   * The fetch happens exactly on a miss; the entry ends up cached exactly
   * when it was there or the fetch returned a page (a degraded result is
   * not written); the cached record is the returned one; a hit returns the
   * stored record and changes nothing; no other file changes.
   */
  lemma MetadataCaching(files: map<string, Entry>, id: string, fetch: FetchOutcome)
    requires WellFormed(files)
    ensures var step := MetadataStep(files, id, fetch);
      && WellFormed(step.files)
      && (step.events == [] <==> MetaName(id) in files)
      && (step.events != [] ==> step.events == [Fetch(WatchUrl(id))])
      && (MetaName(id) in step.files <==> MetaName(id) in files || fetch.Page?)
      && (MetaName(id) in step.files ==> step.files[MetaName(id)] == MetaRecord(step.meta))
      && (MetaName(id) in files ==> step.files == files && step.meta == files[MetaName(id)].meta)
      && (MetaName(id) !in files && fetch.Threw? ==> step.meta == Degraded)
      && (MetaName(id) !in files && fetch.Page? ==> step.meta == Scrape(fetch.html))
      && (forall name :: name != MetaName(id) ==>
            (name in step.files <==> name in files) && (name in files ==> step.files[name] == files[name]))
  {
    var step := MetadataStep(files, id, fetch);
    var name := MetaName(id);
    if name !in files && fetch.Page? {
      assert step.files == files[name := MetaRecord(step.meta)];
      forall other | other in step.files
        ensures step.files[other].MetaRecord? <==> EndsWith(other, MetaSuffix)
      {
        if other != name {
          assert other in files;
        }
      }
    }
  }

  /** Once cached, the metadata is served again whatever the network would do, without a fetch. */
  lemma MetadataIdempotent(files: map<string, Entry>, id: string, first: FetchOutcome, second: FetchOutcome)
    requires WellFormed(files)
    requires MetaName(id) in MetadataStep(files, id, first).files
    ensures var s1 := MetadataStep(files, id, first);
      var s2 := MetadataStep(s1.files, id, second);
      s2.meta == s1.meta && s2.files == s1.files && s2.events == []
  {
    MetadataCaching(files, id, first);
  }

  /** A failed fetch is not remembered: the next call fetches again. */
  lemma DegradedRefetches(files: map<string, Entry>, id: string, second: FetchOutcome)
    requires WellFormed(files)
    requires MetaName(id) !in files
    ensures var s1 := MetadataStep(files, id, Threw);
      s1.meta == Degraded && MetadataStep(s1.files, id, second).events == [Fetch(WatchUrl(id))]
  {
    MetadataCaching(files, id, Threw);
  }

  // ---------------------------------------------------------------------------
  // The transcript cache

  /**
   * The subprocess is spawned exactly on a miss; a cached transcript is
   * served verbatim; on a miss the outcome is the classified run and the
   * file is written exactly when the exit code is 0, holding the
   * truncated stdout; no other file changes.
   */
  lemma TranscriptCaching(files: map<string, Entry>, id: string, run: ProcessRun)
    requires WellFormed(files)
    ensures var step := TranscriptStepOf(files, id, run);
      && WellFormed(step.files)
      && (step.events == [] <==> TranscriptName(id) in files)
      && (step.events != [] ==> step.events == [Spawn(TranscriptProgram, TranscriptArgs(id))])
      && (TranscriptName(id) in files ==>
            step.files == files && step.outcome == Success(files[TranscriptName(id)].text))
      && (TranscriptName(id) !in files ==> step.outcome == Finish(run))
      && (TranscriptName(id) in step.files <==> TranscriptName(id) in files || run.code == Some(0))
      && (TranscriptName(id) !in files && run.code == Some(0) ==>
            step.files[TranscriptName(id)] == TextFile(Truncate(Concat(run.stdoutChunks))))
      && (TranscriptName(id) in step.files ==>
            step.outcome.Success? && step.files[TranscriptName(id)] == TextFile(step.outcome.text))
      && (forall name :: name != TranscriptName(id) ==>
            (name in step.files <==> name in files) && (name in files ==> step.files[name] == files[name]))
  {
    var step := TranscriptStepOf(files, id, run);
    var name := TranscriptName(id);
    ClassifyCases(run.code, Concat(run.stdoutChunks), Concat(run.stderrChunks));
    if name !in files && run.code == Some(0) {
      forall other | other in step.files
        ensures step.files[other].MetaRecord? <==> EndsWith(other, MetaSuffix)
      {
        if other != name {
          assert other in files;
        }
      }
    }
  }

  /** A freshly written transcript is within the length bound. */
  lemma WrittenTranscriptBounded(files: map<string, Entry>, id: string, run: ProcessRun)
    requires WellFormed(files)
    requires TranscriptName(id) !in files
    requires TranscriptName(id) in TranscriptStepOf(files, id, run).files
    ensures |TranscriptStepOf(files, id, run).files[TranscriptName(id)].text| <= MaxLength + |TruncationMarker|
  {
    TranscriptCaching(files, id, run);
    TruncateBound(Concat(run.stdoutChunks));
  }

  /** Once written, the transcript is served again without spawning, whatever a new run would do. */
  lemma TranscriptIdempotent(files: map<string, Entry>, id: string, first: ProcessRun, second: ProcessRun)
    requires WellFormed(files)
    requires TranscriptName(id) in TranscriptStepOf(files, id, first).files
    ensures var s1 := TranscriptStepOf(files, id, first);
      var s2 := TranscriptStepOf(s1.files, id, second);
      s2.outcome == s1.outcome && s2.files == s1.files && s2.events == []
  {
    TranscriptCaching(files, id, first);
    var s1 := TranscriptStepOf(files, id, first);
    TranscriptCaching(s1.files, id, second);
  }

  // ---------------------------------------------------------------------------
  // Whole runs

  lemma {:induction false} OutputsConcat(a: seq<Event>, b: seq<Event>)
    ensures Outputs(a + b) == Outputs(a) + Outputs(b)
    decreases |a|
  {
    if a == [] {
      assert a + b == b;
    } else {
      assert (a + b)[1..] == a[1..] + b;
      OutputsConcat(a[1..], b);
    }
  }

  lemma {:induction false} QuietOutputs(events: seq<Event>)
    requires Quiet(events)
    ensures Outputs(events) == events
    decreases |events|
  {
    if events != [] {
      QuietOutputs(events[1..]);
    }
  }

  lemma EmptyUrlHasNoId()
    ensures ExtractVideoId("") == None
  {
    NoHostNoId("");
  }

  /**
   * A missing argument or a link without an id ends the run with one error
   * line and exit status 1, before any fetch or spawn and without touching
   * the cache.
   */
  lemma RejectedArgument(files: map<string, Entry>, arg: Option<string>, fetch: FetchOutcome, run: ProcessRun)
    requires WellFormed(files)
    requires arg.None? || ExtractVideoId(arg.value).None?
    ensures var r := Session(files, arg, fetch, run);
      && r.exitCode == 1 && r.files == files && Quiet(r.events)
      && r.events == [Err(if arg.None? || arg.value == "" then MissingUrlMessage else InvalidUrlMessage)]
  {
    EmptyUrlHasNoId();
  }

  /** A link that yields an id runs the rest of `main` on that id. */
  lemma SessionDispatch(files: map<string, Entry>, url: string, id: string, fetch: FetchOutcome, run: ProcessRun)
    requires WellFormed(files)
    requires ExtractVideoId(url) == Some(id)
    ensures Session(files, Some(url), fetch, run) == SessionFor(files, id, fetch, run)
  {
    EmptyUrlHasNoId();
  }

  /** The metadata step writes no console line and keeps the cache well formed. */
  lemma MetadataStepSilent(files: map<string, Entry>, id: string, fetch: FetchOutcome)
    requires WellFormed(files)
    ensures Outputs(MetadataStep(files, id, fetch).events) == []
    ensures WellFormed(MetadataStep(files, id, fetch).files)
  {
    MetadataCaching(files, id, fetch);
  }

  /** The transcript step writes no console line and keeps the cache well formed. */
  lemma TranscriptStepSilent(files: map<string, Entry>, id: string, run: ProcessRun)
    requires WellFormed(files)
    ensures Outputs(TranscriptStepOf(files, id, run).events) == []
    ensures WellFormed(TranscriptStepOf(files, id, run).files)
  {
    TranscriptCaching(files, id, run);
  }

  /** Console lines framed by fetch and spawn events are what remains when those are dropped. */
  lemma OutputsAround(before: seq<Event>, lines: seq<Event>, after: seq<Event>, last: Event)
    requires Outputs(before) == [] && Outputs(after) == [] && Quiet(lines) && (last.Out? || last.Err?)
    ensures Outputs(before + lines + after + [last]) == lines + [last]
  {
    QuietOutputs(lines);
    QuietOutputs([last]);
    OutputsConcat(before, lines);
    OutputsConcat(before + lines, after);
    OutputsConcat(before + lines + after, [last]);
  }

  /** Two console lines between silent steps, then a last console line. */
  lemma FramedOutputs(before: seq<Event>, title: Event, duration: Event, after: seq<Event>, last: Event)
    requires Outputs(before) == [] && Outputs(after) == []
    requires title.Out? && duration.Out? && (last.Out? || last.Err?)
    ensures Outputs(before + [title, duration] + after + [last]) == [title, duration, last]
  {
    var header := [title, duration];
    assert Quiet(header);
    OutputsAround(before, header, after, last);
    assert header + [last] == [title, duration, last];
  }

  /**
   * For an id, the console shows the title line, then the duration line,
   * then either the transcript (exit 0) or one error line (exit 1), and the
   * cache stays well formed.
   */
  lemma SessionOutputs(files: map<string, Entry>, id: string, fetch: FetchOutcome, run: ProcessRun)
    requires WellFormed(files)
    ensures WellFormed(SessionFor(files, id, fetch, run).files)
    ensures var o := TranscriptStepOf(MetadataStep(files, id, fetch).files, id, run).outcome;
      SessionFor(files, id, fetch, run).exitCode == 0 <==> o.Success?
    ensures var m := MetadataStep(files, id, fetch);
      var o := TranscriptStepOf(m.files, id, run).outcome;
      Outputs(SessionFor(files, id, fetch, run).events) == [Out(TitleLine(m.meta)), Out(DurationLine(m.meta)),
                               if o.Success? then Out(o.text) else Err(FailureMessage(o))]
  {
    var m := MetadataStep(files, id, fetch);
    var t := TranscriptStepOf(m.files, id, run);
    MetadataStepSilent(files, id, fetch);
    TranscriptStepSilent(m.files, id, run);
    var last := if t.outcome.Success? then Out(t.outcome.text) else Err(FailureMessage(t.outcome));
    var header := [Out(TitleLine(m.meta)), Out(DurationLine(m.meta))];
    var r := SessionFor(files, id, fetch, run);
    assert r.events == m.events + header + t.events + [last];
    FramedOutputs(m.events, header[0], header[1], t.events, last);
  }

  /**
   * For an id, the only fetch is of the id's watch page and comes first,
   * and the only spawn runs the transcript tool on the id, right after the
   * two metadata lines.
   */
  lemma SessionEffects(files: map<string, Entry>, id: string, fetch: FetchOutcome, run: ProcessRun)
    requires WellFormed(files)
    ensures var r := SessionFor(files, id, fetch, run);
      var m := MetadataStep(files, id, fetch);
      && (forall k :: 0 <= k < |r.events| && r.events[k].Fetch? ==> k == 0 && r.events[k] == Fetch(WatchUrl(id)))
      && (forall k :: 0 <= k < |r.events| && r.events[k].Spawn? ==>
            k == |m.events| + 2 && r.events[k] == Spawn(TranscriptProgram, TranscriptArgs(id)))
  {
    var r := SessionFor(files, id, fetch, run);
    var m := MetadataStep(files, id, fetch);
    var t := TranscriptStepOf(m.files, id, run);
    MetadataCaching(files, id, fetch);
    TranscriptCaching(m.files, id, run);
    var n := |m.events|;
    var header := [Out(TitleLine(m.meta)), Out(DurationLine(m.meta))];
    assert |r.events| == n + 3 + |t.events|;
    forall k | 0 <= k < |r.events|
      ensures r.events[k].Fetch? ==> k == 0 && r.events[k] == Fetch(WatchUrl(id))
      ensures r.events[k].Spawn? ==> k == n + 2 && r.events[k] == Spawn(TranscriptProgram, TranscriptArgs(id))
    {
      if k < n {
        assert r.events[k] == m.events[k];
      } else if k < n + 2 {
        assert r.events[k] == header[k - n];
      } else if k < n + 2 + |t.events| {
        assert r.events[k] == t.events[k - n - 2];
      } else {
        assert r.events[k] == r.events[|r.events| - 1];
      }
    }
  }

  /** With both files cached, a run shows them and exits 0 with no fetch, no spawn and no write. */
  lemma CachedSession(files: map<string, Entry>, id: string, fetch: FetchOutcome, run: ProcessRun)
    requires WellFormed(files)
    requires MetaName(id) in files && TranscriptName(id) in files
    ensures var r := SessionFor(files, id, fetch, run);
      var meta := files[MetaName(id)].meta;
      r.exitCode == 0 && r.files == files
      && r.events == [Out(TitleLine(meta)), Out(DurationLine(meta)), Out(files[TranscriptName(id)].text)]
  {
  }

  /**
   * After a successful run whose metadata was cached (it was there already,
   * or the fetch returned a page), running again for the same id shows the
   * same lines and succeeds with no fetch, no spawn and no file written.
   */
  lemma SecondRunFromCache(files: map<string, Entry>, id: string,
                           fetch1: FetchOutcome, run1: ProcessRun, fetch2: FetchOutcome, run2: ProcessRun)
    requires WellFormed(files)
    requires MetaName(id) in files || fetch1.Page?
    requires SessionFor(files, id, fetch1, run1).exitCode == 0
    ensures var r1 := SessionFor(files, id, fetch1, run1);
      var r2 := SessionFor(r1.files, id, fetch2, run2);
      r2.exitCode == 0 && r2.files == r1.files && r2.events == Outputs(r1.events)
  {
    var r1 := SessionFor(files, id, fetch1, run1);
    var m1 := MetadataStep(files, id, fetch1);
    var t1 := TranscriptStepOf(m1.files, id, run1);
    SessionOutputs(files, id, fetch1, run1);
    MetadataCaching(files, id, fetch1);
    TranscriptCaching(m1.files, id, run1);
    NamesDisjoint(id, id);
    assert t1.files[MetaName(id)] == MetaRecord(m1.meta);
    assert t1.files[TranscriptName(id)] == TextFile(t1.outcome.text);
    CachedSession(r1.files, id, fetch2, run2);
  }

  /** A failed transcript run writes no transcript file, so the next run for the id spawns the tool again. */
  lemma FailureRespawns(files: map<string, Entry>, id: string,
                        fetch1: FetchOutcome, run1: ProcessRun, fetch2: FetchOutcome, run2: ProcessRun)
    requires WellFormed(files)
    requires SessionFor(files, id, fetch1, run1).exitCode == 1
    ensures var r1 := SessionFor(files, id, fetch1, run1);
      var r2 := SessionFor(r1.files, id, fetch2, run2);
      TranscriptName(id) !in r1.files && Spawn(TranscriptProgram, TranscriptArgs(id)) in r2.events
  {
    var m1 := MetadataStep(files, id, fetch1);
    MetadataCaching(files, id, fetch1);
    NamesDisjoint(id, id);
    TranscriptCaching(m1.files, id, run1);
    var r1 := SessionFor(files, id, fetch1, run1);
    var m2 := MetadataStep(r1.files, id, fetch2);
    MetadataCaching(r1.files, id, fetch2);
    TranscriptCaching(m2.files, id, run2);
    var r2 := SessionFor(r1.files, id, fetch2, run2);
    assert r2.events[|m2.events| + 2] == Spawn(TranscriptProgram, TranscriptArgs(id));
  }
}
