/**
 * `run_pipeline.py`: check that there is something to process, then run the six
 * stage scripts in order. Copying, extraction, summaries and TODO lists are
 * optional; transcription is mandatory and its failure stops the pipeline. The
 * directories are given as optional listings (`None` when missing), and each
 * script as whether it exists and how launching it ended.
 */
module RunPipeline {
  import opened Wrappers
  import opened Text
  import opened Paths
  import TranscribeBatch

  /** How running a script ended: its exit code, or an exception while launching it. */
  datatype Launch = Exited(code: int) | LaunchError

  /** `run_script`: whether the stage counts as successful. */
  function RunScript(present: bool, optional: bool, launch: Launch): (ok: bool)
    ensures !present ==> ok == optional
    ensures optional ==> (ok <==> !(present && launch == LaunchError))
    ensures !optional ==> (ok <==> present && launch == Exited(0))
  {
    if !present then optional
    else
      match launch
      case LaunchError => false
      case Exited(code) =>
        if code == 0 then true
        else optional
  }

  /** Some entry of `listing` matches one of the glob patterns. */
  predicate AnyMatch(listing: seq<Entry>, exts: seq<string>) {
    exists e, x :: e in listing && x in exts && EndsWith(e.name, x)
  }

  /** What `check_prerequisites` looks for: an audio file in the audio or the music
      directory, or a `*.mkv` in the video or the OBS directory. */
  predicate HasWork(audio: Option<seq<Entry>>, video: Option<seq<Entry>>, music: Option<seq<Entry>>, obs: Option<seq<Entry>>) {
    || (audio.Some? && AnyMatch(audio.value, TranscribeBatch.AudioPatterns))
    || (video.Some? && AnyMatch(video.value, [".mkv"]))
    || (music.Some? && AnyMatch(music.value, TranscribeBatch.AudioPatterns))
    || (obs.Some? && AnyMatch(obs.value, [".mkv"]))
  }

  /** The number of matches of one pattern is positive exactly when there is a match. */
  lemma GlobNonEmpty(listing: seq<Entry>, ext: string)
    ensures |Glob(listing, ext)| > 0 <==> AnyMatch(listing, [ext])
  {
    var g := Glob(listing, ext);
    if |g| > 0 {
      assert g[0] in g;
      assert ext in [ext];
    }
    if AnyMatch(listing, [ext]) {
      var e, x :| e in listing && x in [ext] && EndsWith(e.name, x);
      assert e in g;
    }
  }

  /** The same for the collected matches of several patterns. */
  lemma CollectNonEmpty(listing: seq<Entry>, exts: seq<string>, files: seq<Entry>)
    requires forall e :: e in files <==> e in listing && exists x :: x in exts && EndsWith(e.name, x)
    ensures |files| > 0 <==> AnyMatch(listing, exts)
  {
    if |files| > 0 {
      assert files[0] in files;
    }
    if AnyMatch(listing, exts) {
      var e, x :| e in listing && x in exts && EndsWith(e.name, x);
      assert e in files;
    }
  }

  /** `check_prerequisites`, building the four lists as the script does. The
      music directory is searched recursively; its listing holds every entry below it. */
  method CheckPrerequisites(audio: Option<seq<Entry>>, video: Option<seq<Entry>>, music: Option<seq<Entry>>, obs: Option<seq<Entry>>)
    returns (ok: bool)
    ensures ok == HasWork(audio, video, music, obs)
  {
    var audioFiles: seq<Entry> := [];
    if audio.Some? {
      audioFiles := CollectFiles(audio.value, TranscribeBatch.AudioPatterns);
      CollectNonEmpty(audio.value, TranscribeBatch.AudioPatterns, audioFiles);
    }
    var videoFiles: seq<Entry> := [];
    if video.Some? {
      videoFiles := Glob(video.value, ".mkv");
      GlobNonEmpty(video.value, ".mkv");
    }
    var musicFiles: seq<Entry> := [];
    if music.Some? {
      musicFiles := CollectFiles(music.value, TranscribeBatch.AudioPatterns);
      CollectNonEmpty(music.value, TranscribeBatch.AudioPatterns, musicFiles);
    }
    var obsFiles: seq<Entry> := [];
    if obs.Some? {
      obsFiles := Glob(obs.value, ".mkv");
      GlobNonEmpty(obs.value, ".mkv");
    }
    ok := |audioFiles| > 0 || |videoFiles| > 0 || |musicFiles| > 0 || |obsFiles| > 0;
  }

  datatype StageName = CopyObs | CopyMusic | ExtractAudio | Transcribe | Summarize | ExtractTodos

  /** What the pipeline sees of a stage script. */
  datatype Script = Script(present: bool, launch: Launch)

  /** The final report: `PIPELINE COMPLETED SUCCESSFULLY`, `MOSTLY`, `PARTIALLY`, `FAILED`. */
  datatype Status = Successfully | Mostly | Partially | Failed

  /** How `main` ends: no files, the transcription stop, or the status report. */
  datatype Report = NothingToProcess | TranscriptionStopped | Finished(status: Status)

  /** The final classification from the transcription, summary and TODO results. */
  function Classify(transcribed: bool, summarized: bool, todos: bool): (s: Status)
    ensures s == Successfully <==> transcribed && summarized && todos
    ensures s == Mostly <==> transcribed && summarized && !todos
    ensures s == Partially <==> transcribed && !summarized
    ensures s == Failed <==> !transcribed
  {
    if transcribed && summarized && todos then Successfully
    else if transcribed && summarized then Mostly
    else if transcribed then Partially
    else Failed
  }

  /** Every stage but transcription is optional. */
  function Ok(scripts: StageName -> Script, s: StageName): bool
  {
    RunScript(scripts(s).present, s != Transcribe, scripts(s).launch)
  }

  /** The extraction gate: the video directory exists and holds a `*.mkv`. */
  predicate ExtractionGate(video: Option<seq<Entry>>) {
    video.Some? && Glob(video.value, ".mkv") != []
  }

  /** The stages `main` hands to `run_script`, in order, and how it ends. */
  function Pipeline(work: bool, gate: bool, scripts: StageName -> Script): (seq<StageName>, Report)
  {
    if !work then ([], NothingToProcess)
    else
      var upToTranscription := [CopyObs, CopyMusic] + (if gate then [ExtractAudio] else []) + [Transcribe];
      if !Ok(scripts, Transcribe) then (upToTranscription, TranscriptionStopped)
      else
        (upToTranscription + [Summarize, ExtractTodos],
         Finished(Classify(true, Ok(scripts, Summarize), Ok(scripts, ExtractTodos))))
  }

  /** `main` as written. The video directory is listed twice: by the prerequisite
      check and, after the copy stages have run, by the extraction gate. */
  method Orchestrate(audio: Option<seq<Entry>>, video: Option<seq<Entry>>, music: Option<seq<Entry>>, obs: Option<seq<Entry>>,
              videoAtExtraction: Option<seq<Entry>>, scripts: StageName -> Script)
    returns (invoked: seq<StageName>, report: Report)
    ensures (invoked, report) == Pipeline(HasWork(audio, video, music, obs), ExtractionGate(videoAtExtraction), scripts)
  {
    var work := CheckPrerequisites(audio, video, music, obs);
    if !work {
      return [], NothingToProcess;
    }
    invoked := [CopyObs];
    var _ := Ok(scripts, CopyObs);
    invoked := invoked + [CopyMusic];
    var _ := Ok(scripts, CopyMusic);
    if videoAtExtraction.Some? && Glob(videoAtExtraction.value, ".mkv") != [] {
      invoked := invoked + [ExtractAudio];
    }
    invoked := invoked + [Transcribe];
    ghost var upToTranscription := invoked;
    assert upToTranscription == [CopyObs, CopyMusic] + (if ExtractionGate(videoAtExtraction) then [ExtractAudio] else []) + [Transcribe];
    var transcribed := Ok(scripts, Transcribe);
    if !transcribed {
      return invoked, TranscriptionStopped;
    }
    invoked := invoked + [Summarize];
    var summarized := Ok(scripts, Summarize);
    invoked := invoked + [ExtractTodos];
    var todos := Ok(scripts, ExtractTodos);
    assert invoked == upToTranscription + [Summarize, ExtractTodos];
    report := Finished(Classify(transcribed, summarized, todos));
  }

  /** Which stages run: none without files; extraction only behind its gate; the
      summary and TODO stages only after a successful transcription. */
  lemma StageGating(work: bool, gate: bool, scripts: StageName -> Script)
    ensures var (invoked, _) := Pipeline(work, gate, scripts);
            && (invoked != [] <==> work)
            && (CopyObs in invoked <==> work) && (Transcribe in invoked <==> work)
            && (ExtractAudio in invoked <==> work && gate)
            && (Summarize in invoked <==> work && Ok(scripts, Transcribe))
            && (ExtractTodos in invoked <==> work && Ok(scripts, Transcribe))
  {
  }

  /** The transcription stage succeeds only when its script exists and exits with 0. */
  lemma TranscriptionMustExitCleanly(scripts: StageName -> Script)
    ensures Ok(scripts, Transcribe) <==> scripts(Transcribe).present && scripts(Transcribe).launch == Exited(0)
  {
  }

  /** Since the summary and TODO stages are optional, their exit codes and a missing
      script are ignored: the run is reported partial only when launching the
      summary script raised, and mostly complete only when launching the TODO
      script raised. `FAILED` is never reported. */
  lemma ReportReasons(work: bool, gate: bool, scripts: StageName -> Script)
    ensures var (_, report) := Pipeline(work, gate, scripts);
            && report != Finished(Failed)
            && (report == Finished(Partially) <==>
                  work && Ok(scripts, Transcribe) && scripts(Summarize).present && scripts(Summarize).launch == LaunchError)
            && (report == Finished(Mostly) <==>
                  work && Ok(scripts, Transcribe) && !(scripts(Summarize).present && scripts(Summarize).launch == LaunchError)
                  && scripts(ExtractTodos).present && scripts(ExtractTodos).launch == LaunchError)
  {
  }
}
