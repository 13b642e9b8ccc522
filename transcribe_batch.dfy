/**
 * `transcribe_batch.py`: collect the audio files of the audio directory, pattern
 * by pattern, and transcribe with Whisper each one whose `{stem}.txt` is not in
 * the transcript directory, saving the text as `{stem}_{language}.txt`. Whisper is
 * a parameter; an exception from it ends the script.
 */
module TranscribeBatch {
  import opened Wrappers
  import opened Text
  import opened Paths
  import opened Prompts

  /** The glob patterns `*.wav`, `*.m4a`, ... as extensions, in the order they are tried. */
  const AudioPatterns: seq<string> := [".wav", ".m4a", ".mp3", ".mp4", ".flac", ".aac"]

  /** Whisper's result: the detected language if the result has one, and the text. */
  datatype Transcription = Transcription(language: Option<string>, text: string)

  /** Whisper on an audio file: a transcription, or `None` when it raises. */
  type Whisper = Entry -> Option<Transcription>

  /** The name whose existence makes the script skip a file. */
  function CheckName(a: Entry): string
  {
    Stem(a.name) + ".txt"
  }

  /** The name the transcript is saved under; the language is `unknown` when
      Whisper reports none. It is never the name that was checked. */
  function OutputName(a: Entry, t: Transcription): (r: string)
    ensures r != CheckName(a)
    ensures |r| > |Stem(a.name)| + 4 && r[..|Stem(a.name)| + 1] == Stem(a.name) + "_" && EndsWith(r, ".txt")
  {
    Stem(a.name) + "_" + t.language.GetOr("unknown") + ".txt"
  }

  /** Whisper succeeds on `b` and its transcript is saved under the name `k`. */
  predicate WritesName(b: Entry, whisper: Whisper, k: string) {
    whisper(b).Some? && OutputName(b, whisper(b).value) == k
  }

  /** No file's `{stem}.txt` is in `dir`, and no transcript Whisper's results
      would be saved under is named like some file's `{stem}.txt`. */
  predicate NoClash(files: seq<Entry>, dir: Dir, whisper: Whisper) {
    && (forall a :: a in files ==> CheckName(a) !in dir)
    && (forall a, b :: a in files && b in files ==> !WritesName(b, whisper, CheckName(a)))
  }

  /** The transcript directory, the files transcribed so far, and whether Whisper raised. */
  datatype Batch = Batch(dir: Dir, transcribed: seq<Entry>, crashed: bool)

  /** One turn of the loop; after an exception nothing more happens. */
  function Step(b: Batch, a: Entry, whisper: Whisper): Batch
  {
    if b.crashed || CheckName(a) in b.dir then b
    else
      match whisper(a)
      case None => Batch(b.dir, b.transcribed, true)
      case Some(t) => Batch(b.dir[OutputName(a, t) := t.text], b.transcribed + [a], false)
  }

  /** The loop over `files`, starting from the transcript directory `dir`. */
  function Transcribe(files: seq<Entry>, dir: Dir, whisper: Whisper): Batch
  {
    if files == [] then Batch(dir, [], false)
    else Step(Transcribe(files[..|files| - 1], dir, whisper), files[|files| - 1], whisper)
  }

  /** The script: collection, then the loop. */
  function Script(audio: seq<Entry>, dir: Dir, whisper: Whisper): Batch
  {
    Transcribe(Collect(audio, AudioPatterns), dir, whisper)
  }

  /** Once Whisper has raised, the remaining files change nothing. */
  lemma {:induction false} CrashStops(files: seq<Entry>, n: nat, dir: Dir, whisper: Whisper)
    requires n <= |files| && Transcribe(files[..n], dir, whisper).crashed
    ensures Transcribe(files, dir, whisper) == Transcribe(files[..n], dir, whisper)
    decreases |files|
  {
    if n < |files| {
      var init := files[..|files| - 1];
      assert init[..n] == files[..n];
      CrashStops(init, n, dir, whisper);
    } else {
      assert files[..n] == files;
    }
  }

  /** The loop over one file more is one more turn. */
  lemma TranscribeSnoc(files: seq<Entry>, i: nat, dir: Dir, whisper: Whisper)
    requires i < |files|
    ensures Transcribe(files[..i + 1], dir, whisper) == Step(Transcribe(files[..i], dir, whisper), files[i], whisper)
  {
    assert files[..i + 1][..i] == files[..i];
  }

  /** The body of the loop: skip the file when its `{stem}.txt` exists, otherwise
      transcribe it and save the transcript, or note that Whisper raised. */
  method TranscribeOne(dir: Dir, transcribed: seq<Entry>, a: Entry, whisper: Whisper)
    returns (dir': Dir, transcribed': seq<Entry>, crashed: bool)
    ensures Batch(dir', transcribed', crashed) == Step(Batch(dir, transcribed, false), a, whisper)
  {
    dir', transcribed', crashed := dir, transcribed, false;
    if CheckName(a) !in dir {
      var result := whisper(a);
      if result.None? {
        crashed := true;
      } else {
        var t := result.value;
        dir' := dir[OutputName(a, t) := t.text];
        transcribed' := transcribed + [a];
      }
    }
  }

  /** The script as written: the loop ends early when Whisper raises. */
  method Process(audio: seq<Entry>, dir: Dir, whisper: Whisper) returns (dir': Dir, transcribed: seq<Entry>, crashed: bool)
    ensures Batch(dir', transcribed, crashed) == Script(audio, dir, whisper)
  {
    var files := CollectFiles(audio, AudioPatterns);
    dir', transcribed, crashed := dir, [], false;
    var i := 0;
    while i < |files| && !crashed
      invariant 0 <= i <= |files|
      invariant Batch(dir', transcribed, crashed) == Transcribe(files[..i], dir, whisper)
    {
      TranscribeSnoc(files, i, dir, whisper);
      dir', transcribed, crashed := TranscribeOne(dir', transcribed, files[i], whisper);
      i := i + 1;
    }
    if crashed {
      CrashStops(files, i, dir, whisper);
    } else {
      assert files[..i] == files;
    }
  }

  /** A file is transcribed only if it was collected and its `{stem}.txt` did not
      exist; without an exception, every collected file was transcribed or had its
      `{stem}.txt` at the end. */
  lemma {:induction false} TranscribesUnchecked(files: seq<Entry>, dir: Dir, whisper: Whisper)
    ensures var r := Transcribe(files, dir, whisper);
            && (forall k :: k in dir ==> k in r.dir)
            && (forall a :: a in r.transcribed ==> a in files && CheckName(a) !in dir && whisper(a).Some?)
            && (!r.crashed ==> forall a :: a in files ==> a in r.transcribed || CheckName(a) in r.dir)
  {
    if files != [] {
      var init := files[..|files| - 1];
      TranscribesUnchecked(init, dir, whisper);
      assert forall a :: a in files <==> a in init || a == files[|files| - 1];
    }
  }

  /** Only transcripts are written: every new or changed file is the output of a
      transcribed file and holds that file's text. */
  lemma {:induction false} WritesTranscripts(files: seq<Entry>, dir: Dir, whisper: Whisper)
    ensures var r := Transcribe(files, dir, whisper);
            forall k :: k in r.dir ==>
              (k in dir && r.dir[k] == dir[k])
              || exists a :: a in r.transcribed && whisper(a).Some? && OutputName(a, whisper(a).value) == k
                             && r.dir[k] == whisper(a).value.text
  {
    if files != [] {
      var init := files[..|files| - 1];
      WritesTranscripts(init, dir, whisper);
    }
  }

  /** Each transcribed file's transcript is present afterwards. */
  lemma {:induction false} TranscriptsPresent(files: seq<Entry>, dir: Dir, whisper: Whisper)
    ensures var r := Transcribe(files, dir, whisper);
            forall a :: a in r.transcribed ==> whisper(a).Some? && OutputName(a, whisper(a).value) in r.dir
  {
    if files != [] {
      var init := files[..|files| - 1];
      TranscriptsPresent(init, dir, whisper);
    }
  }

  /** A name that is none of the initial files and none of the transcripts
      written is not in the directory after the run. */
  lemma {:induction false} NoOtherNames(files: seq<Entry>, dir: Dir, whisper: Whisper, k: string)
    requires k !in dir
    requires forall b :: b in files ==> !WritesName(b, whisper, k)
    ensures k !in Transcribe(files, dir, whisper).dir
  {
    if files != [] {
      var init := files[..|files| - 1];
      var x := files[|files| - 1];
      assert x in files && forall b :: b in init ==> b in files;
      assert !WritesName(x, whisper, k);
      NoOtherNames(init, dir, whisper, k);
    }
  }

  /** When no `{stem}.txt` exists and no transcript the script writes is named like
      one, every file is transcribed, and no `{stem}.txt` appears. */
  lemma TranscribesAll(files: seq<Entry>, dir: Dir, whisper: Whisper)
    requires NoClash(files, dir, whisper)
    ensures var r := Transcribe(files, dir, whisper);
            && (forall a :: a in files ==> CheckName(a) !in r.dir)
            && (!r.crashed ==> r.transcribed == files)
  {
    ChecksStayAbsent(files, dir, whisper);
    NoneSkipped(files, dir, whisper);
  }

  /** Under the same conditions, a run without an exception transcribes every file. */
  lemma {:induction false} NoneSkipped(files: seq<Entry>, dir: Dir, whisper: Whisper)
    requires NoClash(files, dir, whisper)
    ensures !Transcribe(files, dir, whisper).crashed ==> Transcribe(files, dir, whisper).transcribed == files
  {
    if files != [] {
      var init := files[..|files| - 1];
      var x := files[|files| - 1];
      assert x in files && forall a :: a in init ==> a in files;
      NoneSkipped(init, dir, whisper);
      var r := Transcribe(init, dir, whisper);
      assert CheckName(x) !in r.dir by {
        NoOtherNames(init, dir, whisper, CheckName(x));
      }
      assert files == init + [x];
    }
  }

  /** Under the same conditions, no file's `{stem}.txt` is in the directory afterwards. */
  lemma ChecksStayAbsent(files: seq<Entry>, dir: Dir, whisper: Whisper)
    requires NoClash(files, dir, whisper)
    ensures forall a :: a in files ==> CheckName(a) !in Transcribe(files, dir, whisper).dir
  {
    forall a | a in files ensures CheckName(a) !in Transcribe(files, dir, whisper).dir {
      NoOtherNames(files, dir, whisper, CheckName(a));
    }
  }

  /** The skip check never sees the script's own transcripts: when no audio file's
      transcript is named like some audio file's `{stem}.txt`, a second run
      transcribes every file again (overwriting) unless Whisper raises. */
  lemma RerunRetranscribes(audio: seq<Entry>, dir: Dir, whisper: Whisper)
    requires NoClash(Collect(audio, AudioPatterns), dir, whisper)
    ensures var r1 := Script(audio, dir, whisper);
            var r2 := Script(audio, r1.dir, whisper);
            && (!r1.crashed ==> r1.transcribed == Collect(audio, AudioPatterns))
            && (!r2.crashed ==> r2.transcribed == Collect(audio, AudioPatterns))
  {
    var files := Collect(audio, AudioPatterns);
    TranscribesAll(files, dir, whisper);
    TranscribesAll(files, Script(audio, dir, whisper).dir, whisper);
  }

  /** The stem of `a`, lower-cased, holds neither English pattern. */
  predicate PlainStem(a: Entry) {
    !Contains(Lower(Stem(a.name)), "_en.txt") && !Contains(Lower(Stem(a.name)), "_english.txt")
  }

  /** The language Whisper detects reaches the prompts through the file name: `en`
      gives the English prompts for every stem. `de`, `nn`, a missing language and
      every other code without capitals, `_` or dots except `english` give German,
      unless the stem itself holds an English pattern (a stem such as `x_en.txt`
      makes every tag English). */
  lemma DetectedLanguageSelectsPrompt(a: Entry, t: Transcription)
    ensures t.language == Some("en") ==> PromptLanguage(OutputName(a, t)) == English
    ensures PlainStem(a) && t.language == Some("de") ==> PromptLanguage(OutputName(a, t)) == German
    ensures PlainStem(a) && t.language == Some("nn") ==> PromptLanguage(OutputName(a, t)) == German
    ensures PlainStem(a) && t.language == None ==> PromptLanguage(OutputName(a, t)) == German
    ensures PlainStem(a) && t.language.Some? && IsTag("_" + t.language.value) && NoUpper(t.language.value)
            && t.language.value != "en" && t.language.value != "english"
            ==> PromptLanguage(OutputName(a, t)) == German
  {
    var stem := Stem(a.name);
    var tag := "_" + t.language.GetOr("unknown");
    assert OutputName(a, t) == stem + tag + ".txt";
    if t.language == Some("en") {
      assert tag == "_en";
      EnglishTag(stem);
    } else if !PlainStem(a) {
    } else if t.language == Some("de") {
      assert tag == "_de";
      GermanTags(stem);
    } else if t.language == Some("nn") {
      assert tag == "_nn";
      GermanTags(stem);
    } else if t.language == None {
      assert tag == "_unknown";
      UnknownTag(stem);
    } else if IsTag(tag) && NoUpper(t.language.value) && t.language.value != "english" {
      var code := t.language.value;
      assert tag == "_" + code;
      assert NoUpper(tag) by {
        assert forall k :: 1 <= k < |tag| ==> tag[k] == code[k - 1];
      }
      assert tag != "_en" && tag != "_english" by {
        assert tag[1..] == code;
      }
      OtherTag(stem, tag);
    }
  }
}
