/**
 * `extract_audio_from_videos.py`: for every video of the video directory, write
 * its sound track as `{stem}.wav` into the audio directory unless that file
 * exists. ffmpeg is a parameter; its errors are reported and the loop goes on.
 */
module ExtractAudio {
  import opened Wrappers
  import opened Text
  import opened Paths
  import Stage

  /** The accepted suffixes, compared with the lower-cased suffix of a name. */
  const VideoExtensions: seq<string> := [".mp4", ".mov", ".mkv", ".avi"]

  predicate IsVideo(e: Entry) {
    Lower(Suffix(e.name)) in VideoExtensions
  }

  /** ffmpeg on a video: the WAV data, or `None` for an `ffmpeg.Error`. */
  type Ffmpeg = Entry -> Option<string>

  /** `{stem}.wav`. */
  function AudioName(e: Entry): (r: string)
    ensures EndsWith(r, ".wav") && r[..|r| - 4] == Stem(e.name)
  {
    Stem(e.name) + ".wav"
  }

  /** The extraction loop: the videos, in listing order, through the skip-or-produce stage. */
  function Run(listing: seq<Entry>, audio: Dir, ffmpeg: Ffmpeg): Stage.Outcome<Entry>
  {
    Stage.Run(Select(listing, IsVideo), audio, AudioName, ffmpeg)
  }

  /** The script as written, returning the new audio directory, the videos ffmpeg
      was run on and those it succeeded on. */
  method Process(listing: seq<Entry>, audio: Dir, ffmpeg: Ffmpeg) returns (audio': Dir, tried: seq<Entry>, extracted: seq<Entry>)
    ensures Stage.Outcome(audio', tried, extracted) == Run(listing, audio, ffmpeg)
  {
    audio', tried, extracted := audio, [], [];
    for i := 0 to |listing|
      invariant Stage.Outcome(audio', tried, extracted) == Run(listing[..i], audio, ffmpeg)
    {
      ExtractSnoc(listing, i, audio, ffmpeg);
      audio', tried, extracted := ExtractOne(audio', tried, extracted, listing[i], ffmpeg);
    }
    assert listing[..|listing|] == listing;
  }

  /** The loop over one entry more is one more turn when the entry is a video. */
  lemma ExtractSnoc(listing: seq<Entry>, i: nat, audio: Dir, ffmpeg: Ffmpeg)
    requires i < |listing|
    ensures Run(listing[..i + 1], audio, ffmpeg)
            == if IsVideo(listing[i]) then Stage.Step(Run(listing[..i], audio, ffmpeg), listing[i], AudioName, ffmpeg)
               else Run(listing[..i], audio, ffmpeg)
  {
    assert listing[..i + 1] == listing[..i] + [listing[i]];
    SelectSnoc(listing[..i], listing[i], IsVideo);
    Stage.RunSnoc(Select(listing[..i], IsVideo), listing[i], audio, AudioName, ffmpeg);
  }

  /** One turn of the script's loop: skip what is not a video or already has its
      audio file, otherwise run ffmpeg and store what it gives. */
  method ExtractOne(audio: Dir, tried: seq<Entry>, extracted: seq<Entry>, video: Entry, ffmpeg: Ffmpeg)
    returns (audio': Dir, tried': seq<Entry>, extracted': seq<Entry>)
    ensures var o := Stage.Outcome(audio, tried, extracted);
            Stage.Outcome(audio', tried', extracted')
            == if IsVideo(video) then Stage.Step(o, video, AudioName, ffmpeg) else o
  {
    audio', tried', extracted' := audio, tried, extracted;
    if !IsVideo(video) {
      return;
    }
    var name := AudioName(video);
    if name in audio {
      return;
    }
    tried' := tried + [video];
    var result := ffmpeg(video);
    if result.Some? {
      audio' := audio[name := result.value];
      extracted' := extracted + [video];
    }
  }

  /** A video's audio file is its name with the four-character suffix replaced by
      `.wav`: `talk.MP4` gives `talk.wav`. */
  lemma AudioNameOfVideo(e: Entry)
    requires IsVideo(e)
    ensures |Suffix(e.name)| == 4 && AudioName(e) == e.name[..|e.name| - 4] + ".wav"
  {
    var x := Lower(Suffix(e.name));
    assert |x| == 4;
    StemSuffix(e.name);
    assert Stem(e.name) == e.name[..|e.name| - 4];
  }

  /** Videos sharing a stem, such as `talk.mp4` and `talk.mkv`, give at most one audio
      file: no two extracted videos share an audio name. */
  lemma OneAudioPerStem(listing: seq<Entry>, audio: Dir, ffmpeg: Ffmpeg)
    ensures var r := Run(listing, audio, ffmpeg);
            forall i, j :: 0 <= i < j < |r.written| ==> AudioName(r.written[i]) != AudioName(r.written[j])
  {
    Stage.RunWritesFresh(Select(listing, IsVideo), audio, AudioName, ffmpeg);
  }

  /** ffmpeg is run only on videos whose audio file did not exist, and what it
      produces is stored under that name; existing audio files are kept. */
  lemma ExtractsOnlyMissing(listing: seq<Entry>, audio: Dir, ffmpeg: Ffmpeg)
    ensures var r := Run(listing, audio, ffmpeg);
            && (forall v :: v in r.attempted ==> v in listing && IsVideo(v) && AudioName(v) !in audio)
            && (forall v :: v in r.written ==> AudioName(v) in r.dir && ffmpeg(v) == Some(r.dir[AudioName(v)]))
            && (forall k :: k in audio ==> k in r.dir && r.dir[k] == audio[k])
  {
    var videos := Select(listing, IsVideo);
    Stage.RunLogs(videos, audio, AudioName, ffmpeg);
    Stage.RunSkipsExisting(videos, audio, AudioName, ffmpeg);
    Stage.RunWritesProduced(videos, audio, AudioName, ffmpeg);
    Stage.RunKeepsExisting(videos, audio, AudioName, ffmpeg);
  }

  /** An ffmpeg error does not stop the loop: afterwards every video has its audio
      file, or ffmpeg failed on it. */
  lemma ErrorsDoNotStop(listing: seq<Entry>, audio: Dir, ffmpeg: Ffmpeg)
    ensures forall v :: v in listing && IsVideo(v) ==> AudioName(v) in Run(listing, audio, ffmpeg).dir || ffmpeg(v).None?
  {
    Stage.RunCovers(Select(listing, IsVideo), audio, AudioName, ffmpeg);
  }

  /** A second run changes nothing and retries only the videos ffmpeg failed on;
      when the first run had no failure, it runs ffmpeg on nothing. */
  lemma SecondRunRetriesOnlyFailures(listing: seq<Entry>, audio: Dir, ffmpeg: Ffmpeg)
    ensures var r1 := Run(listing, audio, ffmpeg);
            var r2 := Run(listing, r1.dir, ffmpeg);
            && r2.dir == r1.dir && r2.written == []
            && (forall v :: v in r2.attempted ==> ffmpeg(v).None?)
            && ((forall v :: v in listing && IsVideo(v) ==> ffmpeg(v).Some?) ==> r2.attempted == [])
  {
    var videos := Select(listing, IsVideo);
    Stage.RunIdempotent(videos, audio, AudioName, ffmpeg);
    var r2 := Run(listing, Run(listing, audio, ffmpeg).dir, ffmpeg);
    Stage.RunLogs(videos, Run(listing, audio, ffmpeg).dir, AudioName, ffmpeg);
    if forall v :: v in listing && IsVideo(v) ==> ffmpeg(v).Some? {
      var r1 := Run(listing, audio, ffmpeg);
      Stage.RunCovers(videos, audio, AudioName, ffmpeg);
      Stage.RunAllPresent(videos, r1.dir, AudioName, ffmpeg);
    }
  }
}
