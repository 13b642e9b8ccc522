/**
 * `copy_obs_videos.py`: copy every video of the OBS recordings directory into the
 * project's video directory unless a file of that name is there already. Both
 * directories are given: the source as a listing, the target as a map from file
 * name to content.
 */
module CopyObsVideos {
  import opened Wrappers
  import opened Text
  import opened Paths
  import Stage

  /** The accepted suffixes, compared with the lower-cased suffix of a name. */
  const VideoExtensions: seq<string> := [".mp4", ".mkv", ".mov", ".avi"]

  predicate IsVideo(e: Entry) {
    Lower(Suffix(e.name)) in VideoExtensions
  }

  /** A video is copied under its own name. */
  function Name(e: Entry): string
  {
    e.name
  }

  /** Copying never fails and gives the content of the source file. */
  function CopyOf(e: Entry): Option<string>
  {
    Some(e.content)
  }

  /** The copy loop: the videos, in listing order, through the skip-or-copy stage. */
  function Run(listing: seq<Entry>, target: Dir): Stage.Outcome<Entry>
  {
    Stage.Run(Select(listing, IsVideo), target, Name, CopyOf)
  }

  /** The script as written, returning the new video directory and the videos copied. */
  method Process(listing: seq<Entry>, target: Dir) returns (target': Dir, copied: seq<Entry>)
    ensures target' == Run(listing, target).dir
    ensures copied == Run(listing, target).written == Run(listing, target).attempted
  {
    target', copied := target, [];
    for i := 0 to |listing|
      invariant Stage.Outcome(target', copied, copied) == Run(listing[..i], target)
    {
      var e := listing[i];
      if IsVideo(e) {
        if e.name !in target' {
          target' := target'[e.name := e.content];
          copied := copied + [e];
        }
      }
      assert listing[..i + 1][..i] == listing[..i];
    }
    assert listing[..|listing|] == listing;
  }

  /** Videos are the only files copied, and each copy holds its source's content. */
  lemma CopiesOnlyVideos(listing: seq<Entry>, target: Dir)
    ensures var r := Run(listing, target);
            forall e :: e in r.written ==> e in listing && IsVideo(e) && e.name !in target && e.name in r.dir && r.dir[e.name] == e.content
  {
    var videos := Select(listing, IsVideo);
    var r := Run(listing, target);
    Stage.RunLogs(videos, target, Name, CopyOf);
    Stage.RunWritesProduced(videos, target, Name, CopyOf);
    Stage.RunWritesFresh(videos, target, Name, CopyOf);
    forall e | e in r.written
      ensures e in listing && IsVideo(e) && e.name !in target && e.name in r.dir && r.dir[e.name] == e.content
    {
      assert e in videos;
      assert Name(e) == e.name;
      assert CopyOf(e) == Some(r.dir[Name(e)]);
    }
  }

  /** In a listing where a name identifies its entry, a video is copied exactly
      when no file of its name is in the target. */
  lemma CopiedExactlyWhenAbsent(listing: seq<Entry>, target: Dir)
    requires forall a, b :: a in listing && b in listing && a.name == b.name ==> a == b
    ensures var r := Run(listing, target);
            forall e :: e in listing && IsVideo(e) ==> (e in r.written <==> e.name !in target)
  {
    var videos := Select(listing, IsVideo);
    Stage.RunAttemptsExactlyAbsent(videos, target, Name, CopyOf);
    Stage.RunNeverFails(videos, target, Name, CopyOf);
  }

  /** Files of the target are never overwritten. */
  lemma NeverOverwrites(listing: seq<Entry>, target: Dir)
    ensures var r := Run(listing, target);
            forall k :: k in target ==> k in r.dir && r.dir[k] == target[k]
  {
    Stage.RunKeepsExisting(Select(listing, IsVideo), target, Name, CopyOf);
  }

  /** After a run every video's name is in the target. */
  lemma AllVideosPresent(listing: seq<Entry>, target: Dir)
    ensures forall e :: e in listing && IsVideo(e) ==> e.name in Run(listing, target).dir
  {
    Stage.RunCovers(Select(listing, IsVideo), target, Name, CopyOf);
  }

  /** A second run over the same listing copies nothing. */
  lemma SecondRunCopiesNothing(listing: seq<Entry>, target: Dir)
    ensures var r1 := Run(listing, target);
            var r2 := Run(listing, r1.dir);
            r2.dir == r1.dir && r2.attempted == []
  {
    var videos := Select(listing, IsVideo);
    Stage.RunIdempotent(videos, target, Name, CopyOf);
    Stage.RunNeverFails(videos, Run(listing, target).dir, Name, CopyOf);
  }
}
