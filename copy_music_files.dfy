/**
 * `copy_music_files.py`: copy every audio file found under the music directory
 * into the audio directory, never overwriting: a name already taken gets a
 * counter, `{stem}_1{suffix}`, `{stem}_2{suffix}`, ... up to the first free one.
 * The source tree is given as a flat listing of entries (the recursive walk);
 * the audio directory is a map from file name to content.
 */
module CopyMusicFiles {
  import opened Text
  import opened Paths

  /** The accepted suffixes, compared with the lower-cased suffix of a name. */
  const MusicExtensions: seq<string> := [".wav", ".mp3", ".m4a", ".flac", ".aac", ".ogg", ".wma"]

  /** A regular file whose lower-cased suffix is an accepted one. */
  predicate IsMusic(e: Entry) {
    e.isFile && Lower(Suffix(e.name)) in MusicExtensions
  }

  /** The `k`-th destination name tried for `name`: the name itself, then
      `{stem}_{k}{suffix}`. */
  function Candidate(name: string, k: nat): string
  {
    if k == 0 then name else Stem(name) + "_" + Decimal(k) + Suffix(name)
  }

  /** No two tries give the same name. */
  lemma CandidatesDistinct(name: string, j: nat, k: nat)
    requires j != k
    ensures Candidate(name, j) != Candidate(name, k)
  {
    StemSuffix(name);
    var s, x := Stem(name), Suffix(name);
    if j > 0 && k > 0 && Candidate(name, j) == Candidate(name, k) {
      var cj, ck := Candidate(name, j), Candidate(name, k);
      assert |Decimal(j)| == |Decimal(k)|;
      assert cj[|s| + 1..|s| + 1 + |Decimal(j)|] == Decimal(j);
      assert ck[|s| + 1..|s| + 1 + |Decimal(k)|] == Decimal(k);
      DecimalInjective(j, k);
    }
  }

  /** The names tried before the `k`-th. */
  function CandidatesBelow(name: string, k: nat): set<string>
  {
    set j | 0 <= j < k :: Candidate(name, j)
  }

  /** One more try adds a name not tried before. */
  lemma CandidatesBelowGrows(name: string, k: nat)
    ensures CandidatesBelow(name, k + 1) == CandidatesBelow(name, k) + {Candidate(name, k)}
    ensures Candidate(name, k) !in CandidatesBelow(name, k)
  {
    forall j | 0 <= j < k ensures Candidate(name, j) != Candidate(name, k) {
      CandidatesDistinct(name, j, k);
    }
  }

  /** The least index from `k` on whose name is free; it exists because the
      directory holds finitely many names and each try is new. */
  function FreeIndex(target: Dir, name: string, k: nat): (r: nat)
    requires forall j :: 0 <= j < k ==> Candidate(name, j) in target
    ensures k <= r && Candidate(name, r) !in target
    ensures forall j :: 0 <= j < r ==> Candidate(name, j) in target
    decreases target.Keys - CandidatesBelow(name, k)
  {
    if Candidate(name, k) !in target then k
    else
      CandidatesBelowGrows(name, k);
      FreeIndex(target, name, k + 1)
  }

  /** The destination chosen for `name`: the first free try. */
  function FreeName(target: Dir, name: string): (r: string)
    ensures r !in target
    ensures name !in target ==> r == name
    ensures exists k: nat :: r == Candidate(name, k) && forall j :: 0 <= j < k ==> Candidate(name, j) in target
  {
    Candidate(name, FreeIndex(target, name, 0))
  }

  /** The `while destination.exists()` loop. */
  method FindDestination(target: Dir, name: string) returns (dest: string)
    ensures dest == FreeName(target, name)
  {
    dest := name;
    var counter := 1;
    while dest in target
      invariant 1 <= counter
      invariant dest == Candidate(name, counter - 1)
      invariant forall j :: 0 <= j < counter - 1 ==> Candidate(name, j) in target
      decreases target.Keys - CandidatesBelow(name, counter - 1)
    {
      CandidatesBelowGrows(name, counter - 1);
      dest := Stem(name) + "_" + Decimal(counter) + Suffix(name);
      counter := counter + 1;
    }
    assert FreeIndex(target, name, 0) == counter - 1;
  }

  /** A try keeps the suffix of the name, so a copy stays an audio file of the same kind. */
  lemma CandidateKeepsSuffix(name: string, k: nat)
    requires Suffix(name) != []
    ensures Suffix(Candidate(name, k)) == Suffix(name)
  {
    if k > 0 {
      StemOfExtension(Stem(name) + "_" + Decimal(k), Suffix(name));
    }
  }

  /** The audio directory and the destinations chosen so far, in order. */
  datatype Copied = Copied(dir: Dir, dests: seq<string>)

  /** One turn of the copy loop: an audio file goes to the first free try of its name. */
  function CopyStep(c: Copied, e: Entry): Copied
  {
    if IsMusic(e) then
      var d := FreeName(c.dir, e.name);
      Copied(c.dir[d := e.content], c.dests + [d])
    else c
  }

  /** The copy loop over the source listing. */
  function CopyAll(sources: seq<Entry>, target: Dir): Copied
  {
    if sources == [] then Copied(target, [])
    else CopyStep(CopyAll(sources[..|sources| - 1], target), sources[|sources| - 1])
  }

  /** The loop over one source more is one more turn. */
  lemma CopyAllSnoc(sources: seq<Entry>, i: nat, target: Dir)
    requires i < |sources|
    ensures CopyAll(sources[..i + 1], target) == CopyStep(CopyAll(sources[..i], target), sources[i])
  {
    assert sources[..i + 1][..i] == sources[..i];
  }

  /** The script as written, returning the new audio directory and `copied_count`. */
  method Process(sources: seq<Entry>, target: Dir) returns (target': Dir, copiedCount: nat)
    ensures target' == CopyAll(sources, target).dir
    ensures copiedCount == |CopyAll(sources, target).dests|
  {
    target', copiedCount := target, 0;
    ghost var dests: seq<string> := [];
    for i := 0 to |sources|
      invariant Copied(target', dests) == CopyAll(sources[..i], target)
      invariant copiedCount == |dests|
    {
      CopyAllSnoc(sources, i, target);
      var e := sources[i];
      if IsMusic(e) {
        var dest := FindDestination(target', e.name);
        target' := target'[dest := e.content];
        dests := dests + [dest];
        copiedCount := copiedCount + 1;
      }
    }
    assert sources[..|sources|] == sources;
  }

  /** Every audio file is copied, with no check of contents: `copied_count` is the
      number of audio files in the listing, and the directory gains that many files. */
  lemma {:induction false} CopiesEveryAudioFile(sources: seq<Entry>, target: Dir)
    ensures var r := CopyAll(sources, target);
            |r.dests| == |Select(sources, IsMusic)| && |r.dir| == |target| + |r.dests|
  {
    if sources != [] {
      CopiesEveryAudioFile(sources[..|sources| - 1], target);
    }
  }

  /** The audio directory still holds every file of `target` unchanged, every
      destination was free in `target` and is now filled, and no destination is
      used twice. */
  predicate KeepsTarget(c: Copied, target: Dir) {
    && (forall k :: k in target ==> k in c.dir && c.dir[k] == target[k])
    && (forall d :: d in c.dests ==> d in c.dir && d !in target)
    && (forall i, j :: 0 <= i < j < |c.dests| ==> c.dests[i] != c.dests[j])
  }

  /** One turn of the copy loop keeps that invariant. */
  lemma CopyStepKeepsTarget(c: Copied, e: Entry, target: Dir)
    requires KeepsTarget(c, target)
    ensures KeepsTarget(CopyStep(c, e), target)
  {
    if IsMusic(e) {
      var d := FreeName(c.dir, e.name);
      var r := Copied(c.dir[d := e.content], c.dests + [d]);
      assert CopyStep(c, e) == r;
      forall i, j | 0 <= i < j < |r.dests| ensures r.dests[i] != r.dests[j] {
        if j == |c.dests| {
          assert r.dests[i] in c.dir;
        } else {
          assert r.dests[i] == c.dests[i] && r.dests[j] == c.dests[j];
        }
      }
    }
  }

  /** No file of the audio directory is overwritten: old files keep their content,
      every destination was free and is filled, and no destination is used twice. */
  lemma {:induction false} NeverOverwrites(sources: seq<Entry>, target: Dir)
    ensures KeepsTarget(CopyAll(sources, target), target)
  {
    if sources != [] {
      NeverOverwrites(sources[..|sources| - 1], target);
      CopyStepKeepsTarget(CopyAll(sources[..|sources| - 1], target), sources[|sources| - 1], target);
    }
  }

  /** The `i`-th destination holds the `i`-th audio file's content, under its own
      name or a counter variant of it. */
  lemma {:induction false} CopiesContents(sources: seq<Entry>, target: Dir)
    ensures var r := CopyAll(sources, target);
            var music := Select(sources, IsMusic);
            |r.dests| == |music| &&
            forall i :: 0 <= i < |r.dests| ==>
              && r.dests[i] in r.dir && r.dir[r.dests[i]] == music[i].content
              && exists k: nat :: r.dests[i] == Candidate(music[i].name, k)
  {
    CopiesEveryAudioFile(sources, target);
    if sources != [] {
      var init := sources[..|sources| - 1];
      CopiesContents(init, target);
      NeverOverwrites(init, target);
      var c := CopyAll(init, target);
      var e := sources[|sources| - 1];
      if IsMusic(e) {
        var d := FreeName(c.dir, e.name);
        var r := CopyAll(sources, target);
        var music := Select(sources, IsMusic);
        assert music == Select(init, IsMusic) + [e];
        forall i | 0 <= i < |r.dests| - 1 ensures r.dests[i] != d {
          assert r.dests[i] in c.dir;
        }
      }
    }
  }

  /** Only destinations are added to the audio directory. */
  lemma {:induction false} AddsOnlyDestinations(sources: seq<Entry>, target: Dir)
    ensures var r := CopyAll(sources, target);
            r.dir.Keys == target.Keys + set d | d in r.dests
  {
    if sources != [] {
      var init := sources[..|sources| - 1];
      AddsOnlyDestinations(init, target);
    }
  }
}
