/**
 * `summarize_transcripts.py`: for every `*.txt` transcript, in name order, ask
 * the chat-completion API for a summary and save it as a Markdown file, unless
 * a summary of that name exists. The directory of summaries is a map from file
 * name to content; the API is a parameter.
 */
module SummarizeTranscripts {
  import opened Wrappers
  import opened Text
  import opened Paths
  import opened Order
  import opened Dates
  import opened Prompts
  import Stage

  /** The API's answer to a prompt: the message content, or `None` when the call
      raises or the content is null. */
  type Api = Prompt -> Option<string>

  /** `summarize_transcript`: nothing for an entry that cannot be read as a file
      or whose text is shorter than 100 characters once stripped; otherwise the
      API's answer to the summary prompt. */
  function Summarize(api: Api, t: Entry): Option<string>
  {
    if !t.isFile || |Strip(t.content)| < 100 then None
    else api(CreateSummaryPrompt(t.content, t.name))
  }

  /** The summary file name for a transcript stem: its first whitespace-separated
      word when the stem holds a valid date, otherwise the whole stem; with `.md`. */
  function SummaryName(stem: string): (r: string)
    ensures EndsWith(r, ".md")
    ensures ExtractDate(stem).None? ==> r == stem + ".md"
    ensures ExtractDate(stem).Some? ==>
              exists tok, i :: r == tok + ".md" && tok != [] && NoSpace(tok) && WordAt(stem, tok, i)
  {
    if ExtractDate(stem).Some? then
      var i := FirstShape(stem, 0).value;
      assert !IsSpace(stem[i]);
      var tok := FirstToken(stem);
      tok + ".md"
    else stem + ".md"
  }

  /** The name both `main` checks and `save_summary` writes. */
  function SummaryFile(t: Entry): string
  {
    SummaryName(Stem(t.name))
  }

  /** What `main` saves for a transcript: a summary that is not empty. */
  function Producer(api: Api): Entry -> Option<string>
  {
    t => Stage.IfNonEmpty(Summarize(api, t))
  }

  /** `main`: nothing without an API key or without transcripts; otherwise the
      skip-or-summarize loop over the transcripts in name order. */
  function Run(hasKey: bool, transcripts: seq<Entry>, summaries: Dir, api: Api): Stage.Outcome<Entry>
  {
    var files := Glob(transcripts, ".txt");
    if !hasKey || files == [] then Stage.Outcome(summaries, [], [])
    else Stage.Run(SortByName(files), summaries, SummaryFile, Producer(api))
  }

  /** `main` as written, returning the new summary directory and `success_count`. */
  method Process(hasKey: bool, transcripts: seq<Entry>, summaries: Dir, api: Api)
    returns (summaries': Dir, successCount: nat)
    ensures summaries' == Run(hasKey, transcripts, summaries, api).dir
    ensures successCount == |Run(hasKey, transcripts, summaries, api).written|
    ensures |summaries'| == |summaries| + successCount
    ensures forall k :: k in summaries ==> k in summaries' && summaries'[k] == summaries[k]
    ensures !hasKey ==> summaries' == summaries && successCount == 0
  {
    if !hasKey {
      return summaries, 0;
    }
    var files := Glob(transcripts, ".txt");
    if files == [] {
      return summaries, 0;
    }
    var sorted := SortByName(files);
    var attempted, written;
    summaries', attempted, written := Stage.RunLoop(sorted, summaries, SummaryFile, Producer(api));
    successCount := |written|;
    Stage.RunWritesFresh(sorted, summaries, SummaryFile, Producer(api));
    Stage.RunKeepsExisting(sorted, summaries, SummaryFile, Producer(api));
  }

  /** A dated stem's summary is named after its first word, after any leading
      whitespace. */
  lemma DatedSummaryName(lead: string, tok: string, rest: string)
    requires SpaceIn(lead, 0, |lead|)
    requires tok != [] && NoSpace(tok)
    requires rest == [] || IsSpace(rest[0])
    requires ExtractDate(lead + tok + rest).Some?
    ensures SummaryName(lead + tok + rest) == tok + ".md"
  {
    FirstTokenOfPrefix(lead, tok, rest);
  }

  /** A stem that opens with a valid date and a space is summarised under the
      date alone, the same name as the bare date: every session of one day
      shares one summary file. */
  lemma DateFirstName(d: string, title: string)
    requires |d| == 10 && ShapeAt(d, 0) && Valid(ParseIso(d, 0))
    ensures SummaryName(d + " " + title) == d + ".md"
    ensures SummaryName(d) == d + ".md"
  {
    assert FirstShape(d, 0) == Some(0);
    assert ExtractDate(d).Some?;
    forall k | 0 <= k < |d| ensures !IsSpace(d[k]) {
      assert IsDigit(d[k]) || d[k] == '-';
    }
    var rest := " " + title;
    assert d + " " + title == d + rest;
    LeadingMatchDecides(d, rest);
    assert [] + d + rest == d + rest && [] + d + [] == d;
    DatedSummaryName([], d, rest);
    DatedSummaryName([], d, []);
  }

  /** The API is asked only about `*.txt` transcripts whose summary file did not
      exist, and never about one whose summary existed. */
  lemma SkipsExisting(hasKey: bool, transcripts: seq<Entry>, summaries: Dir, api: Api)
    ensures var r := Run(hasKey, transcripts, summaries, api);
            forall t :: t in r.attempted ==> t in transcripts && EndsWith(t.name, ".txt") && SummaryFile(t) !in summaries
  {
    var files := Glob(transcripts, ".txt");
    if hasKey && files != [] {
      var sorted := SortByName(files);
      SortByNameMembers(files);
      Stage.RunLogs(sorted, summaries, SummaryFile, Producer(api));
      Stage.RunSkipsExisting(sorted, summaries, SummaryFile, Producer(api));
    }
  }

  /** Every summary written is a non-empty answer of the API to the summary prompt
      of a readable transcript of at least 100 stripped characters, stored under
      the very name that was checked. */
  lemma WritesOnlySummaries(hasKey: bool, transcripts: seq<Entry>, summaries: Dir, api: Api)
    ensures var r := Run(hasKey, transcripts, summaries, api);
            forall t :: t in r.written ==>
              && t.isFile && |Strip(t.content)| >= 100
              && SummaryFile(t) in r.dir && SummaryFile(t) !in summaries && r.dir[SummaryFile(t)] != ""
              && api(CreateSummaryPrompt(t.content, t.name)) == Some(r.dir[SummaryFile(t)])
  {
    var files := Glob(transcripts, ".txt");
    if hasKey && files != [] {
      var sorted := SortByName(files);
      Stage.RunWritesProduced(sorted, summaries, SummaryFile, Producer(api));
      Stage.RunWritesFresh(sorted, summaries, SummaryFile, Producer(api));
    }
  }

  /** No two summaries written in one run share a name: of two transcripts of the
      same day, only the first in name order gets a summary. */
  lemma OneSummaryPerName(hasKey: bool, transcripts: seq<Entry>, summaries: Dir, api: Api)
    ensures var r := Run(hasKey, transcripts, summaries, api);
            forall i, j :: 0 <= i < j < |r.written| ==> SummaryFile(r.written[i]) != SummaryFile(r.written[j])
  {
    var files := Glob(transcripts, ".txt");
    if hasKey && files != [] {
      Stage.RunWritesFresh(SortByName(files), summaries, SummaryFile, Producer(api));
    }
  }

  /** Only summary files are added, and `success_count` is the number of files added. */
  lemma AddsOnlySummaries(hasKey: bool, transcripts: seq<Entry>, summaries: Dir, api: Api)
    ensures var r := Run(hasKey, transcripts, summaries, api);
            r.dir.Keys == summaries.Keys + (set t | t in r.written :: SummaryFile(t))
  {
    var files := Glob(transcripts, ".txt");
    if hasKey && files != [] {
      Stage.RunAddsOnlyOutputs(SortByName(files), summaries, SummaryFile, Producer(api));
    }
  }

  /** Transcripts are handled in name order. */
  lemma InNameOrder(hasKey: bool, transcripts: seq<Entry>, summaries: Dir, api: Api)
    ensures SortedByName(Run(hasKey, transcripts, summaries, api).attempted)
    ensures SortedByName(Run(hasKey, transcripts, summaries, api).written)
  {
    var files := Glob(transcripts, ".txt");
    if hasKey && files != [] {
      Stage.RunInNameOrder(SortByName(files), summaries, SummaryFile, Producer(api));
    }
  }

  /** Running `main` again on the same transcripts writes nothing and asks the API
      again only about the transcripts it got no summary for. */
  lemma Idempotent(hasKey: bool, transcripts: seq<Entry>, summaries: Dir, api: Api)
    ensures var r1 := Run(hasKey, transcripts, summaries, api);
            var r2 := Run(hasKey, transcripts, r1.dir, api);
            r2.dir == r1.dir && r2.written == [] && forall t :: t in r2.attempted ==> Producer(api)(t).None?
  {
    var files := Glob(transcripts, ".txt");
    if hasKey && files != [] {
      Stage.RunIdempotent(SortByName(files), summaries, SummaryFile, Producer(api));
    }
  }
}
