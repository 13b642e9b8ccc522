/**
 * `extract_todos.py`: for every `*.txt` transcript, in name order, ask the
 * chat-completion API for a TODO list and save it as `{stem}_TODOs.md`, unless
 * that file exists. The TODO directory is a map from file name to content; the
 * API is a parameter.
 */
module ExtractTodos {
  import opened Wrappers
  import opened Text
  import opened Paths
  import opened Order
  import opened Prompts
  import Stage

  /** The API's answer to a prompt: the message content, or `None` when the call
      raises or the content is null. */
  type Api = Prompt -> Option<string>

  /** `extract_todos`: nothing for an entry that cannot be read as a file or whose
      text is shorter than 100 characters once stripped; otherwise the API's answer
      to the TODO prompt. */
  function ExtractTodos(api: Api, t: Entry): Option<string>
  {
    if !t.isFile || |Strip(t.content)| < 100 then None
    else api(CreateTodoPrompt(t.content, t.name))
  }

  /** `{stem}_TODOs.md`. */
  function TodoName(stem: string): (r: string)
    ensures |r| == |stem| + 9 && r[..|stem|] == stem && EndsWith(r, "_TODOs.md")
  {
    stem + "_TODOs.md"
  }

  /** The name both `main` checks and `save_todos` writes. */
  function TodoFile(t: Entry): string
  {
    TodoName(Stem(t.name))
  }

  /** What `main` saves for a transcript: a TODO list that is not empty. */
  function Producer(api: Api): Entry -> Option<string>
  {
    t => Stage.IfNonEmpty(ExtractTodos(api, t))
  }

  /** `main`: nothing without an API key or without transcripts; otherwise the
      skip-or-extract loop over the transcripts in name order. */
  function Run(hasKey: bool, transcripts: seq<Entry>, todos: Dir, api: Api): Stage.Outcome<Entry>
  {
    var files := Glob(transcripts, ".txt");
    if !hasKey || files == [] then Stage.Outcome(todos, [], [])
    else Stage.Run(SortByName(files), todos, TodoFile, Producer(api))
  }

  /** `main` as written, returning the new TODO directory and `success_count`. */
  method Process(hasKey: bool, transcripts: seq<Entry>, todos: Dir, api: Api)
    returns (todos': Dir, successCount: nat)
    ensures todos' == Run(hasKey, transcripts, todos, api).dir
    ensures successCount == |Run(hasKey, transcripts, todos, api).written|
    ensures |todos'| == |todos| + successCount
    ensures forall k :: k in todos ==> k in todos' && todos'[k] == todos[k]
    ensures !hasKey ==> todos' == todos && successCount == 0
  {
    if !hasKey {
      return todos, 0;
    }
    var files := Glob(transcripts, ".txt");
    if files == [] {
      return todos, 0;
    }
    var sorted := SortByName(files);
    var attempted, written;
    todos', attempted, written := Stage.RunLoop(sorted, todos, TodoFile, Producer(api));
    successCount := |written|;
    Stage.RunWritesFresh(sorted, todos, TodoFile, Producer(api));
    Stage.RunKeepsExisting(sorted, todos, TodoFile, Producer(api));
  }

  /** Two different transcript names `b.txt` with a non-empty `b` give different
      TODO files. */
  lemma TodoNamesDistinct(a: string, b: string)
    requires EndsWith(a, ".txt") && EndsWith(b, ".txt") && |a| > 4 && |b| > 4
    requires a != b
    ensures TodoName(Stem(a)) != TodoName(Stem(b))
  {
    var ba, bb := a[..|a| - 4], b[..|b| - 4];
    assert a == ba + ".txt" && b == bb + ".txt";
    StemOfExtension(ba, ".txt");
    StemOfExtension(bb, ".txt");
    assert TodoName(ba)[..|ba|] == ba;
    if |ba| == |bb| {
      assert TodoName(bb)[..|bb|] == bb;
    }
  }

  /** A transcript named `.txt` has no extension in `pathlib`'s sense, so its stem is
      `.txt`, the stem of `.txt.txt` too: both share `.txt_TODOs.md`. */
  lemma HiddenNameCollides()
    ensures TodoName(Stem(".txt")) == TodoName(Stem(".txt.txt"))
  {
    StemOfExtension(".txt", ".txt");
    assert ".txt" + ".txt" == ".txt.txt";
    assert SuffixDot(".txt") == -1;
  }

  /** In a listing where a name identifies its entry and no transcript is named just
      `.txt`, `extract_todos` is called on a transcript exactly when its TODO file
      did not exist before the run (given an API key). The call may still return
      nothing before reaching the API, for a short or unreadable transcript. */
  lemma AskedExactlyWhenAbsent(transcripts: seq<Entry>, todos: Dir, api: Api)
    requires forall a, b :: a in transcripts && b in transcripts && a.name == b.name ==> a == b
    requires forall a :: a in transcripts ==> a.name != ".txt"
    ensures var r := Run(true, transcripts, todos, api);
            forall t :: t in transcripts && EndsWith(t.name, ".txt") ==> (t in r.attempted <==> TodoFile(t) !in todos)
  {
    var files := Glob(transcripts, ".txt");
    if files != [] {
      var sorted := SortByName(files);
      SortByNameMembers(files);
      forall x, y | x in sorted && y in sorted && TodoFile(x) == TodoFile(y) ensures x == y {
        if x.name != y.name {
          TodoNamesDistinct(x.name, y.name);
        }
      }
      Stage.RunAttemptsExactlyAbsent(sorted, todos, TodoFile, Producer(api));
    }
  }

  /** Every TODO list written is a non-empty answer of the API to the TODO prompt
      of a readable transcript of at least 100 stripped characters, stored under
      the very name that was checked. */
  lemma WritesOnlyTodos(hasKey: bool, transcripts: seq<Entry>, todos: Dir, api: Api)
    ensures var r := Run(hasKey, transcripts, todos, api);
            forall t :: t in r.written ==>
              && t.isFile && |Strip(t.content)| >= 100
              && TodoFile(t) in r.dir && TodoFile(t) !in todos && r.dir[TodoFile(t)] != ""
              && api(CreateTodoPrompt(t.content, t.name)) == Some(r.dir[TodoFile(t)])
  {
    var files := Glob(transcripts, ".txt");
    if hasKey && files != [] {
      var sorted := SortByName(files);
      Stage.RunWritesProduced(sorted, todos, TodoFile, Producer(api));
      Stage.RunWritesFresh(sorted, todos, TodoFile, Producer(api));
    }
  }

  /** The API is asked only about `*.txt` transcripts whose TODO file did not exist. */
  lemma SkipsExisting(hasKey: bool, transcripts: seq<Entry>, todos: Dir, api: Api)
    ensures var r := Run(hasKey, transcripts, todos, api);
            forall t :: t in r.attempted ==> t in transcripts && EndsWith(t.name, ".txt") && TodoFile(t) !in todos
  {
    var files := Glob(transcripts, ".txt");
    if hasKey && files != [] {
      var sorted := SortByName(files);
      SortByNameMembers(files);
      Stage.RunLogs(sorted, todos, TodoFile, Producer(api));
      Stage.RunSkipsExisting(sorted, todos, TodoFile, Producer(api));
    }
  }

  /** Only TODO files are added. */
  lemma AddsOnlyTodos(hasKey: bool, transcripts: seq<Entry>, todos: Dir, api: Api)
    ensures var r := Run(hasKey, transcripts, todos, api);
            r.dir.Keys == todos.Keys + (set t | t in r.written :: TodoFile(t))
  {
    var files := Glob(transcripts, ".txt");
    if hasKey && files != [] {
      Stage.RunAddsOnlyOutputs(SortByName(files), todos, TodoFile, Producer(api));
    }
  }

  /** Transcripts are handled in name order. */
  lemma InNameOrder(hasKey: bool, transcripts: seq<Entry>, todos: Dir, api: Api)
    ensures SortedByName(Run(hasKey, transcripts, todos, api).attempted)
    ensures SortedByName(Run(hasKey, transcripts, todos, api).written)
  {
    var files := Glob(transcripts, ".txt");
    if hasKey && files != [] {
      Stage.RunInNameOrder(SortByName(files), todos, TodoFile, Producer(api));
    }
  }

  /** Running `main` again on the same transcripts writes nothing and asks the API
      again only about the transcripts it got no TODO list for. */
  lemma Idempotent(hasKey: bool, transcripts: seq<Entry>, todos: Dir, api: Api)
    ensures var r1 := Run(hasKey, transcripts, todos, api);
            var r2 := Run(hasKey, transcripts, r1.dir, api);
            r2.dir == r1.dir && r2.written == [] && forall t :: t in r2.attempted ==> Producer(api)(t).None?
  {
    var files := Glob(transcripts, ".txt");
    if hasKey && files != [] {
      Stage.RunIdempotent(SortByName(files), todos, TodoFile, Producer(api));
    }
  }
}
