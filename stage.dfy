/**
 * The skip-or-process loop that the transform and copy scripts share: walk the
 * inputs in order, compute each one's output name, skip the input when a file of
 * that name exists, otherwise produce the output (which may fail) and write it.
 * `produce` stands for the external tool (a copy, ffmpeg, the chat-completion
 * API) and is uninterpreted; `None` means the tool failed or gave nothing worth
 * saving, and the script goes on with the next input.
 */
module Stage {
  import opened Wrappers
  import opened Paths
  import opened Order

  /** The output directory after some inputs, with the inputs for which the tool
      was run (`attempted`) and those whose output was written (`written`), in order. */
  datatype Outcome<T> = Outcome(dir: Dir, attempted: seq<T>, written: seq<T>)

  /** `if result:` on a tool's text: an empty string counts as no result. */
  function IfNonEmpty(result: Option<string>): (r: Option<string>)
    ensures r.Some? <==> result.Some? && result.value != ""
    ensures r.Some? ==> r == result
  {
    if result.Some? && result.value != "" then result else None
  }

  /** One turn of the loop. */
  function Step<T>(o: Outcome<T>, x: T, outName: T -> string, produce: T -> Option<string>): Outcome<T>
  {
    var name := outName(x);
    if name in o.dir then o
    else
      match produce(x)
      case None => Outcome(o.dir, o.attempted + [x], o.written)
      case Some(c) => Outcome(o.dir[name := c], o.attempted + [x], o.written + [x])
  }

  /** The whole loop over `inputs`, starting from the directory `dir`. */
  function Run<T>(inputs: seq<T>, dir: Dir, outName: T -> string, produce: T -> Option<string>): Outcome<T>
  {
    if inputs == [] then Outcome(dir, [], [])
    else Step(Run(inputs[..|inputs| - 1], dir, outName, produce), inputs[|inputs| - 1], outName, produce)
  }

  /** The loop over one input more is one more turn. */
  lemma RunSnoc<T>(inputs: seq<T>, x: T, dir: Dir, outName: T -> string, produce: T -> Option<string>)
    ensures Run(inputs + [x], dir, outName, produce) == Step(Run(inputs, dir, outName, produce), x, outName, produce)
  {
    assert (inputs + [x])[..|inputs|] == inputs;
  }

  /** The loop as the scripts write it. */
  method RunLoop<T>(inputs: seq<T>, dir: Dir, outName: T -> string, produce: T -> Option<string>)
    returns (dir': Dir, attempted: seq<T>, written: seq<T>)
    ensures Outcome(dir', attempted, written) == Run(inputs, dir, outName, produce)
  {
    dir', attempted, written := dir, [], [];
    var i := 0;
    while i < |inputs|
      invariant 0 <= i <= |inputs|
      invariant Outcome(dir', attempted, written) == Run(inputs[..i], dir, outName, produce)
    {
      var x := inputs[i];
      var name := outName(x);
      if name !in dir' {
        var result := produce(x);
        attempted := attempted + [x];
        if result.Some? {
          dir' := dir'[name := result.value];
          written := written + [x];
        }
      }
      assert inputs[..i + 1][..i] == inputs[..i];
      i := i + 1;
    }
    assert inputs[..|inputs|] == inputs;
  }

  /** No file that existed before the run is changed or removed. */
  lemma {:induction false} RunKeepsExisting<T>(inputs: seq<T>, dir: Dir, outName: T -> string, produce: T -> Option<string>)
    ensures forall k :: k in dir ==> k in Run(inputs, dir, outName, produce).dir
                                     && Run(inputs, dir, outName, produce).dir[k] == dir[k]
  {
    if inputs != [] {
      RunKeepsExisting(inputs[..|inputs| - 1], dir, outName, produce);
    }
  }

  /** The tool is run only for inputs, and an output is written only after the tool was run. */
  lemma {:induction false} RunLogs<T>(inputs: seq<T>, dir: Dir, outName: T -> string, produce: T -> Option<string>)
    ensures forall x :: x in Run(inputs, dir, outName, produce).attempted ==> x in inputs
    ensures forall x :: x in Run(inputs, dir, outName, produce).written ==>
                          x in Run(inputs, dir, outName, produce).attempted && produce(x).Some?
  {
    if inputs != [] {
      RunLogs(inputs[..|inputs| - 1], dir, outName, produce);
    }
  }

  /** Each written input's output is a name that did not exist before the run and
      that no other written input shares; the directory grows by one file per
      written input. */
  lemma {:induction false} RunWritesFresh<T>(inputs: seq<T>, dir: Dir, outName: T -> string, produce: T -> Option<string>)
    ensures var r := Run(inputs, dir, outName, produce);
      && (forall w :: w in r.written ==> outName(w) !in dir && outName(w) in r.dir)
      && (forall i, j :: 0 <= i < j < |r.written| ==> outName(r.written[i]) != outName(r.written[j]))
      && |r.dir| == |dir| + |r.written|
  {
    if inputs != [] {
      var init := inputs[..|inputs| - 1];
      var x := inputs[|inputs| - 1];
      RunWritesFresh(init, dir, outName, produce);
      RunKeepsExisting(init, dir, outName, produce);
      var o := Run(init, dir, outName, produce);
      var r := Run(inputs, dir, outName, produce);
      if outName(x) !in o.dir && produce(x).Some? {
        assert r.written == o.written + [x];
        assert r.dir == o.dir[outName(x) := produce(x).value];
        forall w | w in r.written ensures outName(w) !in dir && outName(w) in r.dir {
          if w != x { assert w in o.written; }
        }
      }
    }
  }

  /** Nothing but the outputs of written inputs is added to the directory. */
  lemma {:induction false} RunAddsOnlyOutputs<T>(inputs: seq<T>, dir: Dir, outName: T -> string, produce: T -> Option<string>)
    ensures var r := Run(inputs, dir, outName, produce);
      r.dir.Keys == dir.Keys + (set w | w in r.written :: outName(w))
  {
    if inputs != [] {
      var init := inputs[..|inputs| - 1];
      var x := inputs[|inputs| - 1];
      RunAddsOnlyOutputs(init, dir, outName, produce);
      var o := Run(init, dir, outName, produce);
      var r := Run(inputs, dir, outName, produce);
      if outName(x) !in o.dir && produce(x).Some? {
        assert r.written == o.written + [x];
        assert (set w | w in r.written :: outName(w)) == (set w | w in o.written :: outName(w)) + {outName(x)};
      }
    }
  }

  /** Each written output holds exactly what the tool produced for its input. */
  lemma {:induction false} RunWritesProduced<T>(inputs: seq<T>, dir: Dir, outName: T -> string, produce: T -> Option<string>)
    ensures var r := Run(inputs, dir, outName, produce);
      forall w :: w in r.written ==> outName(w) in r.dir && produce(w) == Some(r.dir[outName(w)])
  {
    if inputs != [] {
      var init := inputs[..|inputs| - 1];
      var x := inputs[|inputs| - 1];
      RunWritesProduced(init, dir, outName, produce);
      RunWritesFresh(init, dir, outName, produce);
      var o := Run(init, dir, outName, produce);
      var r := Run(inputs, dir, outName, produce);
      if outName(x) !in o.dir && produce(x).Some? {
        assert r.written == o.written + [x];
        forall w | w in r.written ensures outName(w) in r.dir && produce(w) == Some(r.dir[outName(w)]) {
          if w != x { assert w in o.written; }
        }
      }
    }
  }

  /** An input whose output name already exists is never handed to the tool. */
  lemma {:induction false} RunSkipsExisting<T>(inputs: seq<T>, dir: Dir, outName: T -> string, produce: T -> Option<string>)
    ensures forall x :: x in inputs && outName(x) in dir ==> x !in Run(inputs, dir, outName, produce).attempted
  {
    if inputs != [] {
      var init := inputs[..|inputs| - 1];
      var y := inputs[|inputs| - 1];
      RunSkipsExisting(init, dir, outName, produce);
      RunKeepsExisting(init, dir, outName, produce);
      RunLogs(init, dir, outName, produce);
      var o := Run(init, dir, outName, produce);
      forall x | x in inputs && outName(x) in dir ensures x !in Run(inputs, dir, outName, produce).attempted {
        assert x in init || x == y;
        if outName(y) in dir {
          assert Run(inputs, dir, outName, produce) == o;
        } else {
          assert x != y && x in init && x !in o.attempted;
          var r := Run(inputs, dir, outName, produce);
          assert r == Step(o, y, outName, produce);
          assert r.attempted == o.attempted || r.attempted == o.attempted + [y];
        }
      }
    }
  }

  /** After the run, every input has its output, or the tool failed on it. */
  lemma {:induction false} RunCovers<T>(inputs: seq<T>, dir: Dir, outName: T -> string, produce: T -> Option<string>)
    ensures forall x :: x in inputs ==> outName(x) in Run(inputs, dir, outName, produce).dir || produce(x).None?
  {
    if inputs != [] {
      var init := inputs[..|inputs| - 1];
      RunCovers(init, dir, outName, produce);
      RunKeepsExisting([inputs[|inputs| - 1]], Run(init, dir, outName, produce).dir, outName, produce);
      assert forall x :: x in inputs ==> x in init || x == inputs[|inputs| - 1];
    }
  }

  /** When every input has its output or fails, the run writes nothing and runs
      the tool only on inputs it fails on. */
  lemma {:induction false} RunStable<T>(inputs: seq<T>, dir: Dir, outName: T -> string, produce: T -> Option<string>)
    requires forall x :: x in inputs ==> outName(x) in dir || produce(x).None?
    ensures Run(inputs, dir, outName, produce).dir == dir
    ensures Run(inputs, dir, outName, produce).written == []
    ensures forall x :: x in Run(inputs, dir, outName, produce).attempted ==> produce(x).None?
  {
    if inputs != [] {
      RunStable(inputs[..|inputs| - 1], dir, outName, produce);
    }
  }

  /** When every input's output exists, the loop runs the tool on nothing and
      changes nothing. */
  lemma {:induction false} RunAllPresent<T>(inputs: seq<T>, dir: Dir, outName: T -> string, produce: T -> Option<string>)
    requires forall x :: x in inputs ==> outName(x) in dir
    ensures Run(inputs, dir, outName, produce) == Outcome(dir, [], [])
  {
    if inputs != [] {
      var init := inputs[..|inputs| - 1];
      assert forall x :: x in init ==> x in inputs;
      RunAllPresent(init, dir, outName, produce);
      assert inputs[|inputs| - 1] in inputs;
    }
  }

  /** A second run over the same inputs writes nothing, changes nothing, and runs
      the tool again only on the inputs it failed on. */
  lemma RunIdempotent<T>(inputs: seq<T>, dir: Dir, outName: T -> string, produce: T -> Option<string>)
    ensures var r1 := Run(inputs, dir, outName, produce);
            var r2 := Run(inputs, r1.dir, outName, produce);
            r2.dir == r1.dir && r2.written == [] && forall x :: x in r2.attempted ==> produce(x).None?
  {
    RunCovers(inputs, dir, outName, produce);
    RunStable(inputs, Run(inputs, dir, outName, produce).dir, outName, produce);
  }

  /** When no two different inputs share an output name, the tool is run on an
      input exactly when its output did not exist before the run. */
  lemma {:induction false} RunAttemptsExactlyAbsent<T>(inputs: seq<T>, dir: Dir, outName: T -> string, produce: T -> Option<string>)
    requires forall x, y :: x in inputs && y in inputs && outName(x) == outName(y) ==> x == y
    ensures forall x :: x in inputs ==> (x in Run(inputs, dir, outName, produce).attempted <==> outName(x) !in dir)
  {
    if inputs != [] {
      var init := inputs[..|inputs| - 1];
      var y := inputs[|inputs| - 1];
      assert forall x :: x in inputs <==> x in init || x == y;
      RunAttemptsExactlyAbsent(init, dir, outName, produce);
      RunAddsOnlyOutputs(init, dir, outName, produce);
      RunKeepsExisting(init, dir, outName, produce);
      RunLogs(init, dir, outName, produce);
      var o := Run(init, dir, outName, produce);
      var r := Run(inputs, dir, outName, produce);
      assert r == Step(o, y, outName, produce);
      assert r.attempted == o.attempted || r.attempted == o.attempted + [y];
      if y !in init {
        assert outName(y) in o.dir <==> outName(y) in dir;
      }
    }
  }

  /** Inputs handed over in name order are attempted and written in name order. */
  lemma {:induction false} RunInNameOrder(inputs: seq<Entry>, dir: Dir, outName: Entry -> string, produce: Entry -> Option<string>)
    requires SortedByName(inputs)
    ensures SortedByName(Run(inputs, dir, outName, produce).attempted)
    ensures SortedByName(Run(inputs, dir, outName, produce).written)
  {
    if inputs != [] {
      var init := inputs[..|inputs| - 1];
      var y := inputs[|inputs| - 1];
      RunInNameOrder(init, dir, outName, produce);
      RunLogs(init, dir, outName, produce);
      var o := Run(init, dir, outName, produce);
      forall x | x in init ensures NameLe(x.name, y.name) {
        var i :| 0 <= i < |init| && init[i] == x;
        assert inputs[i] == x;
      }
      if outName(y) !in o.dir {
        assert SortedByName(o.attempted + [y]);
      }
    }
  }

  /** With a tool that never fails, every input handed to it is written. */
  lemma {:induction false} RunNeverFails<T>(inputs: seq<T>, dir: Dir, outName: T -> string, produce: T -> Option<string>)
    requires forall x :: x in inputs ==> produce(x).Some?
    ensures Run(inputs, dir, outName, produce).written == Run(inputs, dir, outName, produce).attempted
  {
    if inputs != [] {
      RunNeverFails(inputs[..|inputs| - 1], dir, outName, produce);
    }
  }
}
