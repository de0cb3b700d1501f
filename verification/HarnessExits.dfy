/** What a run exits with and what it writes, said of the files, the path and the tags. */
module HarnessExits {
  import opened Options
  import opened Gate
  import opened GateGuarantees
  import opened Baselines
  import opened Harness
  import opened HarnessGuarantees

  /** The path a run reads and would record to: the one it was given, or else its tag's own. */
  ghost predicate ReadsAt(arguments: Arguments, path: string) {
    match arguments.baseline
    case Some(given) => path == given
    case None => path == "evaluation/baselines/" + arguments.tag + ".json"
  }

  /** The baseline held at the path serves a run of its own tag, and one of another tag only where the run was
      given the path and records nothing. */
  ghost predicate Serves(held: Baseline, arguments: Arguments) {
    held.tag == arguments.tag || (arguments.baseline.Some? && !arguments.record)
  }

  /** What a run that records starts from where nothing was recorded: its own question, and no metric. */
  ghost predicate StartsFrom(empty: Baseline, run: Run) {
    empty == Baseline(run.arguments.tag, run.arguments.topK, run.sets, map[])
  }

  /** The baseline a run is judged against: the one held at its path if it serves, an empty one if nothing is held
      there and the run records, and otherwise none. */
  ghost predicate Finds(files: Files, run: Run, path: string, baseline: Baseline) {
    && ReadsAt(run.arguments, path)
    && if path in files then baseline == files[path] && Serves(files[path], run.arguments)
       else run.arguments.record && StartsFrom(baseline, run)
  }

  /** A run exits as passed exactly when it finds a baseline and passes against it, as failed exactly when it finds
      one and does not, and as unrunnable exactly when it finds none. */
  lemma WhatTheExitSays(files: Files, run: Run, terms: Terms)
    ensures var topK := run.arguments.topK;
            && (ExitOf(files, run, terms) == Passed <==>
                  exists path, baseline :: Finds(files, run, path, baseline)
                    && Passes(run.measurements, baseline, terms.rules, topK, terms.nine))
            && (ExitOf(files, run, terms) == Failed <==>
                  exists path, baseline :: Finds(files, run, path, baseline)
                    && !Passes(run.measurements, baseline, terms.rules, topK, terms.nine))
            && (ExitOf(files, run, terms) == Unrunnable <==>
                  !exists path, baseline :: Finds(files, run, path, baseline))
  {
    var found := JudgedAgainst(files, run, terms.six);
    hide Passes;
    OneBaseline(files, run, terms.six);
    hide Finds, JudgedAgainst;
    if found.Some? {
      assert Finds(files, run, Destination(run.arguments), found.value);
    }
  }

  /** A run finds one baseline at most, and it is the one it is judged against. */
  lemma OneBaseline(files: Files, run: Run, six: real -> real)
    ensures forall path, baseline ::
              Finds(files, run, path, baseline) <==>
              path == Destination(run.arguments) && JudgedAgainst(files, run, six) == Some(baseline)
  {
  }

  /** Asking for a recording changes a run's exit exactly where the path holds nothing, or a baseline of another tag
      that the run was given the path of. */
  lemma RecordingDoesNotDecide(files: Files, run: Run, terms: Terms, path: string)
    requires ReadsAt(run.arguments, path)
    ensures var judging := run.(arguments := run.arguments.(record := false));
            var recording := run.(arguments := run.arguments.(record := true));
            (ExitOf(files, judging, terms) == ExitOf(files, recording, terms)
             <==> path in files && (files[path].tag == run.arguments.tag || run.arguments.baseline == None))
  {
    hide Passes, Recorded;
  }

  /** What a run leaves: the files as they were, but that a run that records and passes puts at its path its tag, its
      depth, its sets, and all it measured to six places. */
  lemma WhatIsWritten(files: Files, run: Run, terms: Terms, path: string)
    requires GoodRun(run) && ReadsAt(run.arguments, path)
    ensures var after := After(files, run, terms);
            if run.arguments.record && ExitOf(files, run, terms) == Passed then
              && after.Keys == files.Keys + {path}
              && (forall other :: other in files && other != path ==> after[other] == files[other])
              && after[path].tag == run.arguments.tag && after[path].topK == run.arguments.topK
              && after[path].sets == run.sets
              && (forall name :: name in after[path].metrics
                    <==> exists i :: 0 <= i < 3 && name in run.measurements[i].metrics)
              && (forall i, name :: 0 <= i < 3 && name in run.measurements[i].metrics ==>
                    after[path].metrics[name] == terms.six(run.measurements[i].metrics[name]))
            else
              after == files
  {
    hide Passes;
    if run.arguments.record && ExitOf(files, run, terms) == Passed {
      var own := NewRecord(run, terms);
      hide ExitOf, RunPasses, JudgedAgainst;
      RecordedIsMeasured(run, terms);
    }
  }

  lemma RecordedIsMeasured(run: Run, terms: Terms)
    requires GoodRun(run)
    ensures var own := NewRecord(run, terms);
            && (forall name :: name in own.metrics <==> exists i :: 0 <= i < 3 && name in run.measurements[i].metrics)
            && (forall i, name :: 0 <= i < 3 && name in run.measurements[i].metrics ==>
                  own.metrics[name] == terms.six(run.measurements[i].metrics[name]))
  {
    var own := NewRecord(run, terms);
    forall i | 0 <= i < 3 ensures IsMeasurementOf(run.measurements[i], run.sets) {
    }
    forall name | name in own.metrics ensures exists i :: 0 <= i < 3 && name in run.measurements[i].metrics {
      var i := RecordedFrom(run.measurements, terms.six, name);
    }
    hide RecordedMetrics, IsRun;
    forall i, name | 0 <= i < 3 && name in run.measurements[i].metrics
      ensures name in own.metrics && own.metrics[name] == terms.six(run.measurements[i].metrics[name])
    {
      OwnMetric(run, terms, i, name);
    }
  }

  lemma OwnMetric(run: Run, terms: Terms, i: nat, name: string)
    requires GoodRun(run) && i < 3 && name in run.measurements[i].metrics
    ensures var own := NewRecord(run, terms);
            name in own.metrics && own.metrics[name] == terms.six(run.measurements[i].metrics[name])
  {
    hide Belongs, RecordedMetrics;
    RecordedOf(run.arguments.tag, run.sets, run.measurements, run.arguments.topK, terms.six, i);
    assert name in Rounded(run.measurements[i].metrics, terms.six);
  }
}
