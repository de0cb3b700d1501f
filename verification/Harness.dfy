/** One evaluation over the baseline files: which baseline a run meets, what it exits with, and whether its
    own record takes that baseline's place.

    The files map paths to baselines. Rules and roundings do not change from run to run. */
module Harness {
  import opened Options
  import opened Gate
  import opened GateGuarantees
  import opened Baselines

  type Files = map<string, Baseline>

  datatype Arguments = Arguments(tag: string, baseline: Option<string>, record: bool, topK: nat)

  datatype Run = Run(arguments: Arguments, sets: Sets, measurements: seq<Measurement>)

  datatype Exit = Passed | Failed | Unrunnable

  datatype Terms = Terms(rules: Rules, six: real -> real, nine: real -> real)

  function Destination(arguments: Arguments): string {
    if arguments.baseline.Some? then arguments.baseline.value else "evaluation/baselines/" + arguments.tag + ".json"
  }

  /** The baseline a run meets; none when the run cannot be made. */
  function JudgedAgainst(files: Files, run: Run, six: real -> real): Option<Baseline> {
    var arguments, destination := run.arguments, Destination(run.arguments);
    if destination !in files then
      if arguments.record then Some(Unrecorded(arguments.tag, run.sets, arguments.topK, six)) else None
    else if files[destination].tag != arguments.tag && (arguments.baseline == None || arguments.record) then None
    else Some(files[destination])
  }

  ghost predicate RunPasses(files: Files, run: Run, terms: Terms) {
    var baseline := JudgedAgainst(files, run, terms.six);
    baseline.Some? && Passes(run.measurements, baseline.value, terms.rules, run.arguments.topK, terms.nine)
  }

  function NewRecord(run: Run, terms: Terms): Baseline {
    Recorded(run.arguments.tag, run.sets, run.measurements, run.arguments.topK, terms.six)
  }

  ghost function After(files: Files, run: Run, terms: Terms): Files {
    if run.arguments.record && RunPasses(files, run,
                                         terms) then files[Destination(run.arguments) := NewRecord(run, terms)]
    else files
  }

  ghost function ExitOf(files: Files, run: Run, terms: Terms): Exit {
    if JudgedAgainst(files, run, terms.six) == None then Unrunnable
    else if RunPasses(files, run, terms) then Passed
    else Failed
  }

  class Evaluation {
    var files: Files
    const terms: Terms

    constructor (files: Files, terms: Terms)
      ensures this.files == files && this.terms == terms
    {
      this.files := files;
      this.terms := terms;
    }

    /** Looks the baseline up, or starts an empty one for a run that records. */
    method BaselineFor(run: Run) returns (baseline: Option<Baseline>)
      ensures baseline == JudgedAgainst(files, run, terms.six)
    {
      var arguments, destination := run.arguments, Destination(run.arguments);
      if destination !in files {
        if !arguments.record {
          return None;
        }
        return Some(Unrecorded(arguments.tag, run.sets, arguments.topK, terms.six));
      }
      var held := files[destination];
      if arguments.baseline == None && held.tag != arguments.tag {
        return None;
      }
      if arguments.record && held.tag != arguments.tag {
        return None;
      }
      baseline := Some(held);
    }

    method Run(run: Run) returns (exit: Exit)
      modifies this
      ensures files == After(old(files), run, terms)
      ensures exit == ExitOf(old(files), run, terms)
    {
      hide JudgedAgainst, Passes, Recorded, Destination, IsOutcome, IsOrdered;
      var arguments := run.arguments;
      var baseline := BaselineFor(run);
      if baseline == None {
        return Unrunnable;
      }
      var outcome := Judge(run.measurements, baseline.value, terms.rules, arguments.topK, terms.nine);
      PassedMeansPasses(outcome, run.measurements, baseline.value, terms.rules, arguments.topK, terms.nine);
      if arguments.record && outcome.failures == [] {
        var recorded := Recorded(arguments.tag, run.sets, run.measurements, arguments.topK, terms.six);
        files := files[Destination(arguments) := recorded];
      }
      exit := if outcome.failures == [] then Passed else Failed;
    }
  }
}
