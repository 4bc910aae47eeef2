/** The entry point `main`: too few arguments print the help text and
    succeed; otherwise the filter name is resolved, its parameters bound, and
    the pipeline run. Every run ends with an `Exit` event carrying the code
    `main` returns. */
module Driver {
  import opened Options
  import opened Filters
  import opened Arguments
  import opened Trace
  import opened Pipeline
  import CompressorAdapter

  /** The fewest arguments (program, input, output, filter) that are not a
      request for help. */
  const MinArgs: nat := 4

  function Run<V, H(==)>(lib: Library<V, H>, argv: seq<string>): (r: Outcome<V, H>)
    ensures r.code == 0 || r.code == 1
    ensures |r.trace| >= 2 && r.trace[|r.trace| - 1] == Exit(r.code)
  {
    if |argv| < MinArgs then Outcome(0, [Usage, Exit(0)])
    else
      var input, output, name := argv[1], argv[2], argv[3];
      var found := Resolve(name);
      if found.None? then Outcome(1, [Usage, Diag(BadFilter(name)), Exit(1)])
      else
        var f := found.value;
        var bound := Bind(argv, Arity(f), lib.parse);
        if bound.None? then Outcome(1, [Diag(BadArguments(name)), Exit(1)])
        else
          var run := Execute(lib, input, output, f, bound.value);
          Outcome(run.code, run.trace + [Exit(run.code)])
  }

  /** Help comes first exactly when there are too few arguments or the name
      is unknown; a load comes first exactly when the name is known and
      enough values follow it. */
  lemma RunShape<V, H>(lib: Library<V, H>, argv: seq<string>)
    ensures var r := Run(lib, argv);
      && (r.trace[0].Usage? <==> |argv| < MinArgs || Resolve(argv[3]).None?)
      && (r.trace[0].Load? <==>
            |argv| >= MinArgs && Resolve(argv[3]).Some? && |argv| > 3 + Arity(Resolve(argv[3]).value))
  {
  }

  /** No event of the trace touches a sound: no load, filter, save or free. */
  predicate NoSoundWork<V, H>(t: seq<Event<V, H>>)
  {
    forall i :: 0 <= i < |t| ==> !t[i].IsStage() && !t[i].Free?
  }

  /** Fewer than four arguments: help on stdout, exit 0, no sound work and
      no diagnostic. */
  lemma RunHelp<V, H>(lib: Library<V, H>, argv: seq<string>)
    requires |argv| < MinArgs
    ensures var r := Run(lib, argv);
      && r.code == 0
      && r.trace[0].Usage?
      && Diagnostics(r.trace) == []
      && NoSoundWork(r.trace)
  {
    var t := Run(lib, argv).trace;
    DiagnosticsNone(t);
  }

  /** An unknown filter name: help, then one "Bad filter" diagnostic naming
      it, exit 1, no sound work. */
  lemma RunBadFilter<V, H>(lib: Library<V, H>, argv: seq<string>)
    requires |argv| >= MinArgs
    requires Resolve(argv[3]).None?
    ensures var r := Run(lib, argv);
      && r.code == 1
      && r.trace[0].Usage?
      && Diagnostics(r.trace) == [BadFilter(argv[3])]
      && NoSoundWork(r.trace)
  {
    var t := Run(lib, argv).trace;
    assert t == [t[0]] + [t[1]] + [t[2]];
    DiagnosticsConcat([t[0]], [t[1]] + [t[2]]);
    DiagnosticsConcat([t[1]], [t[2]]);
    DiagnosticsNone([t[0]]);
    DiagnosticsNone([t[2]]);
    DiagnosticsLast<V, H>([], t[1].error);
  }

  /** A known filter with too few numeric parameters: one "Bad arguments"
      diagnostic naming the filter, exit 1, no help and no sound work. */
  lemma RunBadArguments<V, H>(lib: Library<V, H>, argv: seq<string>, f: Filter)
    requires |argv| >= MinArgs
    requires Resolve(argv[3]) == Some(f)
    requires |argv| <= 3 + Arity(f)
    ensures var r := Run(lib, argv);
      && r.code == 1
      && (forall i :: 0 <= i < |r.trace| ==> !r.trace[i].Usage?)
      && Diagnostics(r.trace) == [BadArguments(Name(f))]
      && NoSoundWork(r.trace)
  {
    ResolveExact(argv[3], f);
    var t := Run(lib, argv).trace;
    assert t == [t[0]] + [t[1]];
    DiagnosticsLast<V, H>([], t[0].error);
    DiagnosticsConcat([t[0]], [t[1]]);
    DiagnosticsNone([t[1]]);
  }

  /** The values `getargs` binds for a filter of arity `k`. */
  function Positional<V>(argv: seq<string>, k: nat, parse: string -> V): seq<V>
    requires |argv| >= FirstParam + k
  {
    seq(k, j requires 0 <= j < k => parse(argv[FirstParam + j]))
  }

  /** A known filter with enough parameters runs the pipeline on the input
      and output paths with the parsed values in argument order, and `main`
      returns the pipeline's code. */
  lemma RunDispatch<V, H>(lib: Library<V, H>, argv: seq<string>, f: Filter)
    requires |argv| >= MinArgs
    requires Resolve(argv[3]) == Some(f)
    requires |argv| > 3 + Arity(f)
    ensures var run := Execute(lib, argv[1], argv[2], f, Positional(argv, Arity(f), lib.parse));
      Run(lib, argv) == Outcome(run.code, run.trace + [Exit(run.code)])
  {
    var bound := Bind(argv, Arity(f), lib.parse);
    var values := Positional(argv, Arity(f), lib.parse);
    assert forall j :: 0 <= j < Arity(f) ==> bound.value[j] == values[j];
    assert bound.value == values;
  }

  /** `compressor` with six values: the compressor is called on the loaded
      sound with the library defaults overwritten, field by field in the
      order pregain, threshold, knee, ratio, attack, release, by the six
      parsed values; the other fields keep their defaults. */
  lemma RunCompressor<V, H>(lib: Library<V, H>, argv: seq<string>)
    requires |argv| > 9 && argv[3] == "compressor"
    requires lib.load(argv[1]).Some?
    ensures var r := Run(lib, argv);
      var s1 := lib.load(argv[1]).value;
      var p := lib.parse;
      var q := CompressorAdapter.Params(p(argv[4]), p(argv[5]), p(argv[6]), p(argv[7]), p(argv[8]), p(argv[9]),
                                 lib.defaults.others);
      && |r.trace| > 1
      && r.trace[1] == Apply(Compressor, s1, [p(argv[4]), p(argv[5]), p(argv[6]), p(argv[7]), p(argv[8]), p(argv[9])],
                             lib.compress(s1, q))
  {
    ResolveExact(argv[3], Compressor);
    RunDispatch(lib, argv, Compressor);
    var values := Positional(argv, 6, lib.parse);
    ExecuteApplyStage(lib, argv[1], argv[2], Compressor, values);
  }

  /** Arguments after the filter's last parameter are ignored. */
  lemma RunIgnoresExtras<V, H>(lib: Library<V, H>, argv: seq<string>, f: Filter)
    requires |argv| >= MinArgs
    requires Resolve(argv[3]) == Some(f)
    requires |argv| > 3 + Arity(f)
    ensures Run(lib, argv) == Run(lib, argv[..FirstParam + Arity(f)])
  {
    var short := argv[..FirstParam + Arity(f)];
    assert short[1] == argv[1] && short[2] == argv[2] && short[3] == argv[3];
    BindIgnoresExtras(argv, Arity(f), lib.parse);
    assert short[..FirstParam + Arity(f)] == short;
  }

  /** On every path, when every filter returns a new sound: each sound
      handle is created at most once and freed exactly as often as it is
      created, and never used or freed when not owned; no load, filter or
      save call follows a failure; and the exit code is 0 exactly when no
      diagnostic was written, with exactly one diagnostic otherwise. */
  lemma RunOwnership<V(!new), H(!new)>(lib: Library<V, H>, argv: seq<string>)
    requires FreshResults(lib)
    ensures var r := Run(lib, argv);
      && LeakFree(r.trace)
      && (forall h :: Creations(r.trace, h) == Frees(r.trace, h) <= 1)
      && HaltsAfterFailure(r.trace)
      && (r.code == 0 <==> Diagnostics(r.trace) == [])
      && (r.code == 1 ==> |Diagnostics(r.trace)| == 1)
  {
    var r := Run(lib, argv);
    var t := r.trace;
    var n := |t| - 1;
    assert t == t[..n] + [Exit(r.code)];
    ExitAppended(t[..n], r.code);
    if t[0].Load? {
      var f := Resolve(argv[3]).value;
      var values := Bind(argv, Arity(f), lib.parse).value;
      assert t[..n] == Execute(lib, argv[1], argv[2], f, values).trace;
      ExecuteLeakFree(lib, argv[1], argv[2], f, values);
      ExecuteExitCode(lib, argv[1], argv[2], f, values);
      ExecuteHaltsAfterFailure(lib, argv[1], argv[2], f, values);
    } else {
      RefusedOwnership(lib, argv);
      forall h
        ensures Frees(t[..n], h) == 0
      {
        FreesNone(t[..n], h);
      }
    }
    LeakFreeBalanced(t);
  }

  /** The paths that stop before loading: help, bad filter, bad arguments. */
  lemma RefusedOwnership<V, H>(lib: Library<V, H>, argv: seq<string>)
    requires !Run(lib, argv).trace[0].Load?
    ensures var r := Run(lib, argv);
      var body := r.trace[..|r.trace| - 1];
      && NoSoundWork(body)
      && LeakFree(body)
      && HaltsAfterFailure(body)
      && (r.code == 0 <==> Diagnostics(body) == [])
      && (r.code == 1 ==> |Diagnostics(body)| == 1)
  {
    var r := Run(lib, argv);
    var body := r.trace[..|r.trace| - 1];
    NoSoundWorkReplay(body);
    if r.code == 0 {
      DiagnosticsNone(body);
    } else {
      var m := |body| - 1;
      assert body == body[..m] + [body[m]];
      DiagnosticsLast(body[..m], body[m].error);
    }
  }
  /** A trace without sound work leaves the owned set alone. */
  lemma {:induction false} NoSoundWorkReplay<V, H>(t: seq<Event<V, H>>)
    requires NoSoundWork(t)
    ensures Replay(t, multiset{}) == Some(multiset{})
    decreases |t|
  {
    if |t| > 0 {
      NoSoundWorkReplay(t[1..]);
    }
  }
}
