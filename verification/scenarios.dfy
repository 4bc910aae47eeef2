/** Two concrete invocations, with a stub library whose sounds are
    numbered and whose `atof` knows the literals used. */
module Scenarios {
  import opened Options
  import opened Filters
  import CompressorAdapter
  import opened Trace
  import opened Pipeline
  import opened Driver

  function Atof(s: string): real
  {
    if s == "1000" then 1000.0 else if s == "0.5" then 0.5
    else if s == "1" then 1.0 else 0.0
  }

  const Defaults: CompressorAdapter.Params<real> :=
    CompressorAdapter.Params(0.0, -24.0, 30.0, 12.0, 0.003, 0.25, [0.0, 1.0])

  /** A library where "in.wav" loads as sound 1, a biquad on sound `h`
      yields sound `h + 1`, the compressor yields sound `h + 2`, and every
      save succeeds. */
  const Stub: Library<real, int> := Library(
    Atof,
    (p: string) => if p == "in.wav" then Some(1) else None,
    (f: Filter, h: int, v: seq<real>) => Some(h + 1),
    (h: int, q: CompressorAdapter.Params<real>) => Some(h + 2),
    Defaults,
    (h: int, p: string) => true)

  /** `prog in.wav out.wav lowpass 1000 0.5`: one load, one filter call with
      (1000, 0.5), one save of the result, both sounds freed once, exit 0. */
  lemma LowpassScenario()
    ensures Run(Stub, ["prog", "in.wav", "out.wav", "lowpass", "1000", "0.5"])
         == Outcome(0, [Load("in.wav", Some(1)), Apply(Lowpass, 1, [1000.0, 0.5], Some(2)),
                        Free(1), Save(2, "out.wav", true), Free(2), Exit(0)])
  {
    var argv := ["prog", "in.wav", "out.wav", "lowpass", "1000", "0.5"];
    ResolveExact("lowpass", Lowpass);
    RunDispatch(Stub, argv, Lowpass);
    assert Positional(argv, 2, Atof) == [1000.0, 0.5];
  }

  /** The stub keeps the sound library's promise, so every run with it is
      leak-free and frees each sound at most once. */
  lemma StubOwnership(argv: seq<string>)
    ensures FreshResults(Stub)
    ensures LeakFree(Run(Stub, argv).trace)
    ensures forall h :: Frees(Run(Stub, argv).trace, h) <= 1
  {
    assert FreshResults(Stub) by {
      forall f, h, values | |values| == Arity(f)
        ensures ApplyFilter(Stub, f, h, values) != Some(h)
      {
        var r := ApplyFilter(Stub, f, h, values);
        assert r == Some(h + 1) || r == Some(h + 2);
      }
    }
    RunOwnership(Stub, argv);
  }

  /** `prog a b peaking 1000 1`: two of three values, so one "Bad arguments"
      diagnostic naming the filter, exit 1, and no sound loaded, filtered,
      saved or freed. */
  lemma PeakingMissingScenario()
    ensures Run(Stub, ["prog", "a", "b", "peaking", "1000", "1"]).code == 1
    ensures !Run(Stub, ["prog", "a", "b", "peaking", "1000", "1"]).trace[0].Load?
    ensures NoSoundWork(Run(Stub, ["prog", "a", "b", "peaking", "1000", "1"]).trace)
    ensures Diagnostics(Run(Stub, ["prog", "a", "b", "peaking", "1000", "1"]).trace)
         == [BadArguments("peaking")]
  {
    ResolveExact("peaking", Peaking);
    RunBadArguments(Stub, ["prog", "a", "b", "peaking", "1000", "1"], Peaking);
  }
}
