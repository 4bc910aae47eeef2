/** The load -> apply -> save pipeline that the driver writes three times
    (`filter2`, `filter3`, `filter6`), here written once over a parameter
    sequence whose length is the filter's arity.

    The sound library is not part of this model: its calls are the fields of
    a `Library` value, so every property below holds whatever the library
    returns, except the ownership lemmas, which assume `FreshResults` (each
    filter returns a new sound). */
module Pipeline {
  import opened Options
  import opened Filters
  import CompressorAdapter
  import opened Trace

  /** The foreign collaborators the driver calls. */
  datatype Library<!V, !H> = Library(
    parse: string -> V,                       // `atof`
    load: string -> Option<H>,                // `sf_wavload`; None is NULL
    biquad: (Filter, H, seq<V>) -> Option<H>, // `sf_lowpass` .. `sf_highshelf`
    compress: (H, CompressorAdapter.Params<V>) -> Option<H>, // `sf_compressor`
    defaults: CompressorAdapter.Params<V>,           // `sf_compressor_defaults`
    save: (H, string) -> bool)                // `sf_wavsave`

  /** Exit code of `main` and everything the run did, in order. */
  datatype Outcome<V, H> = Outcome(code: int, trace: seq<Event<V, H>>)

  /** The filter call of the pipeline: the biquads are called with their
      values directly, the compressor through `compdefault`. */
  function ApplyFilter<V, H>(lib: Library<V, H>, f: Filter, h: H, values: seq<V>): (r: Option<H>)
    requires |values| == Arity(f)
    ensures f != Compressor ==> r == lib.biquad(f, h, values)
    ensures f == Compressor ==>
      r == lib.compress(h, CompressorAdapter.Params(values[0], values[1], values[2],
                                             values[3], values[4], values[5],
                                             lib.defaults.others))
  {
    if f == Compressor then
      var q := CompressorAdapter.Override(lib.defaults, values);
      lib.compress(h, q)
    else lib.biquad(f, h, values)
  }

  /** The sound library's promise that every filter returns a new sound,
      never the one it was given: `main` frees the input right after the
      filter call and then saves and frees the result. */
  ghost predicate FreshResults<V(!new), H(!new)>(lib: Library<V, H>)
  {
    forall f, h, values :: |values| == Arity(f) ==> ApplyFilter(lib, f, h, values) != Some(h)
  }

  /** `filter2` / `filter3` / `filter6`: load the input, apply the filter,
      free the input, save the result, free the result. The first failing
      stage writes its diagnostic and ends the run with code 1. */
  function Execute<V, H(==)>(lib: Library<V, H>, input: string, output: string,
                             f: Filter, values: seq<V>): (r: Outcome<V, H>)
    requires |values| == Arity(f)
    ensures r.code == 0 || r.code == 1
    ensures |r.trace| > 0 && r.trace[0] == Load(input, lib.load(input))
    ensures forall i :: 0 < i < |r.trace| ==> !r.trace[i].Load? && !r.trace[i].Usage?
  {
    var loaded := lib.load(input);
    if loaded.None? then
      Outcome(1, [Load(input, loaded), Diag(LoadFailed(input))])
    else
      var s1 := loaded.value;
      var filtered := ApplyFilter(lib, f, s1, values);
      var applied := [Load(input, loaded), Apply(f, s1, values, filtered), Free(s1)];
      if filtered.None? then
        Outcome(1, applied + [Diag(ApplyFailed)])
      else
        var s2 := filtered.value;
        var saved := lib.save(s2, output);
        var stored := applied + [Save(s2, output, saved), Free(s2)];
        if !saved then Outcome(1, stored + [Diag(SaveFailed(output))])
        else Outcome(0, stored)
  }

  /** The trace of a failed load owns nothing at any point. */
  lemma LoadFailedLeakFree<V, H>(input: string)
    ensures LeakFree<V, H>([Load(input, None), Diag(LoadFailed(input))])
  {
    var t: seq<Event<V, H>> := [Load(input, None), Diag(LoadFailed(input))];
    var none: multiset<H> := multiset{};
    assert Replay(t, none) == Replay(t[1..], none);
    assert Replay(t[1..], none) == Replay(t[2..], none);
    assert t[2..] == [];
  }

  /** Load, apply, free of the input leaves nothing owned but the filtered
      sound, if the filter produced one. */
  lemma AppliedReplay<V, H>(input: string, f: Filter, s1: H, values: seq<V>, filtered: Option<H>)
    requires filtered != Some(s1)
    ensures Replay<V, H>([Load(input, Some(s1)), Apply(f, s1, values, filtered), Free(s1)], multiset{})
         == Some(Acquire(multiset{}, filtered))
  {
    var t: seq<Event<V, H>> := [Load(input, Some(s1)), Apply(f, s1, values, filtered), Free(s1)];
    var none: multiset<H> := multiset{};
    var one := multiset{s1};
    var after := Acquire(one, filtered);
    assert none + one == one;
    assert Replay(t, none) == Replay(t[1..], one);
    assert Replay(t[1..], one) == Replay(t[2..], after);
    assert after - one == Acquire(none, filtered);
    assert Replay(t[2..], after) == Replay(t[3..], Acquire(none, filtered));
    assert t[3..] == [];
  }

  /** Save, free of the output, then at most one diagnostic: consumes the
      one owned handle. */
  lemma SavedReplay<V, H>(s2: H, output: string, saved: bool, tail: seq<Event<V, H>>)
    requires tail == [] || tail == [Diag(SaveFailed(output))]
    ensures Replay([Save(s2, output, saved), Free(s2)] + tail, multiset{s2}) == Some(multiset{})
  {
    var t := [Save(s2, output, saved), Free(s2)] + tail;
    var one := multiset{s2};
    var none: multiset<H> := multiset{};
    assert Replay(t, one) == Replay(t[1..], one);
    assert Replay(t[1..], one) == Replay(t[2..], none);
    assert t[2..] == tail;
    if tail != [] {
      assert Replay(tail, none) == Replay(tail[1..], none);
      assert tail[1..] == [];
    }
  }

  /** When every filter returns a new sound: on all four exits (load failed,
      filter failed, save failed, success) no handle is used or freed when
      not owned, and every handle the pipeline creates is created once and
      freed exactly once. */
  lemma ExecuteLeakFree<V(!new), H(!new)>(lib: Library<V, H>, input: string, output: string,
                              f: Filter, values: seq<V>)
    requires |values| == Arity(f)
    requires FreshResults(lib)
    ensures LeakFree(Execute(lib, input, output, f, values).trace)
    ensures forall h :: Creations(Execute(lib, input, output, f, values).trace, h)
                     == Frees(Execute(lib, input, output, f, values).trace, h) <= 1
  {
    var t := Execute(lib, input, output, f, values).trace;
    var loaded := lib.load(input);
    if loaded.None? {
      LoadFailedLeakFree<V, H>(input);
    } else {
      var s1 := loaded.value;
      var filtered := ApplyFilter(lib, f, s1, values);
      var applied: seq<Event<V, H>> := [Load(input, loaded), Apply(f, s1, values, filtered), Free(s1)];
      AppliedReplay(input, f, s1, values, filtered);
      ReplayConcat(applied, t[3..], multiset{});
      assert t == applied + t[3..];
      if filtered.None? {
        assert t[3..] == [Diag(ApplyFailed)];
        assert Replay(t[3..], multiset{}) == Replay(t[4..], multiset{});
        assert t[4..] == [];
      } else {
        var s2 := filtered.value;
        var saved := lib.save(s2, output);
        var tail: seq<Event<V, H>> := if saved then [] else [Diag(SaveFailed(output))];
        assert t[3..] == [Save(s2, output, saved), Free(s2)] + tail;
        assert Acquire(multiset{}, filtered) == multiset{s2};
        SavedReplay(s2, output, saved, tail);
      }
    }
    LeakFreeBalanced(t);
    ExecuteFreedOnce(lib, input, output, f, values);
  }

  /** When every filter returns a new sound, no handle is freed twice. */
  lemma ExecuteFreedOnce<V(!new), H(!new)>(lib: Library<V, H>, input: string, output: string,
                               f: Filter, values: seq<V>)
    requires |values| == Arity(f)
    requires FreshResults(lib)
    ensures forall h :: Frees(Execute(lib, input, output, f, values).trace, h) <= 1
  {
    var t := Execute(lib, input, output, f, values).trace;
    if lib.load(input).None? {
      ExecuteLoadFailure(lib, input, output, f, values);
      forall h
        ensures Frees(t, h) <= 1
      {
        FreesNone(t, h);
      }
    } else if ApplyFilter(lib, f, lib.load(input).value, values).None? {
      ExecuteApplyStage(lib, input, output, f, values);
    } else {
      ExecuteSaveStage(lib, input, output, f, values);
    }
  }

  /** Without the library's promise the driver is unsafe: a filter that
      hands back its own input makes `main` save a sound it has just freed
      and free it a second time, and the ownership checker rejects the run. */
  lemma ExecuteReturnedInput<V, H>(lib: Library<V, H>, input: string, output: string,
                                   f: Filter, values: seq<V>)
    requires |values| == Arity(f)
    requires lib.load(input).Some?
    requires ApplyFilter(lib, f, lib.load(input).value, values) == lib.load(input)
    ensures var t := Execute(lib, input, output, f, values).trace;
      var s1 := lib.load(input).value;
      && t[2] == Free(s1)
      && t[3] == Save(s1, output, lib.save(s1, output))
      && Frees(t, s1) == 2
      && !LeakFree(t)
  {
    var t := Execute(lib, input, output, f, values).trace;
    var s1 := lib.load(input).value;
    ExecuteSaveStage(lib, input, output, f, values);
    var none: multiset<H> := multiset{};
    assert t[0] == Load(input, Some(s1));
    assert none + multiset{s1} == multiset{s1};
    assert Step(t[0], none) == Some(multiset{s1});
    assert Step(t[1], multiset{s1}).None?;
    assert Replay(t, none) == Replay(t[1..], multiset{s1});
  }

  /** The exit code is 0 exactly when no diagnostic was written, and a
      failing run writes exactly one, as its last event. */
  lemma ExecuteExitCode<V, H>(lib: Library<V, H>, input: string, output: string,
                              f: Filter, values: seq<V>)
    requires |values| == Arity(f)
    ensures var r := Execute(lib, input, output, f, values);
      && (r.code == 0 <==> Diagnostics(r.trace) == [])
      && (r.code == 1 ==> r.trace[|r.trace| - 1].Diag? &&
                          Diagnostics(r.trace) == [r.trace[|r.trace| - 1].error])
  {
    var r := Execute(lib, input, output, f, values);
    var t := r.trace;
    if r.code == 0 {
      DiagnosticsNone(t);
    } else {
      var n := |t| - 1;
      assert t == t[..n] + [t[n]];
      DiagnosticsLast(t[..n], t[n].error);
    }
  }

  /** A failed load ends the run with code 1: no filter, no save, and no
      free of a sound that was never created. */
  lemma ExecuteLoadFailure<V, H>(lib: Library<V, H>, input: string, output: string,
                                 f: Filter, values: seq<V>)
    requires |values| == Arity(f)
    requires lib.load(input).None?
    ensures var r := Execute(lib, input, output, f, values);
      && r.code == 1
      && Diagnostics(r.trace) == [LoadFailed(input)]
      && forall i :: 0 <= i < |r.trace| ==> !r.trace[i].Apply? && !r.trace[i].Save? && !r.trace[i].Free?
  {
    ExecuteExitCode(lib, input, output, f, values);
  }

  /** Once the filter returns, the very next thing done is freeing the input
      sound, whether or not the filter succeeded. A failed filter ends the
      run with code 1 without saving, having freed the input once and
      nothing else. */
  lemma ExecuteApplyStage<V, H>(lib: Library<V, H>, input: string, output: string,
                                f: Filter, values: seq<V>)
    requires |values| == Arity(f)
    requires lib.load(input).Some?
    ensures var r := Execute(lib, input, output, f, values);
      var s1 := lib.load(input).value;
      && |r.trace| >= 4
      && r.trace[1] == Apply(f, s1, values, ApplyFilter(lib, f, s1, values))
      && r.trace[2] == Free(s1)
      && (ApplyFilter(lib, f, s1, values).None? ==>
            && r.code == 1
            && Diagnostics(r.trace) == [ApplyFailed]
            && (forall h :: Frees(r.trace, h) == if h == s1 then 1 else 0)
            && forall i :: 0 <= i < |r.trace| ==> !r.trace[i].Save?)
  {
    var r := Execute(lib, input, output, f, values);
    var s1 := lib.load(input).value;
    var filtered := ApplyFilter(lib, f, s1, values);
    if filtered.None? {
      ExecuteExitCode(lib, input, output, f, values);
      var t := r.trace;
      assert |t| == 4 && !t[0].Free? && !t[1].Free? && t[2] == Free(s1) && !t[3].Free?;
      forall h
        ensures Frees(t, h) == if h == s1 then 1 else 0
      {
        FreesOfRefused(t, h);
      }
    }
  }

  /** After a successful filter the output sound is saved and then, whatever
      the save returned, freed at once; the code is 1 exactly when the save
      failed. The input and the output have each been freed exactly once. */
  lemma ExecuteSaveStage<V, H>(lib: Library<V, H>, input: string, output: string,
                               f: Filter, values: seq<V>)
    requires |values| == Arity(f)
    requires lib.load(input).Some?
    requires ApplyFilter(lib, f, lib.load(input).value, values).Some?
    ensures var r := Execute(lib, input, output, f, values);
      var s1 := lib.load(input).value;
      var s2 := ApplyFilter(lib, f, s1, values).value;
      && |r.trace| >= 5
      && r.trace[3] == Save(s2, output, lib.save(s2, output))
      && r.trace[4] == Free(s2)
      && (r.code == 1 <==> !lib.save(s2, output))
      && (r.code == 1 ==> Diagnostics(r.trace) == [SaveFailed(output)])
      && forall h :: Frees(r.trace, h) == (if h == s1 then 1 else 0) + (if h == s2 then 1 else 0)
  {
    var r := Execute(lib, input, output, f, values);
    ExecuteExitCode(lib, input, output, f, values);
    var t := r.trace;
    assert 5 <= |t| <= 6 && !t[0].Free? && !t[1].Free? && t[2].Free? && !t[3].Free? && t[4].Free?;
    assert |t| == 6 ==> !t[5].Free?;
    forall h
      ensures Frees(t, h) == (if h == t[2].sound then 1 else 0) + (if h == t[4].sound then 1 else 0)
    {
      FreesOfStored(t, h);
    }
  }

  /** No load, filter or save call follows a failed stage. */
  lemma ExecuteHaltsAfterFailure<V, H>(lib: Library<V, H>, input: string, output: string,
                                       f: Filter, values: seq<V>)
    requires |values| == Arity(f)
    ensures HaltsAfterFailure(Execute(lib, input, output, f, values).trace)
  {
  }

  /** The frees of a trace that stopped after the filter: only position 2. */
  lemma FreesOfRefused<V, H>(t: seq<Event<V, H>>, h: H)
    requires |t| == 4 && !t[0].Free? && !t[1].Free? && t[2].Free? && !t[3].Free?
    ensures Frees(t, h) == if h == t[2].sound then 1 else 0
  {
    FreesStep(t, 0, h);
    FreesStep(t, 1, h);
    FreesStep(t, 2, h);
    FreesStep(t, 3, h);
    assert t[0..] == t && t[4..] == [];
  }

  /** The frees of a trace that reached the save: positions 2 and 4. */
  lemma FreesOfStored<V, H>(t: seq<Event<V, H>>, h: H)
    requires 5 <= |t| <= 6
    requires !t[0].Free? && !t[1].Free? && t[2].Free? && !t[3].Free? && t[4].Free?
    requires |t| == 6 ==> !t[5].Free?
    ensures Frees(t, h) == (if h == t[2].sound then 1 else 0) + (if h == t[4].sound then 1 else 0)
  {
    FreesStep(t, 0, h);
    FreesStep(t, 1, h);
    FreesStep(t, 2, h);
    FreesStep(t, 3, h);
    FreesStep(t, 4, h);
    if |t| == 6 {
      FreesStep(t, 5, h);
      assert t[6..] == [];
    } else {
      assert t[5..] == [];
    }
    assert t[0..] == t;
  }
}
