/** The observable behaviour of one run of the driver, as a sequence of
    events, and an ownership checker for sound handles that is defined
    independently of the driver.

    `H` is the type of sound handles (`sf_snd`); `V` the type of parsed
    numeric values. */
module Trace {
  import opened Options
  import opened Filters

  /** The kind of the single diagnostic line written to stderr. */
  datatype Error =
    | BadFilter(name: string)       // unknown filter name
    | BadArguments(filter: string)  // too few numeric parameters
    | LoadFailed(input: string)     // `sf_wavload` returned NULL
    | ApplyFailed                   // the filter returned NULL
    | SaveFailed(output: string)    // `sf_wavsave` returned false

  datatype Event<V, H(==)> =
    | Usage                                   // help text, on stdout
    | Diag(error: Error)                      // one error line, on stderr
    | Load(input: string, loaded: Option<H>)
    | Apply(filter: Filter, source: H, params: seq<V>, result: Option<H>)
    | Save(sound: H, output: string, saved: bool)
    | Free(sound: H)                          // `sf_snd_free`
    | Exit(code: int)                         // value returned by `main`
  {
    /** A call into the sound library (load, filter or save). */
    predicate IsStage() { Load? || Apply? || Save? }

    /** A stage call that reported failure. */
    predicate IsFailedStage() {
      (Load? && loaded.None?) || (Apply? && result.None?) || (Save? && !saved)
    }

    /** The handle this event hands to the caller, who must free it. */
    function Acquired(): Option<H> {
      match this
      case Load(_, r) => r
      case Apply(_, _, _, r) => r
      case _ => None
    }
  }

  /** One step of the ownership checker: `live` holds the handles owned and
      not yet freed; using or freeing a handle that is not live, or being
      handed a handle that is already live, is a violation (`None`). */
  function Step<V, H(==)>(e: Event<V, H>, live: multiset<H>): Option<multiset<H>>
  {
    match e
    case Load(_, r) => if Fresh(live, r) then Some(Acquire(live, r)) else None
    case Apply(_, h, _, r) => if h in live && Fresh(live, r) then Some(Acquire(live, r)) else None
    case Save(h, _, _) => if h in live then Some(live) else None
    case Free(h) => if h in live then Some(live - multiset{h}) else None
    case _ => Some(live)
  }

  /** A handle handed out is not one the caller already owns. */
  predicate Fresh<H(==)>(live: multiset<H>, r: Option<H>)
  {
    r.Some? ==> r.value !in live
  }

  function Acquire<H(==)>(live: multiset<H>, r: Option<H>): multiset<H>
  {
    if r.Some? then live + multiset{r.value} else live
  }

  /** Runs the ownership checker over a whole trace. */
  function Replay<V, H(==)>(t: seq<Event<V, H>>, live: multiset<H>): Option<multiset<H>>
    decreases |t|
  {
    if |t| == 0 then Some(live)
    else
      var next := Step(t[0], live);
      if next.None? then None else Replay(t[1..], next.value)
  }

  /** No use or free of a handle that is not owned, no handle handed out
      while it is still owned, and nothing owned at the end: every handle
      created is freed, and none is freed twice. */
  predicate LeakFree<V, H(==)>(t: seq<Event<V, H>>)
  {
    Replay(t, multiset{}) == Some(multiset{})
  }

  /** How many times a trace hands out / frees the handle `h`. */
  function Creations<V, H(==)>(t: seq<Event<V, H>>, h: H): nat
    decreases |t|
  {
    if |t| == 0 then 0
    else (if t[0].Acquired() == Some(h) then 1 else 0) + Creations(t[1..], h)
  }

  function Frees<V, H(==)>(t: seq<Event<V, H>>, h: H): nat
    decreases |t|
  {
    if |t| == 0 then 0
    else (if t[0] == Free(h) then 1 else 0) + Frees(t[1..], h)
  }

  /** No load, filter or save call follows a failed stage. */
  predicate HaltsAfterFailure<V, H(==)>(t: seq<Event<V, H>>)
  {
    forall i, j :: 0 <= i < j < |t| && t[i].IsFailedStage() ==> !t[j].IsStage()
  }

  /** The diagnostics a trace writes to stderr, in order. */
  function Diagnostics<V, H(==)>(t: seq<Event<V, H>>): (d: seq<Error>)
    ensures |d| <= |t|
    decreases |t|
  {
    if |t| == 0 then []
    else if t[0].Diag? then [t[0].error] + Diagnostics(t[1..])
    else Diagnostics(t[1..])
  }

  /** The replay keeps an exact account of every handle: what was owned at
      the start plus what was created equals what is owned at the end plus
      what was freed. */
  lemma {:induction false} ReplayBalance<V, H>(t: seq<Event<V, H>>, live: multiset<H>, h: H)
    requires Replay(t, live).Some?
    ensures live[h] + Creations(t, h) == Replay(t, live).value[h] + Frees(t, h)
    decreases |t|
  {
    if |t| > 0 {
      var next := Step(t[0], live).value;
      ReplayBalance(t[1..], next, h);
    }
  }

  /** A leak-free trace frees every handle exactly as many times as it
      creates it. */
  lemma LeakFreeBalanced<V, H>(t: seq<Event<V, H>>)
    requires LeakFree(t)
    ensures forall h :: Creations(t, h) == Frees(t, h)
  {
    forall h
      ensures Creations(t, h) == Frees(t, h)
    {
      ReplayBalance(t, multiset{}, h);
    }
  }

  /** Replaying a concatenation replays the first part, then the second
      from where the first left off. */
  lemma {:induction false} ReplayConcat<V, H>(a: seq<Event<V, H>>, b: seq<Event<V, H>>, live: multiset<H>)
    ensures Replay(a + b, live) ==
      (if Replay(a, live).None? then None else Replay(b, Replay(a, live).value))
    decreases |a|
  {
    if |a| > 0 {
      assert (a + b)[0] == a[0];
      assert (a + b)[1..] == a[1..] + b;
      var next := Step(a[0], live);
      if next.Some? {
        ReplayConcat(a[1..], b, next.value);
      }
    } else {
      assert a + b == b;
    }
  }

  lemma {:induction false} DiagnosticsConcat<V, H>(a: seq<Event<V, H>>, b: seq<Event<V, H>>)
    ensures Diagnostics(a + b) == Diagnostics(a) + Diagnostics(b)
    decreases |a|
  {
    if |a| > 0 {
      assert (a + b)[0] == a[0];
      assert (a + b)[1..] == a[1..] + b;
      DiagnosticsConcat(a[1..], b);
    } else {
      assert a + b == b;
    }
  }

  /** A trace without diagnostic events writes nothing to stderr. */
  lemma {:induction false} DiagnosticsNone<V, H>(t: seq<Event<V, H>>)
    requires forall i :: 0 <= i < |t| ==> !t[i].Diag?
    ensures Diagnostics(t) == []
    decreases |t|
  {
    if |t| > 0 {
      DiagnosticsNone(t[1..]);
    }
  }

  lemma {:induction false} FreesConcat<V, H>(a: seq<Event<V, H>>, b: seq<Event<V, H>>, h: H)
    ensures Frees(a + b, h) == Frees(a, h) + Frees(b, h)
    decreases |a|
  {
    if |a| > 0 {
      assert (a + b)[0] == a[0];
      assert (a + b)[1..] == a[1..] + b;
      FreesConcat(a[1..], b, h);
    } else {
      assert a + b == b;
    }
  }

  /** A trace whose only diagnostic is its last event writes exactly that
      one diagnostic. */
  lemma DiagnosticsLast<V, H>(body: seq<Event<V, H>>, e: Error)
    requires forall i :: 0 <= i < |body| ==> !body[i].Diag?
    ensures Diagnostics(body + [Diag(e)]) == [e]
  {
    DiagnosticsNone(body);
    DiagnosticsConcat(body, [Diag(e)]);
    var last: seq<Event<V, H>> := [Diag(e)];
    assert last[1..] == [];
    assert Diagnostics(last) == [e] + Diagnostics(last[1..]);
  }

  lemma FreesSingle<V, H>(e: Event<V, H>, h: H)
    ensures Frees([e], h) == if e == Free(h) then 1 else 0
  {
    assert [e][1..] == [];
  }

  /** A trace without `Free` events frees nothing. */
  lemma {:induction false} FreesNone<V, H>(t: seq<Event<V, H>>, h: H)
    requires forall i :: 0 <= i < |t| ==> !t[i].Free?
    ensures Frees(t, h) == 0
    decreases |t|
  {
    if |t| > 0 {
      FreesNone(t[1..], h);
    }
  }

  /** One position of `Frees`, counted from the front of a suffix. */
  lemma FreesStep<V, H>(t: seq<Event<V, H>>, i: nat, h: H)
    requires i < |t|
    ensures Frees(t[i..], h) == (if t[i] == Free(h) then 1 else 0) + Frees(t[i + 1..], h)
  {
    assert t[i..][1..] == t[i + 1..];
  }

  /** Appending the process exit changes nothing the checkers look at. */
  lemma ExitAppended<V, H>(t: seq<Event<V, H>>, code: int)
    ensures LeakFree(t) ==> LeakFree(t + [Exit(code)])
    ensures HaltsAfterFailure(t) ==> HaltsAfterFailure(t + [Exit(code)])
    ensures Diagnostics(t + [Exit(code)]) == Diagnostics(t)
    ensures forall h :: Frees(t + [Exit(code)], h) == Frees(t, h)
    ensures forall h :: Creations(t + [Exit(code)], h) == Creations(t, h)
  {
    var e: seq<Event<V, H>> := [Exit(code)];
    var none: multiset<H> := multiset{};
    assert e[1..] == [];
    ReplayConcat(t, e, none);
    assert Replay(e, none) == Replay(e[1..], none);
    DiagnosticsConcat(t, e);
    DiagnosticsNone(e);
    forall h
      ensures Frees(t + e, h) == Frees(t, h)
      ensures Creations(t + e, h) == Creations(t, h)
    {
      FreesConcat(t, e, h);
      FreesSingle(e[0], h);
      CreationsAppendExit(t, code, h);
    }
  }

  lemma {:induction false} CreationsAppendExit<V, H>(t: seq<Event<V, H>>, code: int, h: H)
    ensures Creations(t + [Exit(code)], h) == Creations(t, h)
    decreases |t|
  {
    if |t| == 0 {
      var e: seq<Event<V, H>> := [Exit(code)];
      assert t + e == e && e[1..] == [];
    } else {
      assert (t + [Exit(code)])[1..] == t[1..] + [Exit(code)];
      CreationsAppendExit(t[1..], code, h);
    }
  }
}
