/** The filter registry of the command-line driver: the nine filter names the
    dispatch in `main` recognises and the number of numeric parameters each
    one takes. */
module Filters {
  import opened Options

  datatype Filter =
    | Lowpass | Highpass | Bandpass | Notch | Peaking
    | Allpass | Lowshelf | Highshelf | Compressor

  /** The exact command-line name of each filter. */
  function Name(f: Filter): string
  {
    match f
    case Lowpass => "lowpass"
    case Highpass => "highpass"
    case Bandpass => "bandpass"
    case Notch => "notch"
    case Peaking => "peaking"
    case Allpass => "allpass"
    case Lowshelf => "lowshelf"
    case Highshelf => "highshelf"
    case Compressor => "compressor"
  }

  /** How many numeric parameters the filter consumes: the biquads that take
      a frequency and a Q take two, the gain-bearing biquads take three, and
      the compressor takes six. */
  function Arity(f: Filter): (n: nat)
    ensures n == 2 || n == 3 || n == 6
    ensures n == 6 <==> f == Compressor
    ensures n == 3 <==> f in {Peaking, Lowshelf, Highshelf}
  {
    match f
    case Lowpass | Highpass | Bandpass | Notch | Allpass => 2
    case Peaking | Lowshelf | Highshelf => 3
    case Compressor => 6
  }

  /** Resolves a command-line filter name by the same chain of exact string
      comparisons `main` makes, in the same order; `None` is the "Bad filter"
      path. */
  function Resolve(name: string): (r: Option<Filter>)
    ensures r.Some? ==> Name(r.value) == name
    ensures r.None? ==> forall f :: Name(f) != name
  {
    if name == "lowpass" then Some(Lowpass)
    else if name == "highpass" then Some(Highpass)
    else if name == "bandpass" then Some(Bandpass)
    else if name == "notch" then Some(Notch)
    else if name == "peaking" then Some(Peaking)
    else if name == "allpass" then Some(Allpass)
    else if name == "lowshelf" then Some(Lowshelf)
    else if name == "highshelf" then Some(Highshelf)
    else if name == "compressor" then Some(Compressor)
    else None
  }

  /** Resolution is exact: a name resolves to a filter iff it is that
      filter's name, so no two filters share a name and nothing else (no
      prefix, no other case) resolves. */
  lemma ResolveExact(name: string, f: Filter)
    ensures Resolve(name) == Some(f) <==> name == Name(f)
  {
    if name == Name(f) {
      NameInjective(Resolve(name).value, f);
    }
  }

  /** Distinct filters have distinct names. */
  lemma NameInjective(f: Filter, g: Filter)
    ensures Name(f) == Name(g) ==> f == g
  {
  }

  /** The set of accepted names is exactly the nine listed in the help text. */
  lemma ResolveTotal(name: string)
    ensures Resolve(name).Some? <==>
      name in {"lowpass", "highpass", "bandpass", "notch", "peaking",
               "allpass", "lowshelf", "highshelf", "compressor"}
  {
  }
}
