/** Positional binding of the numeric filter parameters (`getargs`).

    The process arguments are `argv`, with `argc == |argv|`: `argv[0]` is the
    program, `argv[1]` the input path, `argv[2]` the output path, `argv[3]`
    the filter name, and the numeric parameters start at `argv[4]`. Value
    slot `j` (counting from zero) reads `argv[4 + j]` through `parse`, the
    model of the C library's `atof`, which never fails. */
module Arguments {
  import opened Options

  /** The index of the first numeric parameter in `argv`. */
  const FirstParam: nat := 4

  /** The most slots `getargs` can fill (its six out-pointers). */
  const MaxSlots: nat := 6

  /** Binds value slots `from .. k-1`, checking each slot's position against
      `argc` before converting it, as `getargs` does one slot at a time. */
  function BindFrom<V>(argv: seq<string>, from: nat, k: nat, parse: string -> V): (r: Option<seq<V>>)
    requires from <= k
    ensures r.Some? <==> |argv| >= FirstParam + k || from == k
    ensures r.Some? ==> |r.value| == k - from
    ensures r.Some? ==>
      forall j :: 0 <= j < k - from ==> r.value[j] == parse(argv[FirstParam + from + j])
    decreases k - from
  {
    if from == k then Some([])
    else if |argv| <= FirstParam + from then None
    else
      var rest := BindFrom(argv, from + 1, k, parse);
      if rest.None? then None
      else Some([parse(argv[FirstParam + from])] + rest.value)
  }

  /** `getargs` asked for its first `k` slots (the source always requests a
      prefix of v1..v6): the `k` parsed values, or `None` when `argc` is too
      small, which the caller reports as "Bad arguments". Binding `k > 0`
      values succeeds exactly when `argc > 3 + k`, and value `j` is then the
      parse of `argv[4 + j]`. */
  function Bind<V>(argv: seq<string>, k: nat, parse: string -> V): (r: Option<seq<V>>)
    requires k <= MaxSlots
    ensures k > 0 ==> (r.Some? <==> |argv| > 3 + k)
    ensures r.Some? ==> |r.value| == k
    ensures r.Some? ==> forall j :: 0 <= j < k ==> r.value[j] == parse(argv[FirstParam + j])
  {
    BindFrom(argv, 0, k, parse)
  }

  /** Arguments after the last requested one never change the result: the
      binding of `argv` equals the binding of its first `4 + k` entries. */
  lemma {:induction false} BindIgnoresExtras<V>(argv: seq<string>, k: nat, parse: string -> V)
    requires k <= MaxSlots
    requires |argv| >= FirstParam + k
    ensures Bind(argv, k, parse) == Bind(argv[..FirstParam + k], k, parse)
  {
    BindFromIgnoresExtras(argv, 0, k, parse);
  }

  lemma {:induction false} BindFromIgnoresExtras<V>(argv: seq<string>, from: nat, k: nat, parse: string -> V)
    requires from <= k
    requires |argv| >= FirstParam + k
    ensures BindFrom(argv, from, k, parse) == BindFrom(argv[..FirstParam + k], from, k, parse)
    decreases k - from
  {
    if from < k {
      BindFromIgnoresExtras(argv, from + 1, k, parse);
      assert argv[..FirstParam + k][FirstParam + from] == argv[FirstParam + from];
    }
  }
}
