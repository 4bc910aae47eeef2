/** The compressor adapter `compdefault`: start from the library's default
    compressor parameters and overwrite six fields, in order, from the six
    command-line values. The library's parameter record has further fields
    (defined in a header that is not part of this model); they are carried
    as `others` and keep their defaults. */
module CompressorAdapter {

  datatype Params<V> = Params(
    pregain: V, threshold: V, knee: V, ratio: V, attack: V, release: V,
    others: seq<V>)

  /** The six user-settable fields, in the order the help text lists them. */
  function UserFields<V>(p: Params<V>): (s: seq<V>)
    ensures |s| == 6
  {
    [p.pregain, p.threshold, p.knee, p.ratio, p.attack, p.release]
  }

  /** `compdefault`'s record: the defaults, then six positional overwrites. */
  function Override<V>(defaults: Params<V>, values: seq<V>): (p: Params<V>)
    requires |values| == 6
    ensures UserFields(p) == values
    ensures p.others == defaults.others
  {
    defaults
      .(pregain := values[0])
      .(threshold := values[1])
      .(knee := values[2])
      .(ratio := values[3])
      .(attack := values[4])
      .(release := values[5])
  }

  /** No default of the six user fields survives: two different default
      records give the same user fields. */
  lemma OverrideIgnoresDefaults<V>(d1: Params<V>, d2: Params<V>, values: seq<V>)
    requires |values| == 6
    ensures UserFields(Override(d1, values)) == UserFields(Override(d2, values))
    ensures d1.others == d2.others ==> Override(d1, values) == Override(d2, values)
  {
  }

  /** Overriding with a record's own user fields gives that record back. */
  lemma OverrideRoundTrip<V>(p: Params<V>)
    ensures Override(p, UserFields(p)) == p
  {
  }
}
