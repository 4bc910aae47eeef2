/** The Some/None datatype used wherever the C driver works with a pointer
    that may be NULL (a loaded sound, a filtered sound, a registry hit) or a
    step that may fail (binding the parameters). */
module Options {

  datatype Option<+T> = None | Some(value: T)
}
