/** The Some/None datatype used wherever the programs have an absent file, variable or result. */
module Options {

  datatype Option<+T> = None | Some(value: T)
}
