/** The optional value used for absent record fields and failed matches. */
module Optional {

  datatype Option<+T> = None | Some(value: T)
}
