/** Vocabulary shared by the models of the manager's components. */
module Common {

  datatype Option<+T> = None | Some(value: T)

}
