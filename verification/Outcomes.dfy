/** Results shared by the models. A raised error of the source is `None`. */
module Outcomes {

  datatype Option<+T> = None | Some(value: T)
}
