/** Option: the absent value. In this model `None` also stands for a JavaScript
    number that is not a finite real (NaN or an infinity), which is what the
    source produces when it parses a non-number or divides by zero. */
module Wrappers {
  datatype Option<+T> = None | Some(value: T)
}
