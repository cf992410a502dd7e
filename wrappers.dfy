/** The optional value used for absent form fields, absent sessions and
    failed parses (JavaScript's `null`, `undefined` and `NaN`). */
module Wrappers {

  datatype Option<+T> = None | Some(value: T)

}
