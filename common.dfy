/** Values the Python code represents with `None`. */
module Common {

  datatype Option<+T> = None | Some(value: T)

  /** How a Python f-string renders an optional string: `None` prints as "None". */
  function ShowOptional(o: Option<string>): string
  {
    match o
    case None => "None"
    case Some(s) => s
  }
}
