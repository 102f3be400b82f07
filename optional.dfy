/** A nullable value: Python's `Optional[str]`, where `None` stands for null. */
module Optional {

  datatype Option<+T> = None | Some(value: T)

}
