/** The kinds of declaration a filter can name (`function`, `item`, `type` in a descriptor). */
module Items {

  /** `Item` denotes a global variable or any other item. */
  datatype Item = Function | Item | Type
}
