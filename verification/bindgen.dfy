/**
 * bindgen's `Builder`, seen only through the configuration calls it
 * receives. Code generation itself is not part of this model.
 */
module Bindgen {

  /** The six filtering methods of `Builder` that header descriptors drive. */
  datatype Operation =
    | WhitelistFunction | WhitelistType | WhitelistVar
    | BlacklistFunction | BlacklistType | BlacklistItem

  /** One configuration call received by a builder. */
  datatype Call =
    | HeaderContents(file: string, contents: string)
    | Op(op: Operation, name: string)
    | ClangArg(arg: string)

  /**
   * A builder, as the calls it has received, oldest first. Each builder
   * method consumes the builder and returns it with one more call recorded.
   */
  datatype Builder = Builder(calls: seq<Call>)
  {
    /** `Builder::header_contents(file, contents)` */
    function WithHeaderContents(file: string, contents: string): Builder {
      Builder(calls + [HeaderContents(file, contents)])
    }

    /** One of the six filtering methods, given the item name. */
    function With(op: Operation, name: string): Builder {
      Builder(calls + [Op(op, name)])
    }

    /** `Builder::clang_arg(arg)` */
    function WithClangArg(arg: string): Builder {
      Builder(calls + [ClangArg(arg)])
    }
  }

  /** `Builder::default()`, also what `bindgen::builder()` returns: no calls yet. */
  const Default: Builder := Builder([])
}
