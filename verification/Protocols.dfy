/** The two kinds of vault the agent works with. */
module Protocols {

  datatype Protocol = Morpho | Yo
}
