/**
 * The `if / else if / else if` chain that picks the one handler a selected
 * key gets in a pass: accept before read before write.
 */
module Dispatch {

  /** The ready-operation set of a selection key (OP_ACCEPT, OP_READ, OP_WRITE). */
  datatype ReadyOps = ReadyOps(acceptable: bool, readable: bool, writable: bool)

  datatype Branch = AcceptBranch | ReadBranch | WriteBranch | NoBranch

  /** The first test of isAcceptable, isReadable, isWritable that holds decides the handler. */
  function Choose(ops: ReadyOps): (b: Branch)
    ensures b == AcceptBranch <==> ops.acceptable
    ensures b == ReadBranch <==> !ops.acceptable && ops.readable
    ensures b == WriteBranch <==> !ops.acceptable && !ops.readable && ops.writable
    ensures b == NoBranch <==> !ops.acceptable && !ops.readable && !ops.writable
  {
    if ops.acceptable then AcceptBranch
    else if ops.readable then ReadBranch
    else if ops.writable then WriteBranch
    else NoBranch
  }
}
