/** The errors the dependency core produces or passes on. */
module Errors {

  datatype Error =
    /** An error produced by a collaborator outside the model (controllers, hooks, hashing). */
    | External(msg: string)
    /** `errors.Wrap(cause, msg)`: the message prefixed to its cause. */
    | Wrapped(msg: string, cause: Error)
    /** A graph lookup of an ID that is not registered. */
    | NodeNotFound(id: string)
    /** A removal of a node that still has children. */
    | StillHasChildren(id: string)
    /** The cycle that an insertion would close: the parent, then the path child -> ... -> parent. */
    | Cyclic(path: seq<string>)

  /** The IDs of `ids`, one per line. */
  function JoinLines(ids: seq<string>): string
  {
    if |ids| == 0 then ""
    else if |ids| == 1 then ids[0]
    else ids[0] + "\n" + JoinLines(ids[1..])
  }

  /** The text `Error()` gives for an error. */
  function Text(e: Error): string
  {
    match e
    case External(msg) => msg
    case Wrapped(msg, cause) => msg + ": " + Text(cause)
    case NodeNotFound(id) => "node " + id + " does not exist"
    case StillHasChildren(id) => "cannot remove " + id + " from graph because it still has children"
    case Cyclic(path) => "Cyclic dependency found: \n" + JoinLines(path)
  }
}
