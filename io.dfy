/**
 * The filesystem and network steps the bot performs, seen from outside:
 * each step either completes or fails with the error text the operating
 * system (or the messaging client) reports. The model never performs a
 * step; it receives the outcome as an input and records the attempt.
 */
module Io {

  /** The outcome of one I/O step. */
  datatype IoResult = Done | Failed(reason: string)

  /** One attempted filesystem step, in the order the bot attempts them. */
  datatype FsOp =
    | MkdirAll(path: string)
    | Chdir(path: string)
    | Download(dest: string)
    | Rename(from: string, to: string)
}
