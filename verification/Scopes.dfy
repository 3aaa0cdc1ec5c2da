/** The scope record of a partition (cdp/partition.py:273-289), as the cut makes it and the scheduler orders it. */
module Scopes {
  datatype Scope = Scope(node: string, moduleName: string, files: seq<string>, fileCount: nat, loc: nat, oversized: bool)
}
