/** The node structure of cJSON.h. */
module Nodes {
  import opened Bytes

  datatype Kind = Invalid | False | True | Null | Number | String | Array | Object | Raw

  /** `kind`, `isReference` and `nameIsConst` are the three parts of the type field. */
  class Node {
    var next: Node?
    var prev: Node?
    var child: Node?
    var kind: Kind
    var isReference: bool
    var nameIsConst: bool
    var valuestring: array?<byte>
    var valueint: int
    var valuedouble: real
    var name: array?<byte>

    /** A block cleared by memset. */
    constructor ()
      ensures next == null && prev == null && child == null && valuestring == null && name == null
      ensures kind == Invalid && !isReference && !nameIsConst && valueint == 0 && valuedouble == 0.0
    {
      next, prev, child, valuestring, name := null, null, null, null, null;
      kind, isReference, nameIsConst, valueint, valuedouble := Invalid, false, false, 0, 0.0;
    }
  }
}
