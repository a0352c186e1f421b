/** The values a pydantic model dump holds, and a dump itself: field name to
    value. A request object whose attributes the operations set in place is a
    class over such a dump. */
module FieldValues {

  datatype Value =
    | VNone
    | VBool(b: bool)
    | VInt(i: int)
    | VFloat(f: real)
    | VStr(s: string)
    | VBytes(bytes: seq<bv8>)
    | VList(items: seq<Value>)
    | VDict(entries: map<string, Value>)
    | VObject(className: string)

  type Fields = map<string, Value>

  /** A request object (synapse) whose attributes are set in place with setattr. */
  class SynapseObject {
    var fields: Fields

    constructor (initial: Fields)
      ensures fields == initial
    {
      fields := initial;
    }

    /** setattr(self, name, value). */
    method SetAttr(name: string, value: Value)
      modifies this
      ensures fields == old(fields)[name := value]
    {
      fields := fields[name := value];
    }
  }
}
