/** The closed set of field types a schema is built from. */
module Types {

  datatype Type = INT_TYPE | STRING_TYPE

  /** Maximum number of characters a string field holds. */
  const STRING_LEN: nat := 128

  /** Serialized width in bytes of a field of type `t` (Type.getLen). */
  function Len(t: Type): (n: nat)
    ensures n > 0
  {
    match t
    case INT_TYPE => 4
    case STRING_TYPE => STRING_LEN + 4
  }
}
