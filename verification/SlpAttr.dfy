/** Attributes, as the attribute-list parser and the filter parser build them. */
module SlpAttr {

  /** The arms of the attribute value, with the type tag that selects them. */
  datatype AttrValue =
    | StringVal(text: string)
    | IntegerVal(num: int)
    | BooleanVal(flag: int)
    | OpaqueVal
    | TagVal

  datatype Attr = Attr(name: string, value: AttrValue)

  /** A name pointer, which is null until the parser has seen the name. */
  datatype Name = NoName | Named(text: string)

  /** What an attribute node holds. */
  datatype Entry = Entry(name: Name, value: AttrValue)

  /** The value of a C `int` read through an `unsigned int` pointer. */
  function Unsigned(n: int): (u: int)
    ensures 0 <= u < 0x1_0000_0000 && (u - n) % 0x1_0000_0000 == 0
    ensures 0 <= n < 0x1_0000_0000 ==> u == n
    ensures -0x1_0000_0000 <= n < 0 ==> u == n + 0x1_0000_0000
  {
    n % 0x1_0000_0000
  }
}
