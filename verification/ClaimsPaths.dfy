/** Claims path pointers (section 7 of OpenID4VP 1.0) and the locations of a document that they select. */
module ClaimsPaths {
  import opened Json

  /** A member name, an array position, or `null` for every element of an array. */
  datatype Component = Name(name: string) | Position(index: nat) | Every

  type Pointer = seq<Component>

  predicate Selects(c: Component, seg: Seg) {
    match c
    case Name(n) => seg == Key(n)
    case Position(i) => seg == Index(i)
    case Every => seg.Index?
  }

  /** The pointer selects this location of the document. */
  predicate SelectsAt(document: Json, pointer: Pointer, location: Path)
    decreases |pointer|
  {
    && |pointer| == |location|
    && (pointer != [] ==>
          && Selects(pointer[0], location[0])
          && Child(document, location[0]).Some?
          && SelectsAt(Child(document, location[0]).value, pointer[1..], location[1..]))
  }
}
