/** JSON values, claim paths into them, and the names SD-JWT reserves. */
module Json {
  import opened Basics

  /** An object is the sequence of its members in enumeration order. */
  datatype Json =
    | Null
    | Bool(b: bool)
    | Num(n: int)
    | Str(s: string)
    | Arr(items: seq<Json>)
    | Obj(members: seq<Member>)

  datatype Member = Member(key: string, value: Json)

  datatype Seg = Key(name: string) | Index(at: nat)

  type Path = seq<Seg>

  /** A claim path of type metadata: member names, or `null` for every element of an array. */
  type ClaimPath = seq<Option<string>>

  predicate HasKey(members: seq<Member>, key: string) {
    exists i :: 0 <= i < |members| && members[i].key == key
  }

  /** A child of an array or object, with the segment that selects it. */
  datatype Cell = Cell(seg: Seg, value: Json)

  function Cells(j: Json): (cells: seq<Cell>)
    ensures forall i :: 0 <= i < |cells| ==> cells[i].value < j
    ensures j.Arr? ==> |cells| == |j.items| && forall i :: 0 <= i < |cells| ==> cells[i] == Cell(Index(i), j.items[i])
    ensures j.Obj? ==> |cells| == |j.members| &&
                       forall i :: 0 <= i < |cells| ==> cells[i] == Cell(Key(j.members[i].key), j.members[i].value)
  {
    match j
    case Arr(items) => seq(|items|, i requires 0 <= i < |items| => Cell(Index(i), items[i]))
    case Obj(members) => seq(|members|, i requires 0 <= i < |members| => Cell(Key(members[i].key), members[i].value))
    case _ => []
  }

  function Find(cells: seq<Cell>, seg: Seg): (r: Option<Json>)
    ensures r.Some? <==> exists i :: 0 <= i < |cells| && cells[i].seg == seg
    ensures r.Some? ==> exists i :: 0 <= i < |cells| && cells[i] == Cell(seg, r.value)
  {
    if cells == [] then None
    else if cells[|cells| - 1].seg == seg then
      assert cells[|cells| - 1] == Cell(seg, cells[|cells| - 1].value);
      Some(cells[|cells| - 1].value)
    else Find(cells[..|cells| - 1], seg)
  }

  /** The member or element that a segment selects. */
  function Child(j: Json, seg: Seg): Option<Json> {
    Find(Cells(j), seg)
  }

  /** The value a path selects. */
  function At(j: Json, path: Path): Option<Json> {
    if path == [] then Some(j)
    else match Child(j, path[0])
         case None => None
         case Some(v) => At(v, path[1..])
  }

  ghost predicate DistinctSegs(cells: seq<Cell>) {
    forall i, j :: 0 <= i < j < |cells| ==> cells[i].seg != cells[j].seg
  }

  /** Every object has each key once, as objects of the language do. */
  ghost predicate Proper(j: Json) {
    DistinctSegs(Cells(j)) && forall i :: 0 <= i < |Cells(j)| ==> Proper(Cells(j)[i].value)
  }

  lemma FindAt(cells: seq<Cell>, i: nat)
    requires DistinctSegs(cells) && i < |cells|
    ensures Find(cells, cells[i].seg) == Some(cells[i].value)
  {
  }

  const SD_DIGEST := "_sd"
  const SD_LIST_KEY := "..."
  const SD_DECOY := "_sd_decoy"
  const SD_ALG := "_sd_alg"

  predicate IsReserved(name: string) {
    name == SD_DIGEST || name == SD_ALG || name == SD_DECOY || name == SD_LIST_KEY
  }

  /** No object at any depth has a reserved member name. */
  predicate Clean(j: Json) {
    forall i :: 0 <= i < |Cells(j)| ==>
        !(Cells(j)[i].seg.Key? && IsReserved(Cells(j)[i].seg.name)) && Clean(Cells(j)[i].value)
  }

  function SegName(seg: Seg): Option<string> {
    if seg.Key? then Some(seg.name) else None
  }
}
