/** The part of the machine that a setup run touches: Keychain items, files and directories, image tags. */
module World {
  import opened Text
  import opened JsonMerge
  import MB = ManagedBlock

  type Path = seq<string>

  /** A regular file holds text, as it was written, or bytes that are not UTF-8. */
  datatype Node = File(text: string, mode: nat) | Binary(mode: nat) | Dir | Link | Other

  type Files = map<Path, Node>

  datatype Item = Item(service: string, account: string)

  datatype World = World(keychain: map<Item, string>, files: Files, images: map<string, string>)

  /** How JSON text is read and written; the text syntax itself is a parameter of the model. */
  datatype Codec = Codec(parse: string -> Option<Json>, render: Fields -> string)

  predicate Blank(t: string) {
    forall i :: 0 <= i < |t| ==> MB.IsSpace(t[i])
  }

  /** Some line of the text begins with the character that begins every marker line. */
  predicate HashLine(t: string) {
    exists i :: 0 <= i < |Split(t)| && "#" <= Split(t)[i]
  }

  /** What the proofs use of the JSON text syntax: what is written is read back, a newline at the end and
      blank text mean what they mean to a JSON parser, no JSON text has a line that begins with '#', and none that is
      written holds a carriage return. */
  ghost predicate Lawful(codec: Codec) {
    (forall o: Fields :: codec.parse(codec.render(o)) == Some(Object(o))) &&
    (forall t: string :: codec.parse(t + "\n") == codec.parse(t)) &&
    (forall t: string :: Blank(t) ==> codec.parse(t) == None) &&
    (forall t: string :: HashLine(t) ==> codec.parse(t) == None) &&
    (forall o: Fields :: '\r' !in codec.render(o))
  }

  /** The object in a file that is read as JSON; a blank file reads as an empty object. */
  function RootOf(codec: Codec, text: string): Option<Fields> {
    if Blank(text) then Some(map[]) else ParsedObject(codec, text)
  }

  function ParsedObject(codec: Codec, text: string): Option<Fields> {
    match codec.parse(text)
    case Some(Object(o)) => Some(o)
    case _ => None
  }

  // ---- files and directories ----

  /** The directories above a path. */
  function Above(p: Path): set<Path> {
    set k | 0 <= k < |p| :: p[..k]
  }

  predicate CanPlace(fs: Files, p: Path) {
    forall q :: q in Above(p) && q in fs ==> fs[q] == Dir
  }

  function WithParents(fs: Files, p: Path): (r: Files)
    ensures r.Keys == fs.Keys + Above(p)
  {
    map q | q in fs.Keys + Above(p) :: if q in fs then fs[q] else Dir
  }

  /** Puts a node at a path, making the missing directories above it. */
  function Place(fs: Files, p: Path, n: Node): Files {
    WithParents(fs, p)[p := n]
  }

  /** The mode of a file that a run creates. */
  const PRIVATE_MODE: nat := 384

  function ModeOf(mode: Option<nat>): nat {
    if mode.Some? then mode.value else PRIVATE_MODE
  }

  /** The text of a file as it is read: every line end is one newline. */
  function TextOf(n: Node): string
    requires n.File?
  {
    Translate(n.text)
  }

  datatype Reading = Unreadable | Undecodable | Content(text: string, existed: bool, mode: Option<nat>)

  /** Reads a regular file; a missing one reads as empty text, bytes that are not UTF-8 do not decode, and anything
      else is refused. */
  function ReadRegular(fs: Files, p: Path): Reading {
    if p !in fs then Content("", false, None)
    else match fs[p]
      case File(_, m) => Content(TextOf(fs[p]), true, Some(m))
      case Binary(_) => Undecodable
      case _ => Unreadable
  }

  predicate EmptyDir(fs: Files, p: Path) {
    p in fs && fs[p] == Dir && forall q :: q in fs ==> p !in Above(q)
  }

  /** Deletes an item; the tool succeeds only when the item was there. */
  function Deleted(k: map<Item, string>, item: Item, works: bool): (map<Item, string>, bool) {
    if item in k && works then (k - {item}, true) else (k, false)
  }
}
