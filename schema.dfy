/**
 * The template document of models/Template.js: an ordered sequence of typed
 * blocks, each with a free-form `content` and a string-to-string `style` map,
 * a required name and owner, and a favourite flag that defaults to false.
 */
module Schema {
  import opened Wrappers

  /** Identifier of a stored document (a MongoDB ObjectId, taken abstractly). */
  type Id = nat

  /**
   * A JSON value held in a block's `content` (a Mixed path): a string, or an
   * object with named members.
   */
  datatype Value = Text(s: string) | Record(fields: map<string, Value>)

  /** Property access `v.name`: a string has none of the members used here. */
  function Member(v: Value, name: string): (r: Option<Value>)
    ensures r.Some? <==> v.Record? && name in v.fields
    ensures r.Some? ==> r.value == v.fields[name]
  {
    match v
    case Text(_) => None
    case Record(fields) => if name in fields then Some(fields[name]) else None
  }

  /** The block types the schema's `enum` admits. */
  datatype BlockType = Heading | Paragraph | MemberCard | Button | Image

  /** The string stored in a block's `type` for each block type. */
  function Tag(t: BlockType): string
  {
    match t
    case Heading => "heading"
    case Paragraph => "paragraph"
    case MemberCard => "member-card"
    case Button => "button"
    case Image => "image"
  }

  /** Reads a stored `type` string; `None` for anything outside the enum. */
  function ParseType(tag: string): (r: Option<BlockType>)
    ensures forall t :: r == Some(t) <==> tag == Tag(t)
  {
    if tag == "heading" then Some(Heading)
    else if tag == "paragraph" then Some(Paragraph)
    else if tag == "member-card" then Some(MemberCard)
    else if tag == "button" then Some(Button)
    else if tag == "image" then Some(Image)
    else None
  }

  /** A block as stored: `type`, `content` and the `style` map. */
  datatype Block = Block(kind: string, content: Value, style: map<string, string>)

  /** A block as a request body supplies it: `content` and `style` may be missing. */
  datatype BlockInput = BlockInput(kind: string, content: Option<Value>, style: Option<map<string, string>>)

  /** The block validators: `type` is required and in the enum, `content` is required. */
  predicate ValidBlock(b: BlockInput)
  {
    ParseType(b.kind).Some? && b.content.Some?
  }

  /** The block as it is saved: a missing `style` takes its default, the empty map. */
  function StoreBlock(b: BlockInput): (r: Block)
    requires ValidBlock(b)
    ensures ParseType(r.kind).Some?
    ensures r.kind == b.kind && r.content == b.content.value
    ensures b.style.None? ==> r.style == map[]
    ensures b.style.Some? ==> r.style == b.style.value
  {
    Block(b.kind, b.content.value, if b.style.Some? then b.style.value else map[])
  }

  /**
   * Casts and validates a request's block array: fails when any block fails
   * validation, and otherwise stores each block in order.
   */
  function CastBlocks(bs: seq<BlockInput>): (r: Option<seq<Block>>)
    ensures r.Some? <==> forall i :: 0 <= i < |bs| ==> ValidBlock(bs[i])
    ensures r.Some? ==> |r.value| == |bs|
    ensures r.Some? ==> forall i :: 0 <= i < |bs| ==> r.value[i] == StoreBlock(bs[i])
    ensures r.Some? ==> Typed(r.value)
  {
    if bs == [] then Some([])
    else if !ValidBlock(bs[0]) then None
    else
      var rest := CastBlocks(bs[1..]);
      if rest.None? then
        assert !forall i :: 0 <= i < |bs[1..]| ==> ValidBlock(bs[1..][i]);
        None
      else Some([StoreBlock(bs[0])] + rest.value)
  }

  /** A template document: `name`, owner `user`, `content` blocks and `isFavorite`. */
  datatype Template = Template(name: string, owner: Id, content: seq<Block>, isFavorite: bool)

  /** Every block has a type in the enum. */
  predicate Typed(blocks: seq<Block>)
  {
    forall i :: 0 <= i < |blocks| ==> ParseType(blocks[i].kind).Some?
  }

  /** What validation guarantees of every saved template. */
  predicate WellFormed(t: Template)
  {
    t.name != "" && Typed(t.content)
  }

  /**
   * Builds and validates a new template document. `name` is required (the
   * empty string stands for a missing one, which `required` rejects alike),
   * every block must validate, and a missing `isFavorite` defaults to false.
   */
  function NewTemplate(name: string, owner: Id, blocks: seq<BlockInput>, isFavorite: Option<bool>): (r: Option<Template>)
    ensures r.Some? <==> name != "" && forall i :: 0 <= i < |blocks| ==> ValidBlock(blocks[i])
    ensures r.Some? ==> WellFormed(r.value)
    ensures r.Some? ==> r.value.name == name && r.value.owner == owner
    ensures r.Some? ==> r.value.isFavorite == (isFavorite == Some(true))
    ensures r.Some? ==> |r.value.content| == |blocks| &&
                        forall i :: 0 <= i < |blocks| ==> r.value.content[i] == StoreBlock(blocks[i])
  {
    var cast := CastBlocks(blocks);
    if name == "" || cast.None? then None
    else Some(Template(name, owner, cast.value, isFavorite.GetOr(false)))
  }
}
