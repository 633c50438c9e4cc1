/**
 * The in-memory form of a template specification (the utility library's
 * `spec_meta`), as far as the predicates and the two documentation
 * renderers read it. The executable predicate an attribute is bound to is
 * not part of this model; only its descriptive name is.
 */
module SpecMeta {
  import opened Strings

  /** The content-shape class of a template. */
  datatype Format = Inline | Block | Meta

  /** Whether an attribute must, may or should no longer be given. */
  datatype Priority = Required | Optional | Obsolete

  datatype Attribute = Attribute(
    defaultName: string,
    names: seq<string>,
    priority: Priority,
    predicateName: string,
    description: string)

  datatype TemplateSpec = TemplateSpec(
    defaultName: string,
    names: seq<string>,
    format: Format,
    description: string,
    attributes: seq<Attribute>)

  /**
   * The registry's invariant on a template: its default name is one of its
   * names. The renderers do not check it; the lemmas that need it require it.
   */
  predicate NamesIncludeDefault(template: TemplateSpec)
  {
    template.defaultName in template.names
  }

  /** `format!("{:?}", format)`: the variant's name. */
  function FormatName(f: Format): string
  {
    match f
    case Inline => "Inline"
    case Block => "Block"
    case Meta => "Meta"
  }

  /** `format!("{:?}", priority)`: the variant's name. */
  function PriorityName(p: Priority): string
  {
    match p
    case Required => "Required"
    case Optional => "Optional"
    case Obsolete => "Obsolete"
  }

  /** The lower-cased debug names the Markdown renderer prints. */
  lemma LowerNames()
    ensures Lower(FormatName(Inline)) == "inline"
    ensures Lower(FormatName(Block)) == "block"
    ensures Lower(FormatName(Meta)) == "meta"
    ensures Lower(PriorityName(Required)) == "required"
    ensures Lower(PriorityName(Optional)) == "optional"
    ensures Lower(PriorityName(Obsolete)) == "obsolete"
  {
  }
}
