/**
 * The document tree produced by the wiki parser. The parser library is not
 * part of this model; this datatype is an ASSUMED layout that has the
 * variants the predicates match on, each owning the child lists that the
 * predicates and the tree walk descend into. Positions, attributes and
 * other bookkeeping fields the predicates never read are left out.
 */
module Parser {

  /** Kinds of inline formatting. */
  datatype MarkupType =
    | NoWiki | Bold | Italic | Math | StrikeThrough | Underline | Code
    | Blockquote | Preformatted

  datatype Element =
    | Paragraph(content: seq<Element>)
    | Text(text: string)
    | Formatted(markup: MarkupType, content: seq<Element>)
    | Template(name: seq<Element>, content: seq<Element>)
    | TemplateArgument(argumentName: string, value: seq<Element>)
    | ExternalReference(url: string, caption: seq<Element>)
    | InternalReference(target: seq<Element>, options: seq<ReferenceOption>, caption: seq<Element>)
    | Comment(text: string)
    | HtmlTag(tagName: string, content: seq<Element>)
    | ListItem(depth: nat, content: seq<Element>)
    | List(content: seq<Element>)
    | Table(caption: seq<Element>, rows: seq<Element>)
    | TableRow(cells: seq<Element>)
    | TableCell(content: seq<Element>)
    | Gallery(content: seq<Element>)
    | Error(message: string)
      /** Any other variant (a heading, the document root, ...): the ones
          the predicates' catch-all arms reject. */
    | Other(variant: string, content: seq<Element>)

  /** One `|`-separated option of an internal reference (a file's size, alignment, ...). */
  datatype ReferenceOption = ReferenceOption(content: seq<Element>)

  /** The element lists of a reference's options, in order. */
  function OptionContents(options: seq<ReferenceOption>): (r: seq<seq<Element>>)
    ensures |r| == |options|
    ensures forall i :: 0 <= i < |options| ==> r[i] == options[i].content
  {
    seq(|options|, i requires 0 <= i < |options| => options[i].content)
  }

  /** The child lists of an element, in document order. */
  function Children(e: Element): seq<seq<Element>>
  {
    match e
    case Paragraph(c) => [c]
    case Text(_) => []
    case Formatted(_, c) => [c]
    case Template(n, c) => [n, c]
    case TemplateArgument(_, v) => [v]
    case ExternalReference(_, c) => [c]
    case InternalReference(t, o, c) => [t] + OptionContents(o) + [c]
    case Comment(_) => []
    case HtmlTag(_, c) => [c]
    case ListItem(_, c) => [c]
    case List(c) => [c]
    case Table(c, r) => [c, r]
    case TableRow(c) => [c]
    case TableCell(c) => [c]
    case Gallery(c) => [c]
    case Error(_) => []
    case Other(_, c) => [c]
  }
}
