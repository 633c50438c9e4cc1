/**
 * The helpers the predicates take from the wiki-parser utility library:
 * the predicate result type, the variant name of an element, the plain
 * text of a list of elements, and the `always` quantifier that lifts a
 * one-level check to a whole tree. That library is not part of this model;
 * `VariantName`, `ExtractPlainText` and `Always` below are ASSUMED
 * definitions.
 */
module Utils {
  import opened Wrappers
  import opened Parser

  /** A failed predicate: the element blamed, if any, and the reason. */
  datatype PredError = PredError(tree: Option<Element>, cause: string)

  type PredResult = Result<(), PredError>

  /** A passing predicate result carries nothing: it is `Ok(())`. */
  lemma PassIsUnit(r: PredResult)
    requires r.Ok?
    ensures r == Ok(())
  {
    var u := r.value;
    assert u == ();
  }

  /** The first element of a list, as `elems.first()`. */
  function First(es: seq<Element>): (r: Option<Element>)
    ensures r.Some? <==> |es| > 0
    ensures r.Some? ==> r.value == es[0]
  {
    if |es| == 0 then None else Some(es[0])
  }

  /** ASSUMED: `get_variant_name` gives the name of the element's variant. */
  function VariantName(e: Element): string
  {
    match e
    case Paragraph(_) => "Paragraph"
    case Text(_) => "Text"
    case Formatted(_, _) => "Formatted"
    case Template(_, _) => "Template"
    case TemplateArgument(_, _) => "TemplateArgument"
    case ExternalReference(_, _) => "ExternalReference"
    case InternalReference(_, _, _) => "InternalReference"
    case Comment(_) => "Comment"
    case HtmlTag(_, _) => "HtmlTag"
    case ListItem(_, _) => "ListItem"
    case List(_) => "List"
    case Table(_, _) => "Table"
    case TableRow(_) => "TableRow"
    case TableCell(_) => "TableCell"
    case Gallery(_) => "Gallery"
    case Error(_) => "Error"
    case Other(v, _) => v
  }

  /**
   * ASSUMED: `extract_plain_text` concatenates, in document order, the text
   * of every `Text` element in the tree; comments and parse errors add nothing.
   * A reference's target comes first, then its options, then its caption.
   */
  function ExtractPlainText(es: seq<Element>): string
    decreases es
  {
    if |es| == 0 then "" else ElementText(es[0]) + ExtractPlainText(es[1..])
  }

  function ElementText(e: Element): string
    decreases e
  {
    match e
    case Text(t) => t
    case Comment(_) => ""
    case Error(_) => ""
    case Template(n, c) => ExtractPlainText(n) + ExtractPlainText(c)
    case InternalReference(t, o, c) => ExtractPlainText(t) + OptionsText(o) + ExtractPlainText(c)
    case Table(c, r) => ExtractPlainText(c) + ExtractPlainText(r)
    case Paragraph(c) => ExtractPlainText(c)
    case Formatted(_, c) => ExtractPlainText(c)
    case TemplateArgument(_, v) => ExtractPlainText(v)
    case ExternalReference(_, c) => ExtractPlainText(c)
    case HtmlTag(_, c) => ExtractPlainText(c)
    case ListItem(_, c) => ExtractPlainText(c)
    case List(c) => ExtractPlainText(c)
    case TableRow(c) => ExtractPlainText(c)
    case TableCell(c) => ExtractPlainText(c)
    case Gallery(c) => ExtractPlainText(c)
    case Other(_, c) => ExtractPlainText(c)
  }

  function OptionsText(options: seq<ReferenceOption>): string
    decreases options
  {
    if |options| == 0 then "" else ExtractPlainText(options[0].content) + OptionsText(options[1..])
  }

  /**
   * The result of running `check` over `xs` in order and stopping at the
   * first failure: `Ok` exactly when every check passes, and otherwise the
   * failure of the first item that fails.
   */
  function FirstFailure<T>(xs: seq<T>, check: T -> PredResult): (r: PredResult)
    ensures r.Ok? <==> forall i :: 0 <= i < |xs| ==> check(xs[i]).Ok?
    ensures r.Err? ==> exists i :: 0 <= i < |xs| && r == check(xs[i])
                                   && forall j :: 0 <= j < i ==> check(xs[j]).Ok?
  {
    if |xs| == 0 then Ok(())
    else if check(xs[0]).Err? then check(xs[0])
    else
      var r := FirstFailure(xs[1..], check);
      assert r.Err? ==> exists i :: 0 <= i < |xs| - 1 && r == check(xs[1..][i])
                                    && forall j :: 0 <= j < i ==> check(xs[1..][j]).Ok?;
      assert forall i :: 1 <= i < |xs| ==> xs[i] == xs[1..][i - 1];
      r
  }

  /** The first failing item is the one `FirstFailure` reports. */
  lemma FirstFailureAt<T>(xs: seq<T>, check: T -> PredResult, i: nat)
    requires i < |xs| && check(xs[i]).Err?
    requires forall j :: 0 <= j < i ==> check(xs[j]).Ok?
    ensures FirstFailure(xs, check) == check(xs[i])
  {
  }

  /** Scanning a concatenation scans the first part, then the second. */
  lemma {:induction false} FirstFailureAppend<T>(xs: seq<T>, ys: seq<T>, check: T -> PredResult)
    ensures FirstFailure(xs + ys, check)
            == if FirstFailure(xs, check).Err? then FirstFailure(xs, check) else FirstFailure(ys, check)
  {
    if |xs| > 0 {
      assert (xs + ys)[0] == xs[0];
      assert (xs + ys)[1..] == xs[1..] + ys;
      FirstFailureAppend(xs[1..], ys, check);
    } else {
      assert xs + ys == ys;
    }
  }

  /** The first failure of two results checked one after the other. */
  function AndThen(a: PredResult, b: PredResult): (r: PredResult)
    ensures r.Ok? <==> a.Ok? && b.Ok?
    ensures r.Err? ==> r == if a.Err? then a else b
  {
    if a.Err? then a else b
  }

  /**
   * ASSUMED: `always(elems, shallow)` applies `shallow` to `elems`, then
   * descends into each element in order and applies itself to each of that
   * element's child lists in order, returning the first failure.
   */
  function Always(es: seq<Element>, shallow: seq<Element> -> PredResult): PredResult
    decreases es, 1
  {
    AndThen(shallow(es), AlwaysEach(es, shallow))
  }

  function AlwaysEach(es: seq<Element>, shallow: seq<Element> -> PredResult): PredResult
    decreases es, 0
  {
    if |es| == 0 then Ok(())
    else AndThen(AlwaysElement(es[0], shallow), AlwaysEach(es[1..], shallow))
  }

  function AlwaysElement(e: Element, shallow: seq<Element> -> PredResult): PredResult
    decreases e
  {
    match e
    case Text(_) => Ok(())
    case Comment(_) => Ok(())
    case Error(_) => Ok(())
    case Template(n, c) => AndThen(Always(n, shallow), Always(c, shallow))
    case InternalReference(t, o, c) => AndThen(Always(t, shallow), AndThen(AlwaysOptions(o, shallow), Always(c, shallow)))
    case Table(c, r) => AndThen(Always(c, shallow), Always(r, shallow))
    case Paragraph(c) => Always(c, shallow)
    case Formatted(_, c) => Always(c, shallow)
    case TemplateArgument(_, v) => Always(v, shallow)
    case ExternalReference(_, c) => Always(c, shallow)
    case HtmlTag(_, c) => Always(c, shallow)
    case ListItem(_, c) => Always(c, shallow)
    case List(c) => Always(c, shallow)
    case TableRow(c) => Always(c, shallow)
    case TableCell(c) => Always(c, shallow)
    case Gallery(c) => Always(c, shallow)
    case Other(_, c) => Always(c, shallow)
  }

  function AlwaysOptions(options: seq<ReferenceOption>, shallow: seq<Element> -> PredResult): PredResult
    decreases options
  {
    if |options| == 0 then Ok(())
    else AndThen(Always(options[0].content, shallow), AlwaysOptions(options[1..], shallow))
  }

  /**
   * Every sibling list of the tree rooted at `es`, in the order a depth-first
   * walk meets them: `es` itself first, then the lists below each element.
   */
  function SubLists(es: seq<Element>): (r: seq<seq<Element>>)
    ensures |r| > 0 && r[0] == es
    decreases es, 1
  {
    [es] + SubListsEach(es)
  }

  function SubListsEach(es: seq<Element>): seq<seq<Element>>
    decreases es, 0
  {
    if |es| == 0 then [] else SubListsElement(es[0]) + SubListsEach(es[1..])
  }

  function SubListsElement(e: Element): seq<seq<Element>>
    decreases e
  {
    match e
    case Text(_) => []
    case Comment(_) => []
    case Error(_) => []
    case Template(n, c) => SubLists(n) + SubLists(c)
    case InternalReference(t, o, c) => SubLists(t) + SubListsOptions(o) + SubLists(c)
    case Table(c, r) => SubLists(c) + SubLists(r)
    case Paragraph(c) => SubLists(c)
    case Formatted(_, c) => SubLists(c)
    case TemplateArgument(_, v) => SubLists(v)
    case ExternalReference(_, c) => SubLists(c)
    case HtmlTag(_, c) => SubLists(c)
    case ListItem(_, c) => SubLists(c)
    case List(c) => SubLists(c)
    case TableRow(c) => SubLists(c)
    case TableCell(c) => SubLists(c)
    case Gallery(c) => SubLists(c)
    case Other(_, c) => SubLists(c)
  }

  function SubListsOptions(options: seq<ReferenceOption>): seq<seq<Element>>
    decreases options
  {
    if |options| == 0 then [] else SubLists(options[0].content) + SubListsOptions(options[1..])
  }

  /** `Always` is the first failure of `shallow` over all sibling lists, depth first. */
  lemma {:induction false} AlwaysIsFirstFailure(es: seq<Element>, shallow: seq<Element> -> PredResult)
    ensures Always(es, shallow) == FirstFailure(SubLists(es), shallow)
    decreases es, 2
  {
    AlwaysEachIsFirstFailure(es, shallow);
    FirstFailureAppend([es], SubListsEach(es), shallow);
  }

  lemma {:induction false} AlwaysEachIsFirstFailure(es: seq<Element>, shallow: seq<Element> -> PredResult)
    ensures AlwaysEach(es, shallow) == FirstFailure(SubListsEach(es), shallow)
    decreases es, 1
  {
    if |es| > 0 {
      AlwaysElementIsFirstFailure(es[0], shallow);
      AlwaysEachIsFirstFailure(es[1..], shallow);
      FirstFailureAppend(SubListsElement(es[0]), SubListsEach(es[1..]), shallow);
    }
  }

  lemma {:induction false} AlwaysElementIsFirstFailure(e: Element, shallow: seq<Element> -> PredResult)
    ensures AlwaysElement(e, shallow) == FirstFailure(SubListsElement(e), shallow)
    decreases e, 1
  {
    if e.InternalReference? {
      AlwaysReferenceIsFirstFailure(e, shallow);
    } else if e.Template? || e.Table? {
      AlwaysPairIsFirstFailure(e, shallow);
    } else {
      AlwaysSingleIsFirstFailure(e, shallow);
    }
  }

  /** A reference: its target, each of its options, then its caption. */
  lemma {:induction false} AlwaysReferenceIsFirstFailure(e: Element, shallow: seq<Element> -> PredResult)
    requires e.InternalReference?
    ensures AlwaysElement(e, shallow) == FirstFailure(SubListsElement(e), shallow)
    decreases e, 0
  {
    var t, o, c := e.target, e.options, e.caption;
    var lt, lo, lc := SubLists(t), SubListsOptions(o), SubLists(c);
    assert AlwaysElement(e, shallow) == AndThen(Always(t, shallow), AndThen(AlwaysOptions(o, shallow), Always(c, shallow)));
    assert SubListsElement(e) == lt + lo + lc;
    AlwaysIsFirstFailure(t, shallow);
    AlwaysOptionsIsFirstFailure(o, shallow);
    AlwaysIsFirstFailure(c, shallow);
    FirstFailureAppend(lo, lc, shallow);
    FirstFailureAppend(lt, lo + lc, shallow);
    ListsAssoc(lt, lo, lc);
  }

  lemma ListsAssoc(a: seq<seq<Element>>, b: seq<seq<Element>>, c: seq<seq<Element>>)
    ensures a + b + c == a + (b + c)
  {
  }

  lemma {:induction false} AlwaysOptionsIsFirstFailure(options: seq<ReferenceOption>, shallow: seq<Element> -> PredResult)
    ensures AlwaysOptions(options, shallow) == FirstFailure(SubListsOptions(options), shallow)
    decreases options
  {
    if |options| > 0 {
      AlwaysIsFirstFailure(options[0].content, shallow);
      AlwaysOptionsIsFirstFailure(options[1..], shallow);
      FirstFailureAppend(SubLists(options[0].content), SubListsOptions(options[1..]), shallow);
    }
  }

  /** The elements with two child lists. */
  lemma {:induction false} AlwaysPairIsFirstFailure(e: Element, shallow: seq<Element> -> PredResult)
    requires e.Template? || e.Table?
    ensures AlwaysElement(e, shallow) == FirstFailure(SubListsElement(e), shallow)
    decreases e, 0
  {
    match e
    case Template(n, c) =>
      AlwaysIsFirstFailure(n, shallow); AlwaysIsFirstFailure(c, shallow);
      FirstFailureAppend(SubLists(n), SubLists(c), shallow);
    case Table(c, r) =>
      AlwaysIsFirstFailure(c, shallow); AlwaysIsFirstFailure(r, shallow);
      FirstFailureAppend(SubLists(c), SubLists(r), shallow);
  }

  /** The elements with at most one child list. */
  lemma {:induction false} AlwaysSingleIsFirstFailure(e: Element, shallow: seq<Element> -> PredResult)
    requires !(e.Template? || e.InternalReference? || e.Table?)
    ensures AlwaysElement(e, shallow) == FirstFailure(SubListsElement(e), shallow)
    decreases e, 0
  {
    match e
    case Text(_) =>
    case Comment(_) =>
    case Error(_) =>
    case Paragraph(c) => AlwaysIsFirstFailure(c, shallow);
    case Formatted(_, c) => AlwaysIsFirstFailure(c, shallow);
    case TemplateArgument(_, v) => AlwaysIsFirstFailure(v, shallow);
    case ExternalReference(_, c) => AlwaysIsFirstFailure(c, shallow);
    case HtmlTag(_, c) => AlwaysIsFirstFailure(c, shallow);
    case ListItem(_, c) => AlwaysIsFirstFailure(c, shallow);
    case List(c) => AlwaysIsFirstFailure(c, shallow);
    case TableRow(c) => AlwaysIsFirstFailure(c, shallow);
    case TableCell(c) => AlwaysIsFirstFailure(c, shallow);
    case Gallery(c) => AlwaysIsFirstFailure(c, shallow);
    case Other(_, c) => AlwaysIsFirstFailure(c, shallow);
  }

  /**
   * `Always` succeeds exactly when `shallow` accepts every sibling list of
   * the tree, at every depth; when it fails, it returns the failure of the
   * first rejected list in depth-first order.
   */
  lemma AlwaysSpec(es: seq<Element>, shallow: seq<Element> -> PredResult)
    ensures Always(es, shallow).Ok?
            <==> forall k :: 0 <= k < |SubLists(es)| ==> shallow(SubLists(es)[k]).Ok?
    ensures Always(es, shallow).Err? ==>
              exists k :: 0 <= k < |SubLists(es)| && Always(es, shallow) == shallow(SubLists(es)[k])
                          && forall j :: 0 <= j < k ==> shallow(SubLists(es)[j]).Ok?
  {
    AlwaysIsFirstFailure(es, shallow);
  }

  /**
   * The recursion `Always` performs, stated on the tree: it succeeds exactly
   * when `shallow` accepts `es` and `Always` succeeds on every child list of
   * every element of `es`.
   */
  lemma {:induction false} AlwaysUnfold(es: seq<Element>, shallow: seq<Element> -> PredResult)
    ensures Always(es, shallow).Ok? <==>
              shallow(es).Ok? &&
              forall i, k :: 0 <= i < |es| && 0 <= k < |Children(es[i])| ==> Always(Children(es[i])[k], shallow).Ok?
    ensures shallow(es).Err? ==> Always(es, shallow) == shallow(es)
  {
    AlwaysEachOk(es, shallow);
  }

  lemma {:induction false} AlwaysEachOk(es: seq<Element>, shallow: seq<Element> -> PredResult)
    ensures AlwaysEach(es, shallow).Ok? <==>
              forall i, k :: 0 <= i < |es| && 0 <= k < |Children(es[i])| ==> Always(Children(es[i])[k], shallow).Ok?
  {
    if |es| > 0 {
      AlwaysEachOk(es[1..], shallow);
      assert forall i :: 1 <= i < |es| ==> es[i] == es[1..][i - 1];
      AlwaysElementOk(es[0], shallow);
    }
  }

  lemma AlwaysElementOk(e: Element, shallow: seq<Element> -> PredResult)
    ensures AlwaysElement(e, shallow).Ok? <==>
              forall k :: 0 <= k < |Children(e)| ==> Always(Children(e)[k], shallow).Ok?
  {
    match e
    case Text(_) =>
    case Comment(_) =>
    case Error(_) =>
    case Template(n, c) => assert Children(e) == [n, c] && Children(e)[0] == n && Children(e)[1] == c;
    case InternalReference(_, _, _) => AlwaysReferenceOk(e, shallow);
    case Table(c, r) => assert Children(e) == [c, r] && Children(e)[0] == c && Children(e)[1] == r;
    case Paragraph(c) => assert Children(e) == [c] && Children(e)[0] == c;
    case Formatted(_, c) => assert Children(e) == [c] && Children(e)[0] == c;
    case TemplateArgument(_, v) => assert Children(e) == [v] && Children(e)[0] == v;
    case ExternalReference(_, c) => assert Children(e) == [c] && Children(e)[0] == c;
    case HtmlTag(_, c) => assert Children(e) == [c] && Children(e)[0] == c;
    case ListItem(_, c) => assert Children(e) == [c] && Children(e)[0] == c;
    case List(c) => assert Children(e) == [c] && Children(e)[0] == c;
    case TableRow(c) => assert Children(e) == [c] && Children(e)[0] == c;
    case TableCell(c) => assert Children(e) == [c] && Children(e)[0] == c;
    case Gallery(c) => assert Children(e) == [c] && Children(e)[0] == c;
    case Other(_, c) => assert Children(e) == [c] && Children(e)[0] == c;
  }

  lemma AlwaysReferenceOk(e: Element, shallow: seq<Element> -> PredResult)
    requires e.InternalReference?
    ensures AlwaysElement(e, shallow).Ok? <==>
              forall k :: 0 <= k < |Children(e)| ==> Always(Children(e)[k], shallow).Ok?
  {
    var t, o, c := e.target, e.options, e.caption;
    AlwaysOptionsOk(o, shallow);
    var ch := Children(e);
    assert ch == [t] + OptionContents(o) + [c];
    assert ch[0] == t && ch[|ch| - 1] == c;
    assert forall k :: 1 <= k < |ch| - 1 ==> ch[k] == o[k - 1].content;
    assert AlwaysElement(e, shallow).Ok? <==>
             Always(t, shallow).Ok? && AlwaysOptions(o, shallow).Ok? && Always(c, shallow).Ok?;
    if forall k :: 0 <= k < |ch| ==> Always(ch[k], shallow).Ok? {
      forall k | 0 <= k < |o|
        ensures Always(o[k].content, shallow).Ok?
      {
        assert ch[k + 1] == o[k].content;
      }
    }
  }

  lemma {:induction false} AlwaysOptionsOk(options: seq<ReferenceOption>, shallow: seq<Element> -> PredResult)
    ensures AlwaysOptions(options, shallow).Ok? <==>
              forall k :: 0 <= k < |options| ==> Always(options[k].content, shallow).Ok?
  {
    if |options| > 0 {
      AlwaysOptionsOk(options[1..], shallow);
      assert forall k :: 1 <= k < |options| ==> options[k] == options[1..][k - 1];
    }
  }

  /**
   * A shallow check that accepts at least what another accepts yields an
   * `Always` that accepts at least as much.
   */
  lemma AlwaysMonotone(es: seq<Element>, weak: seq<Element> -> PredResult, strong: seq<Element> -> PredResult)
    requires forall l :: strong(l).Ok? ==> weak(l).Ok?
    ensures Always(es, strong).Ok? ==> Always(es, weak).Ok?
  {
    AlwaysSpec(es, strong);
    AlwaysSpec(es, weak);
  }
}
