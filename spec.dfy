/**
 * The content predicates of the template specification: checks over a list
 * of parsed wiki elements that either pass or name the element to blame and
 * the reason. The specification registry (`spec_of`, generated from the
 * template description file) is a parameter of the checks that need it.
 */
module Spec {
  import opened Wrappers
  import opened Parser
  import opened Utils
  import opened SpecMeta
  import opened Strings

  /** `spec_of`: the specification registered under a name, if any. */
  type Registry = string -> Option<TemplateSpec>

  const MathCountCause := "There is none or more than one element in this math tag!"
  const NotMathFormattedCause := "This is not math-formatted!"
  const NotMathTextCause := "This is not math-formatted text!"
  const NegativeSwitchCause := "The content of this argument is only allowed to be \"nein\"."
  const NavigationCause :=
    "Wrong formatting for the navigation. For the header only the variant "
    + "\"{{#invoke:Mathe für Nicht-Freaks/Seite|oben}}\" is allowed. "
    + "The footer only admits the code \"{{#invoke:Mathe für Nicht-Freaks/Seite|unten}}\"."

  /** A list of elements only contains one math tag. */
  function IsMathTag(es: seq<Element>): PredResult
  {
    if |es| != 1 then Err(PredError(None, MathCountCause))
    else match es[0]
      case Formatted(markup, _) =>
        if markup != Math then Err(PredError(First(es), NotMathFormattedCause)) else Ok(())
      case _ => Err(PredError(First(es), NotMathTextCause))
  }

  lemma IsMathTagSpec(es: seq<Element>)
    ensures IsMathTag(es).Ok? <==> |es| == 1 && es[0].Formatted? && es[0].markup == Math
    ensures |es| != 1 ==> IsMathTag(es) == Err(PredError(None, MathCountCause))
    ensures |es| == 1 && es[0].Formatted? && es[0].markup != Math ==>
              IsMathTag(es) == Err(PredError(Some(es[0]), NotMathFormattedCause))
    ensures |es| == 1 && !es[0].Formatted? ==>
              IsMathTag(es) == Err(PredError(Some(es[0]), NotMathTextCause))
  {
  }

  /** The three failure messages of `IsMathTag` are pairwise different. */
  lemma MathCausesDistinct()
    ensures MathCountCause != NotMathFormattedCause
    ensures MathCountCause != NotMathTextCause
    ensures NotMathFormattedCause != NotMathTextCause
  {
    assert |MathCountCause| == 56 && |NotMathFormattedCause| == 27 && |NotMathTextCause| == 32;
  }

  // ---------------------------------------------------------------- plain text

  /** The element check of `is_plain_text`'s shallow loop. */
  function PlainTextElement(e: Element): PredResult
  {
    if e.Paragraph? || e.Text? then Ok(())
    else Err(PredError(Some(e), VariantName(e) + " markup is not allowed in plain text!"))
  }

  /** `is_plain_text`'s inner `shallow`: the first element that is neither a paragraph nor text. */
  function PlainTextShallow(es: seq<Element>): PredResult
  {
    FirstFailure(es, PlainTextElement)
  }

  lemma PlainTextShallowSpec(es: seq<Element>)
    ensures PlainTextShallow(es).Ok? <==> forall i :: 0 <= i < |es| ==> es[i].Paragraph? || es[i].Text?
    ensures PlainTextShallow(es).Err? ==>
              exists i :: 0 <= i < |es| && !(es[i].Paragraph? || es[i].Text?)
                          && PlainTextShallow(es)
                             == Err(PredError(Some(es[i]), VariantName(es[i]) + " markup is not allowed in plain text!"))
                          && forall j :: 0 <= j < i ==> es[j].Paragraph? || es[j].Text?
  {
    assert forall i :: 0 <= i < |es| ==> (PlainTextElement(es[i]).Ok? <==> es[i].Paragraph? || es[i].Text?);
  }

  /** Paragraphs or text without any formatting or special contents, at every depth. */
  function IsPlainText(es: seq<Element>): PredResult
  {
    Always(es, PlainTextShallow)
  }

  /**
   * `IsPlainText` accepts exactly the trees made of paragraphs and text only,
   * and otherwise blames an element that is neither.
   */
  lemma IsPlainTextSpec(es: seq<Element>)
    ensures IsPlainText(es).Ok? <==>
              forall k, i :: 0 <= k < |SubLists(es)| && 0 <= i < |SubLists(es)[k]| ==>
                SubLists(es)[k][i].Paragraph? || SubLists(es)[k][i].Text?
    ensures IsPlainText(es).Err? ==>
              exists k, i :: 0 <= k < |SubLists(es)| && 0 <= i < |SubLists(es)[k]|
                && !(SubLists(es)[k][i].Paragraph? || SubLists(es)[k][i].Text?)
                && IsPlainText(es) == Err(PredError(Some(SubLists(es)[k][i]),
                                           VariantName(SubLists(es)[k][i]) + " markup is not allowed in plain text!"))
  {
    AlwaysSpec(es, PlainTextShallow);
    forall k | 0 <= k < |SubLists(es)| {
      PlainTextShallowSpec(SubLists(es)[k]);
    }
  }

  /** A bold word breaks plain text, and the formatted element is blamed. */
  lemma PlainTextRejectsFormatting()
    ensures IsPlainText([Text("a"), Formatted(Bold, [Text("b")])])
            == Err(PredError(Some(Formatted(Bold, [Text("b")])), "Formatted" + " markup is not allowed in plain text!"))
  {
    var es := [Text("a"), Formatted(Bold, [Text("b")])];
    assert PlainTextElement(es[0]).Ok?;
    FirstFailureAt(es, PlainTextElement, 1);
    assert PlainTextShallow(es) == PlainTextElement(es[1]);
    AlwaysUnfold(es, PlainTextShallow);
    assert IsPlainText(es) == PlainTextShallow(es);
    assert VariantName(es[1]) == "Formatted";
  }

  // ---------------------------------------------------------------- switches

  /** The argument is a switch whose content can only be "nein". */
  function IsNegativeSwitch(es: seq<Element>): PredResult
  {
    if IsPlainText(es).Ok? && Trim(ExtractPlainText(es)) == "nein" then Ok(())
    else Err(PredError(First(es), NegativeSwitchCause))
  }

  /**
   * `IsNegativeSwitch` accepts exactly the plain-text lists whose text is
   * "nein" with nothing but whitespace around it; every failure blames the
   * first element with one fixed message.
   */
  lemma NegativeSwitchSpec(es: seq<Element>)
    ensures IsNegativeSwitch(es).Ok? <==> IsPlainText(es).Ok? && Trim(ExtractPlainText(es)) == "nein"
    ensures IsNegativeSwitch(es).Ok? ==>
              exists i, j :: 0 <= i <= j <= |ExtractPlainText(es)| && ExtractPlainText(es)[i..j] == "nein"
                && (forall k :: 0 <= k < i ==> IsWhitespace(ExtractPlainText(es)[k]))
                && (forall k :: j <= k < |ExtractPlainText(es)| ==> IsWhitespace(ExtractPlainText(es)[k]))
    ensures IsNegativeSwitch(es).Err? ==> IsNegativeSwitch(es) == Err(PredError(First(es), NegativeSwitchCause))
  {
    var i, j := TrimIsSlice(ExtractPlainText(es));
  }

  lemma NegativeSwitchExamples()
    ensures IsNegativeSwitch([Text(" nein ")]).Ok?
    ensures IsNegativeSwitch([Text("ja")]) == Err(PredError(Some(Text("ja")), NegativeSwitchCause))
    ensures IsNegativeSwitch([]) == Err(PredError(None, NegativeSwitchCause))
  {
    assert PlainTextElement(Text(" nein ")).Ok?;
    assert IsPlainText([Text(" nein ")]).Ok?;
    assert ExtractPlainText([Text(" nein ")]) == " nein ";
    assert " nein "[1..] == "nein ";
    assert TrimStart(" nein ") == TrimStart("nein ") == "nein ";
    assert "nein "[..4] == "nein";
    assert TrimEnd("nein ") == TrimEnd("nein") == "nein";
    assert ExtractPlainText([Text("ja")]) == "ja";
    assert TrimStart("ja") == "ja";
    assert TrimEnd("ja") == "ja";
    assert ExtractPlainText([]) == "";
  }

  /** A single text is plain text. */
  lemma TextIsPlain(t: string)
    ensures IsPlainText([Text(t)]).Ok?
  {
    var es := [Text(t)];
    assert PlainTextElement(es[0]).Ok?;
    assert PlainTextShallow(es).Ok?;
    AlwaysUnfold(es, PlainTextShallow);
    assert Children(es[0]) == [];
  }

  /** `trim` removes Unicode spaces too: a no-break space and an ideographic space. */
  lemma NegativeSwitchUnicodeSpaces()
    ensures IsNegativeSwitch([Text("\U{00A0}nein\U{3000}")]).Ok?
  {
    var wide := "\U{00A0}nein\U{3000}";
    TextIsPlain(wide);
    assert ExtractPlainText([Text(wide)]) == wide;
    assert wide[1..] == "nein\U{3000}";
    assert TrimStart(wide) == TrimStart("nein\U{3000}") == "nein\U{3000}";
    assert "nein\U{3000}"[..4] == "nein";
    assert TrimEnd("nein\U{3000}") == TrimEnd("nein") == "nein";
  }

  /** The navigation template admits only the arguments "oben" and "unten". */
  function IsNavigationSpec(es: seq<Element>): PredResult
  {
    if |es| == 1 && es[0].Text? && (es[0].text == "oben" || es[0].text == "unten") then Ok(())
    else Err(PredError(None, NavigationCause))
  }

  lemma NavigationSpec(es: seq<Element>)
    ensures IsNavigationSpec(es).Ok? <==> es == [Text("oben")] || es == [Text("unten")]
    ensures IsNavigationSpec(es).Err? ==> IsNavigationSpec(es) == Err(PredError(None, NavigationCause))
  {
    if |es| == 1 && es[0].Text? && (es[0].text == "oben" || es[0].text == "unten") {
      assert es == [Text(es[0].text)];
    }
  }

  /** The match is exact: no case folding and no trimming. */
  lemma NavigationExamples()
    ensures IsNavigationSpec([Text("oben")]).Ok?
    ensures IsNavigationSpec([Text("unten")]).Ok?
    ensures IsNavigationSpec([Text("Oben")]).Err?
    ensures IsNavigationSpec([Text(" oben")]).Err?
    ensures IsNavigationSpec([Text("oben"), Text("unten")]).Err?
    ensures IsNavigationSpec([Paragraph([Text("oben")])]).Err?
  {
    assert "Oben"[0] != "oben"[0] && "Oben" != "unten";
    assert " oben"[0] != "oben"[0] && " oben"[0] != "unten"[0];
  }

  // ---------------------------------------------------------------- templates

  /** The specification of a nested template, looked up by its name's plain text. */
  function GetTemplateSpec(name: seq<Element>, specOf: Registry): Result<TemplateSpec, PredError>
  {
    var n := ExtractPlainText(name);
    match specOf(n)
    case Some(spec) => Ok(spec)
    case None => Err(PredError(None, "\"" + n + "\" has no specification!"))
  }

  lemma GetTemplateSpecSpec(name: seq<Element>, specOf: Registry)
    ensures GetTemplateSpec(name, specOf).Ok? <==> specOf(ExtractPlainText(name)).Some?
    ensures GetTemplateSpec(name, specOf).Ok? ==>
              GetTemplateSpec(name, specOf).value == specOf(ExtractPlainText(name)).value
    ensures GetTemplateSpec(name, specOf).Err? ==>
              GetTemplateSpec(name, specOf).error
              == PredError(None, "\"" + ExtractPlainText(name) + "\" has no specification!")
  {
  }

  /** The element check of `is_inline_only`'s shallow loop. */
  function InlineElement(e: Element, specOf: Registry): PredResult
  {
    match e
    case Template(name, _) =>
      (match GetTemplateSpec(name, specOf)
       case Err(err) => Err(err)
       case Ok(spec) =>
         if spec.format != Inline
         then Err(PredError(Some(e), "\"" + ExtractPlainText(name) + "\" is not an inline template!"))
         else Ok(()))
    case Text(_) | ExternalReference(_, _) | InternalReference(_, _, _) | Formatted(_, _)
       | Paragraph(_) | Comment(_) | HtmlTag(_, _) | TemplateArgument(_, _) | ListItem(_, _)
      => Ok(())
    case _ => Err(PredError(Some(e), VariantName(e) + " is not inline only!"))
  }

  /** The variants `is_inline_only` admits without further checks. */
  predicate InlineVariant(e: Element)
  {
    e.Text? || e.ExternalReference? || e.InternalReference? || e.Formatted? || e.Paragraph?
    || e.Comment? || e.HtmlTag? || e.TemplateArgument? || e.ListItem?
  }

  /** The variants `block_or_inline` admits without further checks. */
  predicate BlockOrInlineVariant(e: Element)
  {
    InlineVariant(e) || e.Table? || e.TableRow? || e.TableCell? || e.List? || e.Gallery? || e.Error?
  }

  /** What `is_inline_only`'s shallow check admits: an inline template or an inline variant. */
  predicate InlineAllowed(e: Element, specOf: Registry)
  {
    if e.Template?
    then GetTemplateSpec(e.name, specOf).Ok? && GetTemplateSpec(e.name, specOf).value.format == Inline
    else InlineVariant(e)
  }

  /** What `block_or_inline`'s shallow check admits: an inline or block template, or such a variant. */
  predicate BlockOrInlineAllowed(e: Element, specOf: Registry)
  {
    if e.Template?
    then GetTemplateSpec(e.name, specOf).Ok? && GetTemplateSpec(e.name, specOf).value.format in {Inline, Block}
    else BlockOrInlineVariant(e)
  }

  lemma InlineElementSpec(e: Element, specOf: Registry)
    ensures !e.Template? ==> (InlineElement(e, specOf).Ok? <==> InlineVariant(e))
    ensures !e.Template? && !InlineVariant(e) ==>
              InlineElement(e, specOf) == Err(PredError(Some(e), VariantName(e) + " is not inline only!"))
    ensures e.Template? ==>
              (InlineElement(e, specOf).Ok? <==>
                 GetTemplateSpec(e.name, specOf).Ok? && GetTemplateSpec(e.name, specOf).value.format == Inline)
    ensures e.Template? && GetTemplateSpec(e.name, specOf).Err? ==>
              InlineElement(e, specOf) == Err(GetTemplateSpec(e.name, specOf).error)
    ensures e.Template? && GetTemplateSpec(e.name, specOf).Ok? && GetTemplateSpec(e.name, specOf).value.format != Inline ==>
              InlineElement(e, specOf)
              == Err(PredError(Some(e), "\"" + ExtractPlainText(e.name) + "\" is not an inline template!"))
  {
  }

  /** `is_inline_only`'s inner `shallow`. */
  function InlineShallow(es: seq<Element>, specOf: Registry): PredResult
  {
    FirstFailure(es, e => InlineElement(e, specOf))
  }

  /**
   * `is_inline_only`'s shallow scan passes exactly when every element is an
   * inline variant or a template registered as inline; otherwise it returns
   * the rejection of the first element that is neither.
   */
  lemma InlineShallowSpec(es: seq<Element>, specOf: Registry)
    ensures InlineShallow(es, specOf).Ok? <==> forall i :: 0 <= i < |es| ==> InlineAllowed(es[i], specOf)
    ensures InlineShallow(es, specOf).Err? ==>
              exists i :: 0 <= i < |es| && InlineShallow(es, specOf) == InlineElement(es[i], specOf)
                          && InlineElement(es[i], specOf).Err?
                          && forall j :: 0 <= j < i ==> InlineElement(es[j], specOf).Ok?
  {
    forall i | 0 <= i < |es| {
      InlineElementSpec(es[i], specOf);
    }
  }

  /** This list only contains inline elements, at every depth. */
  function IsInlineOnly(es: seq<Element>, specOf: Registry): PredResult
  {
    Always(es, l => InlineShallow(l, specOf))
  }

  /**
   * `is_inline_only` passes exactly when every element of every sibling list
   * of the tree is admitted; otherwise it returns the rejection of an element
   * that is not.
   */
  lemma IsInlineOnlySpec(es: seq<Element>, specOf: Registry)
    ensures IsInlineOnly(es, specOf).Ok? <==>
              forall k, i :: 0 <= k < |SubLists(es)| && 0 <= i < |SubLists(es)[k]| ==>
                InlineAllowed(SubLists(es)[k][i], specOf)
    ensures IsInlineOnly(es, specOf).Err? ==>
              exists k, i :: 0 <= k < |SubLists(es)| && 0 <= i < |SubLists(es)[k]|
                && !InlineAllowed(SubLists(es)[k][i], specOf)
                && IsInlineOnly(es, specOf) == InlineElement(SubLists(es)[k][i], specOf)
  {
    AlwaysSpec(es, l => InlineShallow(l, specOf));
    forall k | 0 <= k < |SubLists(es)| {
      InlineShallowSpec(SubLists(es)[k], specOf);
    }
  }

  /** The element check of `block_or_inline`'s shallow loop. */
  function BlockOrInlineElement(e: Element, specOf: Registry): PredResult
  {
    match e
    case Template(name, _) =>
      (match GetTemplateSpec(name, specOf)
       case Err(err) => Err(err)
       case Ok(spec) =>
         if spec.format != Inline && spec.format != Block
         then Err(PredError(Some(e), "\"" + ExtractPlainText(name) + "\" is not a block or inline template!"))
         else Ok(()))
    case Text(_) | TemplateArgument(_, _) | ExternalReference(_, _) | InternalReference(_, _, _)
       | Formatted(_, _) | Comment(_) | HtmlTag(_, _) | Table(_, _) | TableRow(_) | TableCell(_)
       | Paragraph(_) | List(_) | ListItem(_, _) | Gallery(_) | Error(_)
      => Ok(())
    case _ => Err(PredError(Some(e), VariantName(e) + " is not block/ inline!"))
  }

  lemma BlockOrInlineElementSpec(e: Element, specOf: Registry)
    ensures !e.Template? ==> (BlockOrInlineElement(e, specOf).Ok? <==> BlockOrInlineVariant(e))
    ensures !e.Template? && !BlockOrInlineVariant(e) ==>
              BlockOrInlineElement(e, specOf) == Err(PredError(Some(e), VariantName(e) + " is not block/ inline!"))
    ensures e.Template? ==>
              (BlockOrInlineElement(e, specOf).Ok? <==>
                 GetTemplateSpec(e.name, specOf).Ok? && GetTemplateSpec(e.name, specOf).value.format in {Inline, Block})
    ensures e.Template? && GetTemplateSpec(e.name, specOf).Err? ==>
              BlockOrInlineElement(e, specOf) == Err(GetTemplateSpec(e.name, specOf).error)
    ensures e.Template? && GetTemplateSpec(e.name, specOf).Ok?
            && GetTemplateSpec(e.name, specOf).value.format !in {Inline, Block} ==>
              BlockOrInlineElement(e, specOf)
              == Err(PredError(Some(e), "\"" + ExtractPlainText(e.name) + "\" is not a block or inline template!"))
  {
  }

  /** `block_or_inline`'s inner `shallow`. */
  function BlockOrInlineShallow(es: seq<Element>, specOf: Registry): PredResult
  {
    FirstFailure(es, e => BlockOrInlineElement(e, specOf))
  }

  /**
   * `block_or_inline`'s shallow scan passes exactly when every element is a
   * block-or-inline variant or a template registered as inline or block;
   * otherwise it returns the rejection of the first element that is neither.
   */
  lemma BlockOrInlineShallowSpec(es: seq<Element>, specOf: Registry)
    ensures BlockOrInlineShallow(es, specOf).Ok? <==> forall i :: 0 <= i < |es| ==> BlockOrInlineAllowed(es[i], specOf)
    ensures BlockOrInlineShallow(es, specOf).Err? ==>
              exists i :: 0 <= i < |es| && BlockOrInlineShallow(es, specOf) == BlockOrInlineElement(es[i], specOf)
                          && BlockOrInlineElement(es[i], specOf).Err?
                          && forall j :: 0 <= j < i ==> BlockOrInlineElement(es[j], specOf).Ok?
  {
    forall i | 0 <= i < |es| {
      BlockOrInlineElementSpec(es[i], specOf);
    }
  }

  /** This list only contains block or inline elements, at every depth. */
  function BlockOrInline(es: seq<Element>, specOf: Registry): PredResult
  {
    Always(es, l => BlockOrInlineShallow(l, specOf))
  }

  /**
   * `block_or_inline` passes exactly when every element of every sibling
   * list of the tree is admitted; otherwise it returns the rejection of an
   * element that is not.
   */
  lemma BlockOrInlineSpec(es: seq<Element>, specOf: Registry)
    ensures BlockOrInline(es, specOf).Ok? <==>
              forall k, i :: 0 <= k < |SubLists(es)| && 0 <= i < |SubLists(es)[k]| ==>
                BlockOrInlineAllowed(SubLists(es)[k][i], specOf)
    ensures BlockOrInline(es, specOf).Err? ==>
              exists k, i :: 0 <= k < |SubLists(es)| && 0 <= i < |SubLists(es)[k]|
                && !BlockOrInlineAllowed(SubLists(es)[k][i], specOf)
                && BlockOrInline(es, specOf) == BlockOrInlineElement(SubLists(es)[k][i], specOf)
  {
    AlwaysSpec(es, l => BlockOrInlineShallow(l, specOf));
    forall k | 0 <= k < |SubLists(es)| {
      BlockOrInlineShallowSpec(SubLists(es)[k], specOf);
    }
  }

  /** Every element `is_inline_only`'s check admits, `block_or_inline`'s admits too. */
  lemma InlineElementIsBlockOrInline(e: Element, specOf: Registry)
    ensures InlineElement(e, specOf).Ok? ==> BlockOrInlineElement(e, specOf).Ok?
  {
  }

  /** The same holds for the shallow checks of whole lists. */
  lemma InlineShallowIsBlockOrInline(es: seq<Element>, specOf: Registry)
    ensures InlineShallow(es, specOf).Ok? ==> BlockOrInlineShallow(es, specOf).Ok?
  {
    forall i | 0 <= i < |es| {
      InlineElementIsBlockOrInline(es[i], specOf);
    }
  }

  /** And so for the whole-tree predicates. */
  lemma InlineOnlyIsBlockOrInline(es: seq<Element>, specOf: Registry)
    ensures IsInlineOnly(es, specOf).Ok? ==> BlockOrInline(es, specOf).Ok?
  {
    forall l ensures InlineShallow(l, specOf).Ok? ==> BlockOrInlineShallow(l, specOf).Ok? {
      InlineShallowIsBlockOrInline(l, specOf);
    }
    AlwaysMonotone(es, l => BlockOrInlineShallow(l, specOf), l => InlineShallow(l, specOf));
  }

  /** Admits anything. */
  function EverythingIsAllowed(es: seq<Element>): (r: PredResult)
    ensures r.Ok?
  {
    Ok(())
  }

  /**
   * The `for` loop with early return that each of the three shallow checks
   * runs, over any element check: it stops at the first element the check
   * rejects and returns that rejection.
   */
  method Scan(es: seq<Element>, check: Element -> PredResult) returns (r: PredResult)
    ensures r == FirstFailure(es, check)
  {
    for i := 0 to |es|
      invariant forall j :: 0 <= j < i ==> check(es[j]).Ok?
    {
      var result := check(es[i]);
      if result.Err? {
        FirstFailureAt(es, check, i);
        return result;
      }
    }
    PassIsUnit(FirstFailure(es, check));
    return Ok(());
  }
}
