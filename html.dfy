/**
 * The HTML rendering of a template specification: a fixed skeleton of
 * `div`, `span` and list tags around the template's default name, format,
 * names and rendered description, with one list item per attribute.
 *
 * The Markdown-to-HTML conversion of the descriptions (a pulldown-cmark
 * parser fed to `html::push_html`) is the parameter `render`: the model
 * knows nothing about it except that it is a function of the description.
 */
module Html {
  import opened Strings
  import opened SpecMeta

  /** Everything written before the first attribute's list item. */
  function Header(template: TemplateSpec, render: string -> string): string
  {
    "<div class=\"template-doc\">"
    + "<div class=\"template-title\">"
    + "Documentation for "
    + template.defaultName
    + "<span class=\"template-format\">"
    + FormatName(template.format)
    + "</span></div>"
    + ("<span class=\"template-aka\">" + "Also known as ")
    + Join(template.names, ", ")
    + "</span><br>"
    + "<div class=\"template-description\">"
    + render(template.description)
    + "</div>"
    + ("<div class=\"template-attributes\">" + "Attributes:<ul>")
  }

  /** One attribute's list item. */
  function AttributeItem(attribute: Attribute, render: string -> string): string
  {
    "<li><div class=\"attribute-doc\">"
    + "<div class=\"attribute-title\">"
    + attribute.defaultName
    + "<span class=\"attribute-priority\">"
    + PriorityName(attribute.priority)
    + "</span></div>"
    + ("<span class=\"attribute-aka\">" + "Also known as ")
    + Join(attribute.names, ", ")
    + "</span><br>"
    + "<span class=\"attribute-predicate\">"
    + attribute.predicateName
    + "</span> must be fulfilled!<br>"
    + "<div class=\"attribute-description\">"
    + render(attribute.description)
    + "</div></li>"
  }

  /** Pushing an item's pieces one after the other appends the item. */
  lemma PushesAppendItem(out: string, attribute: Attribute, render: string -> string)
    ensures out + "<li><div class=\"attribute-doc\">" + "<div class=\"attribute-title\">" + attribute.defaultName
            + "<span class=\"attribute-priority\">" + PriorityName(attribute.priority) + "</span></div>"
            + ("<span class=\"attribute-aka\">" + "Also known as ") + Join(attribute.names, ", ") + "</span><br>"
            + "<span class=\"attribute-predicate\">" + attribute.predicateName + "</span> must be fulfilled!<br>"
            + "<div class=\"attribute-description\">" + render(attribute.description) + "</div></li>"
            == out + AttributeItem(attribute, render)
  {
    Regroup(out, "<li><div class=\"attribute-doc\">", "<div class=\"attribute-title\">", attribute.defaultName,
            "<span class=\"attribute-priority\">", PriorityName(attribute.priority), "</span></div>",
            "<span class=\"attribute-aka\">" + "Also known as ", Join(attribute.names, ", "), "</span><br>",
            "<span class=\"attribute-predicate\">", attribute.predicateName, "</span> must be fulfilled!<br>",
            "<div class=\"attribute-description\">", render(attribute.description), "</div></li>");
  }

  /** Appending fifteen pieces one at a time appends their concatenation. */
  lemma Regroup(b: string, x1: string, x2: string, x3: string, x4: string, x5: string, x6: string, x7: string,
                x8: string, x9: string, x10: string, x11: string, x12: string, x13: string, x14: string, x15: string)
    ensures b + x1 + x2 + x3 + x4 + x5 + x6 + x7 + x8 + x9 + x10 + x11 + x12 + x13 + x14 + x15
            == b + (x1 + x2 + x3 + x4 + x5 + x6 + x7 + x8 + x9 + x10 + x11 + x12 + x13 + x14 + x15)
  {
  }

  function ItemOf(render: string -> string): Attribute -> string
  {
    attribute => AttributeItem(attribute, render)
  }

  /** What closes the attribute list and the document. */
  function Footer(): string
  {
    "</ul></div>" + "</div>"
  }

  /** The whole HTML document. */
  function Document(template: TemplateSpec, render: string -> string): string
  {
    Header(template, render) + ConcatMap(template.attributes, ItemOf(render)) + Footer()
  }

  /** Pushing attribute `i`'s item after the items before it extends the list of items by one. */
  lemma ItemStep(header: string, attributes: seq<Attribute>, i: nat, render: string -> string, before: string)
    requires i < |attributes|
    requires before == header + ConcatMap(attributes[..i], ItemOf(render))
    ensures before + AttributeItem(attributes[i], render) == header + ConcatMap(attributes[..i + 1], ItemOf(render))
  {
    ConcatMapPush(header, attributes, i, ItemOf(render));
  }

  /** A text stays a prefix while up to ten more pieces are pushed after it (unused pieces are ""). */
  lemma PrefixOfPushes(p: string, x1: string, x2: string, x3: string, x4: string, x5: string, x6: string,
                       x7: string, x8: string, x9: string, x10: string)
    ensures p <= p + x1 + x2 + x3 + x4 + x5 + x6 + x7 + x8 + x9 + x10
  {
  }

  /**
   * `template_description`: the output is built by successive `push_str`
   * calls, with one list item per attribute pushed in a loop.
   */
  method TemplateDescription(template: TemplateSpec, render: string -> string) returns (output: string)
    ensures output == Document(template, render)
  {
    output := "";
    output := output + "<div class=\"template-doc\">";
    assert output == "<div class=\"template-doc\">";
    output := output + "<div class=\"template-title\">";
    output := output + "Documentation for ";
    output := output + template.defaultName;
    output := output + "<span class=\"template-format\">";
    output := output + FormatName(template.format);
    output := output + "</span></div>";
    output := output + ("<span class=\"template-aka\">" + "Also known as ");
    output := output + Join(template.names, ", ");
    output := output + "</span><br>";
    output := output + "<div class=\"template-description\">";
    output := output + render(template.description);
    output := output + "</div>";
    output := output + ("<div class=\"template-attributes\">" + "Attributes:<ul>");
    assert output == Header(template, render);
    ghost var header := output;

    var attributes := template.attributes;
    for i := 0 to |attributes|
      invariant output == header + ConcatMap(attributes[..i], ItemOf(render))
    {
      ghost var before := output;
      var attribute := attributes[i];
      output := output + "<li><div class=\"attribute-doc\">";
      output := output + "<div class=\"attribute-title\">";
      output := output + attribute.defaultName;
      output := output + "<span class=\"attribute-priority\">";
      output := output + PriorityName(attribute.priority);
      output := output + "</span></div>";
      output := output + ("<span class=\"attribute-aka\">" + "Also known as ");
      output := output + Join(attribute.names, ", ");
      output := output + "</span><br>";
      output := output + "<span class=\"attribute-predicate\">";
      output := output + attribute.predicateName;
      output := output + "</span> must be fulfilled!<br>";
      output := output + "<div class=\"attribute-description\">";
      output := output + render(attribute.description);
      output := output + "</div></li>";
      PushesAppendItem(before, attribute, render);
      ItemStep(header, attributes, i, render, before);
    }

    output := output + "</ul></div>";
    output := output + "</div>";
    assert attributes[..|attributes|] == attributes;
    AppendAssoc(header + ConcatMap(attributes, ItemOf(render)), "</ul></div>", "</div>");
  }

  // ---------------------------------------------------------------- the layout of the document

  /** The footer closes the attribute list, the attributes' `div` and the document's `div`. */
  lemma FooterText()
    ensures Footer() == "</ul></div></div>"
  {
  }

  /** The header is a prefix of the document, which ends with the footer. */
  lemma HeaderAndFooter(template: TemplateSpec, render: string -> string)
    ensures Header(template, render) <= Document(template, render)
    ensures |Footer()| <= |Document(template, render)|
    ensures Document(template, render)[|Document(template, render)| - |Footer()|..] == "</ul></div></div>"
  {
    FooterText();
    FrontAndBack(Header(template, render), ConcatMap(template.attributes, ItemOf(render)), Footer());
  }

  /**
   * The document opens the template's `div`, then its title `div`, and
   * starts the title with "Documentation for " and the default name.
   */
  lemma Opening(template: TemplateSpec, render: string -> string)
    ensures "<div class=\"template-doc\">" + "<div class=\"template-title\">" + "Documentation for "
            + template.defaultName <= Document(template, render)
  {
    var opening := "<div class=\"template-doc\">" + "<div class=\"template-title\">" + "Documentation for "
                   + template.defaultName;
    PrefixOfPushes(opening, "<span class=\"template-format\">", FormatName(template.format), "</span></div>",
                   "<span class=\"template-aka\">" + "Also known as ", Join(template.names, ", "), "</span><br>",
                   "<div class=\"template-description\">", render(template.description), "</div>",
                   "<div class=\"template-attributes\">" + "Attributes:<ul>");
    HeaderAndFooter(template, render);
    PrefixTrans(opening, Header(template, render), Document(template, render));
  }

  /** The template's names, joined by ", ", follow "Also known as " and close its `span`. */
  lemma TemplateNames(template: TemplateSpec, render: string -> string) returns (k: nat)
    ensures var listed := "Also known as " + Join(template.names, ", ") + "</span><br>";
            k + |listed| <= |Document(template, render)| && Document(template, render)[k..k + |listed|] == listed
  {
    var title := "<div class=\"template-doc\">" + "<div class=\"template-title\">" + "Documentation for "
                 + template.defaultName + "<span class=\"template-format\">" + FormatName(template.format)
                 + "</span></div>";
    var names := Join(template.names, ", ");
    var span, aka := "<span class=\"template-aka\">", "Also known as ";
    var upToNames := title + (span + aka) + names + "</span><br>";
    PrefixOfPushes(upToNames, "<div class=\"template-description\">", render(template.description), "</div>",
                   "<div class=\"template-attributes\">" + "Attributes:<ul>", "", "", "", "", "", "");
    HeaderAndFooter(template, render);
    PrefixTrans(upToNames, Header(template, render), Document(template, render));
    AppendAssoc(title, span, aka);
    AppendAssoc(title + span, aka, names);
    AppendAssoc(title + span, aka + names, "</span><br>");
    InfixOfPrefix(Document(template, render), title + span, aka + names + "</span><br>");
    k := |title + span|;
  }

  /**
   * Under the registry's invariant the default name is among the names
   * listed after "Also known as ", behind the names before it and ", ".
   */
  lemma DefaultNameListed(template: TemplateSpec, render: string -> string) returns (k: nat, i: nat)
    requires NamesIncludeDefault(template)
    ensures i < |template.names| && template.names[i] == template.defaultName
    ensures var listed := "Also known as "
                          + ((if i == 0 then "" else Join(template.names[..i], ", ") + ", ") + template.defaultName);
            k + |listed| <= |Document(template, render)| && Document(template, render)[k..k + |listed|] == listed
  {
    i :| 0 <= i < |template.names| && template.names[i] == template.defaultName;
    k := TemplateNames(template, render);
    var joined := Join(template.names, ", ");
    var upTo := (if i == 0 then "" else Join(template.names[..i], ", ") + ", ") + template.defaultName;
    JoinAt(template.names, i, ", ");
    if i == 0 {
      assert upTo == template.names[0];
    }
    assert upTo <= joined;
    PrefixBehind("Also known as ", upTo, joined);
    PrefixOfAppend("Also known as " + joined, "</span><br>");
    PrefixTrans("Also known as " + upTo, "Also known as " + joined, "Also known as " + joined + "</span><br>");
    InfixShrink(Document(template, render), k, "Also known as " + joined + "</span><br>", "Also known as " + upTo);
  }

  /**
   * Attribute `i` contributes exactly one list item, placed after the items
   * of the attributes declared before it and before those declared after it.
   */
  lemma ItemAt(template: TemplateSpec, render: string -> string, i: nat)
    requires i < |template.attributes|
    ensures Document(template, render)
            == Header(template, render) + ConcatMap(template.attributes[..i], ItemOf(render))
               + AttributeItem(template.attributes[i], render)
               + ConcatMap(template.attributes[i + 1..], ItemOf(render)) + Footer()
  {
    var attributes := template.attributes;
    var header, before, item, after := Header(template, render), ConcatMap(attributes[..i], ItemOf(render)),
                                       AttributeItem(attributes[i], render), ConcatMap(attributes[i + 1..], ItemOf(render));
    ConcatMapAt(attributes, i, ItemOf(render));
    AppendAssoc(header, before + item, after);
    AppendAssoc(header, before, item);
  }

  /**
   * With no attributes the list is empty: right after the rendered
   * description the description `div` is closed and the empty attribute list
   * is opened and closed, and so is the document.
   */
  lemma NoAttributes(template: TemplateSpec, render: string -> string)
    requires template.attributes == []
    ensures Document(template, render)
            == "<div class=\"template-doc\">" + "<div class=\"template-title\">" + "Documentation for "
               + template.defaultName + "<span class=\"template-format\">" + FormatName(template.format)
               + "</span></div>" + ("<span class=\"template-aka\">" + "Also known as ")
               + Join(template.names, ", ") + "</span><br>" + "<div class=\"template-description\">"
               + render(template.description)
               + "</div>" + ("<div class=\"template-attributes\">" + "Attributes:<ul>") + Footer()
  {
    assert ConcatMap(template.attributes, ItemOf(render)) == "";
  }

  /**
   * An attribute's list item opens the attribute's `div` inside the `li`
   * and ends by closing the description `div` and the `li`.
   */
  lemma ItemShape(attribute: Attribute, render: string -> string)
    ensures "<li><div class=\"attribute-doc\">" <= AttributeItem(attribute, render)
    ensures var item := AttributeItem(attribute, render);
            |"</div></li>"| <= |item| && item[|item| - |"</div></li>"|..] == "</div></li>"
  {
    var open := "<li><div class=\"attribute-doc\">";
    var upToPredicate := open + "<div class=\"attribute-title\">" + attribute.defaultName
                         + "<span class=\"attribute-priority\">" + PriorityName(attribute.priority) + "</span></div>"
                         + ("<span class=\"attribute-aka\">" + "Also known as ") + Join(attribute.names, ", ")
                         + "</span><br>" + "<span class=\"attribute-predicate\">" + attribute.predicateName;
    PrefixOfPushes(open, "<div class=\"attribute-title\">", attribute.defaultName,
                   "<span class=\"attribute-priority\">", PriorityName(attribute.priority), "</span></div>",
                   "<span class=\"attribute-aka\">" + "Also known as ", Join(attribute.names, ", "),
                   "</span><br>", "<span class=\"attribute-predicate\">", attribute.predicateName);
    PrefixOfPushes(upToPredicate, "</span> must be fulfilled!<br>", "<div class=\"attribute-description\">",
                   render(attribute.description), "</div></li>", "", "", "", "", "", "");
    PrefixTrans(open, upToPredicate, AttributeItem(attribute, render));
    SuffixOfAppend(upToPredicate + "</span> must be fulfilled!<br>" + "<div class=\"attribute-description\">"
                   + render(attribute.description), "</div></li>");
  }

  /** In an attribute's title the default name is followed by its priority's name in a `span`. */
  lemma ItemTitle(attribute: Attribute, render: string -> string) returns (k: nat)
    ensures var titled := attribute.defaultName + "<span class=\"attribute-priority\">" + PriorityName(attribute.priority);
            k + |titled| <= |AttributeItem(attribute, render)|
            && AttributeItem(attribute, render)[k..k + |titled|] == titled
  {
    var open := "<li><div class=\"attribute-doc\">" + "<div class=\"attribute-title\">";
    var name, span, priority := attribute.defaultName, "<span class=\"attribute-priority\">", PriorityName(attribute.priority);
    PrefixOfPushes(open + name + span + priority, "</span></div>",
                   "<span class=\"attribute-aka\">" + "Also known as ", Join(attribute.names, ", "),
                   "</span><br>", "<span class=\"attribute-predicate\">", attribute.predicateName,
                   "</span> must be fulfilled!<br>", "<div class=\"attribute-description\">",
                   render(attribute.description), "</div></li>");
    AppendAssoc(open, name, span);
    AppendAssoc(open, name + span, priority);
    InfixOfPrefix(AttributeItem(attribute, render), open, name + span + priority);
    k := |open|;
  }

  /** An attribute's names, joined by ", ", follow "Also known as " and close its `span`. */
  lemma ItemNames(attribute: Attribute, render: string -> string) returns (k: nat)
    ensures var listed := "Also known as " + Join(attribute.names, ", ") + "</span><br>";
            k + |listed| <= |AttributeItem(attribute, render)|
            && AttributeItem(attribute, render)[k..k + |listed|] == listed
  {
    var title := "<li><div class=\"attribute-doc\">" + "<div class=\"attribute-title\">" + attribute.defaultName
                 + "<span class=\"attribute-priority\">" + PriorityName(attribute.priority) + "</span></div>";
    var names := Join(attribute.names, ", ");
    var span, aka := "<span class=\"attribute-aka\">", "Also known as ";
    var upToNames := title + (span + aka) + names + "</span><br>";
    PrefixOfPushes(upToNames, "<span class=\"attribute-predicate\">", attribute.predicateName,
                   "</span> must be fulfilled!<br>", "<div class=\"attribute-description\">",
                   render(attribute.description), "</div></li>", "", "", "", "");
    AppendAssoc(title, span, aka);
    AppendAssoc(title + span, aka, names);
    AppendAssoc(title + span, aka + names, "</span><br>");
    InfixOfPrefix(AttributeItem(attribute, render), title + span, aka + names + "</span><br>");
    k := |title + span|;
  }

  /**
   * The predicate name stands in its own `span`, and the closing `span` tag
   * with " must be fulfilled!" and a line break comes immediately after it.
   */
  lemma ItemPredicate(attribute: Attribute, render: string -> string) returns (k: nat)
    ensures var span := "<span class=\"attribute-predicate\">";
            var fulfilled := attribute.predicateName + "</span> must be fulfilled!<br>";
            |span| <= k && k + |fulfilled| <= |AttributeItem(attribute, render)|
            && AttributeItem(attribute, render)[k - |span|..k] == span
            && AttributeItem(attribute, render)[k..k + |fulfilled|] == fulfilled
  {
    var span := "<span class=\"attribute-predicate\">";
    var upToNames := "<li><div class=\"attribute-doc\">" + "<div class=\"attribute-title\">" + attribute.defaultName
                     + "<span class=\"attribute-priority\">" + PriorityName(attribute.priority) + "</span></div>"
                     + ("<span class=\"attribute-aka\">" + "Also known as ") + Join(attribute.names, ", ")
                     + "</span><br>";
    var name, must := attribute.predicateName, "</span> must be fulfilled!<br>";
    PrefixOfPushes(upToNames + span, name, must, "<div class=\"attribute-description\">",
                   render(attribute.description), "</div></li>", "", "", "", "", "");
    PrefixOfPushes(upToNames + span + name + must, "<div class=\"attribute-description\">",
                   render(attribute.description), "</div></li>", "", "", "", "", "", "", "");
    InfixOfPrefix(AttributeItem(attribute, render), upToNames, span);
    AppendAssoc(upToNames + span, name, must);
    InfixOfPrefix(AttributeItem(attribute, render), upToNames + span, name + must);
    k := |upToNames + span|;
  }

}
