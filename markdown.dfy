/**
 * The CommonMark rendering of a template specification: a heading with the
 * template's default name and format, the list of its names, its
 * description, and one entry per attribute with the attribute's other
 * names, priority, predicate name and indented description.
 */
module Markdown {
  import opened Strings
  import opened SpecMeta

  /** `"#".repeat(n)`. */
  function Hashes(n: nat): string
  {
    Repeat('#', n)
  }

  // ---------------------------------------------------------------- the pure pipelines

  /** An attribute's names other than its default name, in their original order. */
  function AltNames(names: seq<string>, defaultName: string): (r: seq<string>)
    ensures forall n :: n in r <==> n in names && n != defaultName
    ensures |r| <= |names|
  {
    if |names| == 0 then []
    else (if names[0] != defaultName then [names[0]] else []) + AltNames(names[1..], defaultName)
  }

  /** The filter keeps order: it filters the parts of a list one after the other. */
  lemma {:induction false} AltNamesAppend(xs: seq<string>, ys: seq<string>, defaultName: string)
    ensures AltNames(xs + ys, defaultName) == AltNames(xs, defaultName) + AltNames(ys, defaultName)
  {
    if |xs| > 0 {
      assert (xs + ys)[0] == xs[0];
      assert (xs + ys)[1..] == xs[1..] + ys;
      AltNamesAppend(xs[1..], ys, defaultName);
    } else {
      assert xs + ys == ys;
    }
  }

  /** Without the default name among them, every name is an alternative one. */
  lemma {:induction false} AltNamesOfOthers(names: seq<string>, defaultName: string)
    requires defaultName !in names
    ensures AltNames(names, defaultName) == names
  {
    if |names| > 0 {
      AltNamesOfOthers(names[1..], defaultName);
      assert [names[0]] + names[1..] == names;
    }
  }

  /**
   * When the default name occurs once among the names, the alternative names
   * are the names with that one occurrence taken out.
   */
  lemma AltNamesWithoutDefault(names: seq<string>, defaultName: string, i: nat)
    requires i < |names| && names[i] == defaultName
    requires forall j :: 0 <= j < |names| && j != i ==> names[j] != defaultName
    ensures AltNames(names, defaultName) == names[..i] + names[i + 1..]
  {
    var pre, post := names[..i], names[i + 1..];
    assert defaultName !in pre by {
      forall j | 0 <= j < |pre| ensures pre[j] != defaultName {
        assert pre[j] == names[j];
      }
    }
    assert defaultName !in post by {
      forall j | 0 <= j < |post| ensures post[j] != defaultName {
        assert post[j] == names[i + 1 + j];
      }
    }
    assert names == pre + ([defaultName] + post);
    AltNamesAppend(pre, [defaultName] + post, defaultName);
    AltNamesAppend([defaultName], post, defaultName);
    assert AltNames([defaultName], defaultName) == [] by {
      assert [defaultName][1..] == [];
    }
    AltNamesOfOthers(pre, defaultName);
    AltNamesOfOthers(post, defaultName);
  }

  /** The `*(…)* ` fragment for the joined alternative names; empty when they are. */
  function AltFragment(altNames: string): string
  {
    if altNames == "" then "" else "*(" + altNames + ")* "
  }

  /**
   * The fragment is left out exactly when the joined alternative names are
   * empty, in particular when there are none; otherwise it wraps them.
   */
  lemma AltFragmentSpec(names: seq<string>, defaultName: string)
    ensures AltNames(names, defaultName) == [] ==> AltFragment(Join(AltNames(names, defaultName), ", ")) == ""
    ensures (forall n :: n in names ==> n == defaultName) ==> AltNames(names, defaultName) == []
    ensures Join(AltNames(names, defaultName), ", ") != "" ==>
              AltFragment(Join(AltNames(names, defaultName), ", "))
              == "*(" + Join(AltNames(names, defaultName), ", ") + ")* "
    ensures AltNames(names, defaultName) == [""] ==> AltFragment(Join(AltNames(names, defaultName), ", ")) == ""
  {
    var alts := AltNames(names, defaultName);
    if alts != [] {
      assert alts[0] in alts;
    }
  }

  /** Four spaces in front of one description line. */
  function IndentLine(line: string): string
  {
    Repeat(' ', 4) + line
  }

  function IndentLines(lines: seq<string>): (r: seq<string>)
    ensures |r| == |lines|
    ensures forall i :: 0 <= i < |lines| ==> r[i] == IndentLine(lines[i])
  {
    seq(|lines|, i requires 0 <= i < |lines| => IndentLine(lines[i]))
  }

  /** An attribute description with each `\n`-separated line indented by four spaces. */
  function Indent(description: string): string
  {
    Join(IndentLines(Split(description, '\n')), "\n")
  }

  /** The inverse of `Indent`: four characters dropped from the front of each line. */
  function Unindent(text: string): string
  {
    var lines := Split(text, '\n');
    Join(seq(|lines|, i requires 0 <= i < |lines| => if |lines[i]| >= 4 then lines[i][4..] else lines[i]), "\n")
  }

  /**
   * Indentation keeps the number of lines, puts exactly four spaces in
   * front of each, and is undone by `Unindent`.
   */
  lemma {:induction false} IndentSpec(description: string)
    ensures |Split(Indent(description), '\n')| == |Split(description, '\n')|
    ensures forall i :: 0 <= i < |Split(description, '\n')| ==>
              Split(Indent(description), '\n')[i] == "    " + Split(description, '\n')[i]
    ensures Unindent(Indent(description)) == description
  {
    var lines := Split(description, '\n');
    var indented := IndentLines(lines);
    forall i | 0 <= i < |indented| ensures '\n' !in indented[i] {
      assert indented[i] == Repeat(' ', 4) + lines[i];
      assert '\n' !in Repeat(' ', 4);
    }
    assert "\n" == ['\n'];
    SplitJoin(indented, '\n');
    assert Repeat(' ', 4) == "    ";
    var back := Split(Indent(description), '\n');
    assert back == indented;
    var stripped := seq(|back|, i requires 0 <= i < |back| => if |back[i]| >= 4 then back[i][4..] else back[i]);
    assert stripped == lines by {
      forall i | 0 <= i < |lines| ensures stripped[i] == lines[i] {
        assert back[i] == "    " + lines[i];
      }
    }
    JoinSplit(description, '\n');
  }

  // ---------------------------------------------------------------- the document

  /** The first heading: the default name and the lower-cased format. */
  function Title(template: TemplateSpec, headingDepth: nat): string
  {
    Hashes(headingDepth + 1) + " Documentation for `" + template.defaultName + "` ["
    + Lower(FormatName(template.format)) + "]\n\n"
  }

  /** The "Other names" paragraph, listing every name of the template. */
  function NamesLine(template: TemplateSpec): string
  {
    "Other names: *" + Join(template.names, ", ") + "*\n\n"
  }

  /** The template's own description paragraph. */
  function DescriptionParagraph(template: TemplateSpec): string
  {
    template.description + "\n\n"
  }

  /** The heading over the attribute entries. */
  function AttributesHeading(headingDepth: nat): string
  {
    Hashes(headingDepth + 2) + " Template Attributes:\n\n"
  }

  /** Everything before the first attribute entry. */
  function Preamble(template: TemplateSpec, headingDepth: nat): string
  {
    Title(template, headingDepth) + NamesLine(template) + DescriptionParagraph(template)
    + AttributesHeading(headingDepth)
  }

  /** The line introducing one attribute. */
  function AttributeLine(attribute: Attribute): string
  {
    "  - `" + attribute.defaultName + "` "
    + AltFragment(Join(AltNames(attribute.names, attribute.defaultName), ", "))
    + ("[**" + Lower(PriorityName(attribute.priority)) + "**][**" + attribute.predicateName + "**]: \n\n")
  }

  /** One attribute's entry: its line and its indented description. */
  function AttributeEntry(attribute: Attribute): string
  {
    AttributeLine(attribute) + (Indent(attribute.description) + "\n\n")
  }

  /** The whole Markdown document. */
  function Document(template: TemplateSpec, headingDepth: nat): string
  {
    Preamble(template, headingDepth) + ConcatMap(template.attributes, AttributeEntry)
  }

  /** The pieces the loop writes for one attribute make up its entry. */
  lemma EntryPieces(attribute: Attribute, fragment: string, line: string, description: string)
    requires fragment == AltFragment(Join(AltNames(attribute.names, attribute.defaultName), ", "))
    requires line == "  - `" + attribute.defaultName + "` " + fragment
                     + ("[**" + Lower(PriorityName(attribute.priority)) + "**][**"
                        + attribute.predicateName + "**]: \n\n")
    requires description == Indent(attribute.description)
    ensures line + (description + "\n\n") == AttributeEntry(attribute)
  {
  }

  /** The four paragraphs written before the loop make up the preamble. */
  lemma PreamblePieces(template: TemplateSpec, headingDepth: nat, names: string)
    requires names == Join(template.names, ", ")
    ensures Hashes(headingDepth + 1) + " Documentation for `" + template.defaultName + "` ["
            + Lower(FormatName(template.format)) + "]\n\n"
            + ("Other names: *" + names + "*\n\n")
            + (template.description + "\n\n")
            + (Hashes(headingDepth + 2) + " Template Attributes:\n\n")
            == Preamble(template, headingDepth)
  {
  }

  // ---------------------------------------------------------------- the layout of the document

  /** The title is the heading's hashes followed by the rest of the heading line and an empty line. */
  lemma TitleSplit(template: TemplateSpec, headingDepth: nat)
    ensures Title(template, headingDepth)
            == Hashes(headingDepth + 1)
               + (" Documentation for `" + template.defaultName + "` [" + Lower(FormatName(template.format)) + "]\n\n")
  {
    var hashes, lead, name, open := Hashes(headingDepth + 1), " Documentation for `", template.defaultName, "` [";
    var format, close := Lower(FormatName(template.format)), "]\n\n";
    AppendAssoc(hashes, lead, name);
    AppendAssoc(hashes, lead + name, open);
    AppendAssoc(hashes, lead + name + open, format);
    AppendAssoc(hashes, lead + name + open + format, close);
  }

  /** The title and the "Other names" paragraph start the document. */
  lemma OpeningPrefix(template: TemplateSpec, headingDepth: nat)
    ensures Title(template, headingDepth) <= Document(template, headingDepth)
    ensures Title(template, headingDepth) + NamesLine(template) <= Document(template, headingDepth)
  {
    var title, names := Title(template, headingDepth), NamesLine(template);
    var description, heading := DescriptionParagraph(template), AttributesHeading(headingDepth);
    var entries := ConcatMap(template.attributes, AttributeEntry);
    PrefixOfAppend(title + names, description);
    PrefixOfAppend(title + names + description, heading);
    PrefixOfAppend(title + names + description + heading, entries);
    PrefixTrans(title + names, title + names + description, title + names + description + heading);
    PrefixTrans(title + names, title + names + description + heading, Document(template, headingDepth));
    PrefixOfAppend(title, names);
    PrefixTrans(title, title + names, Document(template, headingDepth));
  }

  /**
   * The document opens with its title: `headingDepth + 1` hashes, a space,
   * the default name in backticks and the lower-cased format name, then an
   * empty line, followed by the "Other names" paragraph.
   */
  lemma OpeningLines(template: TemplateSpec, headingDepth: nat)
    ensures Title(template, headingDepth) + NamesLine(template) <= Document(template, headingDepth)
    ensures forall k :: 0 <= k < headingDepth + 1 ==> Document(template, headingDepth)[k] == '#'
    ensures Document(template, headingDepth)[headingDepth + 1] == ' '
    ensures Title(template, headingDepth)[headingDepth + 1..]
            == " Documentation for `" + template.defaultName + "` [" + Lower(FormatName(template.format)) + "]\n\n"
    ensures template.format == Inline ==> Lower(FormatName(template.format)) == "inline"
    ensures template.format == Block ==> Lower(FormatName(template.format)) == "block"
    ensures template.format == Meta ==> Lower(FormatName(template.format)) == "meta"
  {
    var hashes := Hashes(headingDepth + 1);
    var line := " Documentation for `" + template.defaultName + "` [" + Lower(FormatName(template.format)) + "]\n\n";
    TitleSplit(template, headingDepth);
    OpeningPrefix(template, headingDepth);
    var title, document := Title(template, headingDepth), Document(template, headingDepth);
    forall k | 0 <= k < headingDepth + 1
      ensures document[k] == '#'
    {
      assert document[k] == title[k] == hashes[k];
    }
    assert document[headingDepth + 1] == title[headingDepth + 1] == line[0];
    SuffixOfAppend(hashes, line);
    LowerNames();
  }

  /**
   * Every name of the template, the default one included, is listed in the
   * "Other names" paragraph in its original order, after the names before it
   * and a `", "`.
   */
  lemma NameListed(template: TemplateSpec, headingDepth: nat, i: nat)
    requires i < |template.names|
    ensures Title(template, headingDepth)
            + ("Other names: *" + ((if i == 0 then "" else Join(template.names[..i], ", ") + ", ") + template.names[i]))
            <= Document(template, headingDepth)
  {
    var title := Title(template, headingDepth);
    var joined := Join(template.names, ", ");
    var listed := (if i == 0 then "" else Join(template.names[..i], ", ") + ", ") + template.names[i];
    JoinAt(template.names, i, ", ");
    if i == 0 {
      assert listed == template.names[0];
    }
    assert listed <= joined;
    PrefixBehind("Other names: *", listed, joined);
    PrefixOfAppend("Other names: *" + joined, "*\n\n");
    PrefixTrans("Other names: *" + listed, "Other names: *" + joined, NamesLine(template));
    PrefixBehind(title, "Other names: *" + listed, NamesLine(template));
    OpeningLines(template, headingDepth);
    PrefixTrans(title + ("Other names: *" + listed), title + NamesLine(template), Document(template, headingDepth));
  }

  /**
   * Under the registry's invariant the default name is among the names the
   * "Other names" paragraph lists.
   */
  lemma DefaultNameListed(template: TemplateSpec, headingDepth: nat) returns (i: nat)
    requires NamesIncludeDefault(template)
    ensures i < |template.names| && template.names[i] == template.defaultName
    ensures Title(template, headingDepth)
            + ("Other names: *" + ((if i == 0 then "" else Join(template.names[..i], ", ") + ", ") + template.defaultName))
            <= Document(template, headingDepth)
  {
    i :| 0 <= i < |template.names| && template.names[i] == template.defaultName;
    NameListed(template, headingDepth, i);
  }

  /**
   * The attribute heading is a line of its own, right after the empty line
   * that ends the description, made of exactly `headingDepth + 2` hashes and
   * a space; the attribute entries follow it.
   */
  lemma AttributesHeadingLine(template: TemplateSpec, headingDepth: nat) returns (p: nat)
    ensures 2 <= p && p + headingDepth + 2 < |Document(template, headingDepth)|
    ensures Document(template, headingDepth)[p - 2..p] == "\n\n"
    ensures forall k :: p <= k < p + headingDepth + 2 ==> Document(template, headingDepth)[k] == '#'
    ensures Document(template, headingDepth)[p + headingDepth + 2] == ' '
    ensures Document(template, headingDepth)[p..]
            == AttributesHeading(headingDepth) + ConcatMap(template.attributes, AttributeEntry)
  {
    var front := Title(template, headingDepth) + NamesLine(template) + DescriptionParagraph(template);
    var back := AttributesHeading(headingDepth) + ConcatMap(template.attributes, AttributeEntry);
    AppendAssoc(front, AttributesHeading(headingDepth), ConcatMap(template.attributes, AttributeEntry));
    assert Document(template, headingDepth) == front + back;
    p := |front|;
    AppendAssoc(Title(template, headingDepth) + NamesLine(template), template.description, "\n\n");
    assert front[p - 2..p] == "\n\n";
  }

  /**
   * One attribute's entry is a list item that opens with the default name in
   * backticks; the alternative-name fragment aside, it goes on with the
   * lower-cased priority followed by the predicate name, and ends, after an
   * empty line, with the indented description and another empty line.
   */
  lemma EntryShape(a: Attribute)
    ensures "  - `" + a.defaultName + "` " <= AttributeEntry(a)
    ensures var tail := ("[**" + Lower(PriorityName(a.priority)) + "**][**" + a.predicateName + "**]: \n\n")
                        + (Indent(a.description) + "\n\n");
            |tail| <= |AttributeEntry(a)| && AttributeEntry(a)[|AttributeEntry(a)| - |tail|..] == tail
  {
    var head := "  - `" + a.defaultName + "` ";
    var fragment := AltFragment(Join(AltNames(a.names, a.defaultName), ", "));
    var marks := "[**" + Lower(PriorityName(a.priority)) + "**][**" + a.predicateName + "**]: \n\n";
    var body := Indent(a.description) + "\n\n";
    AppendAssoc(head + fragment, marks, body);
    AppendAssoc(head, fragment, marks + body);
    PrefixOfAppend(head, fragment + (marks + body));
    SuffixOfAppend(head + fragment, marks + body);
  }

  /**
   * Attribute `i` has exactly one entry, placed after the preamble and the
   * entries of the attributes declared before it and followed by those of
   * the attributes declared after it.
   */
  lemma AttributeEntryAt(template: TemplateSpec, headingDepth: nat, i: nat)
    requires i < |template.attributes|
    ensures Document(template, headingDepth)
            == Preamble(template, headingDepth) + ConcatMap(template.attributes[..i], AttributeEntry)
               + AttributeEntry(template.attributes[i]) + ConcatMap(template.attributes[i + 1..], AttributeEntry)
  {
    var attributes := template.attributes;
    var pre, before, entry, after := Preamble(template, headingDepth), ConcatMap(attributes[..i], AttributeEntry),
                                     AttributeEntry(attributes[i]), ConcatMap(attributes[i + 1..], AttributeEntry);
    ConcatMapAt(attributes, i, AttributeEntry);
    AppendAssoc(pre, before + entry, after);
    AppendAssoc(pre, before, entry);
  }

  /** Without attributes the document ends right after the attribute heading. */
  lemma NoAttributes(template: TemplateSpec, headingDepth: nat)
    requires template.attributes == []
    ensures Document(template, headingDepth) == Preamble(template, headingDepth)
  {
  }

  /**
   * `template_description`: the output is built step by step, one `writeln!`
   * after the other, with one entry per attribute written in a loop.
   */
  method TemplateDescription(template: TemplateSpec, headingDepth: nat) returns (out: string)
    ensures out == Document(template, headingDepth)
  {
    out := Hashes(headingDepth + 1) + " Documentation for `" + template.defaultName + "` ["
           + Lower(FormatName(template.format)) + "]\n\n";
    var names := Join(template.names, ", ");
    out := out + ("Other names: *" + names + "*\n\n");
    out := out + (template.description + "\n\n");
    out := out + (Hashes(headingDepth + 2) + " Template Attributes:\n\n");
    PreamblePieces(template, headingDepth, names);
    ghost var preamble := out;

    var attributes := template.attributes;
    for i := 0 to |attributes|
      invariant out == preamble + ConcatMap(attributes[..i], AttributeEntry)
    {
      ghost var before := out;
      var attribute := attributes[i];
      var altNames := Join(AltNames(attribute.names, attribute.defaultName), ", ");
      var fragment := if altNames == "" then "" else "*(" + altNames + ")* ";
      var line := "  - `" + attribute.defaultName + "` " + fragment
                  + ("[**" + Lower(PriorityName(attribute.priority)) + "**][**"
                     + attribute.predicateName + "**]: \n\n");
      out := out + line;
      var description := Indent(attribute.description);
      out := out + (description + "\n\n");
      EntryPieces(attribute, fragment, line, description);
      AppendAssoc(before, line, description + "\n\n");
      ConcatMapPush(preamble, attributes, i, AttributeEntry);
    }
    assert attributes[..|attributes|] == attributes;
  }
}
