# mfnf-template-spec in Dafny

This project models the template specification for "Mathe für Nicht-Freaks", a wiki textbook whose pages use MediaWiki templates. It has three parts.

- **Content predicates** (`spec.dfy`). These are checks over a list of parsed wiki elements: one math tag, plain text, the negative switch "nein", the navigation arguments "oben"/"unten", inline-only content, block-or-inline content, and "anything".
  - Each check returns `Ok(())` or a `PredError` that names the element to blame and the reason.
  - The shallow checks scan a list in order and stop at the first element they reject. `always` lifts such a check to every sibling list of the tree.
  - The template registry `spec_of` is a parameter (`Registry`), since it is generated from the template description file.
- **Markdown documentation renderer** (`markdown.dfy`). `TemplateDescription` writes the document step by step, as the source's `writeln!` calls do, with one loop iteration per attribute. It is proved equal to the function `Document`. That definition is built from the pure pipelines `AltNames` (the alternative-name filter) and `Indent` (the four-space indentation). The lemmas state the document's layout.
- **HTML documentation renderer** (`html.dfy`). `TemplateDescription` pushes the tag skeleton piece by piece, one list item per attribute inside a loop. It is proved equal to `Document`. The lemmas state where the title, the names, the items, the priority and the predicate name sit.
  - The CommonMark-to-HTML conversion of descriptions is the parameter `render: string -> string`, about which nothing is known.

Supporting modules:

- `strings.dfy` holds the parts of Rust's string API in use: `repeat`, `join`, `split`, `to_lowercase`, `trim`. `trim` removes the characters with Unicode's White_Space property, as `char::is_whitespace` does.
- `parser.dfy` holds the element tree.
- `spec_meta.dfy` holds the specification records. `default_name()` is the field `defaultName`. The registry's invariant that the default name is one of the names is the predicate `NamesIncludeDefault`; the lemmas that rely on it require it.
- `utils.dfy` holds the helpers taken from the wiki-parser utility library: the predicate result, `always`, `extract_plain_text` and `get_variant_name`.
  - That library's code is not part of this model. The definitions given for `Always`, `ExtractPlainText` and `VariantName` are assumed, and the comments in `utils.dfy` mark them as such.

An observation about `src/html.rs`, not stated by any lemma: each attribute item opens three `div`s (`attribute-doc`, `attribute-title`, `attribute-description`) but closes only two before `</li>` (lines 26, 27, 31, 38 and 41). So the `attribute-doc` `div` is never closed. The model keeps that markup exactly as written. `Html.ItemShape` states only the item's first and last tags.

## Model

| member | source | states |
|---|---|---|
| Strings.Repeat | src/markdown.rs:15 | `"#".repeat(n)`: exactly `n` characters, each of them the repeated one |
| Strings.Join | src/markdown.rs:20 | joining no parts gives ""; otherwise the first part starts the result |
| Strings.JoinAt | src/markdown.rs:20 | every part appears in the joined text, right after the joined earlier parts and one separator, in the original order |
| Strings.Split | src/markdown.rs:46 | splitting on one character gives at least one piece, and no piece contains that character |
| Strings.JoinSplit | src/markdown.rs:45-53 | joining the pieces of a split with the same character gives the original text back |
| Strings.SplitJoin | src/markdown.rs:45-53 | splitting the join of separator-free pieces gives those pieces back |
| Strings.Lower | src/markdown.rs:17 | lower-casing keeps the length and lower-cases each ASCII letter in place |
| Strings.TrimStartSpec | src/spec.rs:64 | trimming the start drops exactly the longest prefix of Unicode whitespace |
| Strings.TrimEndSpec | src/spec.rs:64 | trimming the end drops exactly the longest suffix of Unicode whitespace |
| Strings.TrimIsSlice | src/spec.rs:64 | `trim()` is a slice of the text with only Unicode whitespace outside it, and it starts and ends with a non-whitespace character unless empty |
| SpecMeta.LowerNames | src/markdown.rs:17 | the lower-cased debug names of every format and priority are "inline", "block", "meta", "required", "optional", "obsolete" |
| Utils.First | src/spec.rs:22 | `elems.first()` is `Some` exactly for a non-empty list and then holds its first element |
| Utils.FirstFailure | src/spec.rs:41-55 | a scan with early return passes exactly when every item passes; a failure is that of an item all of whose predecessors pass |
| Utils.FirstFailureAt | src/spec.rs:47-53 | the result is the rejection of the first item that fails |
| Utils.AlwaysIsFirstFailure | src/spec.rs:57 | `always` equals the first failure of the shallow check over all sibling lists of the tree, taken depth first |
| Utils.AlwaysSpec | src/spec.rs:57 | `always` passes exactly when the shallow check accepts every sibling list at every depth; otherwise it returns the first rejected list's error |
| Utils.AlwaysUnfold | src/spec.rs:57 | `always` passes exactly when the shallow check accepts the list and `always` passes on every child list of every element; a shallow failure is returned unchanged |
| Utils.AlwaysMonotone | src/spec.rs:139 | a shallow check that accepts at least as much as another makes `always` accept at least as much |
| Spec.IsMathTagSpec | src/spec.rs:15-36 | passes exactly for one `Formatted` element with markup `Math`; a wrong length gives no tree and the count message; a non-math `Formatted` and a non-`Formatted` element are blamed with their two messages |
| Spec.MathCausesDistinct | src/spec.rs:16-34 | the three failure messages of `is_math_tag` are pairwise different |
| Spec.PlainTextShallowSpec | src/spec.rs:40-56 | the shallow scan passes exactly when every element is a paragraph or text; otherwise it blames the first other element with its variant name |
| Spec.IsPlainTextSpec | src/spec.rs:39-58 | `is_plain_text` passes exactly when every element of every sibling list at every depth is a paragraph or text; otherwise it blames such an offending element with its variant name |
| Spec.PlainTextRejectsFormatting | src/spec.rs:39-58 | text followed by bold text fails, blaming the `Formatted` element |
| Spec.NegativeSwitchSpec | src/spec.rs:62-74 | passes exactly for plain text whose trimmed text is "nein", which is then "nein" with only whitespace around it; every failure blames the first element with the one fixed message |
| Spec.NegativeSwitchExamples | src/spec.rs:62-74 | " nein " passes; "ja" fails blaming its text element; the empty list fails with no tree |
| Spec.NegativeSwitchUnicodeSpaces | src/spec.rs:62-74 | "nein" between a no-break space and an ideographic space passes, because `trim` removes Unicode white space and not only ASCII |
| Spec.TextIsPlain | src/spec.rs:39-58 | a list holding a single text element is plain text |
| Spec.NavigationSpec | src/spec.rs:79-92 | passes exactly for the single text "oben" or the single text "unten"; every failure has no tree and the one fixed message |
| Spec.NavigationExamples | src/spec.rs:79-92 | the match is exact: "Oben", " oben", two texts and a paragraph around "oben" all fail |
| Spec.GetTemplateSpecSpec | src/spec.rs:94-104 | `Ok(spec)` exactly when the registry knows the name's plain text, and then that registry entry; otherwise no tree and the "has no specification!" message quoting the name |
| Spec.InlineElementSpec | src/spec.rs:109-135 | a template passes exactly when it is registered as inline; a lookup error is passed on unchanged; a non-inline template and every variant outside the inline list are blamed with their messages |
| Spec.InlineShallowSpec | src/spec.rs:108-138 | the shallow scan passes exactly when every element is an inline variant or an inline template; otherwise it returns the first element's rejection |
| Spec.IsInlineOnlySpec | src/spec.rs:107-140 | `is_inline_only` passes exactly when every element of every sibling list at every depth is an inline variant or an inline template; otherwise it returns the rejection of an element that is neither |
| Spec.BlockOrInlineElementSpec | src/spec.rs:146-178 | a template passes exactly when it is registered as inline or block; a lookup error is passed on unchanged; other templates and every variant outside the list are blamed with their messages |
| Spec.BlockOrInlineShallowSpec | src/spec.rs:145-181 | the shallow scan passes exactly when every element is a block-or-inline variant or an inline or block template; otherwise it returns the first element's rejection |
| Spec.BlockOrInlineSpec | src/spec.rs:144-183 | `block_or_inline` passes exactly when every element of every sibling list at every depth is a block-or-inline variant or an inline or block template; otherwise it returns the rejection of an element that is neither |
| Spec.InlineElementIsBlockOrInline | src/spec.rs:110-177 | every element the inline check accepts, the block-or-inline check accepts |
| Spec.InlineShallowIsBlockOrInline | src/spec.rs:108-181 | every list the inline shallow check accepts, the block-or-inline shallow check accepts |
| Spec.InlineOnlyIsBlockOrInline | src/spec.rs:107-183 | every tree `is_inline_only` accepts, `block_or_inline` accepts |
| Spec.EverythingIsAllowed | src/spec.rs:186-188 | passes for every input |
| Spec.Scan | src/spec.rs:41-55 | the `for` loop with early return computes the first failure of the element check over the list, whatever that check is |
| Markdown.AltNames | src/markdown.rs:26-31 | the alternative names are exactly the names other than the default name, and there are no more of them than names |
| Markdown.AltNamesAppend | src/markdown.rs:26-31 | the filter keeps the original order: it filters the parts of a list one after the other |
| Markdown.AltNamesOfOthers | src/markdown.rs:26-31 | when the default name is not among them, every name is kept |
| Markdown.AltNamesWithoutDefault | src/markdown.rs:26-31 | when the default name occurs once among the names, the alternative names are the names with that one occurrence taken out, in order |
| Markdown.AltFragmentSpec | src/markdown.rs:37-41 | the `*(…)* ` fragment is empty when there are no alternative names, or only one empty name; otherwise it wraps their join |
| Markdown.IndentSpec | src/markdown.rs:45-53 | indenting keeps the number of lines, puts exactly four spaces before each line, and stripping them gives the description back |
| Markdown.OpeningLines | src/markdown.rs:13-21 | the document starts with the title and the "Other names" paragraph; the title is `headingDepth + 1` hashes, a space, `Documentation for` with the default name in backticks, the lower-cased format, and an empty line |
| Markdown.NameListed | src/markdown.rs:20-21 | every entry of the template's names is listed in the "Other names" paragraph after the names before it and ", " |
| Markdown.DefaultNameListed | src/markdown.rs:20-21 | when the default name is one of the names, it is listed in the "Other names" paragraph after the names before it and ", " |
| Markdown.AttributesHeadingLine | src/markdown.rs:22-23 | the attribute heading starts a line after the description's empty line, has exactly `headingDepth + 2` hashes and a space, and is followed by the entries |
| Markdown.EntryShape | src/markdown.rs:33-55 | an entry opens with the list marker and the default name in backticks, and ends with the lower-cased priority, the predicate name, an empty line, the indented description and another empty line |
| Markdown.AttributeEntryAt | src/markdown.rs:25-56 | each attribute has exactly one entry, after the preamble and the earlier attributes' entries and before the later ones |
| Markdown.NoAttributes | src/markdown.rs:23-56 | with no attributes the document ends right after the attribute heading |
| Markdown.TemplateDescription | src/markdown.rs:9-58 | the `writeln!` sequence and the attribute loop produce exactly `Document` |
| Html.TemplateDescription | src/html.rs:7-47 | the `push_str` sequence and the attribute loop produce exactly `Document` |
| Html.FooterText | src/html.rs:44-45 | the closing pieces are `</ul></div></div>` |
| Html.HeaderAndFooter | src/html.rs:8-46 | the header starts the document, and the document ends with `</ul></div></div>` |
| Html.Opening | src/html.rs:9-12 | the document starts with the template and title `div`s, "Documentation for " and the default name |
| Html.TemplateNames | src/html.rs:16-18 | the template's names joined by ", " stand right after "Also known as " and before the closing `span` and the line break |
| Html.DefaultNameListed | src/html.rs:16-18 | when the default name is one of the names, it stands in the list after "Also known as ", behind the names before it and ", " |
| Html.ItemAt | src/html.rs:25-42 | each attribute has exactly one list item, after the header and the earlier attributes' items and before the later ones and the footer |
| Html.NoAttributes | src/html.rs:19-24 | with no attributes the document is the header through the rendered description, then the empty attribute list and the closing tags |
| Html.ItemShape | src/html.rs:26-41 | an item opens with `<li><div class="attribute-doc">` and ends with `</div></li>` |
| Html.ItemTitle | src/html.rs:27-30 | in an item the default name is followed at once by the priority `span` and the priority's name |
| Html.ItemNames | src/html.rs:32-34 | the attribute's names joined by ", " stand right after "Also known as " and before the closing `span` and the line break |
| Html.ItemPredicate | src/html.rs:35-37 | the predicate name stands right after its `span` tag and right before `</span> must be fulfilled!<br>` |

## Left out

- The wiki element tree (`parser.dfy`) is an assumed datatype. The real type lives in the MediaWiki parser library, which is not part of this model. The variants are those the predicates name, plus `Other` for the rest.
- `Always`, `ExtractPlainText` and `VariantName` are assumed definitions of the utility library's `always`, `extract_plain_text` and `get_variant_name`.
- Each option of an `InternalReference` is wrapped in the datatype `ReferenceOption`, a stand-in for the real type's list of element lists. The tree walk visits the target, each option in order, then the caption. That order is assumed.
- The specification registry is a parameter. The derive that generates it from the template description file is not part of this model, and neither is the generated checker that tests attribute presence and the `Required`/`Optional` priorities.
- The CommonMark-to-HTML conversion is the uninterpreted parameter `render`, so nothing is stated about the markup inside the rendered descriptions.
- Rust's `{:?}` formatting of formats and priorities is the fixed map `FormatName`/`PriorityName` from each variant to its name.
- Strings.Lower: lower-cases ASCII letters only; other characters are kept unchanged.
- `PredError.tree` holds the blamed element by value instead of as a borrowed reference. Nothing here depends on aliasing.
- The crate root (`src/lib.rs`) is not modelled: it only wires the modules and holds a print-only test. It does not declare `html`, so `src/html.rs` is modelled as written, without assuming it is compiled.
- Markdown.TemplateDescription: `heading_depth` is an unbounded `nat`. The source's `usize` sums `heading_depth + 1` and `heading_depth + 2` (`src/markdown.rs:15` and `:23`) overflow near the type's maximum: a panic in debug builds, wrap-around in release builds. The model has no such case.
- Markdown.NameListed: the record does not force the default name to be among the names. The lemmas that list the default name (`Markdown.DefaultNameListed`, `Html.DefaultNameListed`) require the registry's invariant `NamesIncludeDefault` instead.
- String formatting with `writeln!` cannot fail on a `String`. Its ignored `Result` is not modelled.
