/**
 * The block renderer of routes/templates.js: placeholder substitution
 * (`replaceValues`), the markup fragment for each block type (`renderBlock`)
 * and the HTML document the render route assembles from them.
 */
module Render {
  import opened Wrappers
  import opened Text
  import opened Schema

  /** The substitution values, as (key, value) pairs in `Object.keys` order. */
  type Values = seq<(string, string)>

  /** The placeholder written for `key`: the key in double curly braces. */
  function Placeholder(key: string): string
  {
    "{{" + key + "}}"
  }

  // ---------------------------------------------------------------------
  // Substitution.
  // ---------------------------------------------------------------------

  /**
   * `replaceValues` on a string: a left fold over the keys in order, each
   * step replacing every occurrence of that key's placeholder by its value.
   */
  function ReplaceValues(s: string, values: Values): string
    decreases |values|
  {
    if values == [] then s
    else ReplaceValues(ReplaceAll(s, Placeholder(values[0].0), values[0].1), values[1..])
  }

  /** `replaceValues` on any content: strings are substituted, anything else is returned as it is. */
  function ReplaceContent(v: Value, values: Values): (r: Value)
    ensures v.Text? ==> r == Text(ReplaceValues(v.s, values))
    ensures !v.Text? ==> r == v
  {
    match v
    case Text(s) => Text(ReplaceValues(s, values))
    case Record(_) => v
  }

  /** How a template literal shows a value: `undefined` for a missing one, `[object Object]` for an object. */
  function Show(v: Option<Value>): string
  {
    match v
    case None => "undefined"
    case Some(Text(s)) => s
    case Some(Record(_)) => "[object Object]"
  }

  /** The text `${replaceValues(v, values)}` produces. */
  function Substituted(v: Option<Value>, values: Values): string
  {
    if v.Some? then Show(Some(ReplaceContent(v.value, values))) else Show(None)
  }

  /** The fold processes the keys in order: substituting `xs + ys` is substituting `xs`, then `ys`. */
  lemma {:induction false} ReplaceValuesAppend(s: string, xs: Values, ys: Values)
    ensures ReplaceValues(s, xs + ys) == ReplaceValues(ReplaceValues(s, xs), ys)
    decreases |xs|
  {
    if xs == [] {
      assert xs + ys == ys;
    } else {
      assert (xs + ys)[0] == xs[0];
      assert (xs + ys)[1..] == xs[1..] + ys;
      ReplaceValuesAppend(ReplaceAll(s, Placeholder(xs[0].0), xs[0].1), xs[1..], ys);
    }
  }

  /** The last key is one global replace applied to what the earlier keys produced. */
  lemma ReplaceValuesLastStep(s: string, xs: Values, key: string, value: string)
    ensures ReplaceValues(s, xs + [(key, value)]) == ReplaceAll(ReplaceValues(s, xs), Placeholder(key), value)
  {
    ReplaceValuesAppend(s, xs, [(key, value)]);
  }

  /** A string in which no key's placeholder occurs is returned unchanged; so is any string for empty values. */
  lemma {:induction false} ReplaceValuesNoPlaceholder(s: string, values: Values)
    requires forall i :: 0 <= i < |values| ==> !Contains(s, Placeholder(values[i].0))
    ensures ReplaceValues(s, values) == s
    decreases |values|
  {
    if values != [] {
      ReplaceAllAbsent(s, Placeholder(values[0].0), values[0].1);
      assert forall i :: 0 <= i < |values[1..]| ==> values[1..][i] == values[i + 1];
      ReplaceValuesNoPlaceholder(s, values[1..]);
    }
  }

  /** A key as an identifier-like key is written: no curly braces. */
  predicate BraceFree(key: string)
  {
    forall i :: 0 <= i < |key| ==> key[i] != '{' && key[i] != '}'
  }

  lemma PlaceholderChars(key: string, m: int)
    requires BraceFree(key) && 0 <= m < |key| + 4
    ensures Placeholder(key)[m] == '{' <==> m <= 1
    ensures Placeholder(key)[m] == '}' <==> m >= |key| + 2
  {
    if 2 <= m < |key| + 2 {
      assert Placeholder(key)[m] == key[m - 2];
    }
  }

  lemma OccursChar(s: string, p: string, i: int, m: int)
    requires OccursAt(s, p, i) && 0 <= m < |p|
    ensures s[i + m] == p[m]
  {
    assert s[i..i + |p|][m] == p[m];
  }

  /** A placeholder of a brace-free key never starts one character after another one. */
  lemma NotOffByOne(s: string, k1: string, k2: string, i: int)
    requires BraceFree(k1) && BraceFree(k2)
    requires OccursAt(s, Placeholder(k1), i)
    ensures !OccursAt(s, Placeholder(k2), i + 1)
  {
    PlaceholderChars(k1, 2);
    PlaceholderChars(k2, 1);
    OccursChar(s, Placeholder(k1), i, 2);
    if OccursAt(s, Placeholder(k2), i + 1) {
      OccursChar(s, Placeholder(k2), i + 1, 1);
    }
  }

  /**
   * Placeholders of brace-free keys never overlap unless they are the same
   * occurrence of the same key.
   */
  lemma PlaceholdersDisjoint(s: string, k1: string, k2: string, i: int, j: int)
    requires BraceFree(k1) && BraceFree(k2)
    requires OccursAt(s, Placeholder(k1), i) && OccursAt(s, Placeholder(k2), j)
    requires i < j + |Placeholder(k2)| && j < i + |Placeholder(k1)|
    ensures i == j && k1 == k2
  {
    var p1, p2 := Placeholder(k1), Placeholder(k2);
    if i < j {
      OccursChar(s, p2, j, 0);
      OccursChar(s, p1, i, j - i);
      PlaceholderChars(k2, 0);
      PlaceholderChars(k1, j - i);
      NotOffByOne(s, k1, k2, i);
    } else if j < i {
      OccursChar(s, p1, i, 0);
      OccursChar(s, p2, j, i - j);
      PlaceholderChars(k1, 0);
      PlaceholderChars(k2, i - j);
      NotOffByOne(s, k2, k1, j);
    } else if |k1| < |k2| {
      OccursChar(s, p1, i, |k1| + 2);
      OccursChar(s, p2, i, |k1| + 2);
      PlaceholderChars(k1, |k1| + 2);
      PlaceholderChars(k2, |k1| + 2);
    } else if |k2| < |k1| {
      OccursChar(s, p1, i, |k2| + 2);
      OccursChar(s, p2, i, |k2| + 2);
      PlaceholderChars(k1, |k2| + 2);
      PlaceholderChars(k2, |k2| + 2);
    } else {
      assert p1 == s[i..i + |p1|] == p2;
      assert k1 == p1[2..|k1| + 2] && k2 == p2[2..|k2| + 2];
    }
  }

  /** No key of `values` is `key`, and all keys are brace-free. */
  predicate OtherKeys(values: Values, key: string)
  {
    forall i :: 0 <= i < |values| ==> BraceFree(values[i].0) && values[i].0 != key
  }

  /**
   * A placeholder whose key has no value passes through substitution
   * verbatim, whatever surrounds it; the text around it is substituted on
   * its own.
   */
  lemma {:induction false} MissingKeySurvives(a: string, key: string, b: string, values: Values)
    requires BraceFree(key) && OtherKeys(values, key)
    ensures ReplaceValues(a + Placeholder(key) + b, values)
         == ReplaceValues(a, values) + Placeholder(key) + ReplaceValues(b, values)
    decreases |values|
  {
    if values != [] {
      var (k, v) := values[0];
      var p, q := Placeholder(key), Placeholder(k);
      var s := a + p + b;
      assert OccursAt(s, p, |a|) by {
        assert s[|a|..|a| + |p|] == p;
      }
      forall i | OccursAt(s, q, i)
        ensures i + |q| <= |a| || |a| + |p| <= i
      {
        if !(i + |q| <= |a| || |a| + |p| <= i) {
          PlaceholdersDisjoint(s, k, key, i, |a|);
        }
      }
      ReplaceAllAround(a, p, b, q, v);
      assert OtherKeys(values[1..], key) by {
        assert forall i :: 0 <= i < |values[1..]| ==> values[1..][i] == values[i + 1];
      }
      MissingKeySurvives(ReplaceAll(a, q, v), key, ReplaceAll(b, q, v), values[1..]);
    }
  }

  /**
   * A placeholder whose key has a value is replaced by that value verbatim
   * (no HTML escaping), and the text around it is substituted on its own.
   */
  lemma ReplacesPlaceholder(a: string, key: string, value: string, b: string)
    requires BraceFree(key)
    ensures ReplaceValues(a + Placeholder(key) + b, [(key, value)])
         == ReplaceAll(a, Placeholder(key), value) + value + ReplaceAll(b, Placeholder(key), value)
  {
    var p := Placeholder(key);
    var s := a + p + b;
    assert OccursAt(s, p, |a|) by {
      assert s[|a|..|a| + |p|] == p;
    }
    forall i | OccursAt(s, p, i) && i != |a|
      ensures i + |p| <= |a| || |a| + |p| <= i
    {
      if !(i + |p| <= |a| || |a| + |p| <= i) {
        PlaceholdersDisjoint(s, key, key, i, |a|);
      }
    }
    ReplaceAllAt(a, b, p, value);
  }

  /** A string that is just one placeholder becomes that key's value. */
  lemma SubstituteWhole(key: string, value: string)
    requires BraceFree(key)
    ensures ReplaceValues(Placeholder(key), [(key, value)]) == value
  {
    ReplacesPlaceholder("", key, value, "");
    assert "" + Placeholder(key) + "" == Placeholder(key);
  }

  // ---------------------------------------------------------------------
  // Block fragments.
  // ---------------------------------------------------------------------

  const HeadingOpen: string := "<h2 class=\"text-2xl\">"
  const HeadingClose: string := "</h2>"
  const ParagraphOpen: string := "<p>"
  const ParagraphClose: string := "</p>"
  const CardInitials: string := "\n        <div class=\"bg-gray-50 p-5 rounded-lg\">\n          <div class=\"flex items-center gap-4\">\n            <div class=\"w-12 h-12 bg-gray-200 rounded-full flex items-center justify-center\">\n              <span class=\"text-xl\">"
  const CardName: string := "</span>\n            </div>\n            <div>\n              <h3 class=\"font-medium\">"
  const CardStatus: string := "</h3>\n              <p class=\"text-sm text-gray-600\">"
  const CardClose: string := "</p>\n            </div>\n          </div>\n        </div>"
  const ButtonOpen: string := "\n        <button class=\"px-6 py-3 rounded-md text-white\">\n          "
  const ButtonClose: string := "\n        </button>"
  const ImageSrc: string := "\n        <img \n          src=\""
  const ImageAlt: string := "\"\n          alt=\""
  const ImageClass: string := "\"\n          class=\"max-w-full h-auto rounded\"\n          "
  const ImageClose: string := "\n        />"

  /** The inline width attribute: present only when `style.width` is a non-empty string. */
  function WidthAttribute(style: map<string, string>): string
  {
    if "width" in style && style["width"] != "" then "style=\"width: " + style["width"] + ";\"" else ""
  }

  /** `renderBlock`: the fragment for one block, chosen by its `type`, with a paragraph for any other type. */
  function RenderBlock(b: Block, values: Values): string
  {
    match ParseType(b.kind)
    case Some(Heading) => HeadingOpen + Substituted(Some(b.content), values) + HeadingClose
    case Some(Paragraph) => ParagraphOpen + Substituted(Some(b.content), values) + ParagraphClose
    case Some(MemberCard) =>
      CardInitials + Substituted(Member(b.content, "initials"), values) +
      CardName + Substituted(Member(b.content, "name"), values) +
      CardStatus + Substituted(Member(b.content, "status"), values) + CardClose
    case Some(Button) => ButtonOpen + Substituted(Some(b.content), values) + ButtonClose
    case Some(Image) =>
      ImageSrc + Substituted(Member(b.content, "url"), values) +
      ImageAlt + Substituted(Member(b.content, "alt"), values) +
      ImageClass + WidthAttribute(b.style) + ImageClose
    case None => ParagraphOpen + Substituted(Some(b.content), values) + ParagraphClose
  }

  /** A block of any type outside the enum renders exactly as a paragraph with the same content. */
  lemma UnknownTypeIsParagraph(b: Block, values: Values)
    requires ParseType(b.kind).None?
    ensures RenderBlock(b, values) == RenderBlock(b.(kind := Tag(Paragraph)), values)
  {
  }

  /** A text block's fragment wraps the substituted text in its type's fixed markup. */
  lemma TextBlockShape(b: Block, values: Values, s: string)
    requires b.content == Text(s)
    ensures ParseType(b.kind) == Some(Heading) ==> RenderBlock(b, values) == HeadingOpen + ReplaceValues(s, values) + HeadingClose
    ensures ParseType(b.kind) == Some(Button) ==> RenderBlock(b, values) == ButtonOpen + ReplaceValues(s, values) + ButtonClose
    ensures ParseType(b.kind) != Some(Heading) && ParseType(b.kind) != Some(Button) &&
            ParseType(b.kind) != Some(MemberCard) && ParseType(b.kind) != Some(Image)
            ==> RenderBlock(b, values) == ParagraphOpen + ReplaceValues(s, values) + ParagraphClose
  {
  }

  /** Object content in a heading, paragraph or button block is shown unsubstituted, as `[object Object]`. */
  lemma RecordContentUnchanged(b: Block, values: Values)
    requires b.content.Record?
    requires ParseType(b.kind) == Some(Heading)
    ensures RenderBlock(b, values) == HeadingOpen + "[object Object]" + HeadingClose
  {
  }

  /** A member card whose content lacks a sub-field shows `undefined` in that sub-field's place. */
  lemma MemberCardMissingField(b: Block, values: Values)
    requires ParseType(b.kind) == Some(MemberCard)
    requires b.content.Record? && "name" !in b.content.fields
    ensures RenderBlock(b, values) ==
            CardInitials + Substituted(Member(b.content, "initials"), values) +
            CardName + "undefined" +
            CardStatus + Substituted(Member(b.content, "status"), values) + CardClose
  {
  }

  /**
   * An image's `url` and `alt` are substituted independently, and the width
   * attribute appears exactly when the style map has a non-empty `width`,
   * which is emitted without substitution.
   */
  lemma ImageShape(b: Block, values: Values, url: string, alt: string)
    requires ParseType(b.kind) == Some(Image)
    requires b.content.Record? && "url" in b.content.fields && "alt" in b.content.fields
    requires b.content.fields["url"] == Text(url) && b.content.fields["alt"] == Text(alt)
    ensures RenderBlock(b, values) ==
            ImageSrc + ReplaceValues(url, values) + ImageAlt + ReplaceValues(alt, values) +
            ImageClass + WidthAttribute(b.style) + ImageClose
    ensures WidthAttribute(b.style) != "" <==> "width" in b.style && b.style["width"] != ""
  {
  }

  /**
   * `renderBlock` on a block of a document loaded from the store: `style` is
   * then a Mongoose `Map`, whose entries are not properties, so
   * `block.style?.width` finds nothing and the block renders as if its style
   * were empty.
   */
  function RenderLoadedBlock(b: Block, values: Values): string
  {
    RenderBlock(b.(style := map[]), values)
  }

  /** A loaded image block never carries its width, though the intended rendering does. */
  lemma WidthIgnoredWhenLoaded(b: Block, values: Values)
    requires ParseType(b.kind) == Some(Image)
    requires "width" in b.style && b.style["width"] != ""
    ensures |RenderBlock(b, values)| == |RenderLoadedBlock(b, values)| + |WidthAttribute(b.style)|
    ensures RenderLoadedBlock(b, values) != RenderBlock(b, values)
  {
    var e := b.(style := map[]);
    assert ParseType(e.kind) == Some(Image);
    assert WidthAttribute(e.style) == "";
  }

  // ---------------------------------------------------------------------
  // The document.
  // ---------------------------------------------------------------------

  const DocumentHead: string := "\n      <!DOCTYPE html>\n      <html lang=\"en\">\n      <head>\n        <meta charset=\"UTF-8\">\n        <meta name=\"viewport\" content=\"width=device-width, initial-scale=1.0\">\n        <title>"
  const DocumentStyle: string := "</title>\n        <script src=\"https://cdn.tailwindcss.com\"></script>\n        <style>\n          body {\n            font-family: Arial, sans-serif;\n            line-height: 1.6;\n            margin: 0;\n            padding: 20px;\n          }\n        </style>\n      </head>\n      <body>\n        "
  const DocumentClose: string := "\n      </body>\n      </html>\n    "

  /** The fragments of the blocks, in block order. */
  function Fragments(blocks: seq<Block>, values: Values): (r: seq<string>)
    ensures |r| == |blocks|
    ensures forall i :: 0 <= i < |blocks| ==> r[i] == RenderBlock(blocks[i], values)
  {
    seq(|blocks|, i requires 0 <= i < |blocks| => RenderBlock(blocks[i], values))
  }

  /** The document the render route sends: the name as title, the fragments joined by newlines as body. */
  function Document(t: Template, values: Values): string
  {
    DocumentHead + (t.name + (DocumentStyle + (Join(Fragments(t.content, values), "\n") + DocumentClose)))
  }

  /** The middle part of a concatenation, sliced back out. */
  lemma Middle(a: string, b: string, c: string)
    ensures (a + (b + c))[|a|..|a| + |b|] == b
  {
  }

  /** The title is the template name verbatim: it is never substituted. */
  lemma TitleVerbatim(t: Template, values: Values)
    ensures Document(t, values)[|DocumentHead|..|DocumentHead| + |t.name|] == t.name
  {
    Middle(DocumentHead, t.name, DocumentStyle + (Join(Fragments(t.content, values), "\n") + DocumentClose));
  }

  lemma FragmentsSnoc(blocks: seq<Block>, b: Block, values: Values)
    ensures Fragments(blocks + [b], values) == Fragments(blocks, values) + [RenderBlock(b, values)]
  {
    var l, r := Fragments(blocks + [b], values), Fragments(blocks, values) + [RenderBlock(b, values)];
    forall i | 0 <= i < |l|
      ensures l[i] == r[i]
    {
      if i < |blocks| {
        assert (blocks + [b])[i] == blocks[i];
      }
    }
  }

  /** Appending a block appends a newline and its fragment to the body. */
  lemma AppendBlock(name: string, owner: Id, blocks: seq<Block>, b: Block, fav: bool, values: Values)
    requires blocks != []
    ensures Document(Template(name, owner, blocks + [b], fav), values)
         == DocumentHead + (name + (DocumentStyle +
            ((Join(Fragments(blocks, values), "\n") + "\n" + RenderBlock(b, values)) + DocumentClose)))
  {
    var fs := Fragments(blocks, values);
    FragmentsSnoc(blocks, b, values);
    JoinSnoc(fs, RenderBlock(b, values), "\n");
    assert Join(Fragments(blocks + [b], values), "\n") == Join(fs, "\n") + "\n" + RenderBlock(b, values);
  }

  // ---------------------------------------------------------------------
  // Worked examples.
  // ---------------------------------------------------------------------

  lemma SubstituteNameExample()
    ensures ReplaceValues("Hi {{name}}", [("name", "Sam")]) == "Hi Sam"
  {
    assert "Hi {{name}}" == "Hi " + Placeholder("name") + "";
    ReplacesPlaceholder("Hi ", "name", "Sam", "");
    assert ReplaceAll("Hi ", Placeholder("name"), "Sam") == "Hi ";
    assert ReplaceAll("", Placeholder("name"), "Sam") == "";
  }

  /** A heading with `{{name}}` renders with the value in place and no placeholder left. */
  lemma HeadingExample()
    ensures RenderBlock(Block("heading", Text("Hi {{name}}"), map[]), [("name", "Sam")])
         == HeadingOpen + "Hi Sam" + HeadingClose
  {
    var b, values := Block("heading", Text("Hi {{name}}"), map[]), [("name", "Sam")];
    assert ParseType("heading") == Some(Heading);
    TextBlockShape(b, values, "Hi {{name}}");
    SubstituteNameExample();
  }

  /** With no values, the placeholder stays in the fragment. */
  lemma MissingValueExample()
    ensures RenderBlock(Block("heading", Text("Hi {{name}}"), map[]), [])
         == HeadingOpen + "Hi {{name}}" + HeadingClose
  {
    assert ParseType("heading") == Some(Heading);
    TextBlockShape(Block("heading", Text("Hi {{name}}"), map[]), [], "Hi {{name}}");
  }

  /** A button whose text is one placeholder shows the value, whatever it is, inside the fixed button markup. */
  lemma ButtonExample(caption: string)
    ensures RenderBlock(Block("button", Text(Placeholder("label")), map[]), [("label", caption)])
         == ButtonOpen + caption + ButtonClose
  {
    var b, values := Block("button", Text(Placeholder("label")), map[]), [("label", caption)];
    assert ParseType("button") == Some(Button);
    TextBlockShape(b, values, Placeholder("label"));
    SubstituteWhole("label", caption);
  }

  /** Markup in a value is inserted as it is. */
  lemma NoEscapingExample()
    ensures ReplaceValues("{{x}}", [("x", "<script>")]) == "<script>"
  {
    ReplacesPlaceholder("", "x", "<script>", "");
    assert "" + Placeholder("x") + "" == "{{x}}";
  }

  /** A placeholder introduced by an earlier value is replaced by a later key. */
  lemma ChainedExample()
    ensures ReplaceValues("{{a}}", [("a", "{{b}}"), ("b", "X")]) == "X"
    ensures ReplaceValues("{{a}}", [("b", "X"), ("a", "{{b}}")]) == "{{b}}"
  {
    assert "{{a}}" == "" + Placeholder("a") + "";
    assert "{{b}}" == "" + Placeholder("b") + "";
    ReplacesPlaceholder("", "a", "{{b}}", "");
    ReplacesPlaceholder("", "b", "X", "");
    ReplaceValuesAppend("{{a}}", [("a", "{{b}}")], [("b", "X")]);
    assert [("a", "{{b}}"), ("b", "X")] == [("a", "{{b}}")] + [("b", "X")];
    ReplaceValuesAppend("{{a}}", [("b", "X")], [("a", "{{b}}")]);
    assert [("b", "X"), ("a", "{{b}}")] == [("b", "X")] + [("a", "{{b}}")];
    ReplaceValuesNoPlaceholder("{{a}}", [("b", "X")]);
  }
}
