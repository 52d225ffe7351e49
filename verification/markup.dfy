/** The abstract output of the widgets: a tree of tags with attribute maps, standing in for the
    HTML strings the tag builders print. Raw nodes are markup spliced in without encoding
    (labels, pre-rendered item strings, text contents); Escaped nodes are markup a builder
    encodes as text. Attribute arrays are maps; the two
    tag-builder helpers the widgets use on them (adding a CSS class, adding a CSS style) are
    stated here once. */
module Markup {

  /** The value of one HTML attribute: a string, a token list (the `class` and `style` keys), or
      a boolean (as in `['active' => true]`). */
  datatype AttrValue = Str(s: string) | Tokens(items: seq<string>) | Flag(on: bool)

  /** A PHP attribute array with string keys. `array_merge` of two such arrays is `a + b`. */
  type Attributes = map<string, AttrValue>

  datatype Node =
    | Tag(name: string, attrs: Attributes, children: seq<Node>)
    | Raw(html: string)
      /** The printed markup of `markup`, HTML-escaped into text (a tag builder whose content
          encoding is left on): the reader sees its source, so it holds no elements and no
          attributes. */
    | Escaped(markup: seq<Node>)

  /** The end-of-line separator the widgets join item lines with (PHP_EOL on a Unix host, and
      the literal "\n" in Nav). */
  const EOL: string := "\n"

  /** The token list stored under `key`; a plain string counts as one token. */
  function TokensOf(a: Attributes, key: string): seq<string> {
    if key !in a then []
    else match a[key]
      case Tokens(t) => t
      case Str(s) => [s]
      case Flag(_) => []
  }

  function ClassesOf(a: Attributes): seq<string> {
    TokensOf(a, "class")
  }

  function StylesOf(a: Attributes): seq<string> {
    TokensOf(a, "style")
  }

  /** Html::addCssClass: append the class unless it is already there; other keys are kept. */
  function AddClass(a: Attributes, cls: string): (r: Attributes)
    ensures cls in ClassesOf(r)
    ensures forall c :: c in ClassesOf(a) ==> c in ClassesOf(r)
    ensures forall c :: c in ClassesOf(r) ==> c in ClassesOf(a) || c == cls
    ensures forall k :: k in a && k != "class" ==> k in r && r[k] == a[k]
    ensures forall k :: k in r ==> k in a || k == "class"
    ensures cls !in ClassesOf(a) ==> ClassesOf(r) == ClassesOf(a) + [cls]
  {
    var cur := ClassesOf(a);
    a["class" := Tokens(if cls in cur then cur else cur + [cls])]
  }

  /** Html::addCssStyle: append one style declaration; other keys are kept. */
  function AddStyle(a: Attributes, style: string): (r: Attributes)
    ensures StylesOf(r) == StylesOf(a) + [style]
    ensures forall k :: k in a && k != "style" ==> k in r && r[k] == a[k]
    ensures forall k :: k in r ==> k in a || k == "style"
  {
    a["style" := Tokens(StylesOf(a) + [style])]
  }

  /** The attribute array of a tag built with `->class($cls)` and nothing else. */
  function ClassOnly(cls: string): (r: Attributes)
    ensures ClassesOf(r) == [cls] && r.Keys == {"class"}
  {
    map["class" := Tokens([cls])]
  }

  /** The icon fragment put before a label: a span with the icon attributes wrapping an `i`
      element with the icon class and text (renderLabelItem / renderLabelButton). */
  function IconSpan(iconAttributes: Attributes, iconCssClass: string, iconText: string): Node {
    Tag("span", iconAttributes, [Tag("i", ClassOnly(iconCssClass), [Raw(iconText)])])
  }

  predicate HasIcon(iconText: string, iconCssClass: string) {
    iconText != "" || iconCssClass != ""
  }

  /** renderLabelItem: the icon, when there is one, and then the label, when it is not empty. */
  function LabelWithIcon(text: string, iconText: string, iconCssClass: string,
                         iconAttributes: Attributes): (r: seq<Node>)
    ensures |r| <= 2
    ensures HasIcon(iconText, iconCssClass) <==> |r| > 0 && r[0] == IconSpan(iconAttributes, iconCssClass, iconText)
    ensures text != "" <==> |r| > 0 && r[|r| - 1] == Raw(text)
    ensures r == [] <==> !HasIcon(iconText, iconCssClass) && text == ""
  {
    (if HasIcon(iconText, iconCssClass) then [IconSpan(iconAttributes, iconCssClass, iconText)] else [])
    + (if text != "" then [Raw(text)] else [])
  }

  /** PHP's implode: the lines in order with `sep` between consecutive ones. */
  function Join(lines: seq<seq<Node>>, sep: seq<Node>): (r: seq<Node>)
    ensures lines == [] ==> r == []
    ensures |lines| == 1 ==> r == lines[0]
    decreases |lines|
  {
    if |lines| == 0 then []
    else if |lines| == 1 then lines[0]
    else lines[0] + sep + Join(lines[1..], sep)
  }

  /** The values of attribute `key` over a node list, in document (pre-)order. */
  function AttrsInOrder(nodes: seq<Node>, key: string): seq<AttrValue>
    decreases nodes
  {
    if nodes == [] then []
    else NodeAttrs(nodes[0], key) + AttrsInOrder(nodes[1..], key)
  }

  function NodeAttrs(n: Node, key: string): seq<AttrValue>
    decreases n
  {
    match n
    case Raw(_) => []
    case Escaped(_) => []
    case Tag(_, a, kids) => (if key in a then [a[key]] else []) + AttrsInOrder(kids, key)
  }

  /** Every `id` in document order. */
  function Ids(nodes: seq<Node>): seq<AttrValue> {
    AttrsInOrder(nodes, "id")
  }

  lemma AttrsInOrderAppend(a: seq<Node>, b: seq<Node>, key: string)
    ensures AttrsInOrder(a + b, key) == AttrsInOrder(a, key) + AttrsInOrder(b, key)
    decreases a
  {
    if a == [] {
      assert a + b == b;
    } else {
      assert (a + b)[1..] == a[1..] + b;
      AttrsInOrderAppend(a[1..], b, key);
    }
  }

  /** Joining keeps the attribute values of the lines in order when the separator has none. */
  lemma JoinAttrs(lines: seq<seq<Node>>, sep: seq<Node>, key: string)
    requires AttrsInOrder(sep, key) == []
    ensures AttrsInOrder(Join(lines, sep), key) == LinesAttrs(lines, key)
    decreases |lines|
  {
    if |lines| > 1 {
      var rest := Join(lines[1..], sep);
      assert Join(lines, sep) == (lines[0] + sep) + rest;
      AttrsInOrderAppend(lines[0] + sep, rest, key);
      AttrsInOrderAppend(lines[0], sep, key);
      JoinAttrs(lines[1..], sep, key);
    } else if |lines| == 1 {
      assert LinesAttrs(lines, key) == AttrsInOrder(lines[0], key) + LinesAttrs([], key);
    }
  }

  /** The values of attribute `key` over a list of lines, line by line. */
  function LinesAttrs(lines: seq<seq<Node>>, key: string): seq<AttrValue>
    decreases |lines|
  {
    if lines == [] then [] else AttrsInOrder(lines[0], key) + LinesAttrs(lines[1..], key)
  }

  /** The shape of a dropdown container: a div whose first child wraps exactly one button
      (the trigger) and which has a second child (the menu). */
  predicate IsTriggerContainer(n: Node) {
    && n.Tag?
    && |n.children| == 2
    && n.children[0].Tag?
    && |n.children[0].children| == 1
    && n.children[0].children[0].Tag?
    && n.children[0].children[0].name == "button"
    && n.children[1].Tag?
  }

  /** Every trigger container below and including `n` links its button to its menu: the
      button's `aria-controls` is the menu's `id`. */
  predicate AriaLinked(n: Node)
    decreases n
  {
    match n
    case Raw(_) => true
    case Escaped(_) => true
    case Tag(_, _, kids) =>
      && (IsTriggerContainer(n) ==>
            var button := kids[0].children[0].attrs;
            var menu := kids[1].attrs;
            "aria-controls" in button && "id" in menu && button["aria-controls"] == menu["id"])
      && forall k :: k in kids ==> AriaLinked(k)
  }

  predicate AllLinked(nodes: seq<Node>) {
    forall n :: n in nodes ==> AriaLinked(n)
  }

  lemma JoinLinked(lines: seq<seq<Node>>, sep: seq<Node>)
    requires AllLinked(sep)
    requires forall i :: 0 <= i < |lines| ==> AllLinked(lines[i])
    ensures AllLinked(Join(lines, sep))
    decreases |lines|
  {
    if |lines| > 1 {
      JoinLinked(lines[1..], sep);
    }
  }

  /** Label fragments are linked: an icon span holds an `i`, never a button. */
  lemma LabelLinked(text: string, iconText: string, iconCssClass: string, iconAttributes: Attributes)
    ensures AllLinked(LabelWithIcon(text, iconText, iconCssClass, iconAttributes))
  {
    var i := Tag("i", ClassOnly(iconCssClass), [Raw(iconText)]);
    assert AriaLinked(Raw(iconText));
    assert AriaLinked(i);
    assert AriaLinked(IconSpan(iconAttributes, iconCssClass, iconText));
  }
}
