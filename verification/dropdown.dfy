/** The Dropdown widget: a trigger button and a menu whose content is the rendered item list.
    Each item line is a divider rule, a bare label, a header, a link, or (for an item with
    children) a complete nested Dropdown built from a fresh widget, which draws its own id from
    the shared counter. The render fails, with no output, on the first item that has no label. */
module Dropdowns {
  import opened Common
  import opened Markup
  import opened MenuItem
  import Widgets

  /** Html::encode, left uninterpreted: every render takes it as a parameter. */
  type Encoder = string -> string

  datatype Dropdown = Dropdown(
    base: Widgets.Widget,
    /** Settable, but never read by the render. */
    buttonAttributes: Attributes,
    buttonIconAttributes: Attributes,
    buttonIconCssClass: string,
    buttonIconText: string,
    buttonLabel: string,
    buttonLabelAttributes: Attributes,
    dividerCssClass: string,
    dropdownContentCssClass: string,
    dropdownMenuCssClass: string,
    dropdownTriggerCssClass: string,
    encloseByContainer: bool,
    items: seq<Item>,
    submenuAttributes: Attributes,
    triggerAttributes: Attributes)

  /** A freshly constructed Dropdown widget. */
  const Default: Dropdown := Dropdown(
    Widgets.Default, map[], map["class" := Str("icon is-small")], "", "&#8595;", "Clic Me", map[],
    "dropdown-divider", "dropdown-content", "dropdown-menu", "dropdown-trigger", true, [], map[], map[])

  /** The style a disabled item's link receives. */
  const DisabledStyle: string := "opacity:.65; pointer-events:none;"

  /** The separator between item lines. */
  const LineSeparator: seq<Node> := [Raw(EOL)]

  // Copy-on-write setters used by the render and by callers.

  function SetItems(d: Dropdown, v: seq<Item>): (r: Dropdown)
    ensures r.items == v && r.(items := d.items) == d
  {
    d.(items := v)
  }

  function SetSubmenuAttributes(d: Dropdown, v: Attributes): (r: Dropdown)
    ensures r.submenuAttributes == v && r.(submenuAttributes := d.submenuAttributes) == d
  {
    d.(submenuAttributes := v)
  }

  function SetDividerCssClass(d: Dropdown, v: string): (r: Dropdown)
    ensures r.dividerCssClass == v && r.(dividerCssClass := d.dividerCssClass) == d
  {
    d.(dividerCssClass := v)
  }

  function UnClosedByContainer(d: Dropdown): (r: Dropdown)
    ensures !r.encloseByContainer && r.(encloseByContainer := d.encloseByContainer) == d
  {
    d.(encloseByContainer := false)
  }

  /** The nested widget built for a submenu: a fresh Dropdown whose attributes and submenu
      attributes are the accumulated submenu attributes and whose items are the children. */
  function Submenu(acc: Attributes, children: seq<Item>): (d: Dropdown)
    ensures d.items == children && d.base.attributes == acc && d.submenuAttributes == acc
    ensures d.encloseByContainer && d.base.autoGenerate && d.base.autoIdPrefix == "w"
  {
    Default.(base := Widgets.Default.(attributes := acc), items := children, submenuAttributes := acc)
  }

  /** The divider rule. */
  function Divider(cls: string): Node {
    Tag("hr", ClassOnly(cls), [])
  }

  /** The id shared by the trigger and the menu, and the counter after choosing it: the caller's
      `id` attribute when there is one (no id is drawn), otherwise getId() . "-dropdown". */
  function MenuId(w: Widgets.Widget, counter: int): (r: (AttrValue, int))
    ensures "id" in w.attributes ==> r == (w.attributes["id"], counter)
    ensures "id" !in w.attributes ==>
      r == (Str(Widgets.GetId(w, counter).id + "-dropdown"), Widgets.GetId(w, counter).next)
    ensures counter <= r.1 <= counter + 1
  {
    if "id" in w.attributes then (w.attributes["id"], counter)
    else
      var draw := Widgets.GetId(w, counter);
      (Str(draw.id + "-dropdown"), draw.next)
  }

  /** The trigger button: the trigger attributes plus the `button` class, `aria-haspopup` and
      `aria-controls` pointing at the menu id. */
  function TriggerButton(d: Dropdown, id: AttrValue): (n: Node)
    ensures n.Tag? && n.name == "button" && "aria-controls" in n.attrs && n.attrs["aria-controls"] == id
    ensures "button" in ClassesOf(n.attrs)
    ensures "aria-haspopup" in n.attrs && n.attrs["aria-haspopup"] == Str("true")
    ensures forall k :: k in d.triggerAttributes && k != "class" && k != "aria-haspopup" && k != "aria-controls" ==>
      k in n.attrs && n.attrs[k] == d.triggerAttributes[k]
    ensures n.children == ButtonLabel(d)
  {
    var attrs := AddClass(d.triggerAttributes, "button")["aria-haspopup" := Str("true")]["aria-controls" := id];
    Tag("button", attrs, ButtonLabel(d))
  }

  /** renderLabelButton: the label span when the label is not empty, then the icon span. */
  function ButtonLabel(d: Dropdown): (r: seq<Node>)
    ensures |r| <= 2
    ensures d.buttonLabel != "" <==> |r| > 0 && r[0] == Tag("span", d.buttonLabelAttributes, [Raw(d.buttonLabel)])
    ensures HasIcon(d.buttonIconText, d.buttonIconCssClass) <==>
      |r| > 0 && r[|r| - 1] == IconSpan(d.buttonIconAttributes, d.buttonIconCssClass, d.buttonIconText)
  {
    (if d.buttonLabel != "" then [Tag("span", d.buttonLabelAttributes, [Raw(d.buttonLabel)])] else [])
    + (if HasIcon(d.buttonIconText, d.buttonIconCssClass)
       then [IconSpan(d.buttonIconAttributes, d.buttonIconCssClass, d.buttonIconText)] else [])
  }

  function Trigger(d: Dropdown, id: AttrValue): Node {
    Tag("div", ClassOnly(d.dropdownTriggerCssClass), [TriggerButton(d, id)])
  }

  /** The menu: a div with the menu class and the id, holding the content div with the items. */
  function Menu(d: Dropdown, id: AttrValue, body: seq<Node>): (n: Node)
    ensures n.Tag? && "id" in n.attrs && n.attrs["id"] == id
    ensures ClassesOf(n.attrs) == [d.dropdownMenuCssClass]
    ensures n.children == [Tag("div", ClassOnly(d.dropdownContentCssClass), body)]
  {
    Tag("div", ClassOnly(d.dropdownMenuCssClass)["id" := id],
        [Tag("div", ClassOnly(d.dropdownContentCssClass), body)])
  }

  /** The enclosing container: the widget attributes (without `id`) plus the `dropdown` class. */
  function Container(d: Dropdown, id: AttrValue, body: seq<Node>): Node {
    Tag("div", AddClass(d.base.attributes - {"id"}, "dropdown"), [Trigger(d, id), Menu(d, id, body)])
  }

  /** The label after optional encoding. */
  function ItemText(x: Item, enc: Encoder): string
    requires x.Entry? && x.caption.Some?
  {
    if x.encode then enc(x.caption.value) else x.caption.value
  }

  /** The label after encoding and icon decoration. */
  function Decorated(x: Item, enc: Encoder): seq<Node>
    requires x.Entry? && x.caption.Some?
  {
    LabelWithIcon(ItemText(x, enc), x.iconText, x.iconCssClass, x.iconAttributes)
  }

  /** The link attributes: the item's url attributes plus `dropdown-item`, then the disabled
      style if disabled, or else `is-active` if active. */
  function LinkAttributes(x: Item): Attributes
    requires x.Entry?
  {
    var a := AddClass(x.urlAttributes, "dropdown-item");
    if x.disable then AddStyle(a, DisabledStyle)
    else if x.active.GetOr(false) then AddClass(a, "is-active")
    else a
  }

  /** The line of an item without children, by the first rule that applies: a decorated label
      that prints as "-" gives the divider; `enclose` false gives the bare label; an empty url
      gives a header, whose builder encodes its content, so the decorated label (icon span
      included) appears there as escaped text; anything else gives a link to the url. */
  function LeafLine(d: Dropdown, x: Item, enc: Encoder): seq<Node>
    requires x.Entry? && x.caption.Some?
  {
    var deco := Decorated(x, enc);
    var url := x.url.GetOr("");
    if deco == [Raw("-")] then [Divider(d.dividerCssClass)]
    else if !x.enclose then deco
    else if url == "" then [Tag("h6", ClassOnly("dropdown-header"), [Escaped(deco)])]
    else [Tag("a", LinkAttributes(x)["href" := Str(url)], deco)]
  }

  /** Whether an item opens a nested dropdown. */
  predicate IsSubmenu(x: Item) {
    x.Entry? && x.caption.Some? && x.items != []
  }

  /** The submenu attributes after an item: an item with children merges its own submenu
      attributes over the accumulated ones (array_merge, last value wins per key). */
  function NextAcc(acc: Attributes, x: Item): Attributes {
    if IsSubmenu(x) then acc + x.submenuAttributes else acc
  }

  /** One rendered item and the submenu attributes accumulated after it. */
  datatype Step = Step(line: seq<Node>, acc: Attributes)

  /** The whole widget: pick the id (drawing from the counter unless the caller gave one), render
      the items, then either wrap them in trigger and menu or return the joined lines. */
  function RenderDropdown(d: Dropdown, enc: Encoder, counter: int): (r: Rendered<seq<Node>>)
    ensures counter <= r.next
    ensures r.Ok? && d.encloseByContainer ==> |r.value| == 1
    decreases ItemsSize(d.items), 2
  {
    var (id, c1) := MenuId(d.base, counter);
    match RenderItems(d, d.items, enc, d.submenuAttributes, c1)
    case Fail(e, n) => Fail(e, n)
    case Ok(lines, n) =>
      var body := Join(lines, LineSeparator);
      if d.encloseByContainer then Ok([Container(d, id, body)], n) else Ok(body, n)
  }

  /** renderItems: one line per item, in order; the first failing item aborts the render. */
  function RenderItems(d: Dropdown, items: seq<Item>, enc: Encoder, acc: Attributes, counter: int)
    : (r: Rendered<seq<seq<Node>>>)
    ensures counter <= r.next
    ensures r.Ok? ==> |r.value| == |items|
    decreases ItemsSize(items), 1
  {
    if items == [] then Ok([], counter)
    else
      match RenderItem(d, items[0], enc, acc, counter)
      case Fail(e, n) => Fail(e, n)
      case Ok(step, n) =>
        match RenderItems(d, items[1..], enc, step.acc, n)
        case Fail(e, m) => Fail(e, m)
        case Ok(rest, m) => Ok([step.line] + rest, m)
  }

  /** A successful render of a non-empty list is the head's line followed by the tail's
      lines, the tail rendered from the head's accumulated attributes and counter. */
  lemma ItemsCons(d: Dropdown, items: seq<Item>, enc: Encoder, acc: Attributes, c: int)
    requires items != []
    ensures var r := RenderItems(d, items, enc, acc, c);
      var r0 := RenderItem(d, items[0], enc, acc, c);
      r.Ok? ==> (r0.Ok? && r0.value.acc == NextAcc(acc, items[0])
        && RenderItems(d, items[1..], enc, r0.value.acc, r0.next).Ok?
        && r.value == [r0.value.line] + RenderItems(d, items[1..], enc, r0.value.acc, r0.next).value)
  {
  }

  /** One item: the divider marker, a missing label, a leaf, or a nested Dropdown. */
  function RenderItem(d: Dropdown, x: Item, enc: Encoder, acc: Attributes, counter: int)
    : (r: Rendered<Step>)
    ensures counter <= r.next
    ensures r.Ok? ==> r.value.acc == NextAcc(acc, x)
    ensures r.Ok? && IsSubmenu(x) ==> |r.value.line| == 1
    ensures !IsSubmenu(x) ==> r.next == counter
    decreases ItemSize(x), 0
  {
    match x
    case Text(s) =>
      if s == "-" then Ok(Step([Divider(d.dividerCssClass)], acc), counter) else Fail(MissingLabel, counter)
    case Entry(_, _, _, _, _, _, _, _, _, _, _, _, _, _, _, children) =>
      if x.caption.None? then Fail(MissingLabel, counter)
      else if children == [] then Ok(Step(LeafLine(d, x, enc), acc), counter)
      else
        var acc' := acc + x.submenuAttributes;
        match RenderDropdown(Submenu(acc', children), enc, counter)
        case Fail(e, n) => Fail(e, n)
        case Ok(nodes, n) => Ok(Step(nodes, acc'), n)
  }
}
