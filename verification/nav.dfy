/** The Nav widget: a flat list of navbar entries joined by newlines. A string entry is emitted
    verbatim; an array entry becomes a navbar link, or, when it has children, a hoverable
    navbar dropdown whose menu is an unenclosed Dropdown over the children after the active
    pass (isChildActive) has marked them. */
module Navs {
  import opened Common
  import opened Markup
  import opened MenuItem
  import Widgets
  import Dropdowns

  datatype Nav = Nav(
    base: Widgets.Widget,
    activateItems: bool,
    activateParents: bool,
    currentPath: string,
    items: seq<Item>,
    hasDropdownCssClass: string,
    isHoverableCssClass: string,
    navBarDropdownCssClass: string,
    navBarItemCssClass: string,
    navBarLinkCssClass: string)

  /** A freshly constructed Nav widget. */
  const Default: Nav := Nav(
    Widgets.Default, true, false, "", [],
    "has-dropdown", "is-hoverable", "navbar-dropdown", "navbar-item", "navbar-link")

  /** The separator between entries (a literal "\n"). */
  const NavSeparator: seq<Node> := [Raw("\n")]

  // Copy-on-write setters.

  function WithoutActivateItems(n: Nav): (r: Nav)
    ensures !r.activateItems && r.(activateItems := n.activateItems) == n
  {
    n.(activateItems := false)
  }

  function ActivateParents(n: Nav): (r: Nav)
    ensures r.activateParents && r.(activateParents := n.activateParents) == n
  {
    n.(activateParents := true)
  }

  function CurrentPath(n: Nav, v: string): (r: Nav)
    ensures r.currentPath == v && r.(currentPath := n.currentPath) == n
  {
    n.(currentPath := v)
  }

  function SetItems(n: Nav, v: seq<Item>): (r: Nav)
    ensures r.items == v && r.(items := n.items) == n
  {
    n.(items := v)
  }

  /** isItemActive: the url is the current path, the current path is not the site root, and
      activation is on. */
  predicate IsItemActive(url: string, currentPath: string, activateItems: bool) {
    currentPath != "/" && url == currentPath && activateItems
  }

  /** The url an entry links to: its own, or "#". */
  function UrlOf(x: Item): string
    requires x.Entry?
  {
    x.url.GetOr("#")
  }

  /** One child after the active pass. An array child whose `active` is missing or false gets
      it computed from its url; a child with children has them marked recursively and, when it
      was explicitly active or parents are activated, its `attributes` replaced by
      `['active' => true]`. Every other key is kept. Strings pass through. */
  function AnnotateChild(n: Nav, x: Item): (r: Item)
    ensures x.Text? ==> r == x
    ensures x.Entry? ==> r.Entry? && r.active.Some?
    ensures x.Entry? ==>
      (r.active == Some(true) <==> x.active == Some(true) || IsItemActive(UrlOf(x), n.currentPath, n.activateItems))
    ensures x.Entry? ==> r.items == IsChildActive(n, x.items)
    ensures x.Entry? ==> r.(active := x.active, items := x.items, attributes := x.attributes) == x
    ensures ItemSize(r) == ItemSize(x)
    decreases ItemSize(x), 0
  {
    match x
    case Text(_) => x
    case Entry(_, _, _, _, _, _, _, _, _, _, _, _, _, _, _, children) =>
      var active := if x.active == Some(true) then x.active
                    else Some(IsItemActive(UrlOf(x), n.currentPath, n.activateItems));
      if children == [] then x.(active := active)
      else
        var marked := x.active == Some(true) || n.activateParents;
        x.(active := active, items := IsChildActive(n, children),
           attributes := if marked then map["active" := Flag(true)] else x.attributes)
  }

  /** isChildActive: every child annotated, in order. */
  function IsChildActive(n: Nav, items: seq<Item>): (r: seq<Item>)
    ensures |r| == |items|
    ensures ItemsSize(r) == ItemsSize(items)
    decreases ItemsSize(items), 1
  {
    if items == [] then []
    else [AnnotateChild(n, items[0])] + IsChildActive(n, items[1..])
  }

  /** The nested widget for an entry's children: a fresh Dropdown with the navbar divider
      class, not enclosed by a container. */
  function NavSubmenu(children: seq<Item>): (d: Dropdowns.Dropdown)
    ensures d.items == children && !d.encloseByContainer && d.dividerCssClass == "navbar-divider"
    ensures d.base == Widgets.Default && d.submenuAttributes == map[]
  {
    Dropdowns.Default.(dividerCssClass := "navbar-divider", items := children, encloseByContainer := false)
  }

  /** `active ?? isItemActive(url, …)`. */
  predicate EntryActive(n: Nav, x: Item)
    requires x.Entry?
  {
    x.active.GetOr(IsItemActive(UrlOf(x), n.currentPath, n.activateItems))
  }

  /** The link attributes before the navbar class: the disabled style when `disabled`, and
      `is-active` when activation is on and the entry is active; both can apply. */
  function NavLinkAttributes(n: Nav, x: Item): Attributes
    requires x.Entry?
  {
    var a := if x.disabled then AddStyle(x.urlAttributes, Dropdowns.DisabledStyle) else x.urlAttributes;
    if n.activateItems && EntryActive(n, x) then AddClass(a, "is-active") else a
  }

  /** The attributes of an entry's dropdown container: the widget attributes plus the navbar
      item, has-dropdown and hoverable classes. */
  function DropdownContainerAttributes(n: Nav): Attributes {
    AddClass(AddClass(AddClass(n.base.attributes, n.navBarItemCssClass), n.hasDropdownCssClass), n.isHoverableCssClass)
  }

  /** renderItem: the label is required; without children the entry is a navbar-item link,
      with children a dropdown container holding the navbar link and the menu div, whose
      content is the children rendered by an unenclosed Dropdown. */
  function RenderItem(n: Nav, x: Item, enc: Dropdowns.Encoder, counter: int): (r: Rendered<Node>)
    requires x.Entry?
    ensures counter <= r.next
    ensures x.items == [] ==> r.next == counter
    ensures r.Fail? <==> x.caption.None? || (x.items != [] && Dropdowns.RenderDropdown(NavSubmenu(IsChildActive(n, x.items)), enc, counter).Fail?)
    ensures r.Ok? ==> r.value.Tag? && (r.value.name == "a" <==> x.items == [])
  {
    if x.caption.None? then Fail(MissingLabel, counter)
    else
      var text := Dropdowns.Decorated(x, enc);
      var link := NavLinkAttributes(n, x);
      var href := Str(UrlOf(x));
      if x.items == [] then
        Ok(Tag("a", AddClass(link, "navbar-item")["href" := href], text), counter)
      else
        match Dropdowns.RenderDropdown(NavSubmenu(IsChildActive(n, x.items)), enc, counter)
        case Fail(e, m) => Fail(e, m)
        case Ok(menu, m) =>
          Ok(Tag("div", DropdownContainerAttributes(n),
                 [Tag("a", AddClass(link, n.navBarLinkCssClass)["href" := href], text),
                  Tag("div", AddClass(x.dropdownAttributes, n.navBarDropdownCssClass), menu)]), m)
  }

  /** `!isset($item['visible']) || $item['visible']`: strings are always visible. */
  predicate Visible(x: Item) {
    x.Text? || x.visible != Some(false)
  }

  /** The line of one visible entry: a string verbatim, an array rendered. */
  function Line(n: Nav, x: Item, enc: Dropdowns.Encoder, counter: int): (r: Rendered<seq<Node>>)
    ensures counter <= r.next
    ensures r.Ok? ==> |r.value| == 1
  {
    match x
    case Text(s) => Ok([Raw(s)], counter)
    case Entry(_, _, _, _, _, _, _, _, _, _, _, _, _, _, _, _) =>
      match RenderItem(n, x, enc, counter)
      case Fail(e, m) => Fail(e, m)
      case Ok(node, m) => Ok([node], m)
  }

  /** The lines of the visible entries, in order; the first failure aborts. */
  function RenderLines(n: Nav, items: seq<Item>, enc: Dropdowns.Encoder, counter: int)
    : (r: Rendered<seq<seq<Node>>>)
    ensures counter <= r.next
    decreases |items|
  {
    if items == [] then Ok([], counter)
    else if !Visible(items[0]) then RenderLines(n, items[1..], enc, counter)
    else
      match Line(n, items[0], enc, counter)
      case Fail(e, m) => Fail(e, m)
      case Ok(line, m) =>
        match RenderLines(n, items[1..], enc, m)
        case Fail(e, k) => Fail(e, k)
        case Ok(rest, k) => Ok([line] + rest, k)
  }

  /** renderNav: the visible entries' lines joined by "\n". */
  function RenderNav(n: Nav, enc: Dropdowns.Encoder, counter: int): (r: Rendered<seq<Node>>)
    ensures counter <= r.next
  {
    match RenderLines(n, n.items, enc, counter)
    case Fail(e, m) => Fail(e, m)
    case Ok(lines, m) => Ok(Join(lines, NavSeparator), m)
  }
}
