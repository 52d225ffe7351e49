/** The ids of a rendered Dropdown and the trigger-to-menu linkage. Every dropdown, nested ones
    included, draws its menu id from the shared counter before its items are rendered, so the
    menu ids appear in document order as consecutive counter values; and every trigger
    button's `aria-controls` names its own menu. */
module DropdownIds {
  import opened Common
  import opened Decimal
  import opened Markup
  import opened MenuItem
  import opened Dropdowns
  import Widgets

  /** The menu id an auto-generated nested Dropdown receives for counter value `k`. */
  function AutoMenuId(k: int): AttrValue {
    Str("w" + IntToString(k) + "-dropdown")
  }

  lemma AutoMenuIdInjective(x: int, y: int)
    requires x != y
    ensures AutoMenuId(x) != AutoMenuId(y)
  {
    Widgets.AutoIdsDiffer("w", "-dropdown", x, y);
  }

  /** The values `f` gives the counter values a, a+1, ..., b-1, in that order. */
  function Drawn(f: int -> AttrValue, a: int, b: int): (r: seq<AttrValue>)
    ensures |r| == if a < b then b - a else 0
    decreases b - a
  {
    if a >= b then [] else [f(a)] + Drawn(f, a + 1, b)
  }

  /** The auto menu ids for counter values a, a+1, ..., b-1. */
  function AutoRange(a: int, b: int): seq<AttrValue> {
    Drawn(AutoMenuId, a, b)
  }

  lemma {:induction false} DrawnConcat(f: int -> AttrValue, a: int, m: int, b: int)
    requires a <= m <= b
    ensures Drawn(f, a, m) + Drawn(f, m, b) == Drawn(f, a, b)
    decreases m - a
  {
    if a < m {
      DrawnConcat(f, a + 1, m, b);
      var x, y := Drawn(f, a + 1, m), Drawn(f, m, b);
      assert Drawn(f, a, m) == [f(a)] + x;
      assert Drawn(f, a, b) == [f(a)] + (x + y);
      assert ([f(a)] + x) + y == [f(a)] + (x + y);
    }
  }

  lemma {:induction false} DrawnAt(f: int -> AttrValue, a: int, b: int, i: int)
    requires 0 <= i < b - a
    ensures Drawn(f, a, b)[i] == f(a + i)
    decreases i
  {
    if i > 0 {
      DrawnAt(f, a + 1, b, i - 1);
    }
  }

  lemma DrawnAtDiffer(f: int -> AttrValue, a: int, b: int, i: int, j: int)
    requires 0 <= i < j < b - a && f(a + i) != f(a + j)
    ensures Drawn(f, a, b)[i] != Drawn(f, a, b)[j]
  {
    DrawnAt(f, a, b, i);
    DrawnAt(f, a, b, j);
  }

  /** The auto menu ids of one render are pairwise distinct. */
  lemma AutoRangeDistinct(a: int, b: int)
    ensures forall i, j :: 0 <= i < j < |AutoRange(a, b)| ==> AutoRange(a, b)[i] != AutoRange(a, b)[j]
  {
    var r := AutoRange(a, b);
    forall i, j | 0 <= i < j < |r|
      ensures r[i] != r[j]
    {
      AutoMenuIdInjective(a + i, a + j);
      DrawnAtDiffer(AutoMenuId, a, b, i, j);
    }
  }

  /** No item attribute array that reaches the output carries an `id` key. */
  predicate ItemIdFree(x: Item)
    decreases ItemSize(x), 0
  {
    match x
    case Text(_) => true
    case Entry(_, _, _, _, _, _, _, _, _, _, _, _, _, _, _, children) =>
      && "id" !in x.urlAttributes && "id" !in x.iconAttributes && "id" !in x.submenuAttributes
      && ItemsIdFree(children)
  }

  predicate ItemsIdFree(items: seq<Item>)
    decreases ItemsSize(items), 1
  {
    items == [] || (ItemIdFree(items[0]) && ItemsIdFree(items[1..]))
  }

  /** The widget's own arrays carry no `id` key apart from the one that names the menu. */
  predicate ButtonIdFree(d: Dropdown) {
    "id" !in d.triggerAttributes && "id" !in d.buttonLabelAttributes && "id" !in d.buttonIconAttributes
  }

  lemma SingleNode(n: Node, key: string)
    ensures AttrsInOrder([n], key) == NodeAttrs(n, key)
  {
    assert [n][1..] == [];
  }

  lemma PairNodes(a: Node, b: Node, key: string)
    ensures AttrsInOrder([a, b], key) == NodeAttrs(a, key) + NodeAttrs(b, key)
  {
    assert [a, b][1..] == [b];
    SingleNode(b, key);
  }

  lemma LinesCons(l: seq<Node>, rest: seq<seq<Node>>, key: string)
    ensures LinesAttrs([l] + rest, key) == AttrsInOrder(l, key) + LinesAttrs(rest, key)
  {
    assert ([l] + rest)[1..] == rest;
  }

  lemma IconSpanIdFree(attrs: Attributes, cls: string, text: string)
    requires "id" !in attrs
    ensures NodeAttrs(IconSpan(attrs, cls, text), "id") == []
  {
    var i := Tag("i", ClassOnly(cls), [Raw(text)]);
    SingleNode(Raw(text), "id");
    SingleNode(i, "id");
  }

  lemma LabelIdFree(text: string, iconText: string, cls: string, attrs: Attributes)
    requires "id" !in attrs
    ensures AttrsInOrder(LabelWithIcon(text, iconText, cls, attrs), "id") == []
  {
    IconSpanIdFree(attrs, cls, iconText);
    SingleNode(IconSpan(attrs, cls, iconText), "id");
    SingleNode(Raw(text), "id");
    PairNodes(IconSpan(attrs, cls, iconText), Raw(text), "id");
  }

  /** A leaf line carries no id. */
  lemma LeafIdFree(d: Dropdown, x: Item, enc: Encoder)
    requires x.Entry? && x.caption.Some? && ItemIdFree(x)
    ensures AttrsInOrder(LeafLine(d, x, enc), "id") == []
  {
    var deco := Decorated(x, enc);
    LabelIdFree(ItemText(x, enc), x.iconText, x.iconCssClass, x.iconAttributes);
    var line := LeafLine(d, x, enc);
    if |line| == 1 {
      SingleNode(line[0], "id");
      if deco != [Raw("-")] && x.enclose && x.url.GetOr("") != "" {
        assert "id" !in LinkAttributes(x);
      } else if deco != [Raw("-")] && x.enclose {
        SingleNode(Escaped(deco), "id");
      }
    }
  }

  /** The trigger holds no id: the button's attributes name the menu only by `aria-controls`. */
  lemma TriggerIdFree(d: Dropdown, id: AttrValue)
    requires ButtonIdFree(d)
    ensures NodeAttrs(Trigger(d, id), "id") == []
  {
    var b := TriggerButton(d, id);
    assert "id" !in b.attrs;
    var lbl := ButtonLabel(d);
    SingleNode(Raw(d.buttonLabel), "id");
    var span := Tag("span", d.buttonLabelAttributes, [Raw(d.buttonLabel)]);
    SingleNode(span, "id");
    var icon := IconSpan(d.buttonIconAttributes, d.buttonIconCssClass, d.buttonIconText);
    IconSpanIdFree(d.buttonIconAttributes, d.buttonIconCssClass, d.buttonIconText);
    SingleNode(icon, "id");
    PairNodes(span, icon, "id");
    assert AttrsInOrder(lbl, "id") == [];
    SingleNode(b, "id");
  }

  /** The ids of an enclosed render: the menu id, then those of the item lines in order. */
  lemma ContainerIdsInOrder(d: Dropdown, id: AttrValue, lines: seq<seq<Node>>)
    requires ButtonIdFree(d)
    ensures Ids([Container(d, id, Join(lines, LineSeparator))]) == [id] + LinesAttrs(lines, "id")
  {
    var body := Join(lines, LineSeparator);
    SingleNode(Raw(EOL), "id");
    JoinAttrs(lines, LineSeparator, "id");
    var content := Tag("div", ClassOnly(d.dropdownContentCssClass), body);
    SingleNode(content, "id");
    TriggerIdFree(d, id);
    var n := Container(d, id, body);
    assert "id" !in n.attrs;
    PairNodes(Trigger(d, id), Menu(d, id, body), "id");
    SingleNode(n, "id");
  }

  /** Ids of the item lines: with no `id` in the item arrays or the accumulated submenu
      attributes, they are exactly the auto menu ids of the nested dropdowns, one per counter
      value drawn, in document order. */
  lemma {:induction false} ItemsIds(d: Dropdown, items: seq<Item>, enc: Encoder, acc: Attributes, c: int)
    requires ItemsIdFree(items) && "id" !in acc
    ensures var r := RenderItems(d, items, enc, acc, c);
      r.Ok? ==> LinesAttrs(r.value, "id") == AutoRange(c, r.next)
    decreases ItemsSize(items), 1
  {
    var r := RenderItems(d, items, enc, acc, c);
    if items != [] && r.Ok? {
      var r0 := RenderItem(d, items[0], enc, acc, c);
      ItemIds(d, items[0], enc, acc, c);
      var rest := RenderItems(d, items[1..], enc, r0.value.acc, r0.next);
      ItemsIds(d, items[1..], enc, r0.value.acc, r0.next);
      LinesCons(r0.value.line, rest.value, "id");
      DrawnConcat(AutoMenuId, c, r0.next, rest.next);
    }
  }

  lemma {:induction false} ItemIds(d: Dropdown, x: Item, enc: Encoder, acc: Attributes, c: int)
    requires ItemIdFree(x) && "id" !in acc
    ensures var r := RenderItem(d, x, enc, acc, c);
      r.Ok? ==> AttrsInOrder(r.value.line, "id") == AutoRange(c, r.next) && "id" !in r.value.acc
    decreases ItemSize(x), 0
  {
    var r := RenderItem(d, x, enc, acc, c);
    if r.Ok? && x.Entry? {
      if x.items == [] {
        LeafIdFree(d, x, enc);
      } else {
        var sub := Submenu(acc + x.submenuAttributes, x.items);
        DropdownIds(sub, enc, c);
        var s := RenderDropdown(sub, enc, c);
        assert s.next >= c + 1;
      }
    }
  }

  /** Ids of a whole Dropdown whose container has no caller id and auto-generates: an enclosed
      render starts with its own menu id, drawn from the counter first; an unenclosed one
      draws that id but does not emit it. Everything after is the nested menu ids, one per
      counter value, in document order. */
  lemma {:induction false} DropdownIds(d: Dropdown, enc: Encoder, c: int)
    requires "id" !in d.base.attributes && d.base.autoGenerate
    requires ButtonIdFree(d) && ItemsIdFree(d.items) && "id" !in d.submenuAttributes
    ensures var r := RenderDropdown(d, enc, c);
      r.Ok? ==> (r.next >= c + 1 &&
        Ids(r.value) == (if d.encloseByContainer then [Str(d.base.autoIdPrefix + IntToString(c) + "-dropdown")] else [])
                        + AutoRange(c + 1, r.next))
    decreases ItemsSize(d.items), 2
  {
    var (id, c1) := MenuId(d.base, c);
    var lines := RenderItems(d, d.items, enc, d.submenuAttributes, c1);
    ItemsIds(d, d.items, enc, d.submenuAttributes, c1);
    if lines.Ok? {
      if d.encloseByContainer {
        ContainerIdsInOrder(d, id, lines.value);
      } else {
        SingleNode(Raw(EOL), "id");
        JoinAttrs(lines.value, LineSeparator, "id");
      }
    }
  }

  /** With the default prefix, every id in an enclosed render is distinct. */
  lemma EnclosedIdsDistinct(d: Dropdown, enc: Encoder, c: int)
    requires "id" !in d.base.attributes && d.base.autoGenerate && d.base.autoIdPrefix == "w"
    requires d.encloseByContainer
    requires ButtonIdFree(d) && ItemsIdFree(d.items) && "id" !in d.submenuAttributes
    ensures var r := RenderDropdown(d, enc, c);
      r.Ok? ==> (Ids(r.value) == AutoRange(c, r.next)
             && forall i, j :: 0 <= i < j < |Ids(r.value)| ==> Ids(r.value)[i] != Ids(r.value)[j])
  {
    DropdownIds(d, enc, c);
    var r := RenderDropdown(d, enc, c);
    if r.Ok? {
      AutoRangeDistinct(c, r.next);
    }
  }

  // Trigger-to-menu linkage.

  /** A node that is not a wrapper around a lone button: only a trigger div is one. */
  predicate NotButtonHolder(n: Node) {
    !(n.Tag? && |n.children| == 1 && n.children[0].Tag? && n.children[0].name == "button")
  }

  /** A line is sound when every node in it is linked and none is a lone-button wrapper, so the
      div it is placed in is not mistaken for a trigger container. */
  predicate SoundLine(line: seq<Node>) {
    forall n :: n in line ==> AriaLinked(n) && NotButtonHolder(n)
  }

  lemma LabelSound(text: string, iconText: string, cls: string, attrs: Attributes)
    ensures SoundLine(LabelWithIcon(text, iconText, cls, attrs))
  {
    LabelLinked(text, iconText, cls, attrs);
  }

  /** A tag whose children are a label is linked and holds no lone button. */
  lemma LabelTagSound(name: string, a: Attributes, text: string, iconText: string, cls: string, attrs: Attributes)
    ensures SoundLine([Tag(name, a, LabelWithIcon(text, iconText, cls, attrs))])
  {
    var kids := LabelWithIcon(text, iconText, cls, attrs);
    LabelSound(text, iconText, cls, attrs);
    var t := Tag(name, a, kids);
    assert AriaLinked(t);
  }

  lemma LeafSound(d: Dropdown, x: Item, enc: Encoder)
    requires x.Entry? && x.caption.Some?
    ensures SoundLine(LeafLine(d, x, enc))
  {
    var text := ItemText(x, enc);
    var deco := Decorated(x, enc);
    var url := x.url.GetOr("");
    LabelSound(text, x.iconText, x.iconCssClass, x.iconAttributes);
    if deco == [Raw("-")] {
      assert AriaLinked(Divider(d.dividerCssClass));
    } else if !x.enclose {
    } else if url == "" {
      var h := Tag("h6", ClassOnly("dropdown-header"), [Escaped(deco)]);
      assert AriaLinked(Escaped(deco));
      assert AriaLinked(h);
    } else {
      LabelTagSound("a", LinkAttributes(x)["href" := Str(url)], text, x.iconText, x.iconCssClass, x.iconAttributes);
    }
  }

  /** Every line of a list is sound. */
  predicate AllSound(lines: seq<seq<Node>>)
    decreases |lines|
  {
    lines == [] || (SoundLine(lines[0]) && AllSound(lines[1..]))
  }

  lemma {:induction false} AllSoundAt(lines: seq<seq<Node>>, i: int)
    requires AllSound(lines) && 0 <= i < |lines|
    ensures SoundLine(lines[i])
    decreases i
  {
    if i > 0 {
      AllSoundAt(lines[1..], i - 1);
    }
  }

  /** Joining sound lines with a sound separator gives a sound line. */
  lemma {:induction false} JoinSound(lines: seq<seq<Node>>, sep: seq<Node>)
    requires AllSound(lines) && SoundLine(sep)
    ensures SoundLine(Join(lines, sep))
    decreases |lines|
  {
    if |lines| > 1 {
      JoinSound(lines[1..], sep);
      var rest := Join(lines[1..], sep);
      assert Join(lines, sep) == lines[0] + sep + rest;
    }
  }

  /** The menu div is linked when its body is sound: the content div wraps the body and is
      itself no trigger container. */
  lemma MenuSound(d: Dropdown, id: AttrValue, body: seq<Node>)
    requires SoundLine(body)
    ensures AriaLinked(Menu(d, id, body)) && NotButtonHolder(Menu(d, id, body))
  {
    var content := Tag("div", ClassOnly(d.dropdownContentCssClass), body);
    if |body| > 0 {
      assert body[0] in body;
      assert NotButtonHolder(body[0]);
    }
    assert !IsTriggerContainer(content);
    assert AriaLinked(content);
  }

  /** The trigger div holds the button, whose label parts are linked. */
  lemma TriggerSound(d: Dropdown, id: AttrValue)
    ensures AriaLinked(Trigger(d, id))
  {
    var icon := IconSpan(d.buttonIconAttributes, d.buttonIconCssClass, d.buttonIconText);
    LabelLinked("", d.buttonIconText, d.buttonIconCssClass, d.buttonIconAttributes);
    assert AriaLinked(icon) by {
      assert LabelWithIcon("", d.buttonIconText, d.buttonIconCssClass, d.buttonIconAttributes) ==
        (if HasIcon(d.buttonIconText, d.buttonIconCssClass) then [icon] else []);
      if !HasIcon(d.buttonIconText, d.buttonIconCssClass) {
        assert AriaLinked(Tag("i", ClassOnly(d.buttonIconCssClass), [Raw(d.buttonIconText)]));
      }
    }
    var span := Tag("span", d.buttonLabelAttributes, [Raw(d.buttonLabel)]);
    assert AriaLinked(span);
    var button := TriggerButton(d, id);
    assert AriaLinked(button);
  }

  /** The enclosing container is sound when its body is. */
  lemma ContainerSound(d: Dropdown, id: AttrValue, body: seq<Node>)
    requires SoundLine(body)
    ensures SoundLine([Container(d, id, body)])
  {
    MenuSound(d, id, body);
    TriggerSound(d, id);
    var c := Container(d, id, body);
    assert IsTriggerContainer(c);
    assert AriaLinked(c);
  }

  /** Every trigger container in a render, at any depth, links its button's `aria-controls`
      to its menu's `id`; this holds for any input, whatever ids the caller supplied. */
  lemma {:induction false} ItemsSound(d: Dropdown, items: seq<Item>, enc: Encoder, acc: Attributes, c: int)
    ensures var r := RenderItems(d, items, enc, acc, c);
      r.Ok? ==> AllSound(r.value)
    decreases ItemsSize(items), 1
  {
    var r := RenderItems(d, items, enc, acc, c);
    if items != [] && r.Ok? {
      ItemsCons(d, items, enc, acc, c);
      var r0 := RenderItem(d, items[0], enc, acc, c);
      ItemSound(d, items[0], enc, acc, c);
      ItemsSound(d, items[1..], enc, r0.value.acc, r0.next);
      var rest := RenderItems(d, items[1..], enc, r0.value.acc, r0.next);
      assert r.value[1..] == rest.value;
    }
  }

  lemma {:induction false} ItemSound(d: Dropdown, x: Item, enc: Encoder, acc: Attributes, c: int)
    ensures var r := RenderItem(d, x, enc, acc, c);
      r.Ok? ==> SoundLine(r.value.line)
    decreases ItemSize(x), 0
  {
    var r := RenderItem(d, x, enc, acc, c);
    if r.Ok? {
      if x.Text? {
        assert AriaLinked(Divider(d.dividerCssClass));
      } else if x.items == [] {
        LeafSound(d, x, enc);
      } else {
        DropdownSound(Submenu(acc + x.submenuAttributes, x.items), enc, c);
      }
    }
  }

  lemma {:induction false} DropdownSound(d: Dropdown, enc: Encoder, c: int)
    ensures var r := RenderDropdown(d, enc, c);
      r.Ok? ==> SoundLine(r.value) && AllLinked(r.value)
    decreases ItemsSize(d.items), 2
  {
    var (id, c1) := MenuId(d.base, c);
    var lines := RenderItems(d, d.items, enc, d.submenuAttributes, c1);
    ItemsSound(d, d.items, enc, d.submenuAttributes, c1);
    if lines.Ok? {
      assert AriaLinked(Raw(EOL));
      JoinSound(lines.value, LineSeparator);
      if d.encloseByContainer {
        ContainerSound(d, id, Join(lines.value, LineSeparator));
      }
    }
  }
}
