/** What Dropdown's item renderer promises: when it fails, how a leaf is classified, how
    disabled and active interact, where the label and its icon go, how submenu attributes
    accumulate, and what the unenclosed form returns. */
module DropdownProps {
  import opened Common
  import opened Markup
  import opened MenuItem
  import opened Dropdowns
  import Decimal

  /** An item the renderer accepts: the divider marker, or an array with a label whose
      children (if any) are all accepted. */
  predicate Labelled(x: Item)
    decreases ItemSize(x), 0
  {
    match x
    case Text(s) => s == "-"
    case Entry(_, _, _, _, _, _, _, _, _, _, _, _, _, _, _, children) =>
      x.caption.Some? && AllLabelled(children)
  }

  predicate AllLabelled(items: seq<Item>)
    decreases ItemsSize(items), 1
  {
    items == [] || (Labelled(items[0]) && AllLabelled(items[1..]))
  }

  /** The render fails exactly when some item, at any depth, is a string other than "-" or an
      array without a label; the failure is MissingLabel. */
  lemma {:induction false} ItemsFailIffUnlabelled(d: Dropdown, items: seq<Item>, enc: Encoder, acc: Attributes, c: int)
    ensures RenderItems(d, items, enc, acc, c).Fail? <==> !AllLabelled(items)
    ensures RenderItems(d, items, enc, acc, c).Fail? ==> RenderItems(d, items, enc, acc, c).error == MissingLabel
    decreases ItemsSize(items), 1
  {
    if items != [] {
      ItemFailIffUnlabelled(d, items[0], enc, acc, c);
      var r := RenderItem(d, items[0], enc, acc, c);
      if r.Ok? {
        ItemsFailIffUnlabelled(d, items[1..], enc, r.value.acc, r.next);
      }
    }
  }

  lemma {:induction false} ItemFailIffUnlabelled(d: Dropdown, x: Item, enc: Encoder, acc: Attributes, c: int)
    ensures RenderItem(d, x, enc, acc, c).Fail? <==> !Labelled(x)
    ensures RenderItem(d, x, enc, acc, c).Fail? ==> RenderItem(d, x, enc, acc, c).error == MissingLabel
    decreases ItemSize(x), 0
  {
    if IsSubmenu(x) {
      DropdownFailIffUnlabelled(Submenu(acc + x.submenuAttributes, x.items), enc, c);
    }
  }

  lemma {:induction false} DropdownFailIffUnlabelled(d: Dropdown, enc: Encoder, c: int)
    ensures RenderDropdown(d, enc, c).Fail? <==> !AllLabelled(d.items)
    ensures RenderDropdown(d, enc, c).Fail? ==> RenderDropdown(d, enc, c).error == MissingLabel
    decreases ItemsSize(d.items), 2
  {
    var (id, c1) := MenuId(d.base, c);
    ItemsFailIffUnlabelled(d, d.items, enc, d.submenuAttributes, c1);
  }

  /** A string item renders as the divider rule iff it is "-"; any other string is an item
      without a label. */
  lemma StringItems(d: Dropdown, s: string, enc: Encoder, acc: Attributes, c: int)
    ensures s == "-" ==> RenderItem(d, Text(s), enc, acc, c) == Ok(Step([Tag("hr", ClassOnly(d.dividerCssClass), [])], acc), c)
    ensures s != "-" ==> RenderItem(d, Text(s), enc, acc, c) == Fail(MissingLabel, c)
  {
  }

  /** The leaf rules, in their tie-break order: a label that prints as "-" (no icon, and "-"
      after optional encoding) gives the divider rule; otherwise `enclose` false gives the bare
      decorated label; otherwise an empty or missing url gives an h6 header holding the
      decorated label as escaped text; otherwise a link whose href is the url and whose
      content is the decorated label as markup. No id is drawn. */
  lemma LeafClassification(d: Dropdown, x: Item, enc: Encoder, acc: Attributes, c: int)
    requires x.Entry? && x.caption.Some? && x.items == []
    ensures var r := RenderItem(d, x, enc, acc, c);
      var dash := !HasIcon(x.iconText, x.iconCssClass) && ItemText(x, enc) == "-";
      var url := x.url.GetOr("");
      && r.Ok? && r.next == c && r.value.acc == acc
      && (r.value.line == [Tag("hr", ClassOnly(d.dividerCssClass), [])] <==> dash)
      && (!dash && !x.enclose ==> r.value.line == Decorated(x, enc))
      && (!dash && x.enclose ==> |r.value.line| == 1 && r.value.line[0].Tag?)
      && (!dash && x.enclose ==> (r.value.line[0].name == "h6" <==> url == ""))
      && (!dash && x.enclose && url == "" ==>
            ClassesOf(r.value.line[0].attrs) == ["dropdown-header"]
            && r.value.line[0].children == [Escaped(Decorated(x, enc))])
      && (!dash && x.enclose && url != "" ==>
            r.value.line[0].name == "a" && r.value.line[0].attrs == LinkAttributes(x)["href" := Str(url)]
            && r.value.line[0].children == Decorated(x, enc))
  {
    var deco := Decorated(x, enc);
    var text := ItemText(x, enc);
    if deco == [Raw("-")] {
      assert !HasIcon(x.iconText, x.iconCssClass) && text == "-";
    }
  }

  /** Disabled wins over active: a disabled item gets the disabled style and `is-active` only if
      its own url attributes already had it; `is-active` is added exactly when the item is
      active and not disabled. `dropdown-item` is always there. */
  lemma DisabledOverridesActive(x: Item)
    requires x.Entry?
    requires "is-active" !in ClassesOf(x.urlAttributes)
    requires DisabledStyle !in StylesOf(x.urlAttributes)
    ensures "dropdown-item" in ClassesOf(LinkAttributes(x))
    ensures "is-active" in ClassesOf(LinkAttributes(x)) <==> !x.disable && x.active == Some(true)
    ensures DisabledStyle in StylesOf(LinkAttributes(x)) <==> x.disable
    ensures forall k :: k in x.urlAttributes && k != "class" && k != "style" ==>
      k in LinkAttributes(x) && LinkAttributes(x)[k] == x.urlAttributes[k]
  {
    var a := AddClass(x.urlAttributes, "dropdown-item");
    assert StylesOf(a) == StylesOf(x.urlAttributes);
    if x.disable {
      assert ClassesOf(AddStyle(a, DisabledStyle)) == ClassesOf(a);
    }
  }

  /** The label is encoded only when `encode` is true, and the icon, when present, comes before
      it and never after. */
  lemma LabelPlacement(x: Item, enc: Encoder)
    requires x.Entry? && x.caption.Some?
    ensures var deco := Decorated(x, enc);
      var text := if x.encode then enc(x.caption.value) else x.caption.value;
      && (text != "" ==> deco[|deco| - 1] == Raw(text))
      && (HasIcon(x.iconText, x.iconCssClass) ==> deco[0] == IconSpan(x.iconAttributes, x.iconCssClass, x.iconText))
      && (forall i :: 0 < i < |deco| ==> deco[i].Raw?)
      && |deco| == (if HasIcon(x.iconText, x.iconCssClass) then 1 else 0) + (if text != "" then 1 else 0)
  {
  }

  /** Submenu attributes accumulated over a prefix of the item list. */
  function Accumulate(acc: Attributes, items: seq<Item>): Attributes
    decreases |items|
  {
    if items == [] then acc else Accumulate(NextAcc(acc, items[0]), items[1..])
  }

  /** Accumulating over the first k+1 items is accumulating over the first k of the tail,
      starting from the attributes after the head. */
  lemma AccumulatePrefix(acc: Attributes, items: seq<Item>, k: int)
    requires 0 <= k < |items|
    ensures Accumulate(acc, items[..k + 1]) == Accumulate(NextAcc(acc, items[0]), items[1..][..k])
  {
    assert items[..k + 1][0] == items[0];
    assert items[..k + 1][1..] == items[1..][..k];
  }

  /** A submenu's line is one container carrying the attributes accumulated up to and
      including it. */
  lemma SubmenuLine(d: Dropdown, x: Item, enc: Encoder, acc: Attributes, c: int)
    requires IsSubmenu(x)
    ensures var r := RenderItem(d, x, enc, acc, c);
      r.Ok? ==> (|r.value.line| == 1 && r.value.line[0].Tag?
        && r.value.line[0].attrs == AddClass(NextAcc(acc, x) - {"id"}, "dropdown"))
  {
    var r := RenderItem(d, x, enc, acc, c);
    if r.Ok? {
      var sub := Submenu(acc + x.submenuAttributes, x.items);
      var (id, c1) := MenuId(sub.base, c);
      var dr := RenderDropdown(sub, enc, c);
      assert dr.Ok? && r.value.line == dr.value;
      var inner := RenderItems(sub, sub.items, enc, sub.submenuAttributes, c1);
      assert inner.Ok?;
      assert r.value.line == [Container(sub, id, Join(inner.value, LineSeparator))];
    }
  }

  /** The k-th line, when the k-th item is a submenu: one container carrying the attributes
      accumulated over the first k+1 items. */
  lemma {:induction false} SubmenuAttributesAt(d: Dropdown, items: seq<Item>, enc: Encoder, acc: Attributes, c: int, k: int)
    requires 0 <= k < |items| && IsSubmenu(items[k])
    ensures var r := RenderItems(d, items, enc, acc, c);
      r.Ok? ==> (|r.value[k]| == 1 && r.value[k][0].Tag?
        && r.value[k][0].attrs == AddClass(Accumulate(acc, items[..k + 1]) - {"id"}, "dropdown"))
    decreases k
  {
    if k == 0 {
      FirstSubmenuAttributes(d, items, enc, acc, c);
    } else {
      var r := RenderItems(d, items, enc, acc, c);
      if r.Ok? {
        ItemsCons(d, items, enc, acc, c);
        var r0 := RenderItem(d, items[0], enc, acc, c);
        var acc' := NextAcc(acc, items[0]);
        var rest := RenderItems(d, items[1..], enc, acc', r0.next);
        var tail := items[1..];
        assert tail[k - 1] == items[k];
        SubmenuAttributesAt(d, tail, enc, acc', r0.next, k - 1);
        assert rest.value[k - 1][0].attrs == AddClass(Accumulate(acc', tail[..k]) - {"id"}, "dropdown");
        AccumulatePrefix(acc, items, k);
        assert r.value[k] == rest.value[k - 1];
      }
    }
  }

  lemma FirstSubmenuAttributes(d: Dropdown, items: seq<Item>, enc: Encoder, acc: Attributes, c: int)
    requires 0 < |items| && IsSubmenu(items[0])
    ensures var r := RenderItems(d, items, enc, acc, c);
      r.Ok? ==> (|r.value[0]| == 1 && r.value[0][0].Tag?
        && r.value[0][0].attrs == AddClass(Accumulate(acc, items[..1]) - {"id"}, "dropdown"))
  {
    var r := RenderItems(d, items, enc, acc, c);
    if r.Ok? {
      ItemsCons(d, items, enc, acc, c);
      AccumulatePrefix(acc, items, 0);
      assert items[1..][..0] == [];
      SubmenuLine(d, items[0], enc, acc, c);
    }
  }

  /** Every submenu is a nested Dropdown whose container carries the submenu attributes
      merged over all earlier sibling submenus and its own (last value wins per key), without
      `id`, plus the `dropdown` class. */
  lemma SubmenuAttributesAccumulate(d: Dropdown, items: seq<Item>, enc: Encoder, acc: Attributes, c: int)
    ensures var r := RenderItems(d, items, enc, acc, c);
      r.Ok? ==> forall k :: 0 <= k < |items| && IsSubmenu(items[k]) ==>
        && |r.value[k]| == 1 && r.value[k][0].Tag?
        && r.value[k][0].attrs == AddClass(Accumulate(acc, items[..k + 1]) - {"id"}, "dropdown")
  {
    forall k | 0 <= k < |items| && IsSubmenu(items[k]) {
      SubmenuAttributesAt(d, items, enc, acc, c, k);
    }
  }

  /** Item lines come out in input order: the k-th line is the k-th item's, and a line that
      is not a submenu depends on nothing but its item (the divider rule for "-", the leaf
      rules otherwise). */
  lemma {:induction false} LinesInInputOrder(d: Dropdown, items: seq<Item>, enc: Encoder, acc: Attributes, c: int)
    ensures var r := RenderItems(d, items, enc, acc, c);
      r.Ok? ==> forall k :: 0 <= k < |items| && !IsSubmenu(items[k]) ==>
        && (items[k].Text? ==> r.value[k] == [Divider(d.dividerCssClass)])
        && (items[k].Entry? && items[k].caption.Some? ==> r.value[k] == LeafLine(d, items[k], enc))
    decreases |items|
  {
    var r := RenderItems(d, items, enc, acc, c);
    if items != [] && r.Ok? {
      var r0 := RenderItem(d, items[0], enc, acc, c);
      LinesInInputOrder(d, items[1..], enc, r0.value.acc, r0.next);
      var rest := RenderItems(d, items[1..], enc, r0.value.acc, r0.next);
      assert r.value == [r0.value.line] + rest.value;
      forall k | 0 <= k < |items| && !IsSubmenu(items[k])
        ensures items[k].Text? ==> r.value[k] == [Divider(d.dividerCssClass)]
        ensures items[k].Entry? && items[k].caption.Some? ==> r.value[k] == LeafLine(d, items[k], enc)
      {
        if k > 0 {
          assert r.value[k] == rest.value[k - 1];
          assert items[k] == items[1..][k - 1];
        }
      }
    }
  }

  /** Dropdown never reads `visible`: a hidden item renders like a visible one. Only Nav
      filters on it. */
  lemma IgnoresVisible(d: Dropdown, x: Item, v: Option<bool>, enc: Encoder, acc: Attributes, c: int)
    requires x.Entry?
    ensures RenderItem(d, x.(visible := v), enc, acc, c) == RenderItem(d, x, enc, acc, c)
  {
    var y := x.(visible := v);
    if x.caption.None? {
    } else if x.items == [] {
      LeafIgnoresVisible(d, x, v, enc);
    } else {
      assert Submenu(acc + y.submenuAttributes, y.items) == Submenu(acc + x.submenuAttributes, x.items);
    }
  }

  lemma LeafIgnoresVisible(d: Dropdown, x: Item, v: Option<bool>, enc: Encoder)
    requires x.Entry? && x.caption.Some?
    ensures LeafLine(d, x.(visible := v), enc) == LeafLine(d, x, enc)
  {
    var y := x.(visible := v);
    assert Decorated(y, enc) == Decorated(x, enc);
    assert LinkAttributes(y) == LinkAttributes(x);
  }

  /** The enclosed form (the default): one container holding the trigger and the menu, whose
      content div holds exactly the item lines joined by the separator; a failing item fails
      the whole render with its error and counter. */
  lemma EnclosedContent(d: Dropdown, enc: Encoder, c: int)
    requires d.encloseByContainer
    ensures var (id, c1) := MenuId(d.base, c);
      var lines := RenderItems(d, d.items, enc, d.submenuAttributes, c1);
      var r := RenderDropdown(d, enc, c);
      && (lines.Ok? ==> r == Ok([Container(d, id, Join(lines.value, LineSeparator))], lines.next))
      && (lines.Ok? ==> (r.value[0].children[0] == Trigger(d, id)
            && r.value[0].children[1].children[0].children == Join(lines.value, LineSeparator)))
      && (lines.Fail? ==> r == Fail(lines.error, lines.next))
  {
  }

  /** A submenu item's line is the render of the nested Dropdown built for it: the two succeed
      or fail together, with the same output, error and counter. */
  lemma SubmenuIsNestedRender(d: Dropdown, x: Item, enc: Encoder, acc: Attributes, c: int)
    requires IsSubmenu(x)
    ensures var r := RenderItem(d, x, enc, acc, c);
      var s := RenderDropdown(Submenu(acc + x.submenuAttributes, x.items), enc, c);
      && (r.Ok? <==> s.Ok?)
      && r.next == s.next
      && (r.Ok? ==> r.value.line == s.value)
      && (r.Fail? ==> r.error == s.error)
  {
  }

  /** With unClosedByContainer the result is exactly the item lines joined by the separator,
      although an id is still drawn for the container that is not emitted. */
  lemma UnclosedIsJoinedLines(d: Dropdown, enc: Encoder, c: int)
    requires !d.encloseByContainer
    ensures var c1 := MenuId(d.base, c).1;
      var lines := RenderItems(d, d.items, enc, d.submenuAttributes, c1);
      var r := RenderDropdown(d, enc, c);
      && (lines.Ok? ==> r == Ok(Join(lines.value, LineSeparator), lines.next))
      && ("id" !in d.base.attributes && d.base.autoGenerate ==> c1 == c + 1)
  {
  }

  /** No items, no output: the unenclosed form of an empty list is empty, and no item draws an
      id. */
  lemma EmptyItems(d: Dropdown, enc: Encoder, acc: Attributes, c: int)
    ensures RenderItems(d, [], enc, acc, c) == Ok([], c)
    ensures d.items == [] && !d.encloseByContainer ==> RenderDropdown(d, enc, c) == Ok([], MenuId(d.base, c).1)
  {
  }

  /** The enclosed form: one container whose trigger button's `aria-controls` and menu `id` are
      the same value, the caller's `id` attribute when there is one (and then no id is drawn
      for it), otherwise the next auto id with "-dropdown" appended. */
  lemma ContainerIds(d: Dropdown, enc: Encoder, c: int)
    requires d.encloseByContainer
    ensures var r := RenderDropdown(d, enc, c);
      r.Ok? ==>
        var n := r.value[0];
        && n.Tag? && n.name == "div" && |n.children| == 2
        && "dropdown" in ClassesOf(n.attrs) && "id" !in n.attrs
        && var button := n.children[0].children[0];
           var menu := n.children[1];
           && button.Tag? && button.name == "button" && "aria-controls" in button.attrs
           && menu.Tag? && "id" in menu.attrs
           && button.attrs["aria-controls"] == menu.attrs["id"]
           && ("id" in d.base.attributes ==> menu.attrs["id"] == d.base.attributes["id"])
           && ("id" !in d.base.attributes && d.base.autoGenerate ==>
                 menu.attrs["id"] == Str(d.base.autoIdPrefix + Decimal.IntToString(c) + "-dropdown"))
  {
    var (id, c1) := MenuId(d.base, c);
    var r := RenderDropdown(d, enc, c);
    if r.Ok? {
      var attrs := AddClass(d.base.attributes - {"id"}, "dropdown");
      assert "id" !in attrs;
    }
  }

  /** An item with its `attributes` key cleared, at every depth. Dropdown reads that key
      nowhere, so clearing it does not change the render (DropdownIgnoresMark). */
  function Unmarked(x: Item): (r: Item)
    ensures x.Text? ==> r == x
    ensures x.Entry? ==> r.Entry? && r.attributes == map[] && r.items == AllUnmarked(x.items)
    ensures x.Entry? ==> r.(attributes := x.attributes, items := x.items) == x
    decreases ItemSize(x), 0
  {
    match x
    case Text(_) => x
    case Entry(_, _, _, _, _, _, _, _, _, _, _, _, _, _, _, children) =>
      x.(attributes := map[], items := AllUnmarked(children))
  }

  function AllUnmarked(items: seq<Item>): (r: seq<Item>)
    ensures |r| == |items|
    decreases ItemsSize(items), 1
  {
    if items == [] then [] else [Unmarked(items[0])] + AllUnmarked(items[1..])
  }

  /** One item renders the same with its `attributes` cleared at every depth, under any
      Dropdown with the same divider class. */
  lemma {:induction false} ItemIgnoresMark(d: Dropdown, e: Dropdown, x: Item, enc: Encoder, acc: Attributes, c: int)
    requires e.dividerCssClass == d.dividerCssClass
    ensures RenderItem(e, Unmarked(x), enc, acc, c) == RenderItem(d, x, enc, acc, c)
    decreases ItemSize(x), 0
  {
    match x
    case Text(_) =>
    case Entry(_, _, _, _, _, _, _, _, _, _, _, _, _, _, _, children) =>
      var u := Unmarked(x);
      if x.caption.Some? && children != [] {
        var s := Submenu(acc + x.submenuAttributes, children);
        DropdownIgnoresMark(s, enc, c);
        assert Submenu(acc + u.submenuAttributes, u.items) == s.(items := AllUnmarked(s.items));
      } else if x.caption.Some? {
        LeafIgnoresMark(d, e, x, enc);
      }
  }

  /** A leaf's line does not read its `attributes`. */
  lemma LeafIgnoresMark(d: Dropdown, e: Dropdown, x: Item, enc: Encoder)
    requires e.dividerCssClass == d.dividerCssClass
    requires x.Entry? && x.caption.Some?
    ensures Unmarked(x).Entry? && Unmarked(x).caption.Some?
    ensures LeafLine(e, Unmarked(x), enc) == LeafLine(d, x, enc)
  {
    var u := Unmarked(x);
    assert Decorated(u, enc) == Decorated(x, enc);
    assert LinkAttributes(u) == LinkAttributes(x);
  }

  lemma {:induction false} ItemsIgnoreMark(d: Dropdown, e: Dropdown, items: seq<Item>, enc: Encoder, acc: Attributes, c: int)
    requires e.dividerCssClass == d.dividerCssClass
    ensures RenderItems(e, AllUnmarked(items), enc, acc, c) == RenderItems(d, items, enc, acc, c)
    decreases ItemsSize(items), 1
  {
    if items != [] {
      var u := AllUnmarked(items);
      assert u[1..] == AllUnmarked(items[1..]);
      ItemSizePositive(items[0]);
      ItemIgnoresMark(d, e, items[0], enc, acc, c);
      match RenderItem(d, items[0], enc, acc, c)
      case Fail(_, _) =>
      case Ok(step, n) => ItemsIgnoreMark(d, e, items[1..], enc, step.acc, n);
    }
  }

  /** The whole widget renders the same with every item's `attributes` cleared: the key is
      never read. */
  lemma {:induction false} DropdownIgnoresMark(d: Dropdown, enc: Encoder, c: int)
    ensures RenderDropdown(d.(items := AllUnmarked(d.items)), enc, c) == RenderDropdown(d, enc, c)
    decreases ItemsSize(d.items), 2
  {
    var (id, c1) := MenuId(d.base, c);
    var e := d.(items := AllUnmarked(d.items));
    ItemsIgnoreMark(d, e, d.items, enc, d.submenuAttributes, c1);
  }
}
