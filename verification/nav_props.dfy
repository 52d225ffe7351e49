/** What Nav promises: when an entry is active, how the active pass marks children and
    parents, which entries are skipped, when the render fails, the shape of each entry, and
    that every nested dropdown's trigger names its own menu. */
module NavProps {
  import opened Common
  import opened Markup
  import opened MenuItem
  import opened Navs
  import Dropdowns
  import DropdownProps
  import DropdownIds

  /** The site root is never active, nothing is active with activation off, and otherwise an
      entry is active exactly when its url is the current path. */
  lemma ItemActiveCases(url: string, path: string, on: bool)
    ensures path == "/" ==> !IsItemActive(url, path, on)
    ensures !on ==> !IsItemActive(url, path, on)
    ensures on && path != "/" ==> (IsItemActive(url, path, on) <==> url == path)
  {
  }

  /** isChildActive annotates each child independently: the i-th result is the i-th child
      annotated. */
  lemma {:induction false} IsChildActivePointwise(n: Nav, items: seq<Item>)
    ensures forall i :: 0 <= i < |items| ==> IsChildActive(n, items)[i] == AnnotateChild(n, items[i])
    decreases |items|
  {
    if items != [] {
      IsChildActivePointwise(n, items[1..]);
      var r := IsChildActive(n, items);
      assert r == [AnnotateChild(n, items[0])] + IsChildActive(n, items[1..]);
    }
  }

  /** The active pass neither adds nor removes labels, so it never changes whether the nested
      Dropdown fails. */
  lemma {:induction false} AnnotateKeepsLabels(n: Nav, x: Item)
    ensures DropdownProps.Labelled(AnnotateChild(n, x)) <==> DropdownProps.Labelled(x)
    decreases ItemSize(x), 0
  {
    if x.Entry? && x.items != [] {
      ChildActiveKeepsLabels(n, x.items);
    }
  }

  lemma {:induction false} ChildActiveKeepsLabels(n: Nav, items: seq<Item>)
    ensures DropdownProps.AllLabelled(IsChildActive(n, items)) <==> DropdownProps.AllLabelled(items)
    decreases ItemsSize(items), 1
  {
    if items != [] {
      AnnotateKeepsLabels(n, items[0]);
      ChildActiveKeepsLabels(n, items[1..]);
      var r := IsChildActive(n, items);
      assert r[0] == AnnotateChild(n, items[0]);
      assert r[1..] == IsChildActive(n, items[1..]);
    }
  }

  /** Every array entry, at every depth, has an explicit `active` after the pass. */
  predicate Resolved(x: Item)
    decreases ItemSize(x), 0
  {
    match x
    case Text(_) => true
    case Entry(_, _, _, _, _, _, _, _, _, _, _, _, _, _, _, children) =>
      x.active.Some? && AllResolved(children)
  }

  predicate AllResolved(items: seq<Item>)
    decreases ItemsSize(items), 1
  {
    items == [] || (Resolved(items[0]) && AllResolved(items[1..]))
  }

  lemma {:induction false} AnnotateResolves(n: Nav, x: Item)
    ensures Resolved(AnnotateChild(n, x))
    decreases ItemSize(x), 0
  {
    if x.Entry? && x.items != [] {
      ChildActiveResolves(n, x.items);
    }
  }

  lemma {:induction false} ChildActiveResolves(n: Nav, items: seq<Item>)
    ensures AllResolved(IsChildActive(n, items))
    decreases ItemsSize(items), 1
  {
    if items != [] {
      AnnotateResolves(n, items[0]);
      ChildActiveResolves(n, items[1..]);
      var r := IsChildActive(n, items);
      assert r[0] == AnnotateChild(n, items[0]);
      assert r[1..] == IsChildActive(n, items[1..]);
    }
  }

  /** A child with children gets `['active' => true]` as its attributes exactly when it was
      explicitly active or parents are activated; otherwise, and for a leaf, its attributes
      are untouched. An explicit `active => true` is never overridden, and with activation off
      no child becomes active by its url. */
  lemma ParentMarking(n: Nav, x: Item)
    requires x.Entry?
    ensures x.items != [] && (x.active == Some(true) || n.activateParents) ==>
      AnnotateChild(n, x).attributes == map["active" := Flag(true)]
    ensures x.items == [] || !(x.active == Some(true) || n.activateParents) ==>
      AnnotateChild(n, x).attributes == x.attributes
    ensures x.active == Some(true) ==> AnnotateChild(n, x).active == Some(true)
    ensures !n.activateItems ==> (AnnotateChild(n, x).active == Some(true) <==> x.active == Some(true))
  {
  }

  /** The entries renderNav looks at: the visible ones, in order. */
  function VisibleItems(items: seq<Item>): (r: seq<Item>)
    ensures |r| <= |items|
    decreases |items|
  {
    if items == [] then []
    else (if Visible(items[0]) then [items[0]] else []) + VisibleItems(items[1..])
  }

  /** Hidden entries are skipped without a trace: rendering the whole list is rendering its
      visible entries, output and counter alike. */
  lemma {:induction false} InvisibleSkipped(n: Nav, items: seq<Item>, enc: Dropdowns.Encoder, c: int)
    ensures RenderLines(n, items, enc, c) == RenderLines(n, VisibleItems(items), enc, c)
    decreases |items|
  {
    if items != [] {
      var v := VisibleItems(items);
      if !Visible(items[0]) {
        assert v == [] + VisibleItems(items[1..]);
        assert [] + VisibleItems(items[1..]) == VisibleItems(items[1..]);
        assert RenderLines(n, items, enc, c) == RenderLines(n, items[1..], enc, c);
        InvisibleSkipped(n, items[1..], enc, c);
      } else {
        assert v == [items[0]] + VisibleItems(items[1..]);
        assert v != [] && v[0] == items[0] && v[1..] == VisibleItems(items[1..]);
        var l := Line(n, items[0], enc, c);
        if l.Ok? {
          InvisibleSkipped(n, items[1..], enc, l.next);
          var rest := RenderLines(n, items[1..], enc, l.next);
          assert RenderLines(n, v, enc, c) == if rest.Ok? then Ok([l.value] + rest.value, rest.next) else Fail(rest.error, rest.next);
        } else {
          assert RenderLines(n, v, enc, c) == Fail(l.error, l.next);
        }
      }
    }
  }

  /** An entry the render accepts: any string, or an array with a label whose children are
      all accepted by Dropdown. */
  predicate EntryRenderable(x: Item) {
    x.Text? || (x.caption.Some? && DropdownProps.AllLabelled(x.items))
  }

  predicate AllRenderable(items: seq<Item>)
    decreases |items|
  {
    items == [] || ((!Visible(items[0]) || EntryRenderable(items[0])) && AllRenderable(items[1..]))
  }

  lemma EntryFailIff(n: Nav, x: Item, enc: Dropdowns.Encoder, c: int)
    ensures Line(n, x, enc, c).Fail? <==> !EntryRenderable(x)
    ensures Line(n, x, enc, c).Fail? ==> Line(n, x, enc, c).error == MissingLabel
  {
    if x.Entry? {
      var sub := NavSubmenu(IsChildActive(n, x.items));
      DropdownProps.DropdownFailIffUnlabelled(sub, enc, c);
      ChildActiveKeepsLabels(n, x.items);
      if x.caption.Some? && x.items == [] {
        assert DropdownProps.AllLabelled(x.items);
      }
    }
  }

  /** The render fails, with MissingLabel, exactly when a visible array entry has no label or
      has children Dropdown rejects; hidden entries are never checked and strings never fail. */
  lemma {:induction false} NavFailsIff(n: Nav, items: seq<Item>, enc: Dropdowns.Encoder, c: int)
    ensures RenderLines(n, items, enc, c).Fail? <==> !AllRenderable(items)
    ensures RenderLines(n, items, enc, c).Fail? ==> RenderLines(n, items, enc, c).error == MissingLabel
    decreases |items|
  {
    if items != [] {
      if !Visible(items[0]) {
        NavFailsIff(n, items[1..], enc, c);
      } else {
        EntryFailIff(n, items[0], enc, c);
        var l := Line(n, items[0], enc, c);
        if l.Ok? {
          NavFailsIff(n, items[1..], enc, l.next);
        }
      }
    }
  }

  /** One line per visible entry. */
  lemma {:induction false} LinesCount(n: Nav, items: seq<Item>, enc: Dropdowns.Encoder, c: int)
    ensures var r := RenderLines(n, items, enc, c);
      r.Ok? ==> |r.value| == |VisibleItems(items)|
    decreases |items|
  {
    var r := RenderLines(n, items, enc, c);
    if items != [] && r.Ok? {
      if !Visible(items[0]) {
        assert VisibleItems(items) == [] + VisibleItems(items[1..]);
        LinesCount(n, items[1..], enc, c);
      } else {
        var l := Line(n, items[0], enc, c);
        LinesCount(n, items[1..], enc, l.next);
      }
    }
  }

  /** A hidden head is skipped: the lines and the visible entries are the tail's. */
  lemma LinesConsHidden(n: Nav, items: seq<Item>, enc: Dropdowns.Encoder, c: int)
    requires items != [] && !Visible(items[0])
    ensures RenderLines(n, items, enc, c) == RenderLines(n, items[1..], enc, c)
    ensures VisibleItems(items) == VisibleItems(items[1..])
  {
    assert VisibleItems(items) == [] + VisibleItems(items[1..]);
  }

  /** A visible head contributes the first line, and the tail is rendered from its counter. */
  lemma LinesConsVisible(n: Nav, items: seq<Item>, enc: Dropdowns.Encoder, c: int)
    requires items != [] && Visible(items[0])
    ensures VisibleItems(items) == [items[0]] + VisibleItems(items[1..])
    ensures var r := RenderLines(n, items, enc, c);
      var l := Line(n, items[0], enc, c);
      r.Ok? ==> (l.Ok? && RenderLines(n, items[1..], enc, l.next).Ok?
        && r.value == [l.value] + RenderLines(n, items[1..], enc, l.next).value)
  {
  }

  /** `line` is what Line gives the entry `x` at some counter value no lower than `c`. */
  ghost predicate RenderedLine(n: Nav, x: Item, enc: Dropdowns.Encoder, c: int, line: seq<Node>) {
    exists c' :: c <= c' && Line(n, x, enc, c').Ok? && Line(n, x, enc, c').value == line
  }

  /** The counter value at which RenderLines renders the i-th visible entry: the start value
      advanced past every visible entry before it. */
  function LineCounter(n: Nav, items: seq<Item>, enc: Dropdowns.Encoder, c: int, i: int): (r: int)
    ensures c <= r
    decreases |items|
  {
    if items == [] then c
    else if !Visible(items[0]) then LineCounter(n, items[1..], enc, c, i)
    else if i <= 0 then c
    else LineCounter(n, items[1..], enc, Line(n, items[0], enc, c).next, i - 1)
  }

  /** The i-th line is what Line gives the i-th visible entry at the counter value the render
      reached just before it. */
  lemma {:induction false} LineRenderedAt(n: Nav, items: seq<Item>, enc: Dropdowns.Encoder, c: int, i: int)
    requires 0 <= i < |VisibleItems(items)|
    ensures var r := RenderLines(n, items, enc, c);
      var v := VisibleItems(items);
      var k := LineCounter(n, items, enc, c, i);
      r.Ok? ==> i < |r.value| && Line(n, v[i], enc, k).Ok? && Line(n, v[i], enc, k).value == r.value[i]
    decreases |items|
  {
    if !Visible(items[0]) {
      LinesConsHidden(n, items, enc, c);
      LineRenderedAt(n, items[1..], enc, c, i);
      assert LineCounter(n, items, enc, c, i) == LineCounter(n, items[1..], enc, c, i);
    } else {
      LinesConsVisible(n, items, enc, c);
      var r := RenderLines(n, items, enc, c);
      var l := Line(n, items[0], enc, c);
      if r.Ok? && i > 0 {
        LineRenderedAt(n, items[1..], enc, l.next, i - 1);
        assert VisibleItems(items)[i] == VisibleItems(items[1..])[i - 1];
      }
    }
  }

  /** The i-th line is the i-th visible entry's own line, rendered at some counter value the
      render reached: a string verbatim, an array as one tag. */
  lemma LineAt(n: Nav, items: seq<Item>, enc: Dropdowns.Encoder, c: int, i: int)
    requires 0 <= i < |VisibleItems(items)|
    ensures var r := RenderLines(n, items, enc, c);
      var v := VisibleItems(items);
      r.Ok? ==> (i < |r.value| && |r.value[i]| == 1
        && (v[i].Text? ==> r.value[i] == [Raw(v[i].s)])
        && (v[i].Entry? ==> r.value[i][0].Tag?)
        && RenderedLine(n, v[i], enc, c, r.value[i]))
  {
    LineRenderedAt(n, items, enc, c, i);
    var r := RenderLines(n, items, enc, c);
    if r.Ok? {
      var v := VisibleItems(items);
      var k := LineCounter(n, items, enc, c, i);
      var l := Line(n, v[i], enc, k);
      assert c <= k && l.Ok? && l.value == r.value[i];
      if v[i].Entry? {
        assert l.value == [RenderItem(n, v[i], enc, k).value];
      }
    }
  }

  /** One line per visible entry, in order, each that entry's own line (rendered at a counter
      value no lower than the start); a string entry (even "-") is emitted verbatim. */
  lemma LinesInOrder(n: Nav, items: seq<Item>, enc: Dropdowns.Encoder, c: int)
    ensures var r := RenderLines(n, items, enc, c);
      r.Ok? ==> (|r.value| == |VisibleItems(items)| &&
        forall i :: 0 <= i < |r.value| ==>
          |r.value[i]| == 1 &&
          (VisibleItems(items)[i].Text? ==> r.value[i] == [Raw(VisibleItems(items)[i].s)]) &&
          (VisibleItems(items)[i].Entry? ==> r.value[i][0].Tag?) &&
          RenderedLine(n, VisibleItems(items)[i], enc, c, r.value[i]))
  {
    LinesCount(n, items, enc, c);
    forall i | 0 <= i < |VisibleItems(items)| {
      LineAt(n, items, enc, c, i);
    }
  }

  /** A nav whose entries are all strings is their text joined by "\n", and draws no id. */
  lemma {:induction false} StringsVerbatim(n: Nav, items: seq<Item>, enc: Dropdowns.Encoder, c: int)
    requires forall i :: 0 <= i < |items| ==> items[i].Text?
    ensures var r := RenderLines(n, items, enc, c);
      && r.Ok? && r.next == c && |r.value| == |items|
      && forall i :: 0 <= i < |items| ==> r.value[i] == [Raw(items[i].s)]
    decreases |items|
  {
    if items != [] {
      StringsVerbatim(n, items[1..], enc, c);
      var r := RenderLines(n, items, enc, c);
      var rest := RenderLines(n, items[1..], enc, c);
      assert r.value == [[Raw(items[0].s)]] + rest.value;
      forall i | 0 <= i < |items|
        ensures r.value[i] == [Raw(items[i].s)]
      {
        if i > 0 {
          assert r.value[i] == rest.value[i - 1];
          assert items[i] == items[1..][i - 1];
        }
      }
    }
  }

  /** An entry without children: a link with the `navbar-item` class and the entry's url
      (default "#"); `is-active` exactly when activation is on and the entry is active
      (explicitly, or by its url), the disabled style exactly when `disabled` — both may
      apply together; the counter is untouched. */
  lemma LeafEntry(n: Nav, x: Item, enc: Dropdowns.Encoder, c: int)
    requires x.Entry? && x.caption.Some? && x.items == []
    requires "is-active" !in ClassesOf(x.urlAttributes)
    requires Dropdowns.DisabledStyle !in StylesOf(x.urlAttributes)
    ensures var r := RenderItem(n, x, enc, c);
      && r.Ok? && r.next == c && r.value.Tag? && r.value.name == "a"
      && r.value.children == Dropdowns.Decorated(x, enc)
      && "href" in r.value.attrs && r.value.attrs["href"] == Str(x.url.GetOr("#"))
      && "navbar-item" in ClassesOf(r.value.attrs)
      && ("is-active" in ClassesOf(r.value.attrs) <==> n.activateItems && x.active.GetOr(IsItemActive(x.url.GetOr("#"), n.currentPath, n.activateItems)))
      && (Dropdowns.DisabledStyle in StylesOf(r.value.attrs) <==> x.disabled)
  {
    LinkAttributesFlags(n, x);
    var link := NavLinkAttributes(n, x);
    var attrs := AddClass(link, "navbar-item");
    assert StylesOf(attrs) == StylesOf(link);
    assert "is-active" in ClassesOf(attrs) <==> "is-active" in ClassesOf(link);
    assert ClassesOf(attrs["href" := Str(UrlOf(x))]) == ClassesOf(attrs);
    assert StylesOf(attrs["href" := Str(UrlOf(x))]) == StylesOf(attrs);
  }

  /** The link attributes carry `is-active` exactly when activation is on and the entry is
      active, and the disabled style exactly when `disabled`. */
  lemma LinkAttributesFlags(n: Nav, x: Item)
    requires x.Entry?
    requires "is-active" !in ClassesOf(x.urlAttributes)
    requires Dropdowns.DisabledStyle !in StylesOf(x.urlAttributes)
    ensures "is-active" in ClassesOf(NavLinkAttributes(n, x)) <==> n.activateItems && EntryActive(n, x)
    ensures Dropdowns.DisabledStyle in StylesOf(NavLinkAttributes(n, x)) <==> x.disabled
  {
    var a := if x.disabled then AddStyle(x.urlAttributes, Dropdowns.DisabledStyle) else x.urlAttributes;
    assert ClassesOf(a) == ClassesOf(x.urlAttributes);
    assert StylesOf(NavLinkAttributes(n, x)) == StylesOf(a);
  }

  /** An entry with children: a container with the widget attributes plus the navbar-item,
      has-dropdown and hoverable classes, holding the navbar link to the entry's url and the
      dropdown div, whose content is the annotated children rendered by an unenclosed
      Dropdown; that Dropdown draws an id even though it emits no container. */
  lemma DropdownEntry(n: Nav, x: Item, enc: Dropdowns.Encoder, c: int)
    requires x.Entry? && x.caption.Some? && x.items != []
    ensures var r := RenderItem(n, x, enc, c);
      var menu := Dropdowns.RenderDropdown(NavSubmenu(IsChildActive(n, x.items)), enc, c);
      r.Ok? ==> (
        && r.value.Tag? && r.value.name == "div" && |r.value.children| == 2
        && r.next == menu.next && r.next >= c + 1
        && (forall k :: k in ClassesOf(n.base.attributes) ==> k in ClassesOf(r.value.attrs))
        && n.navBarItemCssClass in ClassesOf(r.value.attrs)
        && n.hasDropdownCssClass in ClassesOf(r.value.attrs)
        && n.isHoverableCssClass in ClassesOf(r.value.attrs)
        && var link := r.value.children[0];
           var body := r.value.children[1];
           && link.Tag? && link.name == "a" && link.children == Dropdowns.Decorated(x, enc)
           && "href" in link.attrs && link.attrs["href"] == Str(x.url.GetOr("#"))
           && n.navBarLinkCssClass in ClassesOf(link.attrs)
           && body.Tag? && body.name == "div" && n.navBarDropdownCssClass in ClassesOf(body.attrs)
           && body.children == menu.value)
  {
    var sub := NavSubmenu(IsChildActive(n, x.items));
    var (id, c1) := Dropdowns.MenuId(sub.base, c);
    assert c1 == c + 1;
    var attrs := AddClass(NavLinkAttributes(n, x), n.navBarLinkCssClass);
    assert ClassesOf(attrs["href" := Str(UrlOf(x))]) == ClassesOf(attrs);
  }

  /** Every trigger container in a rendered nav, at any depth, links its button to its menu. */
  lemma {:induction false} NavLinked(n: Nav, items: seq<Item>, enc: Dropdowns.Encoder, c: int)
    ensures var r := RenderLines(n, items, enc, c);
      r.Ok? ==> DropdownIds.AllSound(r.value)
    decreases |items|
  {
    var r := RenderLines(n, items, enc, c);
    if items != [] && r.Ok? {
      if !Visible(items[0]) {
        NavLinked(n, items[1..], enc, c);
      } else {
        var l := Line(n, items[0], enc, c);
        EntryLinked(n, items[0], enc, c);
        NavLinked(n, items[1..], enc, l.next);
        var rest := RenderLines(n, items[1..], enc, l.next);
        assert r.value == [l.value] + rest.value;
        assert r.value[1..] == rest.value;
      }
    }
  }

  /** renderNav's output is the visible entries' lines joined by "\n", with the counter they
      leave; a failing entry fails the nav with its error. */
  lemma NavIsJoinedLines(n: Nav, enc: Dropdowns.Encoder, c: int)
    ensures var lines := RenderLines(n, n.items, enc, c);
      && (lines.Ok? ==> RenderNav(n, enc, c) == Ok(Join(lines.value, NavSeparator), lines.next))
      && (lines.Fail? ==> RenderNav(n, enc, c) == Fail(lines.error, lines.next))
  {
  }

  /** The whole rendered nav is linked: its lines, and the "\n" between them. */
  lemma NavRenderLinked(n: Nav, enc: Dropdowns.Encoder, c: int)
    ensures var r := RenderNav(n, enc, c);
      r.Ok? ==> DropdownIds.SoundLine(r.value) && AllLinked(r.value)
  {
    NavLinked(n, n.items, enc, c);
    var lines := RenderLines(n, n.items, enc, c);
    if lines.Ok? {
      assert AriaLinked(Raw("\n"));
      DropdownIds.JoinSound(lines.value, NavSeparator);
    }
  }

  lemma EntryLinked(n: Nav, x: Item, enc: Dropdowns.Encoder, c: int)
    ensures var l := Line(n, x, enc, c);
      l.Ok? ==> DropdownIds.SoundLine(l.value)
  {
    var l := Line(n, x, enc, c);
    if l.Ok? {
      if x.Text? {
        assert AriaLinked(Raw(x.s));
      } else {
        var text := Dropdowns.Decorated(x, enc);
        var href := Str(UrlOf(x));
        var link := NavLinkAttributes(n, x);
        if x.items == [] {
          DropdownIds.LabelTagSound("a", AddClass(link, "navbar-item")["href" := href],
            Dropdowns.ItemText(x, enc), x.iconText, x.iconCssClass, x.iconAttributes);
        } else {
          var sub := NavSubmenu(IsChildActive(n, x.items));
          var menu := Dropdowns.RenderDropdown(sub, enc, c);
          DropdownIds.DropdownSound(sub, enc, c);
          var a := Tag("a", AddClass(link, n.navBarLinkCssClass)["href" := href], text);
          DropdownIds.LabelTagSound("a", AddClass(link, n.navBarLinkCssClass)["href" := href],
            Dropdowns.ItemText(x, enc), x.iconText, x.iconCssClass, x.iconAttributes);
          assert a in [a];
          var div := Tag("div", AddClass(x.dropdownAttributes, n.navBarDropdownCssClass), menu.value);
          assert AriaLinked(div) by {
            if |menu.value| > 0 {
              assert menu.value[0] in menu.value;
            }
          }
          var node := Tag("div", DropdownContainerAttributes(n), [a, div]);
          assert !IsTriggerContainer(node) by {
            if |a.children| > 0 {
              assert a.children[0] in a.children;
            }
          }
          assert AriaLinked(node);
        }
      }
    }
  }

  /** A nav with no visible entries renders nothing and draws no id. */
  lemma EmptyNav(n: Nav, enc: Dropdowns.Encoder, c: int)
    requires forall i :: 0 <= i < |n.items| ==> !Visible(n.items[i])
    ensures RenderNav(n, enc, c) == Ok([], c)
  {
    InvisibleSkipped(n, n.items, enc, c);
    NoneVisible(n.items);
  }

  lemma {:induction false} NoneVisible(items: seq<Item>)
    requires forall i :: 0 <= i < |items| ==> !Visible(items[i])
    ensures VisibleItems(items) == []
    decreases |items|
  {
    if items != [] {
      assert !Visible(items[0]);
      NoneVisible(items[1..]);
    }
  }

  /** The active pass under `activateParents` on and off gives entries that differ at most in
      their `attributes` key, at every depth. */
  lemma {:induction false} AnnotateMarkOnly(n: Nav, x: Item)
    ensures DropdownProps.Unmarked(AnnotateChild(n.(activateParents := true), x))
         == DropdownProps.Unmarked(AnnotateChild(n.(activateParents := false), x))
    decreases ItemSize(x), 0
  {
    match x
    case Text(_) =>
    case Entry(_, _, _, _, _, _, _, _, _, _, _, _, _, _, _, children) =>
      ChildActiveMarkOnly(n, children);
  }

  lemma {:induction false} ChildActiveMarkOnly(n: Nav, items: seq<Item>)
    ensures DropdownProps.AllUnmarked(IsChildActive(n.(activateParents := true), items))
         == DropdownProps.AllUnmarked(IsChildActive(n.(activateParents := false), items))
    decreases ItemsSize(items), 1
  {
    if items != [] {
      ItemSizePositive(items[0]);
      AnnotateMarkOnly(n, items[0]);
      ChildActiveMarkOnly(n, items[1..]);
      var n1 := n.(activateParents := true);
      var n0 := n.(activateParents := false);
      assert IsChildActive(n1, items)[1..] == IsChildActive(n1, items[1..]);
      assert IsChildActive(n0, items)[1..] == IsChildActive(n0, items[1..]);
    }
  }

  /** The nested Dropdown of an entry renders the same with `activateParents` on and off. */
  lemma SubmenuIgnoresParents(n: Nav, items: seq<Item>, enc: Dropdowns.Encoder, c: int)
    ensures Dropdowns.RenderDropdown(NavSubmenu(IsChildActive(n.(activateParents := true), items)), enc, c)
         == Dropdowns.RenderDropdown(NavSubmenu(IsChildActive(n.(activateParents := false), items)), enc, c)
  {
    var a1 := IsChildActive(n.(activateParents := true), items);
    var a0 := IsChildActive(n.(activateParents := false), items);
    ChildActiveMarkOnly(n, items);
    DropdownProps.DropdownIgnoresMark(NavSubmenu(a1), enc, c);
    DropdownProps.DropdownIgnoresMark(NavSubmenu(a0), enc, c);
    assert NavSubmenu(a1).(items := DropdownProps.AllUnmarked(a1))
        == NavSubmenu(a0).(items := DropdownProps.AllUnmarked(a0));
  }

  /** An entry renders the same with `activateParents` on and off. */
  lemma EntryIgnoresParents(n: Nav, x: Item, enc: Dropdowns.Encoder, c: int)
    requires x.Entry?
    ensures RenderItem(n.(activateParents := true), x, enc, c) == RenderItem(n.(activateParents := false), x, enc, c)
  {
    EntryAttributesIgnoreParents(n, x);
    if x.items != [] {
      SubmenuIgnoresParents(n, x.items, enc, c);
    }
  }

  /** The link and container attributes of an entry do not depend on `activateParents`. */
  lemma EntryAttributesIgnoreParents(n: Nav, x: Item)
    requires x.Entry?
    ensures NavLinkAttributes(n.(activateParents := true), x) == NavLinkAttributes(n.(activateParents := false), x)
    ensures DropdownContainerAttributes(n.(activateParents := true)) == DropdownContainerAttributes(n.(activateParents := false))
  {
  }

  /** A line does not depend on `activateParents`. */
  lemma LineIgnoresParents(n: Nav, x: Item, enc: Dropdowns.Encoder, c: int)
    ensures Line(n.(activateParents := true), x, enc, c) == Line(n.(activateParents := false), x, enc, c)
  {
    if x.Entry? {
      EntryIgnoresParents(n, x, enc, c);
    }
  }

  lemma {:induction false} LinesIgnoreParents(n: Nav, items: seq<Item>, enc: Dropdowns.Encoder, c: int)
    ensures RenderLines(n.(activateParents := true), items, enc, c)
         == RenderLines(n.(activateParents := false), items, enc, c)
    decreases |items|
  {
    if items != [] {
      if !Visible(items[0]) {
        LinesIgnoreParents(n, items[1..], enc, c);
      } else {
        LineIgnoresParents(n, items[0], enc, c);
        match Line(n.(activateParents := false), items[0], enc, c)
        case Fail(_, _) =>
        case Ok(_, m) => LinesIgnoreParents(n, items[1..], enc, m);
      }
    }
  }

  /** `activateParents()` never changes the output: the parent mark it enables goes to an
      entry's `attributes` key, which the nested Dropdown never reads, and the parent's own
      `is-active` class comes from `active`, which the mark does not touch. */
  lemma ActivateParentsNoEffect(n: Nav, enc: Dropdowns.Encoder, c: int)
    ensures RenderNav(ActivateParents(n), enc, c) == RenderNav(n.(activateParents := false), enc, c)
    ensures RenderNav(ActivateParents(n), enc, c) == RenderNav(n, enc, c)
  {
    LinesIgnoreParents(n, n.items, enc, c);
    if !n.activateParents {
      assert n == n.(activateParents := false);
    } else {
      assert n == ActivateParents(n);
    }
  }
}
