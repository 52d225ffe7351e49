/** What Message promises: the order of the container classes, where the size goes, which
    parts the two toggles remove, how the body is wrapped, and when an id is drawn. */
module MessageProps {
  import opened Decimal
  import opened Markup
  import opened Messages
  import Widgets

  /** Setting the id leaves the container classes as ContainerAttributes computed them. */
  lemma RenderedClasses(m: Message, c: int)
    ensures ClassesOf(RenderMessage(m, c).value.attrs) == ClassesOf(ContainerAttributes(m))
  {
    var a := ContainerAttributes(m);
    var id := MessageId(m, c);
    assert ClassesOf(a["id" := Str(id.value)]) == ClassesOf(a);
  }

  /** With the message, colour and size tokens distinct and absent from the caller's classes,
      the container's classes are the caller's followed by `message`, the colour, and the
      size when set — in that order. */
  lemma ContainerClassOrder(m: Message, c: int)
    requires m.messageCssClass != m.headerColor
    requires m.base.size != m.messageCssClass && m.base.size != m.headerColor
    requires m.messageCssClass !in ClassesOf(m.base.attributes)
    requires m.headerColor !in ClassesOf(m.base.attributes)
    requires m.base.size !in ClassesOf(m.base.attributes)
    ensures ClassesOf(RenderMessage(m, c).value.attrs) ==
      ClassesOf(m.base.attributes) + [m.messageCssClass, m.headerColor] + (if m.base.size != "" then [m.base.size] else [])
  {
    ContainerClasses(m);
    RenderedClasses(m, c);
  }

  lemma ContainerClasses(m: Message)
    requires m.messageCssClass != m.headerColor
    requires m.base.size != m.messageCssClass && m.base.size != m.headerColor
    requires m.messageCssClass !in ClassesOf(m.base.attributes)
    requires m.headerColor !in ClassesOf(m.base.attributes)
    requires m.base.size !in ClassesOf(m.base.attributes)
    ensures ClassesOf(ContainerAttributes(m)) ==
      ClassesOf(m.base.attributes) + [m.messageCssClass, m.headerColor] + (if m.base.size != "" then [m.base.size] else [])
  {
    var base := ClassesOf(m.base.attributes);
    var a1 := AddClass(m.base.attributes, m.messageCssClass);
    assert ClassesOf(a1) == base + [m.messageCssClass];
    assert m.headerColor !in ClassesOf(a1);
    var a2 := AddClass(a1, m.headerColor);
    assert ClassesOf(a2) == base + [m.messageCssClass] + [m.headerColor];
    assert ClassesOf(a2) == base + [m.messageCssClass, m.headerColor];
    if m.base.size != "" {
      assert m.base.size !in ClassesOf(a2);
      assert ClassesOf(AddClass(a2, m.base.size)) == ClassesOf(a2) + [m.base.size];
    }
  }

  /** The close button appears exactly when the header is shown and unclosedButton is not set;
      a set size is on the container and, when the button appears, on the button too. */
  lemma SizeOnContainerAndButton(m: Message, c: int)
    requires m.base.size != ""
    ensures m.base.size in ClassesOf(RenderMessage(m, c).value.attrs)
    ensures var header := RenderHeader(m);
      (|header| == 1 && RenderCloseButton(m) != [] <==> m.showHeader && !m.unclosedButton)
    ensures m.showHeader && !m.unclosedButton ==>
      var button := RenderHeader(m)[0].children[1];
      button.Tag? && button.name == "button" && m.base.size in ClassesOf(button.attrs)
  {
    RenderedClasses(m, c);
    assert m.base.size in ClassesOf(ContainerAttributes(m));
    CloseButtonInHeader(m);
  }

  /** When shown, the close button is the header's second child. */
  lemma CloseButtonInHeader(m: Message)
    ensures var header := RenderHeader(m);
      (|header| == 1 && RenderCloseButton(m) != [] <==> m.showHeader && !m.unclosedButton)
    ensures m.showHeader && !m.unclosedButton ==> RenderHeader(m)[0].children[1] == RenderCloseButton(m)[0]
  {
    if m.showHeader && !m.unclosedButton {
      var button := RenderCloseButton(m);
      assert RenderHeader(m)[0].children == [Tag("p", map[], TextContent(m.headerMessage))] + button;
    }
  }

  /** The header is emitted exactly when the header flag is on (true unless withoutHeader() was
      called), and the body always comes last. With a close button the header message is
      wrapped in a paragraph before the button; without one it is emitted bare. */
  lemma HeaderToggles(m: Message, c: int)
    ensures var kids := RenderMessage(m, c).value.children;
      && |kids| == (if m.showHeader then 2 else 1)
      && kids[|kids| - 1] == RenderMessageBody(m)
    ensures m.showHeader && m.unclosedButton ==> RenderHeader(m)[0].children == TextContent(m.headerMessage)
    ensures m.showHeader && !m.unclosedButton ==>
      RenderHeader(m)[0].children == [Tag("p", map[], TextContent(m.headerMessage))] + RenderCloseButton(m)
    ensures !m.showHeader ==> RenderMessage(m, c).value.children == [RenderMessageBody(m)]
  {
  }

  /** withoutHeader() removes the header whatever the header message and button settings. */
  lemma WithoutHeaderRemovesHeader(m: Message, c: int)
    ensures RenderMessage(WithoutHeader(m), c).value.children == [RenderMessageBody(m)]
  {
  }

  /** The body div holds the body between two newlines when the body is not empty, and
      nothing otherwise. */
  lemma BodyWrap(m: Message)
    ensures m.body != "" ==> RenderMessageBody(m).children == [Raw(EOL), Raw(m.body), Raw(EOL)]
    ensures m.body == "" ==> RenderMessageBody(m).children == []
  {
  }

  /** An id is drawn only when the caller gave none: then, with auto-generation on, the
      container's id is the prefix, the counter and "-message", and the counter moves on by
      one; with a caller id the counter is untouched. */
  lemma IdRule(m: Message, c: int)
    ensures "id" in m.base.attributes ==> RenderMessage(m, c).next == c
    ensures "id" !in m.base.attributes && m.base.autoGenerate ==>
      RenderMessage(m, c).next == c + 1 &&
      RenderMessage(m, c).value.attrs["id"] == Str(m.base.autoIdPrefix + IntToString(c) + "-message")
    ensures "id" !in m.base.attributes && !m.base.autoGenerate ==>
      RenderMessage(m, c).next == c &&
      RenderMessage(m, c).value.attrs["id"] == Str(m.base.id + "-message")
  {
  }

  /** Two messages rendered one after the other, neither with a caller id and both with the
      same prefix, get different ids. */
  lemma SuccessiveMessagesDiffer(m1: Message, m2: Message, c: int)
    requires "id" !in m1.base.attributes && "id" !in m2.base.attributes
    requires m1.base.autoGenerate && m2.base.autoGenerate
    requires m1.base.autoIdPrefix == m2.base.autoIdPrefix
    ensures var r1 := RenderMessage(m1, c);
      var r2 := RenderMessage(m2, r1.next);
      r1.value.attrs["id"] != r2.value.attrs["id"]
  {
    Widgets.AutoIdsDiffer(m1.base.autoIdPrefix, "-message", c, c + 1);
  }

  /** The first auto id with the default prefix. */
  lemma FirstAutoId()
    ensures Widgets.Default.autoIdPrefix + IntToString(0) + "-message" == "w0-message"
  {
    assert IntToString(0) == "0";
  }

  lemma DefaultId(header: string, body: string)
    ensures var m := SetBody(SetHeaderMessage(Default, header), body);
      RenderMessage(m, 0).next == 1 && RenderMessage(m, 0).value.attrs["id"] == Str("w0-message")
  {
    FirstAutoId();
  }

  lemma DefaultClasses(header: string, body: string)
    ensures var m := SetBody(SetHeaderMessage(Default, header), body);
      ClassesOf(RenderMessage(m, 0).value.attrs) == ["message", "is-dark"]
  {
    var m := SetBody(SetHeaderMessage(Default, header), body);
    ContainerClassOrder(m, 0);
  }

  /** A fresh Message rendered with the counter at zero: id `w0-message`, classes `message`
      and `is-dark`, a header with the close button, and the body. */
  lemma DefaultRender(header: string, body: string)
    ensures var m := SetBody(SetHeaderMessage(Default, header), body);
      var r := RenderMessage(m, 0);
      && r.next == 1
      && r.value.attrs["id"] == Str("w0-message")
      && ClassesOf(r.value.attrs) == ["message", "is-dark"]
      && |r.value.children| == 2
      && RenderCloseButton(m) != []
  {
    DefaultId(header, body);
    DefaultClasses(header, body);
  }

  /** The as-written and corrected renders differ in the container id alone: as written, a
      caller's `id` is replaced by the empty string, so the two agree unless the caller gave a
      non-empty one; without a caller `id` both draw the same generated one. */
  lemma CallerIdReplaced(m: Message, c: int)
    ensures var w := RenderMessageAsWritten(m, c);
      var r := RenderMessage(m, c);
      && w.next == r.next
      && ("id" !in m.base.attributes ==> w.value == r.value)
      && ("id" in m.base.attributes ==> w.value.attrs["id"] == Str("") && r.value.attrs["id"] == m.base.attributes["id"])
    ensures RenderMessage(m, c).value.Tag?
    ensures RenderMessageAsWritten(m, c).value
         == RenderMessage(m, c).value.(attrs := RenderMessage(m, c).value.attrs["id" := Str(MessageId(m, c).value)])
  {
    var id := MessageId(m, c);
    var attrs := ContainerAttributes(m);
    var attrs' := if "id" in m.base.attributes then attrs else attrs["id" := Str(id.value)];
    assert attrs'["id" := Str(id.value)] == attrs["id" := Str(id.value)];
  }

  /** The concrete case: a message given the id attribute "alert" renders with an empty id as
      written, and with "alert" once corrected. */
  lemma CallerIdCounterexample()
    ensures var m := Default.(base := Widgets.SetAttributes(Widgets.Default, map["id" := Str("alert")]));
      && RenderMessageAsWritten(m, 0).value.attrs["id"] == Str("")
      && RenderMessage(m, 0).value.attrs["id"] == Str("alert")
  {
  }
}
