/** The Message widget: a container with the message and colour classes (and the size, when
    set), an optional header holding the header message and an optional close button, and
    the body. Each optional part, when switched off, contributes no node and no attribute. */
module Messages {
  import opened Decimal
  import opened Markup
  import Widgets

  datatype Message = Message(
    base: Widgets.Widget,
    body: string,
    bodyAttributes: Attributes,
    buttonSpanAttributes: Attributes,
    buttonSpanAriaHidden: string,
    buttonCssClass: string,
    closeButtonAttributes: Attributes,
    headerAttributes: Attributes,
    headerColor: string,
    headerMessage: string,
    messageBodyCssClass: string,
    messageCssClass: string,
    messageHeaderMessageCssClass: string,
    unclosedButton: bool,
    /** The source's `withoutHeader` property: true (the default) means the header IS
        rendered; the withoutHeader() setter clears it. */
    showHeader: bool)

  /** A freshly constructed Message widget. */
  const Default: Message := Message(
    Widgets.Default, "", map[], map[], "true", "delete", map[], map[], "is-dark", "",
    "message-body", "message", "message-header", false, true)

  /** The close button's content. */
  const Times: string := "&times;"

  /** A render that cannot fail, with the shared id counter after it. */
  datatype Counted<+T> = Counted(value: T, next: int)

  // Copy-on-write setters.

  function SetBody(m: Message, v: string): (r: Message)
    ensures r.body == v && r.(body := m.body) == m
  {
    m.(body := v)
  }

  function SetBodyAttributes(m: Message, v: Attributes): (r: Message)
    ensures r.bodyAttributes == v && r.(bodyAttributes := m.bodyAttributes) == m
  {
    m.(bodyAttributes := v)
  }

  function SetCloseButtonAttributes(m: Message, v: Attributes): (r: Message)
    ensures r.closeButtonAttributes == v && r.(closeButtonAttributes := m.closeButtonAttributes) == m
  {
    m.(closeButtonAttributes := v)
  }

  function SetHeaderMessage(m: Message, v: string): (r: Message)
    ensures r.headerMessage == v && r.(headerMessage := m.headerMessage) == m
  {
    m.(headerMessage := v)
  }

  function SetHeaderAttributes(m: Message, v: Attributes): (r: Message)
    ensures r.headerAttributes == v && r.(headerAttributes := m.headerAttributes) == m
  {
    m.(headerAttributes := v)
  }

  function UnclosedButton(m: Message): (r: Message)
    ensures r.unclosedButton && r.(unclosedButton := m.unclosedButton) == m
  {
    m.(unclosedButton := true)
  }

  function WithoutHeader(m: Message): (r: Message)
    ensures !r.showHeader && r.(showHeader := m.showHeader) == m
  {
    m.(showHeader := false)
  }

  /** The six colour tokens joined by double quotes, in COLOR_ALL order. */
  lemma ColorList()
    ensures Widgets.Implode("\"", Widgets.ColorAll) ==
      Widgets.ColorPrimary + "\"" + Widgets.ColorLink + "\"" + Widgets.ColorInfo + "\""
      + Widgets.ColorSuccess + "\"" + Widgets.ColorWarning + "\"" + Widgets.ColorDanger
  {
    var q := "\"";
    var all := Widgets.ColorAll;
    assert Widgets.Implode(q, all[5..]) == Widgets.ColorDanger;
    assert Widgets.Implode(q, all[4..]) == Widgets.ColorWarning + q + Widgets.ColorDanger;
    assert Widgets.Implode(q, all[3..]) == Widgets.ColorSuccess + q + (Widgets.ColorWarning + q + Widgets.ColorDanger);
    assert Widgets.Implode(q, all[2..]) == Widgets.ColorInfo + q + (Widgets.ColorSuccess + q + (Widgets.ColorWarning + q + Widgets.ColorDanger));
    assert Widgets.Implode(q, all[1..]) == Widgets.ColorLink + q + (Widgets.ColorInfo + q + (Widgets.ColorSuccess + q + (Widgets.ColorWarning + q + Widgets.ColorDanger)));
  }

  /** The colour exception's text: the six colour tokens, in COLOR_ALL order, each preceded
      by a double quote, and a closing quote and full stop. */
  lemma ColorMessage()
    ensures Widgets.InvalidMessage("color", Widgets.ColorAll) ==
      "Invalid color. Valid values are: \""
      + (Widgets.ColorPrimary + "\"" + Widgets.ColorLink + "\"" + Widgets.ColorInfo + "\""
         + Widgets.ColorSuccess + "\"" + Widgets.ColorWarning + "\"" + Widgets.ColorDanger)
      + "\"."
  {
    ColorList();
    assert "Invalid " + "color" + ". Valid values are: \"" == "Invalid color. Valid values are: \"";
  }

  /** headerColor(v): accepted exactly for the six colour tokens, otherwise the exception that
      lists them; on success only the colour changes. */
  function SetHeaderColor(m: Message, v: string): (r: Widgets.Configured<Message>)
    ensures r.Configured? <==> v in {"is-primary", "is-link", "is-info", "is-success", "is-warning", "is-danger"}
    ensures r.Configured? ==> r.value.headerColor == v && r.value.(headerColor := m.headerColor) == m
    ensures r.Invalid? ==>
      r.message == "Invalid color. Valid values are: \""
        + (Widgets.ColorPrimary + "\"" + Widgets.ColorLink + "\"" + Widgets.ColorInfo + "\""
           + Widgets.ColorSuccess + "\"" + Widgets.ColorWarning + "\"" + Widgets.ColorDanger)
        + "\"."
  {
    ColorMessage();
    if v !in Widgets.ColorAll then Widgets.Invalid(Widgets.InvalidMessage("color", Widgets.ColorAll))
    else Widgets.Configured(m.(headerColor := v))
  }

  /** The default colour is outside the accepted set: once changed it cannot be set back. */
  lemma DefaultColorNotSettable(m: Message)
    ensures Default.headerColor == "is-dark"
    ensures SetHeaderColor(m, Default.headerColor).Invalid?
  {
  }

  /** The close button's attributes: the caller's, plus the button class, without `label`,
      with `type="button"`, plus the size class when a size is set. */
  function CloseButtonAttributes(m: Message): Attributes {
    var a := (AddClass(m.closeButtonAttributes, m.buttonCssClass) - {"label"})["type" := Str("button")];
    if m.base.size != "" then AddClass(a, m.base.size) else a
  }

  /** renderCloseButton: nothing when unclosedButton is set, otherwise a button holding the
      aria-hidden span with the times sign. */
  function RenderCloseButton(m: Message): (r: seq<Node>)
    ensures |r| <= 1
    ensures r == [] <==> m.unclosedButton
    ensures r != [] ==> (r[0].Tag? && r[0].name == "button" && |r[0].children| == 1
      && "type" in r[0].attrs && r[0].attrs["type"] == Str("button") && "label" !in r[0].attrs
      && m.buttonCssClass in ClassesOf(r[0].attrs)
      && (m.base.size != "" ==> m.base.size in ClassesOf(r[0].attrs))
      && r[0].children[0].Tag? && "aria-hidden" in r[0].children[0].attrs
      && r[0].children[0].attrs["aria-hidden"] == Str(m.buttonSpanAriaHidden))
  {
    if m.unclosedButton then []
    else
      var span := Tag("span", m.buttonSpanAttributes["aria-hidden" := Str(m.buttonSpanAriaHidden)], [Raw(Times)]);
      [Tag("button", CloseButtonAttributes(m), [span])]
  }

  /** Text spliced into a tag: nothing when empty. */
  function TextContent(s: string): (r: seq<Node>)
    ensures r == [] <==> s == ""
  {
    if s == "" then [] else [Raw(s)]
  }

  /** renderHeader: when the header is shown, a div with the header class holding the header
      message (wrapped in a paragraph and followed by the close button when there is one);
      otherwise nothing. */
  function RenderHeader(m: Message): (r: seq<Node>)
    ensures |r| == if m.showHeader then 1 else 0
    ensures r != [] ==> r[0].Tag? && m.messageHeaderMessageCssClass in ClassesOf(r[0].attrs)
  {
    var button := RenderCloseButton(m);
    var content := if button != [] then [Tag("p", map[], TextContent(m.headerMessage))] + button
                   else TextContent(m.headerMessage);
    if m.showHeader then [Tag("div", AddClass(m.headerAttributes, m.messageHeaderMessageCssClass), content)]
    else []
  }

  /** renderMessageBody: a div with the body class holding the body between two newlines, or
      nothing when the body is empty. */
  function RenderMessageBody(m: Message): (r: Node)
    ensures r.Tag? && m.messageBodyCssClass in ClassesOf(r.attrs)
    ensures |r.children| == if m.body == "" then 0 else 3
  {
    Tag("div", AddClass(m.bodyAttributes, m.messageBodyCssClass),
        if m.body == "" then [] else [Raw(EOL), Raw(m.body), Raw(EOL)])
  }

  /** The container classes: the caller's, then the message class, the colour, and the size
      when one is set. */
  function ContainerAttributes(m: Message): Attributes {
    var a := AddClass(AddClass(m.base.attributes, m.messageCssClass), m.headerColor);
    if m.base.size != "" then AddClass(a, m.base.size) else a
  }

  /** The id renderMessage computes: empty when the caller gave an `id` attribute (no id is
      drawn), otherwise getId() followed by "-message". */
  function MessageId(m: Message, counter: int): (r: Counted<string>)
    ensures "id" in m.base.attributes ==> r == Counted("", counter)
    ensures "id" !in m.base.attributes ==> r.next == Widgets.GetId(m.base, counter).next
    ensures "id" !in m.base.attributes && m.base.autoGenerate ==>
      r.value == m.base.autoIdPrefix + IntToString(counter) + "-message" && r.next == counter + 1
  {
    if "id" in m.base.attributes then Counted("", counter)
    else
      var draw := Widgets.GetId(m.base, counter);
      Counted(draw.id + "-message", draw.next)
  }

  /** renderMessage as written: the computed id is set on the container unconditionally, so a
      caller-supplied `id` attribute is replaced by the empty string. */
  function RenderMessageAsWritten(m: Message, counter: int): (r: Counted<Node>)
    ensures r.next == MessageId(m, counter).next
    ensures r.value.Tag? && "id" in r.value.attrs && r.value.attrs["id"] == Str(MessageId(m, counter).value)
  {
    var id := MessageId(m, counter);
    Counted(Tag("div", ContainerAttributes(m)["id" := Str(id.value)], RenderHeader(m) + [RenderMessageBody(m)]), id.next)
  }

  /** renderMessage, with the container id corrected: a caller-supplied `id` attribute is kept,
      otherwise the drawn id is set. Everything else is as written. */
  function RenderMessage(m: Message, counter: int): (r: Counted<Node>)
    ensures r.value.Tag? && r.value.name == "div"
    ensures r.value.children == RenderHeader(m) + [RenderMessageBody(m)]
    ensures "id" in m.base.attributes ==> r.next == counter && "id" in r.value.attrs && r.value.attrs["id"] == m.base.attributes["id"]
    ensures "id" !in m.base.attributes ==> (r.next == MessageId(m, counter).next && "id" in r.value.attrs
      && r.value.attrs["id"] == Str(MessageId(m, counter).value))
  {
    var id := MessageId(m, counter);
    var attrs := ContainerAttributes(m);
    var attrs' := if "id" in m.base.attributes then attrs else attrs["id" := Str(id.value)];
    Counted(Tag("div", attrs', RenderHeader(m) + [RenderMessageBody(m)]), id.next)
  }
}
