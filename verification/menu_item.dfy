/** The item descriptors Dropdown and Nav render. In the source an item is either a plain string
    (the divider marker "-" or a pre-rendered fragment) or an associative array whose keys are
    all optional; the same arrays flow from Nav into Dropdown, so one datatype serves both. A key
    read through `?? default` becomes a field holding its default when absent; a key whose
    absence matters (`isset`, or `??` with a computed default) becomes an Option. */
module MenuItem {
  import opened Common
  import opened Markup

  datatype Item =
    | Text(s: string)
    | Entry(
        /** The `label` key (a Dafny keyword, hence the name). */
        caption: Option<string>,
        url: Option<string>,
        visible: Option<bool>,
        active: Option<bool>,
        /** The key Dropdown reads for the disabled state. */
        disable: bool,
        /** The key Nav reads for the disabled state. */
        disabled: bool,
        /** `enclose ?? true`: false emits the label without any wrapping tag. */
        enclose: bool,
        /** `isset(encode) && encode === true`. */
        encode: bool,
        iconText: string,
        iconCssClass: string,
        iconAttributes: Attributes,
        urlAttributes: Attributes,
        submenuAttributes: Attributes,
        dropdownAttributes: Attributes,
        /** The item's `attributes` key; only Nav's active pass writes it, nothing reads it. */
        attributes: Attributes,
        items: seq<Item>)

  /** An array item carrying only a label and, optionally, a url. */
  function Link(text: string, url: Option<string>): (it: Item)
    ensures it.Entry? && it.caption == Some(text) && it.url == url && it.items == []
  {
    Entry(Some(text), url, None, None, false, false, true, false, "", "", map[], map[], map[], map[], map[], [])
  }

  /** Number of items in a tree, counting nested ones: the termination measure of the renders. */
  function ItemSize(it: Item): nat
    decreases it
  {
    match it
    case Text(_) => 1
    case Entry(_, _, _, _, _, _, _, _, _, _, _, _, _, _, _, kids) => 1 + ItemsSize(kids)
  }

  function ItemsSize(items: seq<Item>): nat
    decreases items
  {
    if items == [] then 0 else ItemSize(items[0]) + ItemsSize(items[1..])
  }

  lemma ItemSizePositive(it: Item)
    ensures ItemSize(it) >= 1
  {
  }
}
