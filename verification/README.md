# Bulma widgets for Yii: Dropdown, Nav and Message

A Dafny model of the rendering core of the `yii-extension/bulma` widget package:

- the shared `Widget` base: its attributes, id, auto-id prefix, the process-wide id counter, and the size setter;
- the `Dropdown` widget: a trigger button plus a menu rendered from a tree of menu items, with dividers, headers, links, icons, active and disabled states, and nested submenus;
- the `Nav` widget: navbar entries. Its active pass (`isChildActive`) marks children and parents. Entries with children are handed to an unenclosed `Dropdown`;
- the `Message` widget: a container with colour and size classes, an optional header with a close button, and a body.

Each widget is an immutable datatype with copy-on-write setters, and each render is a pure function. The output is an abstract markup tree (`Markup.Node`: tags with attribute maps, raw text, and content a builder escapes), not an HTML string. `Html::encode` is a function parameter. The static id counter is threaded explicitly: every render takes the counter value before it and returns the value after it, also when it fails.

Modules, in dependency order:

- `Common`: `Option`, the `MissingLabel` error, and the `Rendered` result;
- `Decimal`: PHP's int-to-string conversion and its inverse;
- `Markup`: the node tree, `addCssClass`/`addCssStyle`, the icon-and-label fragment, and `implode`;
- `Widgets`: the base widget;
- `MenuItem`: item descriptors;
- `Dropdowns` and `DropdownProps`: the Dropdown render and its properties;
- `DropdownIds`: id allocation, and the link from each trigger to its own menu;
- `Navs` and `NavProps`;
- `Messages` and `MessageProps`.

In these places the code behaves in ways a reader might not expect; the model follows the code:

- Only `Dropdown` makes disabled and active mutually exclusive. `Nav` applies both the disabled style and `is-active` to the same link (`NavProps.LeafEntry`).
- Only `Nav` skips items marked `visible => false`. `Dropdown` never reads that key (`DropdownProps.IgnoresVisible`).
- `Dropdown` reads the key `disable`; `Nav` reads `disabled`.
- An unenclosed `Dropdown` still draws an id from the counter (src/Dropdown.php:228 runs before the branch), although it emits no container. So every `Nav` entry with children advances the counter (`DropdownProps.UnclosedIsJoinedLines`, `NavProps.DropdownEntry`).
- `activateParents()` has no effect on the output. The active pass (src/Nav.php:167-180) records a marked parent as `['attributes' => ['active' => true]]` on the child item, but `Dropdown` never reads an item's `attributes` key (src/Dropdown.php:311-404). The by-reference `$active` it sets is assigned at src/Nav.php:300, after the entry's own `is-active` class was decided at src/Nav.php:288-290 (`NavProps.ActivateParentsNoEffect`).

## Model

| member | source | states |
|---|---|---|
| Decimal.IntToString | src/Widget.php:148 | The counter's decimal text is non-empty, starts with '-' exactly for negative values, and is an optional sign followed by digits |
| Decimal.IntRoundTrip | src/Widget.php:148 | Parsing the decimal text of a counter value gives back that value |
| Decimal.IntToStringInjective | src/Widget.php:148 | Distinct counter values print as distinct text |
| Markup.AddClass | src/Message.php:236-241 | `addCssClass` keeps every existing class and every other attribute, adds only the given class, and appends it at the end when it was absent |
| Markup.AddStyle | src/Dropdown.php:362-363 | `addCssStyle` appends one declaration to the style list and leaves every other attribute untouched |
| Markup.LabelWithIcon | src/Dropdown.php:435-456 | The icon span comes first exactly when an icon text or class is set, and the label comes last exactly when it is not empty; with neither, nothing is emitted |
| Markup.Join | src/Dropdown.php:403 | Joining no lines gives nothing, and joining one line gives that line unchanged |
| Widgets.GetId | src/Widget.php:143-152 | With auto-generation on, the id is the prefix followed by the counter, which then moves on by one; with it off, the explicit id comes back and the counter is untouched |
| Widgets.AutoIdParses | src/Widget.php:143-152 | An auto id starts with the prefix, and the rest parses back to the counter value it was drawn from |
| Widgets.SetCounter | src/Widget.php:92-95 | After `counter(v)`, the next default auto id is "w" followed by v, whatever the counter was before |
| Widgets.DrawIdsAreAuto | src/Widget.php:143-152 | n successive draws give the prefix followed by counter, counter+1, …, counter+n-1, and leave the counter n higher |
| Widgets.PrefixedIntsDiffer | src/Widget.php:148 | A fixed prefix followed by distinct counter values gives distinct ids |
| Widgets.AutoIdsDiffer | src/Widget.php:148 | Ids built from distinct counter values differ also when a fixed suffix such as "-message" is appended |
| Widgets.SuccessiveIdsDistinct | src/Widget.php:143-152 | Successive auto ids are pairwise distinct, and the counter has advanced by their number |
| Widgets.ExplicitIdKeepsCounter | src/Widget.php:143-152 | With auto-generation off, every draw returns the explicit id and the counter never moves |
| Widgets.SetAttributes | src/Widget.php:50-55 | `attributes(v)` returns a copy whose attributes are v, with every other field unchanged |
| Widgets.SetAutoIdPrefix | src/Widget.php:66-71 | `autoIdPrefix(v)` changes only the prefix |
| Widgets.SetId | src/Widget.php:80-85 | `id(v)` changes only the explicit id |
| Widgets.WithoutAutoGenerateId | src/Widget.php:121-126 | `withoutAutoGenerateId()` switches auto-generation off and changes nothing else |
| Widgets.SizeMessage | src/Widget.php:106-108 | The size exception text lists is-small, is-medium and is-large, in that order, joined and enclosed by double quotes |
| Widgets.SetSize | src/Widget.php:104-114 | `size(v)` is accepted exactly for the three size tokens and then changes only the size; any other value yields the exception listing them |
| Widgets.SettersIdempotent | src/Widget.php:50-114 | Applying any base setter twice with the same value is the same as applying it once |
| Dropdowns.SetItems | src/Dropdown.php:189-194 | `items(v)` changes only the item list |
| Dropdowns.SetSubmenuAttributes | src/Dropdown.php:203-208 | `submenuAttributes(v)` changes only the submenu attributes |
| Dropdowns.SetDividerCssClass | src/Dropdown.php:122-127 | `dividerCssClass(v)` changes only the divider class |
| Dropdowns.UnClosedByContainer | src/Dropdown.php:215-220 | `unClosedByContainer()` switches off the container and changes nothing else |
| Dropdowns.Submenu | src/Dropdown.php:394-398 | A submenu is a fresh, enclosed, auto-generating Dropdown with prefix "w"; its attributes and its submenu attributes are both the accumulated merge, and its items are the item's children |
| Dropdowns.MenuId | src/Dropdown.php:228 | The menu id is the caller's `id` attribute without drawing from the counter; otherwise it is the next auto id with "-dropdown" appended. The counter moves by at most one |
| Dropdowns.TriggerButton | src/Dropdown.php:251-271 | The trigger button carries the `button` class, `aria-haspopup="true"`, and an `aria-controls` that is the menu id; the caller's other trigger attributes are kept, and its content is the button label |
| Dropdowns.ButtonLabel | src/Dropdown.php:406-433 | The button content is the label span first (exactly when the label is not empty), then the icon span last (exactly when an icon text or class is set) |
| Dropdowns.Menu | src/Dropdown.php:276-293 | The menu div carries the menu id and only the menu class, and holds exactly one content div, with the content class, around the body |
| Dropdowns.RenderDropdown | src/Dropdown.php:225-242 | The counter never goes back, and an enclosed render is a single container node |
| Dropdowns.RenderItems | src/Dropdown.php:311-404 | One line per item, and the counter never goes back |
| Dropdowns.ItemsCons | src/Dropdown.php:316-401 | A successful render is the first item's line followed by the rest. The rest is rendered with the submenu attributes accumulated so far and the counter left by the first item |
| Dropdowns.RenderItem | src/Dropdown.php:317-399 | Only a submenu draws ids, and it renders as exactly one node. After any item, the accumulated submenu attributes have the item's own submenu attributes merged in; DropdownProps.SubmenuIsNestedRender states what that node is |
| DropdownProps.ItemsFailIffUnlabelled | src/Dropdown.php:316-322 | Rendering a list fails exactly when some item at any depth is a string other than "-" or an array without `label`, and the error is MissingLabel |
| DropdownProps.ItemFailIffUnlabelled | src/Dropdown.php:317-322 | The same iff for one item, through its nested dropdown |
| DropdownProps.DropdownFailIffUnlabelled | src/Dropdown.php:225-242 | A whole Dropdown fails exactly when its item tree holds an unlabelled item, and the error is MissingLabel |
| DropdownProps.ItemIgnoresMark | src/Dropdown.php:317-399 | An item renders the same with its `attributes` key cleared at every depth, under any Dropdown with the same divider class: the item renderer never reads that key |
| DropdownProps.ItemsIgnoreMark | src/Dropdown.php:311-404 | The same for a list of items: lines, error and counter all agree |
| DropdownProps.DropdownIgnoresMark | src/Dropdown.php:225-242 | A whole Dropdown renders the same with every item's `attributes` cleared |
| DropdownProps.StringItems | src/Dropdown.php:317-322 | The string "-" renders as the divider rule with the divider class; any other string is rejected |
| DropdownProps.LeafClassification | src/Dropdown.php:368-386 | The leaf rules in tie-break order. A label that prints as "-" gives the divider. Then `enclose` false gives the bare label. An empty url gives a `dropdown-header` h6 whose content is the decorated label escaped as text, since its builder leaves content encoding on (src/Dropdown.php:377). Otherwise an `a` linking to the url, holding the label as markup. A leaf draws no id |
| DropdownProps.DisabledOverridesActive | src/Dropdown.php:360-366 | `dropdown-item` is always added. The disabled style is added exactly when `disable` is set, and `is-active` exactly when the item is active and not disabled. Other url attributes are kept |
| DropdownProps.LabelPlacement | src/Dropdown.php:358 | The label is encoded only when `encode` is true. The icon, when there is one, comes before the label and never after |
| DropdownProps.AccumulatePrefix | src/Dropdown.php:390-392 | Accumulating submenu attributes over the first k+1 items is accumulating from the head's result over the first k of the tail |
| DropdownProps.SubmenuLine | src/Dropdown.php:389-399 | A submenu's line is one container whose attributes are the accumulated merge including this item's submenu attributes, without `id`, plus the `dropdown` class |
| DropdownProps.FirstSubmenuAttributes | src/Dropdown.php:389-399 | The previous statement for a submenu in the first position |
| DropdownProps.SubmenuAttributesAt | src/Dropdown.php:389-399 | The k-th line, for a submenu item, carries the submenu attributes merged over the first k+1 items (the last value wins per key) |
| DropdownProps.SubmenuAttributesAccumulate | src/Dropdown.php:389-399 | Every submenu's container carries the merge of all earlier siblings' submenu attributes and its own, not just its own |
| DropdownProps.LinesInInputOrder | src/Dropdown.php:311-404 | The k-th line belongs to the k-th item. A non-submenu line depends on its item alone: the divider for "-", the leaf rules otherwise |
| DropdownProps.IgnoresVisible | src/Dropdown.php:332-356 | Dropdown never reads `visible`: a hidden item renders exactly like a visible one |
| DropdownProps.LeafIgnoresVisible | src/Dropdown.php:368-386 | The leaf line does not depend on `visible` |
| DropdownProps.EnclosedContent | src/Dropdown.php:232-236 | The enclosed form is one container holding the trigger and the menu, whose content div holds exactly the item lines joined by the end-of-line separator; a failing item fails the render with its error and counter |
| DropdownProps.SubmenuIsNestedRender | src/Dropdown.php:394-398 | A submenu item's line is the render of the fresh nested Dropdown built from the accumulated attributes and its children: both succeed or fail together, with the same output, error and counter |
| DropdownProps.UnclosedIsJoinedLines | src/Dropdown.php:228-238 | Without the container, the result is the item lines joined by the end-of-line separator. An id is still drawn for the container that is never emitted |
| DropdownProps.EmptyItems | src/Dropdown.php:311-404 | No items give no lines and draw nothing; an unenclosed empty Dropdown emits nothing |
| DropdownProps.ContainerIds | src/Dropdown.php:225-302 | An enclosed render is one `dropdown` div without `id`. Its trigger button's `aria-controls` and its menu's `id` are the same value: the caller's id, or the next auto id with "-dropdown" |
| DropdownIds.AutoMenuIdInjective | src/Dropdown.php:228 | Nested menus drawn at distinct counter values get distinct ids |
| DropdownIds.AutoRangeDistinct | src/Widget.php:148 | The auto menu ids of a counter range are pairwise distinct |
| DropdownIds.LeafIdFree | src/Dropdown.php:368-386 | A leaf line holds no `id` when the item's arrays hold none |
| DropdownIds.TriggerIdFree | src/Dropdown.php:295-302 | The trigger names the menu only through `aria-controls` and carries no `id` |
| DropdownIds.ContainerIdsInOrder | src/Dropdown.php:232-236 | An enclosed render's ids are the menu id followed by the ids of the item lines, in document order |
| DropdownIds.ItemsIds | src/Dropdown.php:311-404 | With no caller ids anywhere, the ids of the item lines are exactly the auto menu ids for the counter values the lines drew, in document order |
| DropdownIds.ItemIds | src/Dropdown.php:389-399 | One item's ids are the auto menu ids for the counter values it drew; no `id` enters the accumulated submenu attributes |
| DropdownIds.DropdownIds | src/Dropdown.php:225-242 | A Dropdown's own id is drawn first. An enclosed render lists it first; an unenclosed one drops it. Then come the nested menu ids, one per counter value |
| DropdownIds.EnclosedIdsDistinct | src/Dropdown.php:225-242 | With the default prefix and no caller ids, the ids of an enclosed render are the auto ids of the counter range it drew, and they are pairwise distinct |
| DropdownIds.JoinSound | src/Dropdown.php:403 | Joining sound lines with a sound separator gives a sound line |
| DropdownIds.MenuSound | src/Dropdown.php:276-293 | The menu and content divs link every trigger inside them, and neither is a wrapper around a lone button |
| DropdownIds.TriggerSound | src/Dropdown.php:251-302 | The trigger div's button names the menu id, so the trigger container is linked |
| DropdownIds.ContainerSound | src/Dropdown.php:232-236 | The enclosing container links its own trigger to its own menu |
| DropdownIds.ItemsSound | src/Dropdown.php:311-404 | Every line of a rendered item list is sound: every trigger container at any depth links its button's `aria-controls` to its own menu's `id`, whatever ids the caller supplied |
| DropdownIds.ItemSound | src/Dropdown.php:317-399 | The same for one item's line |
| DropdownIds.DropdownSound | src/Dropdown.php:225-242 | A whole rendered Dropdown, nested ones included, links every trigger to its own menu |
| Navs.WithoutActivateItems | src/Nav.php:53-58 | `withoutActivateItems()` switches activation off and changes nothing else |
| Navs.ActivateParents | src/Nav.php:65-70 | `activateParents()` sets the flag and changes nothing else on the widget; the flag never changes the rendered output (NavProps.ActivateParentsNoEffect) |
| Navs.CurrentPath | src/Nav.php:79-84 | `currentPath(v)` changes only the current path |
| Navs.SetItems | src/Nav.php:108-113 | `items(v)` changes only the item list |
| Navs.AnnotateChild | src/Nav.php:156-181 | An array child leaves the active pass with an explicit `active`: true exactly when it was explicitly true or its url matches the current path. Its children are replaced by the active pass over them, recursively. Every key other than `active`, `items` and `attributes` is kept. A string child passes through |
| Navs.IsChildActive | src/Nav.php:151-185 | The active pass keeps the number of children and the size of the tree |
| Navs.NavSubmenu | src/Nav.php:130-139 | An entry's children go to a fresh, unenclosed Dropdown with the `navbar-divider` class and no submenu attributes |
| Navs.RenderItem | src/Nav.php:238-318 | An entry fails exactly when it has no label or its children's Dropdown fails. A leaf is an `a` and draws no id; an entry with children is a container div |
| Navs.Line | src/Nav.php:332 | A visible entry contributes exactly one node |
| Navs.RenderLines | src/Nav.php:323-334 | The counter never goes back |
| Navs.RenderNav | src/Nav.php:323-337 | The counter never goes back |
| NavProps.ItemActiveCases | src/Nav.php:201-204 | The site root "/" is never active, and nothing is active with activation off; otherwise an entry is active exactly when its url is the current path |
| NavProps.IsChildActivePointwise | src/Nav.php:151-185 | The active pass annotates each child independently and in place |
| NavProps.AnnotateKeepsLabels | src/Nav.php:156-181 | The active pass neither adds nor removes labels at any depth |
| NavProps.ChildActiveKeepsLabels | src/Nav.php:151-185 | So the pass never changes whether the nested Dropdown fails |
| NavProps.AnnotateResolves | src/Nav.php:156-181 | After the pass, every array child at every depth has an explicit `active` |
| NavProps.ChildActiveResolves | src/Nav.php:151-185 | The same for a whole child list |
| NavProps.ParentMarking | src/Nav.php:161-180 | A child with children gets `['active' => true]` as its attributes exactly when it was explicitly active or parents are activated; otherwise its attributes are untouched. An explicit `active => true` is never overridden, and with activation off no child becomes active by its url |
| NavProps.AnnotateMarkOnly | src/Nav.php:156-181 | With `activateParents` on and off, the active pass gives a child that differs at most in its `attributes` key, at every depth |
| NavProps.ChildActiveMarkOnly | src/Nav.php:151-185 | The same for a whole child list |
| NavProps.SubmenuIgnoresParents | src/Nav.php:130-138 | So the nested Dropdown of annotated children renders the same with `activateParents` on and off |
| NavProps.EntryIgnoresParents | src/Nav.php:238-318 | An entry renders the same with `activateParents` on and off: the `is-active` class of its link is decided from `active` alone |
| NavProps.LineIgnoresParents | src/Nav.php:332 | A line does not depend on `activateParents` |
| NavProps.LinesIgnoreParents | src/Nav.php:328-334 | Nor does the list of lines |
| NavProps.ActivateParentsNoEffect | src/Nav.php:65-70 | Rendering after `activateParents()` gives the same output, error and counter as rendering without it |
| NavProps.InvisibleSkipped | src/Nav.php:328-334 | Hidden entries leave no trace: rendering the list is rendering its visible entries, output and counter alike |
| NavProps.EntryFailIff | src/Nav.php:244-246 | One entry fails exactly when it is an array without a label or with children Dropdown rejects, and the error is MissingLabel. A string never fails |
| NavProps.NavFailsIff | src/Nav.php:323-337 | The nav fails, with MissingLabel, exactly when a visible entry is unrenderable; hidden entries are never checked |
| NavProps.LinesCount | src/Nav.php:328-334 | One line per visible entry |
| NavProps.LinesConsHidden | src/Nav.php:328-333 | A hidden first entry is skipped: the lines and the visible entries are the rest's |
| NavProps.LinesConsVisible | src/Nav.php:328-334 | A visible first entry gives the first line, and the rest is rendered from the counter it left |
| NavProps.LineRenderedAt | src/Nav.php:328-334 | The i-th line is the i-th visible entry's own line, rendered at the counter value the render reached just before it (`LineCounter`, never below the start) |
| NavProps.LineAt | src/Nav.php:328-334 | The i-th line belongs to the i-th visible entry: a string verbatim, an array as one tag, in both cases that entry's own line |
| NavProps.LinesInOrder | src/Nav.php:323-337 | One line per visible entry, in input order, each that entry's own rendered line. A string entry, even "-", is emitted verbatim |
| NavProps.NavIsJoinedLines | src/Nav.php:336 | The nav's output is the visible entries' lines joined by "\n", with the counter they leave; a failing entry fails the nav with its error |
| NavProps.StringsVerbatim | src/Nav.php:332-336 | A nav of strings gives the strings themselves, one per line, and draws no id |
| NavProps.LeafEntry | src/Nav.php:277-315 | An entry without children is a `navbar-item` link to its url (default "#"). It gets `is-active` exactly when activation is on and it is active, explicitly or by url, and the disabled style exactly when `disabled`; both may apply. The counter is untouched |
| NavProps.LinkAttributesFlags | src/Nav.php:284-290 | The link carries `is-active` exactly when activation is on and the entry is active, and the disabled style exactly when `disabled` is set |
| NavProps.DropdownEntry | src/Nav.php:292-310 | An entry with children is a container that keeps the widget classes and adds navbar-item, has-dropdown and hoverable. It holds the `navbar-link` link to the url and the `navbar-dropdown` div with the annotated children's Dropdown, which draws at least one id |
| NavProps.NavLinked | src/Nav.php:323-337 | Every rendered line is sound: every nested dropdown's trigger names its own menu |
| NavProps.NavRenderLinked | src/Nav.php:336 | The whole rendered nav, separators included, links every trigger to its own menu |
| NavProps.EntryLinked | src/Nav.php:292-315 | One entry's line is sound |
| NavProps.EmptyNav | src/Nav.php:323-337 | A nav with no visible entries renders nothing and draws no id |
| NavProps.NoneVisible | src/Nav.php:329 | When every entry is hidden, no entry is visible |
| Messages.SetBody | src/Message.php:56-61 | `body(v)` changes only the body |
| Messages.SetBodyAttributes | src/Message.php:72-77 | `bodyAttributes(v)` changes only the body attributes |
| Messages.SetCloseButtonAttributes | src/Message.php:89-94 | `closeButtonAttributes(v)` changes only the close-button attributes |
| Messages.SetHeaderMessage | src/Message.php:124-129 | `headerMessage(v)` changes only the header message |
| Messages.SetHeaderAttributes | src/Message.php:140-145 | `headerAttributes(v)` changes only the header attributes |
| Messages.UnclosedButton | src/Message.php:152-157 | `unclosedButton()` drops the close button and changes nothing else |
| Messages.WithoutHeader | src/Message.php:164-169 | `withoutHeader()` clears the header flag and changes nothing else |
| Messages.ColorList | src/Message.php:107 | The six colour tokens joined by double quotes, in declaration order |
| Messages.ColorMessage | src/Message.php:106-109 | The colour exception text lists the six colour tokens in declaration order, enclosed in double quotes |
| Messages.SetHeaderColor | src/Message.php:104-114 | `headerColor(v)` is accepted exactly for the six colour tokens and then changes only the colour; otherwise the exception lists them |
| Messages.DefaultColorNotSettable | src/Message.php:104-114 | The default colour `is-dark` is not among the accepted tokens, so once changed it cannot be set back |
| Messages.RenderCloseButton | src/Message.php:171-200 | No button exactly when `unclosedButton` is set. Otherwise one button with `type="button"`, no `label`, the button class, the size class when set, and the `aria-hidden` span |
| Messages.RenderHeader | src/Message.php:202-224 | The header div, with the header class, appears exactly when the header flag is on |
| Messages.RenderMessageBody | src/Message.php:253-262 | The body div carries the body class and holds three nodes when the body is not empty, none otherwise |
| Messages.MessageId | src/Message.php:229-234 | With a caller `id` attribute no id is drawn and the value is empty. Otherwise the id is getId() plus "-message", and the counter moves on by one when auto-generating |
| Messages.RenderMessageAsWritten | src/Message.php:226-251 | As written, the container id is always set to the computed value, which may be empty |
| Messages.RenderMessage | src/Message.php:226-251 | The container is a div holding the header (when shown) and then the body. A caller-supplied id is kept and draws nothing; otherwise the container gets the drawn id |
| MessageProps.RenderedClasses | src/Message.php:245-249 | Setting the id leaves the container classes as they were computed |
| MessageProps.ContainerClasses | src/Message.php:236-241 | The container classes are the caller's, then `message`, the colour, and the size when set, in that order |
| MessageProps.ContainerClassOrder | src/Message.php:236-249 | The same order holds on the rendered container |
| MessageProps.SizeOnContainerAndButton | src/Message.php:189-192 | A set size is on the container and, when the close button appears, on the button too. The button appears exactly when the header is shown and `unclosedButton` is not set |
| MessageProps.CloseButtonInHeader | src/Message.php:208-212 | When shown, the close button is the header's second child, after the paragraph |
| MessageProps.HeaderToggles | src/Message.php:202-247 | The container has two children with the header and one without, and the body is always last. With a close button the header message is wrapped in a paragraph before the button; without one it is emitted bare |
| MessageProps.WithoutHeaderRemovesHeader | src/Message.php:164-169 | After `withoutHeader()` the container holds only the body, whatever the header message and button settings |
| MessageProps.BodyWrap | src/Message.php:257-261 | A non-empty body is wrapped between two newlines; an empty body gives an empty div |
| MessageProps.IdRule | src/Message.php:229-234 | With a caller id the counter is untouched. Otherwise the id is the prefix, the counter and "-message", and the counter advances by one; with auto-generation off it is the explicit id plus "-message" |
| MessageProps.SuccessiveMessagesDiffer | src/Message.php:232-233 | Two messages rendered one after another, with the same prefix and no caller ids, get different ids |
| MessageProps.FirstAutoId | src/Widget.php:38 | The first auto id with the default prefix is `w0-message` |
| MessageProps.DefaultId | src/Message.php:229-234 | A default message rendered at counter 0 gets `w0-message` and moves the counter to 1 |
| MessageProps.DefaultClasses | src/Message.php:236-241 | A default message's classes are `message is-dark` |
| MessageProps.DefaultRender | src/Message.php:226-251 | A default message at counter 0: id `w0-message`, classes `message is-dark`, a header with the close button, and the body |
| MessageProps.CallerIdReplaced | src/Message.php:229-249 | The as-written and corrected renders differ only in the container's `id`, and only when the caller gave a non-empty one: as written it becomes empty, corrected it is kept. Everything else, the counter included, agrees |
| MessageProps.CallerIdCounterexample | src/Message.php:229-249 | A message with `id => 'alert'` renders with an empty id as written, and with `alert` once corrected |

## Left out

- Exact HTML text: tags are modelled as an abstract tree. Content a builder escapes (the dropdown header) is an `Escaped` node over the markup it escapes; the escaped characters themselves are not computed. Attribute escaping, the ordering of attributes inside a tag, and the formatting newlines placed inside containers are not modelled. The newline separators between item lines are modelled.
- `Html::encode` and the rest of the `Yiisoft\Html` library are not part of this model. Encoding is a function parameter. `addCssClass` is modelled for one class token at a time; splitting a class string on spaces is not modelled.
- `AbstractWidget` (the `widget()`/`render()` factory and `run()`) is not part of this model. Each render function starts from the cloned widget its `run()` passes on.
- `NavBar` is not part of this model.
- The two calls `dropdownCssClass(...)` and `dropdownItemCssClass(...)` at src/Nav.php:134-135 name setters that `Dropdown` does not declare. In PHP a call to an undeclared method raises an `Error` unless the class provides `__call`. `AbstractWidget`, which might, is not part of this model. The model assumes both calls succeed and have no effect. tests/NavTest.php:80-83 expects `navbar-item` on submenu links, which suggests the tested version had these setters.
- The static counter is a parameter and a result. PHP integer overflow and concurrent renders are not modelled.
- `active`, `visible`, `enclose`, `disable` and `disabled` values that are not booleans are modelled as booleans. `Nav` items given as something other than a string or an array are not modelled.
- `Widget::$attributes` is declared private (src/Widget.php:36), yet `Dropdown` and `Nav` read and write `$new->attributes` directly. The model assumes these accesses reach the widget's attributes, as `Message` does through `getAttributes()`.
- The remaining `Dropdown` setters (button label, icon, trigger and content classes, `buttonAttributes`) are plain field updates and have no functions of their own; `buttonAttributes` is never read by the render.
- The test files exercise setters and markup that the sources no longer have. The model follows the sources.
- DropdownIds.EnclosedIdsDistinct: distinctness is proved only with the default "w" prefix for every nested dropdown and no caller-supplied ids; a caller id can collide with an auto id.
- DropdownIds.ItemsIds: requires that no item array carries an `id`; with caller ids the linkage is still proved (DropdownIds.ItemsSound), but the list of ids is not.
- Dropdowns.RenderDropdown: its own contract states only the counter bound and the single container. What it renders is stated by DropdownProps.EnclosedContent, DropdownProps.UnclosedIsJoinedLines and the DropdownIds lemmas.
- Dropdowns.RenderItems: its own contract states only the line count and the counter bound. Order, content, failure and ids are the DropdownProps and DropdownIds lemmas.
- Navs.RenderLines: its own contract states only that the counter never goes back. Content, order, skipping and failure are the NavProps lemmas.
- Navs.RenderNav: as for Navs.RenderLines; NavProps.NavIsJoinedLines, NavProps.NavRenderLinked and NavProps.EmptyNav speak about the joined result.

## Findings

| source | as written | input that shows it | evidently intended | confidence | as-written member | corrected member |
|---|---|---|---|---|---|---|
| src/Message.php:229-249 | `$id` starts as `''` and is computed only when the caller gave no `id`, but `->id($id)` is applied unconditionally, so a caller-supplied id is overwritten with the empty string | `Message::widget()->attributes(['id' => 'alert'])` | keep the caller's `id` and draw nothing from the counter | not executed; relies on `Tag::id('')` setting the attribute to the empty string | Messages.RenderMessageAsWritten (shown by MessageProps.CallerIdCounterexample) | Messages.RenderMessage (related by MessageProps.CallerIdReplaced) |
