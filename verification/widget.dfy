/** The base widget every component extends: the HTML attributes, the id (explicit or drawn
    from the process-wide counter), the size token, and the copy-on-write setters. The static
    counter is threaded explicitly: every operation that may draw an id takes the counter
    value before it and returns the value after it. */
module Widgets {
  import opened Decimal
  import opened Markup

  const ColorPrimary: string := "is-primary"
  const ColorLink: string := "is-link"
  const ColorInfo: string := "is-info"
  const ColorSuccess: string := "is-success"
  const ColorWarning: string := "is-warning"
  const ColorDanger: string := "is-danger"
  const ColorAll: seq<string> := [ColorPrimary, ColorLink, ColorInfo, ColorSuccess, ColorWarning, ColorDanger]

  const SizeSmall: string := "is-small"
  const SizeMedium: string := "is-medium"
  const SizeLarge: string := "is-large"
  const SizeAll: seq<string> := [SizeSmall, SizeMedium, SizeLarge]

  /** The state every widget carries. `size` is '' until set. */
  datatype Widget = Widget(
    attributes: Attributes,
    id: string,
    autoIdPrefix: string,
    autoGenerate: bool,
    size: string)

  /** A freshly constructed widget. */
  const Default: Widget := Widget(map[], "", "w", true, "")

  /** A setter's outcome: the configured copy, or the InvalidArgumentException message. */
  datatype Configured<+T> = Configured(value: T) | Invalid(message: string)

  /** PHP's implode. */
  function Implode(sep: string, parts: seq<string>): string
    decreases |parts|
  {
    if |parts| == 0 then ""
    else if |parts| == 1 then parts[0]
    else parts[0] + sep + Implode(sep, parts[1..])
  }

  /** The message thrown for a token outside `allowed`; `what` is "size" or "color". */
  function InvalidMessage(what: string, allowed: seq<string>): string {
    "Invalid " + what + ". Valid values are: \"" + Implode("\"", allowed) + "\"."
  }

  /** getId's result: the id and the counter after the call. */
  datatype IdDraw = IdDraw(id: string, next: int)

  /** getId: with auto-generation on, the prefix followed by the counter, which then moves on by
      one; with it off, the explicit id, and the counter is left alone. */
  function GetId(w: Widget, counter: int): (r: IdDraw)
    ensures w.autoGenerate ==> r.next == counter + 1 && r.id == w.autoIdPrefix + IntToString(counter)
    ensures !w.autoGenerate ==> r == IdDraw(w.id, counter)
  {
    if w.autoGenerate then IdDraw(w.autoIdPrefix + IntToString(counter), counter + 1)
    else IdDraw(w.id, counter)
  }

  /** An auto id is the prefix followed by text that parses back to the counter it was drawn
      from. */
  lemma AutoIdParses(w: Widget, counter: int)
    requires w.autoGenerate
    ensures var id := GetId(w, counter).id;
      && |id| > |w.autoIdPrefix| && id[..|w.autoIdPrefix|] == w.autoIdPrefix
      && IsIntString(id[|w.autoIdPrefix|..]) && ParseInt(id[|w.autoIdPrefix|..]) == counter
  {
    var id := GetId(w, counter).id;
    assert id[|w.autoIdPrefix|..] == IntToString(counter);
    IntRoundTrip(counter);
  }

  /** The static `counter(v)`: whatever the counter was, it is now `v`. */
  function SetCounter(counter: int, v: int): (next: int)
    ensures GetId(Default, next).id == "w" + IntToString(v)
  {
    v
  }

  /** The ids handed out by `n` successive getId calls starting from `counter`. */
  function DrawIds(w: Widget, counter: int, n: nat): seq<string>
    decreases n
  {
    if n == 0 then [] else [GetId(w, counter).id] + DrawIds(w, GetId(w, counter).next, n - 1)
  }

  /** The counter after `n` successive getId calls starting from `counter`. */
  function CounterAfter(w: Widget, counter: int, n: nat): int
    decreases n
  {
    if n == 0 then counter else CounterAfter(w, GetId(w, counter).next, n - 1)
  }

  lemma {:induction false} DrawIdsAreAuto(w: Widget, counter: int, n: nat)
    requires w.autoGenerate
    ensures |DrawIds(w, counter, n)| == n
    ensures CounterAfter(w, counter, n) == counter + n
    ensures forall i :: 0 <= i < n ==> DrawIds(w, counter, n)[i] == w.autoIdPrefix + IntToString(counter + i)
    decreases n
  {
    if n > 0 {
      var d := GetId(w, counter);
      assert d.next == counter + 1;
      DrawIdsAreAuto(w, counter + 1, n - 1);
      var rest := DrawIds(w, counter + 1, n - 1);
      assert CounterAfter(w, counter, n) == CounterAfter(w, counter + 1, n - 1);
      var ids := DrawIds(w, counter, n);
      assert ids == [d.id] + rest;
      forall i | 0 <= i < n
        ensures ids[i] == w.autoIdPrefix + IntToString(counter + i)
      {
        if i > 0 {
          assert ids[i] == rest[i - 1];
          assert counter + 1 + (i - 1) == counter + i;
        }
      }
    }
  }

  /** Prefixed decimal strings of distinct integers differ. */
  lemma PrefixedIntsDiffer(prefix: string, a: int, b: int)
    requires a != b
    ensures prefix + IntToString(a) != prefix + IntToString(b)
  {
    if prefix + IntToString(a) == prefix + IntToString(b) {
      var x := prefix + IntToString(a);
      assert x[|prefix|..] == IntToString(a);
      assert x[|prefix|..] == IntToString(b);
      IntToStringInjective(a, b);
    }
  }

  /** Auto ids built from distinct counter values differ, also with a fixed suffix. */
  lemma AutoIdsDiffer(prefix: string, suffix: string, a: int, b: int)
    requires a != b
    ensures prefix + IntToString(a) + suffix != prefix + IntToString(b) + suffix
  {
    if prefix + IntToString(a) + suffix == prefix + IntToString(b) + suffix {
      var x := prefix + IntToString(a) + suffix;
      assert x[|prefix|..|x| - |suffix|] == IntToString(a);
      assert x[|prefix|..|x| - |suffix|] == IntToString(b);
      IntToStringInjective(a, b);
    }
  }

  lemma DrawnIdsDiffer(w: Widget, counter: int, n: nat, i: int, j: int)
    requires w.autoGenerate && 0 <= i < j < n
    ensures |DrawIds(w, counter, n)| == n && DrawIds(w, counter, n)[i] != DrawIds(w, counter, n)[j]
  {
    DrawIdsAreAuto(w, counter, n);
    var ids := DrawIds(w, counter, n);
    assert ids[i] == w.autoIdPrefix + IntToString(counter + i);
    assert ids[j] == w.autoIdPrefix + IntToString(counter + j);
    PrefixedIntsDiffer(w.autoIdPrefix, counter + i, counter + j);
  }

  /** Successive auto ids are pairwise distinct, and the counter has moved on by their number. */
  lemma SuccessiveIdsDistinct(w: Widget, counter: int, n: nat)
    requires w.autoGenerate
    ensures CounterAfter(w, counter, n) == counter + n
    ensures forall i, j :: 0 <= i < j < |DrawIds(w, counter, n)| ==> DrawIds(w, counter, n)[i] != DrawIds(w, counter, n)[j]
  {
    DrawIdsAreAuto(w, counter, n);
    var ids := DrawIds(w, counter, n);
    forall i, j | 0 <= i < j < |ids|
      ensures ids[i] != ids[j]
    {
      DrawnIdsDiffer(w, counter, n, i, j);
    }
  }

  /** With auto-generation off, any number of getId calls return the explicit id and leave the
      counter where it was. */
  lemma {:induction false} ExplicitIdKeepsCounter(w: Widget, counter: int, n: nat)
    requires !w.autoGenerate
    ensures CounterAfter(w, counter, n) == counter
    ensures forall i :: 0 <= i < |DrawIds(w, counter, n)| ==> DrawIds(w, counter, n)[i] == w.id
    decreases n
  {
    if n > 0 {
      ExplicitIdKeepsCounter(w, counter, n - 1);
    }
  }

  // Copy-on-write setters: each returns a copy that differs from the receiver in one field.

  function SetAttributes(w: Widget, v: Attributes): (r: Widget)
    ensures r.attributes == v && r.(attributes := w.attributes) == w
  {
    w.(attributes := v)
  }

  function SetAutoIdPrefix(w: Widget, v: string): (r: Widget)
    ensures r.autoIdPrefix == v && r.(autoIdPrefix := w.autoIdPrefix) == w
  {
    w.(autoIdPrefix := v)
  }

  function SetId(w: Widget, v: string): (r: Widget)
    ensures r.id == v && r.(id := w.id) == w
  {
    w.(id := v)
  }

  function WithoutAutoGenerateId(w: Widget): (r: Widget)
    ensures !r.autoGenerate && r.(autoGenerate := w.autoGenerate) == w
  {
    w.(autoGenerate := false)
  }

  /** The size exception's text lists the three tokens, in SIZE_ALL order, each preceded by a
      double quote, and a closing quote and full stop. */
  lemma SizeMessage()
    ensures InvalidMessage("size", SizeAll) ==
      "Invalid size. Valid values are: \"" + (SizeSmall + "\"" + SizeMedium + "\"" + SizeLarge) + "\"."
  {
    var q := "\"";
    assert Implode(q, SizeAll[2..]) == SizeLarge;
    assert Implode(q, SizeAll[1..]) == SizeMedium + q + SizeLarge;
    assert Implode(q, SizeAll) == SizeSmall + q + (SizeMedium + q + SizeLarge);
    assert "Invalid " + "size" + ". Valid values are: \"" == "Invalid size. Valid values are: \"";
  }

  /** size(v): accepted exactly for the three size tokens, otherwise the exception that lists
      them; on success only the size changes. */
  function SetSize(w: Widget, v: string): (r: Configured<Widget>)
    ensures r.Configured? <==> v == "is-small" || v == "is-medium" || v == "is-large"
    ensures r.Configured? ==> r.value.size == v && r.value.(size := w.size) == w
    ensures r.Invalid? ==>
      r.message == "Invalid size. Valid values are: \"" + (SizeSmall + "\"" + SizeMedium + "\"" + SizeLarge) + "\"."
  {
    SizeMessage();
    if v !in SizeAll then Invalid(InvalidMessage("size", SizeAll))
    else Configured(w.(size := v))
  }

  /** Setting the same value twice is the same as setting it once. */
  lemma SettersIdempotent(w: Widget, a: Attributes, p: string, s: string)
    ensures SetAttributes(SetAttributes(w, a), a) == SetAttributes(w, a)
    ensures SetAutoIdPrefix(SetAutoIdPrefix(w, p), p) == SetAutoIdPrefix(w, p)
    ensures SetId(SetId(w, p), p) == SetId(w, p)
    ensures SetSize(w, s).Configured? ==> SetSize(SetSize(w, s).value, s) == SetSize(w, s)
  {
  }
}
