/**
 * `Separator`: supplies the separator to write before each item of a list,
 * blank before the first item, so that callers need not track which item
 * comes first. `reset` starts a new list.
 */
module Separators {
  import opened Wrappers
  import opened Joining

  class Separator {
    const separator: string
    /** True until the first separator has been requested since construction or `reset`. */
    var firstItem: bool

    /** `Separator()`: the default separator `", "`. */
    constructor Default()
      ensures separator == SeparatorText(None) && firstItem
    {
      separator := DefaultSeparator;
      firstItem := true;
    }

    /** `Separator(char)`: the one-character string. */
    constructor OfChar(c: char)
      ensures separator == SeparatorText(Some([c])) && firstItem
    {
      separator := [c];
      firstItem := true;
    }

    /** `Separator(CharSequence)`: `null` means `", "`. */
    constructor (separator: Option<string>)
      ensures this.separator == SeparatorText(separator) && firstItem
    {
      this.separator := SeparatorText(separator);
      firstItem := true;
    }

    /** `reset()`: the next separator is blank again. */
    method Reset()
      modifies this
      ensures firstItem
    {
      firstItem := true;
    }

    /** `to(sb)`: appends the separator to `sb`, or nothing for the first item. */
    method To(sb: StringBuilder)
      modifies this, sb
      ensures sb.text == old(sb.text) + Emitted(old(firstItem), separator)
      ensures !firstItem
    {
      if firstItem {
        firstItem := false;
      } else {
        sb.Append(separator);
      }
    }

    /** `toString()`: the separator, or `""` for the first item. */
    method ToString() returns (s: string)
      modifies this
      ensures s == Emitted(old(firstItem), separator)
      ensures !firstItem
    {
      if firstItem {
        firstItem := false;
        return "";
      }
      return separator;
    }
  }

  /**
   * A caller's loop: before each item, write the separator to the buffer
   * with `to`, then the item. Starting on a fresh or reset separator, the
   * buffer gains the items joined by the separator.
   */
  method AppendItems(sep: Separator, sb: StringBuilder, items: seq<string>)
    modifies sep, sb
    ensures |items| == 0 ==> sb.text == old(sb.text) && sep.firstItem == old(sep.firstItem)
    ensures |items| > 0 ==>
      && sb.text == old(sb.text) + Emitted(old(sep.firstItem), sep.separator) + Join(items, sep.separator)
      && !sep.firstItem
  {
    var i := 0;
    while i < |items|
      invariant 0 <= i <= |items|
      invariant i == 0 ==> sb.text == old(sb.text) && sep.firstItem == old(sep.firstItem)
      invariant i > 0 ==>
        && sb.text == old(sb.text) + Emitted(old(sep.firstItem), sep.separator) + Join(items[..i], sep.separator)
        && !sep.firstItem
    {
      sep.To(sb);
      sb.Append(items[i]);
      if i > 0 {
        JoinSnoc(items[..i], items[i], sep.separator);
      }
      assert items[..i + 1] == items[..i] + [items[i]];
      i := i + 1;
    }
    assert items[..|items|] == items;
  }

  /**
   * A caller's loop that appends the separator object itself before each
   * item, as `StringBuilder.append(Object)` does through `toString()`.
   */
  method AppendItemsByText(sep: Separator, sb: StringBuilder, items: seq<string>)
    modifies sep, sb
    ensures |items| == 0 ==> sb.text == old(sb.text) && sep.firstItem == old(sep.firstItem)
    ensures |items| > 0 ==>
      && sb.text == old(sb.text) + Emitted(old(sep.firstItem), sep.separator) + Join(items, sep.separator)
      && !sep.firstItem
  {
    var i := 0;
    while i < |items|
      invariant 0 <= i <= |items|
      invariant i == 0 ==> sb.text == old(sb.text) && sep.firstItem == old(sep.firstItem)
      invariant i > 0 ==>
        && sb.text == old(sb.text) + Emitted(old(sep.firstItem), sep.separator) + Join(items[..i], sep.separator)
        && !sep.firstItem
    {
      var s := sep.ToString();
      sb.Append(s);
      sb.Append(items[i]);
      if i > 0 {
        JoinSnoc(items[..i], items[i], sep.separator);
      }
      assert items[..i + 1] == items[..i] + [items[i]];
      i := i + 1;
    }
    assert items[..|items|] == items;
  }

  /** Items 1 to 5 with the default separator give "1, 2, 3, 4, 5". */
  method JoinFiveDefault() returns (text: string)
    ensures text == "1, 2, 3, 4, 5"
  {
    var sep := new Separator(None);
    var sb := new StringBuilder();
    AppendItemsByText(sep, sb, ["1", "2", "3", "4", "5"]);
    JoinFive(", ");
    text := sb.text;
  }

  /** Items 1 to 5 with the character separator 'x' give "1x2x3x4x5". */
  method JoinFiveByChar() returns (text: string)
    ensures text == "1x2x3x4x5"
  {
    var sep := new Separator.OfChar('x');
    var sb := new StringBuilder();
    AppendItemsByText(sep, sb, ["1", "2", "3", "4", "5"]);
    JoinFive("x");
    text := sb.text;
  }

  /** Items 1 to 5 with the empty separator give "12345". */
  method JoinFiveBlank() returns (text: string)
    ensures text == "12345"
  {
    var sep := new Separator(Some(""));
    var sb := new StringBuilder();
    AppendItems(sep, sb, ["1", "2", "3", "4", "5"]);
    JoinFive("");
    text := sb.text;
  }

  /** A reset after the third item makes the fourth item follow without a separator. */
  method ResetMidway() returns (text: string)
    ensures text == "1, 2, 34, 5"
  {
    var sep := new Separator(None);
    var sb := new StringBuilder();
    AppendItemsByText(sep, sb, ["1", "2", "3"]);
    sep.Reset();
    AppendItemsByText(sep, sb, ["4", "5"]);
    JoinThree(", ");
    JoinTwo(", ");
    text := sb.text;
  }

  lemma JoinTwo(separator: string)
    ensures Join(["4", "5"], separator) == "4" + separator + "5"
  {
    JoinSnoc(["4"], "5", separator);
    assert ["4"] + ["5"] == ["4", "5"];
  }

  lemma JoinThree(separator: string)
    ensures Join(["1", "2", "3"], separator) == "1" + separator + "2" + separator + "3"
  {
    JoinSnoc(["1"], "2", separator);
    assert ["1"] + ["2"] == ["1", "2"];
    JoinSnoc(["1", "2"], "3", separator);
    assert ["1", "2"] + ["3"] == ["1", "2", "3"];
  }

  lemma JoinFive(separator: string)
    ensures Join(["1", "2", "3", "4", "5"], separator)
            == "1" + separator + "2" + separator + "3" + separator + "4" + separator + "5"
  {
    JoinThree(separator);
    JoinSnoc(["1", "2", "3"], "4", separator);
    assert ["1", "2", "3"] + ["4"] == ["1", "2", "3", "4"];
    JoinSnoc(["1", "2", "3", "4"], "5", separator);
    assert ["1", "2", "3", "4"] + ["5"] == ["1", "2", "3", "4", "5"];
  }
}
