/**
 * What `Separator` and `JoinHelper` have in common: the separator text a
 * constructor settles on, the text one request yields, the joined text a
 * caller builds by asking for a separator before each item, and the
 * `StringBuilder` they append to.
 */
module Joining {
  import opened Wrappers

  /** The separator used when the constructor is given `null`. */
  const DefaultSeparator := ", "

  /**
   * The separator a constructor keeps: `", "` for `null`, otherwise the
   * given character sequence's text.
   */
  function SeparatorText(separator: Option<string>): (s: string)
    ensures separator.None? ==> s == DefaultSeparator
    ensures separator.Some? ==> s == separator.value
  {
    match separator
    case None => DefaultSeparator
    case Some(text) => text
  }

  /** The text one request yields: blank for the first item, the separator afterwards. */
  function Emitted(firstItem: bool, separator: string): (s: string)
    ensures firstItem ==> s == ""
    ensures !firstItem ==> s == separator
  {
    if firstItem then "" else separator
  }

  /** `items` joined by `separator`: the separator goes between items only, never before the first. */
  function Join(items: seq<string>, separator: string): string {
    if |items| == 0 then ""
    else if |items| == 1 then items[0]
    else Join(items[..|items| - 1], separator) + separator + items[|items| - 1]
  }

  /** The sum of the lengths of `items`. */
  function TotalLength(items: seq<string>): nat {
    if |items| == 0 then 0 else TotalLength(items[..|items| - 1]) + |items[|items| - 1]|
  }

  /** Joining n items adds exactly n - 1 separators to the items' text. */
  lemma {:induction false} JoinLength(items: seq<string>, separator: string)
    requires |items| > 0
    ensures |Join(items, separator)| == TotalLength(items) + (|items| - 1) * |separator|
  {
    if |items| > 1 {
      JoinLength(items[..|items| - 1], separator);
    } else {
      assert items[..0] == [];
    }
  }

  /** The joined text starts with the first item: there is no leading separator. */
  lemma {:induction false} JoinStartsWithFirstItem(items: seq<string>, separator: string)
    requires |items| > 0
    ensures |items[0]| <= |Join(items, separator)|
    ensures Join(items, separator)[..|items[0]|] == items[0]
  {
    if |items| > 1 {
      var front := items[..|items| - 1];
      JoinStartsWithFirstItem(front, separator);
      assert front[0] == items[0];
      var j := Join(front, separator);
      assert Join(items, separator) == j + (separator + items[|items| - 1]);
      assert (j + (separator + items[|items| - 1]))[..|items[0]|] == j[..|items[0]|];
    }
  }

  /** Joining two non-empty runs of items puts one separator between their joined texts. */
  lemma {:induction false} JoinAppend(a: seq<string>, b: seq<string>, separator: string)
    requires |a| > 0 && |b| > 0
    ensures Join(a + b, separator) == Join(a, separator) + separator + Join(b, separator)
    decreases |b|
  {
    var ab := a + b;
    assert ab[..|ab| - 1] == a + b[..|b| - 1];
    if |b| == 1 {
      assert ab[..|ab| - 1] == a;
    } else {
      JoinAppend(a, b[..|b| - 1], separator);
      assert b[..|b| - 1][..|b| - 2] == b[..|b| - 2];
    }
  }

  /** Joining one more item appends the separator and the item. */
  lemma JoinSnoc(items: seq<string>, item: string, separator: string)
    requires |items| > 0
    ensures Join(items + [item], separator) == Join(items, separator) + separator + item
  {
    assert (items + [item])[..|items|] == items;
  }

  /**
   * `StringBuilder`: a growable text that callers append to. Only appending
   * is modelled; what was appended before is never changed.
   */
  class StringBuilder {
    var text: string

    constructor ()
      ensures text == ""
    {
      text := "";
    }

    /** `append(s)`. */
    method Append(s: string)
      modifies this
      ensures text == old(text) + s
    {
      text := text + s;
    }
  }
}
