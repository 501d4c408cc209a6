/**
 * `JoinHelper`: the separator supplier of `Separator` exposed as a
 * `CharSequence`. Its constructors leave `firstItem` at Java's default
 * `false`, so a new helper yields the separator from the start; only after
 * `reset` is the next request blank.
 */
module JoinHelpers {
  import opened Wrappers
  import opened Joining

  /** `StringIndexOutOfBoundsException` from `String.subSequence(begin, end)`. */
  datatype IndexError = StringIndexOutOfBounds(begin: int, end: int, length: int)

  class JoinHelper {
    const separator: string
    /** Set by `reset`; cleared by the next `toString` or `subSequence`. */
    var firstItem: bool

    /** `JoinHelper()`: the default separator `", "`. */
    constructor Default()
      ensures separator == SeparatorText(None) && !firstItem
    {
      separator := DefaultSeparator;
      firstItem := false;
    }

    /** `JoinHelper(char)`: the one-character string. */
    constructor OfChar(c: char)
      ensures separator == SeparatorText(Some([c])) && !firstItem
    {
      separator := [c];
      firstItem := false;
    }

    /** `JoinHelper(CharSequence)`: `null` means `", "`; `firstItem` is left `false`. */
    constructor (separator: Option<string>)
      ensures this.separator == SeparatorText(separator) && !firstItem
    {
      this.separator := SeparatorText(separator);
      firstItem := false;
    }

    /** The text the helper currently stands for: what the next `toString` returns. */
    function Text(): (t: string)
      reads this
      ensures firstItem ==> t == ""
      ensures !firstItem ==> t == separator
    {
      Emitted(firstItem, separator)
    }

    /** `reset()`: the next request is blank. */
    method Reset()
      modifies this
      ensures firstItem
    {
      firstItem := true;
    }

    /** `length()`: 0 before the first item, the separator's length afterwards; the length of `Text()`. */
    function Length(): (n: nat)
      reads this
      ensures n == |Text()|
      ensures n == 0 <==> firstItem || separator == ""
    {
      if firstItem then 0 else |separator|
    }

    /** `charAt(index)` as written: the character with code 0, whatever the index and the state. */
    function CharAt(index: int): (c: char)
      reads this
      ensures c as int == 0
    {
      0 as char
    }

    /**
     * `charAt(index)` as the `CharSequence` contract wants it: the
     * character of `Text()` at `index`, and an index error outside it.
     */
    function CharAtIntended(index: int): (r: Result<char, IndexError>)
      reads this
      ensures r.Ok? <==> 0 <= index < Length()
      ensures r.Ok? ==> r.value == Text()[index]
    {
      var text := Emitted(firstItem, separator);
      if 0 <= index < |text| then Ok(text[index])
      else Err(StringIndexOutOfBounds(index, index + 1, |text|))
    }

    /**
     * `subSequence(start, end)`: blank for the first item, whatever the
     * bounds; otherwise the separator's characters `start` to `end`, which
     * must lie within it.
     */
    method SubSequence(start: int, end: int) returns (r: Result<string, IndexError>)
      modifies this
      ensures !firstItem
      ensures old(firstItem) ==> r == Ok("")
      ensures !old(firstItem) ==> (r.Ok? <==> 0 <= start <= end <= |separator|)
      ensures !old(firstItem) && 0 <= start <= end <= |separator| ==> r == Ok(separator[start..end])
      ensures !old(firstItem) && r.Err? ==> r.error == StringIndexOutOfBounds(start, end, |separator|)
    {
      if firstItem {
        firstItem := false;
        r := Ok("");
      } else if 0 <= start <= end <= |separator| {
        r := Ok(separator[start..end]);
      } else {
        r := Err(StringIndexOutOfBounds(start, end, |separator|));
      }
    }

    /** `toString()`: the separator, or `""` for the first item after a `reset`. */
    method ToString() returns (s: string)
      modifies this
      ensures s == old(Text())
      ensures !firstItem
    {
      if firstItem {
        firstItem := false;
        return "";
      }
      return separator;
    }
  }

  /** As written, `charAt` disagrees with the text whenever the separator does not start with code 0. */
  lemma CharAtBreaksCharSequence(h: JoinHelper)
    requires !h.firstItem && h.separator != [] && h.separator[0] as int != 0
    ensures h.CharAt(0) != h.Text()[0]
    ensures h.CharAtIntended(0) == Ok(h.separator[0])
  {
  }

  /**
   * A new helper yields the separator at once; after `reset` the next
   * request is blank and the one after yields the separator again.
   */
  method FreshThenReset() returns (h: JoinHelper, first: string, blank: string, again: string)
    ensures first == ", " && blank == "" && again == ", "
  {
    h := new JoinHelper(None);
    first := h.ToString();
    h.Reset();
    blank := h.ToString();
    again := h.ToString();
  }

  /** After `reset`, `subSequence` is blank even for bounds outside the separator. */
  method ResetSubSequence() returns (h: JoinHelper, blank: Result<string, IndexError>, slice: Result<string, IndexError>,
                                     outside: Result<string, IndexError>)
    ensures blank == Ok("") && slice == Ok(" :") && outside == Err(StringIndexOutOfBounds(2, 5, 3))
  {
    h := new JoinHelper(Some(" ::"));
    assert h.separator[0..2] == " :";
    h.Reset();
    blank := h.SubSequence(2, 5);
    slice := h.SubSequence(0, 2);
    outside := h.SubSequence(2, 5);
  }
}
