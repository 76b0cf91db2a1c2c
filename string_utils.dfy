/** Spring's `StringUtils.hasText`, on which every text criterion depends. */
module StringUtils {
  import opened Wrappers

  /** `Character.isWhitespace`: the Unicode space, line and paragraph
      separators other than the three non-breaking spaces (U+00A0, U+2007,
      U+202F), plus the controls U+0009..U+000D and U+001C..U+001F. */
  predicate IsWhitespace(c: char) {
    var n := c as int;
    || (0x09 <= n <= 0x0D)
    || (0x1C <= n <= 0x20)
    || n == 0x1680
    || (0x2000 <= n <= 0x200A && n != 0x2007)
    || n == 0x2028 || n == 0x2029
    || n == 0x205F || n == 0x3000
  }

  /** The scan in `StringUtils.containsText`: true at the first character
      that is not whitespace. */
  function ContainsText(s: string): (r: bool)
    ensures r <==> exists i :: 0 <= i < |s| && !IsWhitespace(s[i])
  {
    if s == [] then false
    else if !IsWhitespace(s[0]) then true
    else
      var rest := ContainsText(s[1..]);
      assert forall j :: 0 <= j < |s| - 1 ==> s[1..][j] == s[j + 1];
      rest
  }

  /** `hasText(str)`: not null, not empty, and some character is not
      whitespace. */
  function HasText(str: Option<string>): (r: bool)
    ensures r <==> str.Some? && exists i :: 0 <= i < |str.value| && !IsWhitespace(str.value[i])
    ensures str.Some? && str.value == [] ==> !r
  {
    str.Some? && |str.value| != 0 && ContainsText(str.value)
  }
}
