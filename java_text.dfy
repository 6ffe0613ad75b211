/** The two `String` tests the setters use. */
module JavaText {

  /**
   * `Character.isWhitespace`: the Unicode space, line and paragraph separators
   * except the three no-break spaces U+00A0, U+2007 and U+202F, plus the
   * controls U+0009 to U+000D and U+001C to U+001F.
   */
  function IsWhitespace(c: char): (w: bool)
    ensures c == ' ' || c == '\t' || c == '\n' || c == '\r' ==> w
    ensures c == '\U{00A0}' || c == '\U{2007}' || c == '\U{202F}' ==> !w
    ensures 'a' <= c <= 'z' || 'A' <= c <= 'Z' || '0' <= c <= '9' ==> !w
  {
    || '\U{0009}' <= c <= '\U{000D}'
    || '\U{001C}' <= c <= '\U{0020}'
    || c == '\U{1680}'
    || '\U{2000}' <= c <= '\U{2006}'
    || '\U{2008}' <= c <= '\U{200A}'
    || c == '\U{2028}' || c == '\U{2029}' || c == '\U{205F}' || c == '\U{3000}'
  }

  /** `String.isBlank()`: empty, or white space only. */
  function IsBlank(s: string): (b: bool)
    ensures s == "" ==> b
    ensures b <==> forall c :: c in s ==> IsWhitespace(c)
  {
    forall i :: 0 <= i < |s| ==> IsWhitespace(s[i])
  }

  /** Every empty string is blank, and a blank string may be non-empty. */
  lemma EmptyIsBlank()
    ensures IsBlank("") && IsBlank(" ") && !IsBlank("a")
  {
    assert " "[0] == ' ' && IsWhitespace(' ');
    assert "a"[0] == 'a' && !IsWhitespace('a');
  }
}
