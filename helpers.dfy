/** Label-colour validation (internal/github/helpers.go). */
module Helpers {

  const FallbackColor := "cccccc"

  predicate IsHexDigit(c: char)
  {
    '0' <= c <= '9' || 'a' <= c <= 'f' || 'A' <= c <= 'F'
  }

  /** The whole text is six hex digits of either case: the pattern
      ^[0-9a-fA-F]{6}$, where Go's $ matches only at the end of the text. */
  predicate IsHexColor(s: string)
  {
    |s| == 6 && forall i :: 0 <= i < |s| ==> IsHexDigit(s[i])
  }

  /** sanitizeLabelColor: a valid colour passes unchanged, anything else
      becomes the neutral grey "cccccc"; what comes out is always valid. */
  function SanitizeLabelColor(color: string): (r: string)
    ensures IsHexColor(r)
    ensures r == color <==> IsHexColor(color)
    ensures !IsHexColor(color) ==> r == FallbackColor
  {
    if IsHexColor(color) then color else FallbackColor
  }

  /** Sanitising twice changes nothing more. */
  lemma SanitizeIdempotent(color: string)
    ensures SanitizeLabelColor(SanitizeLabelColor(color)) == SanitizeLabelColor(color)
  {
  }

  /** Text that would break out of a style attribute never survives: a
      semicolon, a space, a parenthesis or an angle bracket is not a hex digit. */
  lemma RejectsMarkup(color: string, i: nat)
    requires i < |color| && color[i] in {';', ' ', '(', ')', '<', '>', ':', '#'}
    ensures SanitizeLabelColor(color) == FallbackColor
  {
    assert !IsHexDigit(color[i]);
  }
}
