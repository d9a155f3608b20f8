/**
 * The plain truncation helper of the Reddit comment renderer: a text longer
 * than the limit is cut at exactly `maxLength` characters and `...` is
 * appended, with no regard for word boundaries.
 */
module MarkdownTruncate {
  import opened JsString

  /**
   * `truncateText`: empty text, or text within the limit, is kept; longer
   * text becomes its first `maxLength` characters (none when the limit is
   * negative) followed by `...`.
   */
  function TruncateText(text: string, maxLength: int): (r: string)
    ensures text == "" || |text| <= maxLength ==> r == text
    ensures text != "" && |text| > maxLength ==>
      var m := if maxLength < 0 then 0 else maxLength;
      r == text[..m] + "..." && |r| == m + 3
  {
    if text == "" || |text| <= maxLength then text
    else Substring(text, 0, maxLength) + "..."
  }

  /** Truncating twice with the same limit is truncating once. */
  lemma TruncateTextIdempotent(text: string, maxLength: int)
    ensures TruncateText(TruncateText(text, maxLength), maxLength) == TruncateText(text, maxLength)
  {
    var once := TruncateText(text, maxLength);
    if text != "" && |text| > maxLength {
      var m := if maxLength < 0 then 0 else maxLength;
      assert |once| == m + 3 > maxLength;
      assert once[..m] == text[..m];
    }
  }
}
