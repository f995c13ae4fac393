/** The part of JavaScript's text model that several source files rely on. */
module JsText {

  /** The code points matched by `\s` and removed by `trim()`. */
  predicate IsSpaceCode(c: int) {
    || 9 <= c <= 13 || c == 32 || c == 160 || c == 0x1680
    || 0x2000 <= c <= 0x200A || c == 0x2028 || c == 0x2029
    || c == 0x202F || c == 0x205F || c == 0x3000 || c == 0xFEFF
  }

  /** `/\S/.test(text)`. */
  predicate NotBlank(text: string) {
    exists k :: 0 <= k < |text| && !IsSpaceCode(text[k] as int)
  }
}
