/** Display strings shared by the menu, the cart and both consoles. */
module Constants {

  /**
   * `CAFE_LOGO`: the ASCII-art banner comes from a constants module that is
   * not part of this model, so it stands here as a fixed placeholder line.
   */
  const CafeLogo: string := "[Cafe Cursor logo]"

  /** `"=" * 48`, the horizontal rule around the menu and the order receipt. */
  const Rule: string := "================================================"
}
