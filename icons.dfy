/**
  The rules for a tile's icon string: how a stored icon is shown, which icon
  the edit form keeps as "imported", and which icon a submitted form stores.
*/
module Icons {
  import opened Wrappers
  import opened Text
  import opened ImageUrl

  const EmbeddedPrefix: string := "data:"
  const PlaceholderGlyph: string := "🔗"

  /** How `createTile` shows an icon: an image from an embedded payload, an
      image loaded from a remote address, the text itself, or the placeholder. */
  datatype IconView =
    | EmbeddedImage(src: string)
    | RemoteImage(src: string)
    | Glyph(text: string)
    | Placeholder(glyph: string)

  /** `icon.startsWith('data:')`: an embedded image payload. */
  predicate IsEmbedded(icon: string) {
    HasPrefix(icon, EmbeddedPrefix)
  }

  /** The icon branch of `createTile`, with its tests in the source's order.
      Exactly one view applies to every string. */
  function Classify(icon: string): (v: IconView)
    ensures v.EmbeddedImage? <==> IsEmbedded(icon)
    ensures v.RemoteImage? <==> !IsEmbedded(icon) && MatchesImagePattern(icon)
    ensures v.Glyph? <==> icon != [] && !IsEmbedded(icon) && !MatchesImagePattern(icon)
    ensures v.Placeholder? <==> icon == []
    ensures (v.EmbeddedImage? || v.RemoteImage?) ==> v.src == icon
    ensures v.Glyph? ==> v.text == icon
    ensures v.Placeholder? ==> v.glyph == PlaceholderGlyph
  {
    IsImageUrlIffPattern(icon);
    if icon != [] && IsEmbedded(icon) then EmbeddedImage(icon)
    else if icon != [] && IsImageUrl(icon) then RemoteImage(icon)
    else if icon != [] then Glyph(icon)
    else Placeholder(PlaceholderGlyph)
  }

  /** A remote image address never starts with `data:`, so the first two
      tests of `createTile` could be taken in either order. */
  lemma RemoteIsNeverEmbedded(icon: string)
    requires MatchesImagePattern(icon)
    ensures !IsEmbedded(icon)
  {
    var i, j, k :| IsImageSplit(icon, i, j, k);
    assert icon[..i][0] == icon[0];
    assert icon[0] == 'h' || icon[0] == 'H';
  }

  /** JavaScript truthiness of `importedDataUrl`: present and not empty. */
  predicate IsTruthy(o: Option<string>) {
    o.Some? && o.value != []
  }

  /** The icon precedence of the submit handler, given the trimmed text field:
      an imported payload wins whatever the text; else the text; else "". */
  function ResolveIcon(imported: Option<string>, text: string): (icon: string)
    ensures IsTruthy(imported) ==> icon == imported.value
    ensures !IsTruthy(imported) && text != [] ==> icon == text
    ensures !IsTruthy(imported) && text == [] ==> icon == []
  {
    if IsTruthy(imported) then imported.value
    else if text != [] then text
    else []
  }

  /** `importedDataUrl` as `openModalForEdit` sets it from the stored icon:
      the icon itself when it is an embedded payload, else nothing. */
  function ImportedForEdit(icon: string): (imported: Option<string>)
    ensures imported.Some? <==> Classify(icon).EmbeddedImage?
    ensures imported.Some? ==> imported.value == icon && IsTruthy(imported)
  {
    if icon != [] && IsEmbedded(icon) then Some(icon) else None
  }

  /** Opening a stored icon for editing (the text field gets the icon, line
      186) and saving without touching it stores the same icon, provided it
      has no surrounding whitespace or is an embedded payload. */
  lemma ReopenKeepsIcon(icon: string)
    requires IsTrimmed(icon) || IsEmbedded(icon)
    ensures ResolveIcon(ImportedForEdit(icon), Trim(icon)) == icon
  {
    if !IsEmbedded(icon) {
      TrimOfTrimmed(icon);
    }
  }

  /** Clearing the imported image of an embedded icon opened for editing does
      not remove it: the text field still holds the payload, and saving stores
      it again as an embedded image. */
  lemma ClearedPayloadSurvives(icon: string)
    requires IsEmbedded(icon)
    ensures Classify(ResolveIcon(None, Trim(icon))).EmbeddedImage?
  {
    assert forall q :: 0 <= q < |EmbeddedPrefix| ==> !IsWhitespace(EmbeddedPrefix[q]);
    TrimKeepsPrefix(icon, EmbeddedPrefix);
  }

  /** Three sample icons: an image address with an upper-case
      extension and a query, an emoji, and no icon at all. */
  lemma ClassifyExamples()
    ensures Classify("https://example.com/pic.PNG?x=1").RemoteImage?
    ensures Classify("🚀").Glyph?
    ensures Classify("").Placeholder?
  {
    var url := "https://example.com/pic.PNG?x=1";
    assert url == "https://" + "example.com/pic" + "." + "PNG" + "?x=1";
    assert MatchesIgnoringCase("PNG", ImageExtensions[0]);
    PartsMatchPattern("https://", "example.com/pic", "PNG", "?x=1");
    assert url[..5][0] == 'h';
    assert !IsEmbedded("🚀");
    IsImageUrlIffPattern("🚀");
  }
}
