/**
 * The style each located guide is drawn with (the body of the loop over guide
 * glyphs in `background`): the colour suffix picks the parameters, the closed
 * outline takes colour index 1, the open outline colour index 0, both at
 * alpha 0.35, and each outline gets its own line style.
 */
module GuideStyle {
  import opened Wrappers
  import opened PyStr
  import opened GuideNames
  import opened GuideColor
  import opened GuideLineStyle

  const GuideAlpha: real := 0.35

  datatype Style = Style(closedColor: Color, openColor: Color, closedLineStyle: string, openLineStyle: string)

  /** Colours and line styles of the guide glyph called `name`. */
  function StyleOfGuide(params: map<string, string>, name: string): (s: Style)
    ensures s.closedColor.alpha == GuideAlpha && s.openColor.alpha == GuideAlpha
  {
    var colorSuffix := ColorSuffix(name);
    var closedColor :=
      if Truthy(colorSuffix) then GetColorBySuffix(params, colorSuffix.value, 1, GuideAlpha)
      else GetColor(params, 1, GuideAlpha);
    var closedLineStyle := GetLineStyle(params, colorSuffix, "closed");
    var openLineStyle := GetLineStyle(params, colorSuffix, "open");
    var openColor :=
      if !Truthy(colorSuffix) then GetColor(params, 0, GuideAlpha)
      else GetColorBySuffix(params, colorSuffix.value, 0, GuideAlpha);
    Style(closedColor, openColor, closedLineStyle, openLineStyle)
  }

  /** The style is the one configured under the colour key `colorKey` and line-style key `lineKey`. */
  ghost predicate ReadsParameters(s: Style, params: map<string, string>, colorKey: string, lineKey: string)
  {
    && s.closedColor == ColorFromHex(Lookup(params, colorKey), 1, GuideAlpha)
    && s.openColor == ColorFromHex(Lookup(params, colorKey), 0, GuideAlpha)
    && s.closedLineStyle == StyleFromValue(Lookup(params, lineKey), "closed")
    && s.openLineStyle == StyleFromValue(Lookup(params, lineKey), "open")
  }

  /** A guide without `.c_` in its name uses `Guide Color` and `Line Style`. */
  lemma PlainGuideReadsDefaults(params: map<string, string>, name: string)
    requires !Contains(name, CustomMarker)
    ensures ReadsParameters(StyleOfGuide(params, name), params, GuideColorKey, LineStyleKey)
  {
  }

  /** A guide whose name ends in `.c_` has a falsy suffix and also uses the defaults. */
  lemma EmptySuffixReadsDefaults(params: map<string, string>, p: string)
    ensures ReadsParameters(StyleOfGuide(params, p + CustomMarker), params, GuideColorKey, LineStyleKey)
  {
    TrailingMarkerGivesEmptySuffix(p);
  }

  /**
   * A guide `… .c_<t>` with a non-empty `t` free of `.c_` uses
   * `Guide Color:<t>` and `Line Style:<t>`.
   */
  lemma CustomGuideReadsItsSuffix(params: map<string, string>, p: string, t: string)
    requires t != [] && !Contains(t, CustomMarker)
    ensures ReadsParameters(StyleOfGuide(params, p + CustomMarker + t), params, SuffixColorKey(t), LineStyleKey + ":" + t)
  {
    ColorSuffixAfterLastMarker(p, t);
  }
}
