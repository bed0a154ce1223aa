/**
 * Naming conventions of guide glyphs: `_guide.<script>`, `_guide.<category>`
 * and their combinations, custom guides carrying `.c_<suffix>`, and the
 * catch-all `_guide.any`. The colour suffix of a guide is the text after the
 * last `.c_` in its name.
 */
module GuideNames {
  import opened Wrappers
  import opened PyStr

  const GuidePrefix := "_guide."
  const CustomMarker := ".c_"
  const FallbackGuide := "_guide.any"

  /** Occurrences of `.c_` can never overlap. */
  lemma MarkerNoSelfOverlap()
    ensures NoSelfOverlap(CustomMarker)
  {
    assert CustomMarker[1..][0] != CustomMarker[..2][0];
    assert CustomMarker[2..][0] != CustomMarker[..1][0];
  }

  /** A custom guide: named `_guide.…` and holding `.c_` somewhere. */
  predicate IsCustomGuideName(name: string)
    ensures IsCustomGuideName(name) ==> ColorSuffix(name).Some?
  {
    StartsWith(name, GuidePrefix) && Contains(name, CustomMarker)
  }

  /** `name.split('.c_')[-1] if '.c_' in name else None` */
  function ColorSuffix(name: string): (suffix: Option<string>)
    ensures suffix.Some? <==> Contains(name, CustomMarker)
    ensures suffix.Some? ==> !Contains(suffix.value, CustomMarker)
  {
    if Contains(name, CustomMarker) then
      var parts := Split(name, CustomMarker);
      SplitPiecesFree(name, CustomMarker);
      Some(parts[|parts| - 1])
    else None
  }

  /** The suffix is what follows a `.c_` at the end of the name. */
  lemma ColorSuffixEndsName(name: string) returns (p: string)
    requires Contains(name, CustomMarker)
    ensures name == p + CustomMarker + ColorSuffix(name).value
  {
    p := LastPieceFollowsSeparator(name, CustomMarker);
  }

  /**
   * Conversely, whatever comes before, a `.c_` followed by text free of `.c_`
   * makes that text the suffix: the suffix is the text after the LAST marker.
   */
  lemma ColorSuffixAfterLastMarker(p: string, t: string)
    requires !Contains(t, CustomMarker)
    ensures ColorSuffix(p + CustomMarker + t) == Some(t)
  {
    var name := p + CustomMarker + t;
    assert OccursAt(name, CustomMarker, |p|) by {
      assert name[|p|..|p| + |CustomMarker|] == CustomMarker;
    }
    ContainsAt(name, CustomMarker, |p|);
    MarkerNoSelfOverlap();
    LastPieceAfterLastSeparator(p, CustomMarker, t);
  }

  /** A name ending in `.c_` has the empty suffix, which Python treats as falsy. */
  lemma TrailingMarkerGivesEmptySuffix(p: string)
    ensures ColorSuffix(p + CustomMarker) == Some("")
    ensures !Truthy(ColorSuffix(p + CustomMarker))
  {
    assert !Contains("", CustomMarker);
    assert p + CustomMarker + "" == p + CustomMarker;
    ColorSuffixAfterLastMarker(p, "");
  }
}
