/**
 * Locating the guide glyphs for the glyph being edited (the first half of
 * `background`). The font is its glyph names in font order; a name resolves
 * when the font holds a glyph of that name.
 */
module GuideLocator {
  import opened Wrappers
  import opened PyStr
  import opened GuideNames

  /** The fixed candidates for a script and a category, each only when its parts are truthy. */
  function NamedCandidates(script: Option<string>, category: Option<string>): (names: seq<string>)
    ensures |names| <= 4
    ensures forall k :: 0 <= k < |names| ==> StartsWith(names[k], GuidePrefix)
  {
    PrefixedNames(script, category);
    (if Truthy(script) then [GuidePrefix + script.value] else [])
    + (if Truthy(category) then [GuidePrefix + category.value] else [])
    + (if Truthy(script) && Truthy(category) then
         [GuidePrefix + script.value + "." + category.value,
          GuidePrefix + category.value + "." + script.value]
       else [])
  }

  /** The custom guides of the font (`_guide.…` names holding `.c_`), in font order, repeats kept. */
  function CustomGuides(glyphs: seq<string>): (names: seq<string>)
    ensures forall k :: 0 <= k < |names| ==> IsCustomGuideName(names[k])
    decreases |glyphs|
  {
    if glyphs == [] then []
    else
      var last := glyphs[|glyphs| - 1];
      CustomGuides(glyphs[..|glyphs| - 1]) + (if IsCustomGuideName(last) then [last] else [])
  }

  /** The whole list `possibleNames`: the named candidates, then the custom guides. */
  function Candidates(script: Option<string>, category: Option<string>, glyphs: seq<string>): (c: seq<string>)
    ensures forall k :: 0 <= k < |c| ==> StartsWith(c[k], GuidePrefix)
  {
    NamedCandidates(script, category) + CustomGuides(glyphs)
  }

  /** The candidates the font holds, in candidate order, repeats kept. */
  function ExistingGuides(candidates: seq<string>, glyphs: seq<string>): (found: seq<string>)
    ensures forall k :: 0 <= k < |found| ==> found[k] in glyphs
    decreases |candidates|
  {
    if candidates == [] then []
    else
      var last := candidates[|candidates| - 1];
      ExistingGuides(candidates[..|candidates| - 1], glyphs) + (if last in glyphs then [last] else [])
  }

  /** The found guides or, when there are none, `_guide.any` if the font has it. */
  function WithFallback(found: seq<string>, glyphs: seq<string>): (r: seq<string>)
    ensures r == [] <==> found == [] && FallbackGuide !in glyphs
    ensures r != found ==> found == [] && r == [FallbackGuide]
    ensures (forall k :: 0 <= k < |found| ==> found[k] in glyphs) ==> forall k :: 0 <= k < |r| ==> r[k] in glyphs
  {
    if found != [] then found
    else if FallbackGuide in glyphs then [FallbackGuide]
    else []
  }

  /** The guides to draw for a script and category. */
  function ResolvedGuides(script: Option<string>, category: Option<string>, glyphs: seq<string>): (r: seq<string>)
    ensures forall k :: 0 <= k < |r| ==> r[k] in glyphs
  {
    WithFallback(ExistingGuides(Candidates(script, category, glyphs), glyphs), glyphs)
  }

  /** Each fixed candidate is `_guide.` followed by the rest of its name. */
  lemma PrefixedNames(script: Option<string>, category: Option<string>)
    ensures Truthy(script) ==> StartsWith(GuidePrefix + script.value, GuidePrefix)
    ensures Truthy(category) ==> StartsWith(GuidePrefix + category.value, GuidePrefix)
    ensures Truthy(script) && Truthy(category) ==>
      StartsWith(GuidePrefix + script.value + "." + category.value, GuidePrefix)
      && StartsWith(GuidePrefix + category.value + "." + script.value, GuidePrefix)
  {
    if Truthy(script) {
      StartsWithConcat(GuidePrefix, script.value);
    }
    if Truthy(category) {
      StartsWithConcat(GuidePrefix, category.value);
    }
    if Truthy(script) && Truthy(category) {
      StartsWithConcat(GuidePrefix, script.value + "." + category.value);
      assert GuidePrefix + script.value + "." + category.value == GuidePrefix + (script.value + "." + category.value);
      StartsWithConcat(GuidePrefix, category.value + "." + script.value);
      assert GuidePrefix + category.value + "." + script.value == GuidePrefix + (category.value + "." + script.value);
    }
  }

  /** `a` is `b` with some elements left out, the rest in their order. */
  ghost predicate IsSubsequence(a: seq<string>, b: seq<string>)
    decreases |b|
  {
    if a == [] then true
    else if b == [] then false
    else
      (a[|a| - 1] == b[|b| - 1] && IsSubsequence(a[..|a| - 1], b[..|b| - 1]))
      || IsSubsequence(a, b[..|b| - 1])
  }

  /** Lines 47-54 of `background`: the fixed candidates for the script and category. */
  method CollectNamedCandidates(script: Option<string>, category: Option<string>) returns (possibleNames: seq<string>)
    ensures possibleNames == NamedCandidates(script, category)
  {
    possibleNames := [];
    if Truthy(script) {
      possibleNames := possibleNames + [GuidePrefix + script.value];
    }
    if Truthy(category) {
      possibleNames := possibleNames + [GuidePrefix + category.value];
    }
    if Truthy(script) && Truthy(category) {
      possibleNames := possibleNames + [GuidePrefix + script.value + "." + category.value];
      possibleNames := possibleNames + [GuidePrefix + category.value + "." + script.value];
    }
  }

  /** Lines 47-59 of `background`: the named candidates, then every custom guide of the font. */
  method CollectCandidates(script: Option<string>, category: Option<string>, glyphs: seq<string>)
    returns (possibleNames: seq<string>)
    ensures possibleNames == Candidates(script, category, glyphs)
  {
    possibleNames := CollectNamedCandidates(script, category);
    ghost var named := possibleNames;
    for i := 0 to |glyphs|
      invariant possibleNames == named + CustomGuides(glyphs[..i])
    {
      var name := glyphs[i];
      assert glyphs[..i + 1][..i] == glyphs[..i];
      if StartsWith(name, GuidePrefix) && Contains(name, CustomMarker) {
        possibleNames := possibleNames + [name];
      }
    }
    assert glyphs[..|glyphs|] == glyphs;
  }

  /** Lines 61-71 of `background`: keep the candidates the font holds, else fall back to `_guide.any`. */
  method ResolveCandidates(possibleNames: seq<string>, glyphs: seq<string>) returns (guideGlyphs: seq<string>)
    ensures guideGlyphs == WithFallback(ExistingGuides(possibleNames, glyphs), glyphs)
    ensures forall k :: 0 <= k < |guideGlyphs| ==> guideGlyphs[k] in glyphs
  {
    guideGlyphs := [];
    for i := 0 to |possibleNames|
      invariant guideGlyphs == ExistingGuides(possibleNames[..i], glyphs)
    {
      var name := possibleNames[i];
      assert possibleNames[..i + 1][..i] == possibleNames[..i];
      if name in glyphs {
        guideGlyphs := guideGlyphs + [name];
      }
    }
    assert possibleNames[..|possibleNames|] == possibleNames;

    if guideGlyphs == [] {
      if FallbackGuide in glyphs {
        guideGlyphs := guideGlyphs + [FallbackGuide];
      }
    }
  }

  /**
   * The locator of `background` (lines 45-74): the candidate list and the
   * guides to draw, every one of them a glyph of the font.
   */
  method LocateGuides(script: Option<string>, category: Option<string>, glyphs: seq<string>)
    returns (possibleNames: seq<string>, guideGlyphs: seq<string>)
    ensures possibleNames == Candidates(script, category, glyphs)
    ensures guideGlyphs == ResolvedGuides(script, category, glyphs)
    ensures forall k :: 0 <= k < |guideGlyphs| ==> guideGlyphs[k] in glyphs
  {
    possibleNames := CollectCandidates(script, category, glyphs);
    guideGlyphs := ResolveCandidates(possibleNames, glyphs);
  }

  // ---------------------------------------------------------------------------
  // What the candidate and guide lists are.

  /**
   * The candidates come in the fixed order `_guide.<script>`,
   * `_guide.<category>`, `_guide.<script>.<category>`,
   * `_guide.<category>.<script>`, each only when its parts are truthy, and
   * the custom guides follow them.
   */
  lemma CandidateOrder(script: Option<string>, category: Option<string>, glyphs: seq<string>)
    ensures var c := Candidates(script, category, glyphs);
      var n := (if Truthy(script) then 1 else 0) + (if Truthy(category) then 1 else 0)
             + (if Truthy(script) && Truthy(category) then 2 else 0);
      && n <= |c|
      && c[n..] == CustomGuides(glyphs)
      && (Truthy(script) ==> c[0] == GuidePrefix + script.value)
      && (Truthy(category) ==> c[if Truthy(script) then 1 else 0] == GuidePrefix + category.value)
      && (Truthy(script) && Truthy(category) ==>
            (c[2] == GuidePrefix + script.value + "." + category.value
             && c[3] == GuidePrefix + category.value + "." + script.value))
  {
  }

  /** A name is a custom guide of the font exactly when the font holds it and it has the custom form. */
  lemma {:induction false} CustomGuidesMembers(glyphs: seq<string>, name: string)
    ensures name in CustomGuides(glyphs) <==> name in glyphs && IsCustomGuideName(name)
    decreases |glyphs|
  {
    if glyphs != [] {
      var init := glyphs[..|glyphs| - 1];
      CustomGuidesMembers(init, name);
      assert glyphs == init + [glyphs[|glyphs| - 1]];
    }
  }

  /** Nothing deduplicates: a custom guide appears as often as the font lists it. */
  lemma {:induction false} CustomGuidesCount(glyphs: seq<string>, name: string)
    ensures multiset(CustomGuides(glyphs))[name] == if IsCustomGuideName(name) then multiset(glyphs)[name] else 0
    decreases |glyphs|
  {
    if glyphs != [] {
      var init := glyphs[..|glyphs| - 1];
      CustomGuidesCount(init, name);
      assert glyphs == init + [glyphs[|glyphs| - 1]];
    }
  }

  /** The custom guides keep the font's glyph order. */
  lemma {:induction false} CustomGuidesInFontOrder(glyphs: seq<string>)
    ensures IsSubsequence(CustomGuides(glyphs), glyphs)
    decreases |glyphs|
  {
    if glyphs != [] {
      var init := glyphs[..|glyphs| - 1];
      CustomGuidesInFontOrder(init);
      var c := CustomGuides(glyphs);
      if IsCustomGuideName(glyphs[|glyphs| - 1]) {
        assert c[..|c| - 1] == CustomGuides(init);
      } else {
        assert c == CustomGuides(init);
        if c != [] {
          SubsequenceOfLonger(c, init, glyphs[|glyphs| - 1]);
        }
      }
    }
  }

  lemma SubsequenceOfLonger(a: seq<string>, b: seq<string>, x: string)
    requires IsSubsequence(a, b)
    ensures IsSubsequence(a, b + [x])
  {
    assert (b + [x])[..|b|] == b;
  }

  /** A name is found exactly when it is a candidate and the font holds it. */
  lemma {:induction false} ExistingGuidesMembers(candidates: seq<string>, glyphs: seq<string>, name: string)
    ensures name in ExistingGuides(candidates, glyphs) <==> name in candidates && name in glyphs
    decreases |candidates|
  {
    if candidates != [] {
      var init := candidates[..|candidates| - 1];
      ExistingGuidesMembers(init, glyphs, name);
      assert candidates == init + [candidates[|candidates| - 1]];
    }
  }

  /** A found name appears as often as it is a candidate. */
  lemma {:induction false} ExistingGuidesCount(candidates: seq<string>, glyphs: seq<string>, name: string)
    ensures multiset(ExistingGuides(candidates, glyphs))[name] == if name in glyphs then multiset(candidates)[name] else 0
    decreases |candidates|
  {
    if candidates != [] {
      var init := candidates[..|candidates| - 1];
      ExistingGuidesCount(init, glyphs, name);
      assert candidates == init + [candidates[|candidates| - 1]];
    }
  }

  /** The found guides keep the candidates' order. */
  lemma {:induction false} ExistingGuidesInCandidateOrder(candidates: seq<string>, glyphs: seq<string>)
    ensures IsSubsequence(ExistingGuides(candidates, glyphs), candidates)
    decreases |candidates|
  {
    if candidates != [] {
      var init := candidates[..|candidates| - 1];
      ExistingGuidesInCandidateOrder(init, glyphs);
      var f := ExistingGuides(candidates, glyphs);
      if candidates[|candidates| - 1] in glyphs {
        assert f[..|f| - 1] == ExistingGuides(init, glyphs);
      } else {
        assert f == ExistingGuides(init, glyphs);
        if f != [] {
          SubsequenceOfLonger(f, init, candidates[|candidates| - 1]);
        }
      }
    }
  }

  // ---------------------------------------------------------------------------
  // What the resolved guide list is.

  /** When some candidate exists, the guides are exactly the existing candidates, in candidate order. */
  lemma PrimaryResult(script: Option<string>, category: Option<string>, glyphs: seq<string>)
    requires ExistingGuides(Candidates(script, category, glyphs), glyphs) != []
    ensures ResolvedGuides(script, category, glyphs) == ExistingGuides(Candidates(script, category, glyphs), glyphs)
    ensures forall name ::
              multiset(ResolvedGuides(script, category, glyphs))[name]
              == if name in glyphs then multiset(Candidates(script, category, glyphs))[name] else 0
    ensures var r := ResolvedGuides(script, category, glyphs);
      && IsSubsequence(r, Candidates(script, category, glyphs))
      && (forall name :: name in r <==> name in Candidates(script, category, glyphs) && name in glyphs)
      && (FallbackGuide in r ==> FallbackGuide in Candidates(script, category, glyphs))
  {
    var c := Candidates(script, category, glyphs);
    ExistingGuidesInCandidateOrder(c, glyphs);
    forall name ensures name in ResolvedGuides(script, category, glyphs) <==> name in c && name in glyphs {
      ExistingGuidesMembers(c, glyphs, name);
    }
    forall name ensures multiset(ResolvedGuides(script, category, glyphs))[name] == if name in glyphs then multiset(c)[name] else 0 {
      ExistingGuidesCount(c, glyphs, name);
    }
  }

  /** When no candidate exists, the guides are `[_guide.any]` if the font has it, and empty otherwise. */
  lemma FallbackResult(script: Option<string>, category: Option<string>, glyphs: seq<string>)
    requires forall k :: 0 <= k < |Candidates(script, category, glyphs)| ==> Candidates(script, category, glyphs)[k] !in glyphs
    ensures FallbackGuide in glyphs ==> ResolvedGuides(script, category, glyphs) == [FallbackGuide]
    ensures FallbackGuide !in glyphs ==> ResolvedGuides(script, category, glyphs) == []
  {
    var c := Candidates(script, category, glyphs);
    var f := ExistingGuides(c, glyphs);
    if f != [] {
      ExistingGuidesMembers(c, glyphs, f[0]);
    }
  }

  /** Every guide to draw is a glyph of the font, and the list is empty only when nothing resolves. */
  lemma ResolvedWithinFont(script: Option<string>, category: Option<string>, glyphs: seq<string>)
    ensures forall k :: 0 <= k < |ResolvedGuides(script, category, glyphs)| ==> ResolvedGuides(script, category, glyphs)[k] in glyphs
    ensures ResolvedGuides(script, category, glyphs) == [] <==>
      FallbackGuide !in glyphs && forall name :: name in Candidates(script, category, glyphs) ==> name !in glyphs
  {
    var c := Candidates(script, category, glyphs);
    var f := ExistingGuides(c, glyphs);
    forall name ensures name in f <==> name in c && name in glyphs {
      ExistingGuidesMembers(c, glyphs, name);
    }
    if f != [] {
      assert f[0] in c && f[0] in glyphs;
    }
  }

  /**
   * A name reachable by two rules resolves twice: a named candidate that is
   * also a custom guide of the font appears at least twice among the guides.
   */
  lemma DuplicatesKept(script: Option<string>, category: Option<string>, glyphs: seq<string>, name: string)
    requires name in NamedCandidates(script, category) && name in glyphs && IsCustomGuideName(name)
    ensures multiset(ResolvedGuides(script, category, glyphs))[name] >= 2
  {
    var c := Candidates(script, category, glyphs);
    ExistingGuidesCount(c, glyphs, name);
    CustomGuidesCount(glyphs, name);
    assert multiset(c) == multiset(NamedCandidates(script, category)) + multiset(CustomGuides(glyphs));
    assert multiset(ExistingGuides(c, glyphs))[name] >= 2;
  }
}
