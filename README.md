# Show Guide Sheets: a Dafny model of the guide locator and style resolution

Show Guide Sheets is a reporter plug-in for the Glyphs font editor. Behind the
glyph being edited it draws "guide sheets": the outlines of special guide
glyphs named `_guide.…` in the same font. This project models the plug-in's
non-drawing logic, which is the part that can be stated exactly:

- **Locating the guide glyphs** (`background`). It builds the candidate names
  `_guide.<script>`, `_guide.<category>`, `_guide.<script>.<category>` and
  `_guide.<category>.<script>`, each only when its parts are truthy. It then
  appends every font glyph whose name starts with `_guide.` and contains
  `.c_`. It keeps the candidates the font holds, in candidate order, and falls
  back to `_guide.any` when none of them exists.
- **The colour suffix of a guide**: the text after the last `.c_` of its name.
- **`getColor` / `getColorBySuffix`**: reading a colour from the font's
  `Guide Color` or `Guide Color:<suffix>` custom parameter.
  - The parameter holds `RRGGBB`, or two colours `RRGGBB?RRGGBB`.
  - Index 1 reads characters 7–13 when the string has at least 13 characters.
    Otherwise, and always for index 0, it reads characters 0–6. All slices use
    Python's clamping.
  - A missing parameter or any slice `int(…, 16)` rejects gives the fixed
    default colour at the requested alpha.
- **`getLineStyle`**: reading `Line Style` or `Line Style:<suffix>`.
  - The value is split on commas and the chosen token is trimmed. A single
    token serves both path types.
  - With two or more tokens, open paths take token 0, closed paths take
    token 1, and any other path type gets `solid`.
  - A missing key means `solid`.
- **The style of one guide** (the body of `background`'s loop over guides):
  which parameters the closed and open outlines of a guide glyph read.

The font is modelled as its glyph names, in font order (`seq<string>`). A name
resolves when the font holds a glyph with that name. The font's custom
parameters are a `map<string, string>`, and a missing key reads as Python's
`None`. A colour is three integer channels before the division by 255, plus an
alpha. The fixed default (0.1, 0.6, 0.8) is the sentinel `DefaultColor`.
`script` and `category` are `Option<string>`, and "truthy" means present and
non-empty.

Modules:

- `Wrappers`: `Option`, Python truthiness of an optional string, and map lookup.
- `PyStr`: the Python `str` operations the plug-in uses: `in` (leftmost
  search), `startswith`, `split(sep)`, `strip()` over a given whitespace set,
  and clamped slicing. The lemmas prove split and join inverse both ways, the
  pieces and the last piece of a split, the shape of a stripped string, that
  the search finds the leftmost occurrence, and that slices clamp.
- `GuideNames`: the naming conventions and the colour suffix.
- `GuideColor`: `int(pair, 16)` on a slice, the colour window, `getColor`,
  `getColorBySuffix`, and a formatter that is the parser's inverse, used for
  round trips.
- `GuideLineStyle`: `getLineStyle`.
- `GuideStyle`: the colours and line styles a located guide is drawn with.
- `GuideLocator`: the locator, as imperative methods (the source's `append`
  loops) proved against the functions that specify them.

Some behaviour of the source is easy to misread; the model follows the code
as written:

- Nothing deduplicates. A named candidate that is also a custom guide of the
  font appears at least twice among the resolved guides
  (`GuideLocator.DuplicatesKept`).
- The colour suffix is `split('.c_')[-1]`, the text after the **last** `.c_`
  (`GuideNames.ColorSuffixAfterLastMarker`).
- The `else styles[0].strip()` at `plugin.py:211` is unreachable: that line
  runs only when there are two or more tokens. The model therefore has no such
  case.
- `int(…, 16)` accepts hex digits of either case, a sign before a single
  digit, and `int`'s own whitespace around the digits. That whitespace is
  the whitespace of `str.isspace()` minus U+001C..U+001F (`GuideColor.IntSpace`).
  So `-a` reads as -10, and `\x1cA` does not parse.

## Model

| member | source | states |
|---|---|---|
| GuideLocator.LocateGuides | ShowGuideSheets.glyphsReporter/Contents/Resources/plugin.py:45-74 | returns the candidate list and the guide list of `background`: exactly the specified candidates and resolved guides, every guide a glyph of the font |
| GuideLocator.CollectNamedCandidates | ShowGuideSheets.glyphsReporter/Contents/Resources/plugin.py:47-54 | the appends build exactly the fixed named candidates for the script and category |
| GuideLocator.CollectCandidates | ShowGuideSheets.glyphsReporter/Contents/Resources/plugin.py:47-59 | the loop over the font appends exactly the custom guides, in font order, after the named candidates |
| GuideLocator.ResolveCandidates | ShowGuideSheets.glyphsReporter/Contents/Resources/plugin.py:61-71 | the guide list is the candidates the font holds, or `[_guide.any]` / `[]` when none is held, and every entry is a font glyph |
| GuideLocator.NamedCandidates | ShowGuideSheets.glyphsReporter/Contents/Resources/plugin.py:47-54 | at most four named candidates, each starting with `_guide.` |
| GuideLocator.Candidates | ShowGuideSheets.glyphsReporter/Contents/Resources/plugin.py:47-59 | every candidate name starts with `_guide.` |
| GuideLocator.WithFallback | ShowGuideSheets.glyphsReporter/Contents/Resources/plugin.py:67-71 | the result is empty exactly when nothing was found and the font lacks `_guide.any`; it differs from the found list only by replacing an empty one with `[_guide.any]`; glyphs of the font stay glyphs of the font |
| GuideLocator.ResolvedGuides | ShowGuideSheets.glyphsReporter/Contents/Resources/plugin.py:61-71 | every resolved guide is a glyph of the font |
| GuideLocator.CandidateOrder | ShowGuideSheets.glyphsReporter/Contents/Resources/plugin.py:47-54 | candidates come in the order script, category, script.category, category.script, each present exactly when its parts are truthy, and the custom guides follow them |
| GuideLocator.CustomGuides | ShowGuideSheets.glyphsReporter/Contents/Resources/plugin.py:57-59 | every appended custom guide starts with `_guide.` and contains `.c_` |
| GuideLocator.CustomGuidesMembers | ShowGuideSheets.glyphsReporter/Contents/Resources/plugin.py:57-59 | a name is a custom guide exactly when the font holds it and it has the custom form |
| GuideLocator.CustomGuidesCount | ShowGuideSheets.glyphsReporter/Contents/Resources/plugin.py:57-59 | a custom guide appears as often as the font lists it, with no deduplication |
| GuideLocator.CustomGuidesInFontOrder | ShowGuideSheets.glyphsReporter/Contents/Resources/plugin.py:57-59 | the custom guides are a subsequence of the font's glyphs (font order kept) |
| GuideLocator.ExistingGuides | ShowGuideSheets.glyphsReporter/Contents/Resources/plugin.py:62-65 | every kept candidate is a glyph of the font |
| GuideLocator.ExistingGuidesMembers | ShowGuideSheets.glyphsReporter/Contents/Resources/plugin.py:62-65 | a name is kept exactly when it is a candidate and the font holds it |
| GuideLocator.ExistingGuidesCount | ShowGuideSheets.glyphsReporter/Contents/Resources/plugin.py:62-65 | a held name is kept as many times as it is a candidate; names outside the font never |
| GuideLocator.ExistingGuidesInCandidateOrder | ShowGuideSheets.glyphsReporter/Contents/Resources/plugin.py:62-65 | the kept names are a subsequence of the candidates |
| GuideLocator.PrimaryResult | ShowGuideSheets.glyphsReporter/Contents/Resources/plugin.py:61-68 | when some candidate exists the guides are the kept candidates themselves: each held name as often as it is a candidate, none other, in candidate order, and `_guide.any` only if it was a candidate |
| GuideLocator.FallbackResult | ShowGuideSheets.glyphsReporter/Contents/Resources/plugin.py:67-71 | when no candidate exists the guides are `[_guide.any]` if the font has it and empty otherwise |
| GuideLocator.ResolvedWithinFont | ShowGuideSheets.glyphsReporter/Contents/Resources/plugin.py:61-74 | every guide is a font glyph; the list is empty (and `background` returns) exactly when no candidate and no `_guide.any` exists |
| GuideLocator.DuplicatesKept | ShowGuideSheets.glyphsReporter/Contents/Resources/plugin.py:47-65 | a named candidate that is also a custom guide of the font is resolved at least twice |
| GuideNames.IsCustomGuideName | ShowGuideSheets.glyphsReporter/Contents/Resources/plugin.py:58 | a name that passes the custom-guide test has a colour suffix |
| GuideNames.ColorSuffix | ShowGuideSheets.glyphsReporter/Contents/Resources/plugin.py:86 | the suffix exists exactly when the name contains `.c_`, and it holds no `.c_` |
| GuideNames.ColorSuffixEndsName | ShowGuideSheets.glyphsReporter/Contents/Resources/plugin.py:86 | the name is some prefix, then `.c_`, then the suffix |
| GuideNames.ColorSuffixAfterLastMarker | ShowGuideSheets.glyphsReporter/Contents/Resources/plugin.py:86 | for any prefix, `.c_` followed by text free of `.c_` makes that text the suffix (the text after the last marker) |
| GuideNames.TrailingMarkerGivesEmptySuffix | ShowGuideSheets.glyphsReporter/Contents/Resources/plugin.py:86-87 | a name ending in `.c_` has the empty suffix, which is falsy |
| GuideStyle.StyleOfGuide | ShowGuideSheets.glyphsReporter/Contents/Resources/plugin.py:86-104 | both outline colours of a guide are drawn at alpha 0.35 |
| GuideStyle.PlainGuideReadsDefaults | ShowGuideSheets.glyphsReporter/Contents/Resources/plugin.py:86-104 | a guide without `.c_` reads `Guide Color` (index 1 closed, index 0 open) and `Line Style` |
| GuideStyle.EmptySuffixReadsDefaults | ShowGuideSheets.glyphsReporter/Contents/Resources/plugin.py:86-104 | a guide ending in `.c_` also reads `Guide Color` and `Line Style` |
| GuideStyle.CustomGuideReadsItsSuffix | ShowGuideSheets.glyphsReporter/Contents/Resources/plugin.py:86-104 | a guide `….c_<t>` with non-empty `t` reads `Guide Color:<t>` and `Line Style:<t>` |
| GuideColor.ParseHex | ShowGuideSheets.glyphsReporter/Contents/Resources/plugin.py:166-172 | a parsed run of `n` hex digits is non-empty and below `16^n` |
| GuideColor.ParseHexDefined | ShowGuideSheets.glyphsReporter/Contents/Resources/plugin.py:166-172 | hex parsing succeeds exactly on non-empty strings of hex digits of either case |
| GuideColor.IntSpace | ShowGuideSheets.glyphsReporter/Contents/Resources/plugin.py:166-172 | the whitespace `int()` skips around a numeral: `str.isspace()` whitespace except U+001C..U+001F |
| GuideColor.ParseChannel | ShowGuideSheets.glyphsReporter/Contents/Resources/plugin.py:166-172 | `int(slice, 16)` never accepts the empty slice, and a negative value needs a `-` in the slice |
| GuideColor.ParseChannelForms | ShowGuideSheets.glyphsReporter/Contents/Resources/plugin.py:166-172 | `int(slice, 16)` accepts a slice exactly when it is one or two hex digits, a sign before a digit, or a digit with `int` whitespace on one side; every other slice raises |
| GuideColor.FormParses | ShowGuideSheets.glyphsReporter/Contents/Resources/plugin.py:166-172 | every slice of those four forms parses |
| GuideColor.ParsedHasForm | ShowGuideSheets.glyphsReporter/Contents/Resources/plugin.py:166-172 | a slice that parses has one of those four forms |
| GuideColor.MisarrangedRejected | ShowGuideSheets.glyphsReporter/Contents/Resources/plugin.py:166-172 | `"a-"`, `"+"`, `"--"`, `" -"` and `"  "` all raise |
| GuideColor.DigitsParseAsHex | ShowGuideSheets.glyphsReporter/Contents/Resources/plugin.py:166-172 | `int(pair, 16)` on one or two hex digits is their base-16 value |
| GuideColor.SignedDigit | ShowGuideSheets.glyphsReporter/Contents/Resources/plugin.py:166-172 | `int` accepts a sign before one digit, so `-a` reads as -10 |
| GuideColor.PaddedDigit | ShowGuideSheets.glyphsReporter/Contents/Resources/plugin.py:166-172 | `int` whitespace before or after one digit is ignored |
| GuideColor.NonNumeralFails | ShowGuideSheets.glyphsReporter/Contents/Resources/plugin.py:166-172 | a slice holding a character that is no hex digit, `int` whitespace or sign does not parse |
| GuideColor.InformationSeparatorRejected | ShowGuideSheets.glyphsReporter/Contents/Resources/plugin.py:166-172 | U+001C is whitespace to `str.isspace()` but not to `int`, so U+001C before a digit does not parse |
| GuideColor.WindowStart | ShowGuideSheets.glyphsReporter/Contents/Resources/plugin.py:165 | the second window is used only when the string is at least 13 characters long |
| GuideColor.ColorAt | ShowGuideSheets.glyphsReporter/Contents/Resources/plugin.py:166-173 | the requested alpha is kept, and a parsed colour needs at least five characters from the window start (the blue slice is non-empty) |
| GuideColor.ColorFromHex | ShowGuideSheets.glyphsReporter/Contents/Resources/plugin.py:164-175 | the requested alpha is kept, and a missing parameter gives the default colour |
| GuideColor.GetColor | ShowGuideSheets.glyphsReporter/Contents/Resources/plugin.py:161-175 | alpha kept; without a `Guide Color` parameter the result is the default colour |
| GuideColor.SuffixColorKey | ShowGuideSheets.glyphsReporter/Contents/Resources/plugin.py:180 | the key is `Guide Color:` followed by the suffix, so it is never the plain `Guide Color` and different suffixes read different keys |
| GuideColor.GetColorBySuffix | ShowGuideSheets.glyphsReporter/Contents/Resources/plugin.py:178-193 | alpha kept; without a `Guide Color:<suffix>` parameter the result is the default colour |
| GuideColor.SingleColorRoundTrip | ShowGuideSheets.glyphsReporter/Contents/Resources/plugin.py:165-173 | a formatted `RRGGBB` reads back as its three channels for every index |
| GuideColor.ColorPairRoundTrip | ShowGuideSheets.glyphsReporter/Contents/Resources/plugin.py:165-173 | for `RRGGBB?RRGGBB`, index 0 reads the first colour and index 1 the second |
| GuideColor.ConfiguredColor | ShowGuideSheets.glyphsReporter/Contents/Resources/plugin.py:162-173 | a one-colour `Guide Color` parameter gives that colour for both roles |
| GuideColor.ConfiguredColorPairBySuffix | ShowGuideSheets.glyphsReporter/Contents/Resources/plugin.py:180-191 | a two-colour `Guide Color:<suffix>` parameter gives the open colour for index 0 and the closed colour for index 1 |
| GuideColor.SecondColorIsShiftedFirst | ShowGuideSheets.glyphsReporter/Contents/Resources/plugin.py:165-168 | index 1 on 13 or more characters is index 0 on the string from character 7 |
| GuideColor.FirstWindowOtherwise | ShowGuideSheets.glyphsReporter/Contents/Resources/plugin.py:169-172 | otherwise every index reads the first window, and only the first six characters matter |
| GuideColor.HexWindowParses | ShowGuideSheets.glyphsReporter/Contents/Resources/plugin.py:165-173 | three hex-digit slices in the window give the colour made of their base-16 values |
| GuideColor.ShortStringGivesDefault | ShowGuideSheets.glyphsReporter/Contents/Resources/plugin.py:170-175 | with at most four characters the blue slice is empty, so the result is the default colour |
| GuideColor.FiveCharacterString | ShowGuideSheets.glyphsReporter/Contents/Resources/plugin.py:170-173 | five hex digits still parse, with blue the value of the last digit alone |
| GuideColor.UnparsedChannel | ShowGuideSheets.glyphsReporter/Contents/Resources/plugin.py:164-175 | any one of the three slices that `int` rejects makes the colour the default |
| GuideColor.BlankSliceGivesDefault | ShowGuideSheets.glyphsReporter/Contents/Resources/plugin.py:164-175 | `"  2233"` gives the default colour, its red slice being blank |
| GuideColor.BadCharacterGivesDefault | ShowGuideSheets.glyphsReporter/Contents/Resources/plugin.py:164-175 | a non-numeral character anywhere in the window gives the default colour, never an error |
| GuideColor.TwoDigits | ShowGuideSheets.glyphsReporter/Contents/Resources/plugin.py:166 | two hex digits read as 16 times the first plus the second |
| GuideColor.ExampleColorPair | ShowGuideSheets.glyphsReporter/Contents/Resources/plugin.py:165-172 | `112233,44AA99` reads (0x11, 0x22, 0x33) for index 0 and (0x44, 0xAA, 0x99) for index 1 |
| GuideLineStyle.LineStyleParam | ShowGuideSheets.glyphsReporter/Contents/Resources/plugin.py:198 | the key is `Line Style:` followed by the suffix exactly when the suffix is truthy, and `Line Style` otherwise |
| GuideLineStyle.StyleFromValue | ShowGuideSheets.glyphsReporter/Contents/Resources/plugin.py:199-214 | a missing parameter reads as `solid` |
| GuideLineStyle.GetLineStyle | ShowGuideSheets.glyphsReporter/Contents/Resources/plugin.py:196-214 | without the parameter for the suffix the style is `solid` |
| GuideLineStyle.FalsySuffixReadsDefaultKey | ShowGuideSheets.glyphsReporter/Contents/Resources/plugin.py:198 | no suffix and the empty suffix both read `Line Style` |
| GuideLineStyle.SolidIsOneToken | ShowGuideSheets.glyphsReporter/Contents/Resources/plugin.py:202-207 | the default `solid` is one token that `strip()` leaves alone |
| GuideLineStyle.SingleTokenForEveryPath | ShowGuideSheets.glyphsReporter/Contents/Resources/plugin.py:203-207 | a value without a comma gives its trimmed self for every path type |
| GuideLineStyle.TwoOrMoreTokens | ShowGuideSheets.glyphsReporter/Contents/Resources/plugin.py:203-214 | with two or more tokens, open gets token 0 trimmed, closed token 1 trimmed, any other path type `solid` |
| GuideLineStyle.ConfiguredLineStyles | ShowGuideSheets.glyphsReporter/Contents/Resources/plugin.py:198-213 | the same through the parameter the suffix selects |
| GuideLineStyle.DottedForBoth | ShowGuideSheets.glyphsReporter/Contents/Resources/plugin.py:203-207 | `dotted` styles both path types |
| GuideLineStyle.DottedOpenSolidClosed | ShowGuideSheets.glyphsReporter/Contents/Resources/plugin.py:203-213 | `dotted,solid` is dotted for open paths and solid for closed ones |
| PyStr.Contains | ShowGuideSheets.glyphsReporter/Contents/Resources/plugin.py:58 | `sub in s` holds only when `sub` fits in `s` |
| PyStr.ContainsIffOccurs | ShowGuideSheets.glyphsReporter/Contents/Resources/plugin.py:58 | `sub in s` holds exactly when `sub` occurs at some index of `s` |
| PyStr.StartsWith | ShowGuideSheets.glyphsReporter/Contents/Resources/plugin.py:58 | `s.startswith(p)` holds exactly when `p` occurs at index 0 |
| PyStr.IndexOfIsFirst | ShowGuideSheets.glyphsReporter/Contents/Resources/plugin.py:58 | the search finds the leftmost occurrence, and finding none means there is none (Python's `in`) |
| PyStr.Split | ShowGuideSheets.glyphsReporter/Contents/Resources/plugin.py:203 | `split` gives at least one piece, and exactly one when the separator does not occur |
| PyStr.JoinSplit | ShowGuideSheets.glyphsReporter/Contents/Resources/plugin.py:203 | joining the pieces with the separator gives back the string |
| PyStr.SplitJoin | ShowGuideSheets.glyphsReporter/Contents/Resources/plugin.py:203 | splitting a join of separator-free pieces gives back the pieces, for a separator that cannot overlap itself |
| PyStr.SplitPiecesFree | ShowGuideSheets.glyphsReporter/Contents/Resources/plugin.py:86 | no piece of a split holds the separator |
| PyStr.LastPieceFollowsSeparator | ShowGuideSheets.glyphsReporter/Contents/Resources/plugin.py:86 | the last piece of a split string that holds the separator follows a separator at the end |
| PyStr.LastPieceAfterLastSeparator | ShowGuideSheets.glyphsReporter/Contents/Resources/plugin.py:86 | the last piece of `p + sep + t` is `t` when `t` holds no separator |
| PyStr.ContainsChar | ShowGuideSheets.glyphsReporter/Contents/Resources/plugin.py:203 | a one-character separator occurs exactly when that character is in the string |
| PyStr.StripBy | ShowGuideSheets.glyphsReporter/Contents/Resources/plugin.py:207 | stripping a whitespace set never lengthens, and the result neither starts nor ends with a character of the set |
| PyStr.IsSpace | ShowGuideSheets.glyphsReporter/Contents/Resources/plugin.py:207 | the characters `str.isspace()` accepts, which `strip()` removes |
| PyStr.Strip | ShowGuideSheets.glyphsReporter/Contents/Resources/plugin.py:207 | `strip()` never lengthens, and the result neither starts nor ends with `str.isspace()` whitespace |
| PyStr.StripShape | ShowGuideSheets.glyphsReporter/Contents/Resources/plugin.py:207 | the stripped text is a slice of the original with only whitespace before and after it |
| PyStr.StripKeepsTrimmed | ShowGuideSheets.glyphsReporter/Contents/Resources/plugin.py:207 | a string that neither starts nor ends with whitespace is its own stripped text |
| PyStr.Slice | ShowGuideSheets.glyphsReporter/Contents/Resources/plugin.py:166-172 | Python's slice clamps both ends to the length and copies the characters in range |
| Wrappers.Truthy | ShowGuideSheets.glyphsReporter/Contents/Resources/plugin.py:48-52 | Python truthiness of an optional string: `None` and `""` are falsy |
| Wrappers.Lookup | ShowGuideSheets.glyphsReporter/Contents/Resources/plugin.py:199-202 | a key present gives its value, and a missing key gives `None` |

## Left out

- Drawing: colour setting, stroking, dashing, line widths, annotation text and
  the on-path node circles (`plugin.py:96-158`). These are calls into the
  host's graphics library.
- The division of each channel by 255.0, alpha arithmetic and the scale gates
  (`scale < 0.25`, `scale > 0.4`). These are floating-point work; channels stay
  integers.
- Node highlighting via `isStrokeHitByPoint_padding_` and its `getColor(…, 0.25)`
  calls (`plugin.py:129-144`): host geometry code.
- The guide layer of the edited master, the skip of guides without one, and the
  `.copy()` of their outlines (`plugin.py:77-83`): this needs the host's object
  model. The model resolves guides by name only.
- Exception logging and printing, menu localisation in `settings`, and
  `__file__`.
- The font lookup `Glyphs.font.glyphs[name]`, modelled as "the font holds a
  glyph of that name". Lookups of the host by Unicode value or glyph index, and
  the truthiness of a found glyph object, are assumed not to matter for names
  of the form `_guide.…`.
- `customParameters[key]` is taken to give `None` for a missing key. Line 162
  reads `customParameters["Guide Color"]` without testing for the key and
  relies on that `None`, which the `try` at lines 164-175 turns into the
  default colour. Values that are not strings, and repeated parameters of the
  same name, are not modelled.
- ParseChannel: Python's `int` also accepts any Unicode decimal digit (such as
  Arabic-Indic digits); the model accepts only ASCII hex digits. Its whitespace
  (`GuideColor.IntSpace`) is CPython's: ASCII whitespace without U+001C..U+001F,
  plus every non-ASCII `str.isspace()` character. Underscores
  and `0x` prefixes cannot form a valid number in a slice of at most two
  characters, so they need no modelling.
- GuideStyle.StyleOfGuide: states which parameters are read, not the order of
  the (side-effect free) reads.
