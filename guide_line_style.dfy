/**
 * Line-style resolution of the guide-sheet reporter (`getLineStyle`). The
 * parameter is a comma-separated list: one token applies to both path types;
 * with two or more, open paths take the first and closed paths the second.
 */
module GuideLineStyle {
  import opened Wrappers
  import opened PyStr

  const LineStyleKey := "Line Style"
  const Solid := "solid"
  const Comma := ","

  /** The parameter `getLineStyle` reads: `Line Style:<suffix>` for a truthy suffix, else `Line Style`. */
  function LineStyleParam(suffix: Option<string>): (key: string)
    ensures Truthy(suffix) <==> key != LineStyleKey
    ensures Truthy(suffix) ==> StartsWith(key, LineStyleKey + ":") && key[|LineStyleKey| + 1..] == suffix.value
  {
    if Truthy(suffix) then
      assert |LineStyleKey + ":" + suffix.value| > |LineStyleKey|;
      StartsWithConcat(LineStyleKey + ":", suffix.value);
      LineStyleKey + ":" + suffix.value
    else LineStyleKey
  }

  /**
   * What `getLineStyle` does with the parameter's value (`None` when the key
   * is missing, which reads as `"solid"`).
   */
  function StyleFromValue(value: Option<string>, pathType: string): (style: string)
    ensures value.None? ==> style == Solid
  {
    SolidIsOneToken();
    var lineStyle := if value.Some? then value.value else Solid;
    var styles := Split(lineStyle, Comma);
    if |styles| == 1 then Strip(styles[0])
    else if pathType == "closed" then Strip(styles[1])
    else if pathType == "open" then Strip(styles[0])
    else Solid
  }

  /** `getLineStyle(suffix, pathType)` against the font's custom parameters. */
  function GetLineStyle(params: map<string, string>, suffix: Option<string>, pathType: string): (style: string)
    ensures LineStyleParam(suffix) !in params ==> style == Solid
  {
    StyleFromValue(Lookup(params, LineStyleParam(suffix)), pathType)
  }

  lemma SolidIsOneToken()
    ensures Split(Solid, Comma) == [Solid]
    ensures Strip(Solid) == Solid
  {
    ContainsChar(Solid, ',');
  }

  /** A value without a comma is one token: trimmed, it is the style of every path type. */
  lemma SingleTokenForEveryPath(v: string, pathType: string)
    requires ',' !in v
    ensures StyleFromValue(Some(v), pathType) == Strip(v)
  {
    ContainsChar(v, ',');
  }

  /**
   * With two or more tokens `t0,t1[,...]`, open paths get `t0` trimmed, closed
   * paths get `t1` trimmed, and any other path type gets `"solid"`.
   */
  lemma TwoOrMoreTokens(t0: string, t1: string, tail: string, pathType: string)
    requires ',' !in t0 && ',' !in t1
    requires tail == [] || tail[0] == ','
    ensures StyleFromValue(Some(t0 + Comma + t1 + tail), "open") == Strip(t0)
    ensures StyleFromValue(Some(t0 + Comma + t1 + tail), "closed") == Strip(t1)
    ensures pathType != "open" && pathType != "closed" ==>
      StyleFromValue(Some(t0 + Comma + t1 + tail), pathType) == Solid
  {
    assert t0 + Comma + t1 + tail == t0 + Comma + (t1 + tail);
    SplitAfterComma(t0, t1 + tail);
    FirstTokenBeforeComma(t1, tail);
  }

  /** The same through the parameter lookup: the configured tokens reach `getLineStyle`'s callers. */
  lemma ConfiguredLineStyles(params: map<string, string>, suffix: Option<string>, t0: string, t1: string, tail: string)
    requires ',' !in t0 && ',' !in t1
    requires tail == [] || tail[0] == ','
    requires LineStyleParam(suffix) in params && params[LineStyleParam(suffix)] == t0 + Comma + t1 + tail
    ensures GetLineStyle(params, suffix, "open") == Strip(t0)
    ensures GetLineStyle(params, suffix, "closed") == Strip(t1)
  {
    TwoOrMoreTokens(t0, t1, tail, "open");
  }

  lemma SplitAfterComma(t0: string, rest: string)
    requires ',' !in t0
    ensures Split(t0 + Comma + rest, Comma) == [t0] + Split(rest, Comma)
  {
    ContainsChar(t0, ',');
    SingleCharNoSelfOverlap(',');
    SplitAfterFirst(t0, Comma, rest);
  }

  lemma FirstTokenBeforeComma(t1: string, tail: string)
    requires ',' !in t1
    requires tail == [] || tail[0] == ','
    ensures Split(t1 + tail, Comma)[0] == t1
  {
    ContainsChar(t1, ',');
    if tail == [] {
      assert t1 + tail == t1;
      SplitNoSeparator(t1, Comma);
    } else {
      assert t1 + tail == t1 + Comma + tail[1..];
      SplitAfterComma(t1, tail[1..]);
    }
  }

  /** `None` and the empty suffix are both falsy: both read `Line Style`. */
  lemma FalsySuffixReadsDefaultKey(suffix: Option<string>)
    requires !Truthy(suffix)
    ensures LineStyleParam(suffix) == LineStyleKey
  {
  }

  /** A single token: "dotted" styles both path types. */
  lemma DottedForBoth()
    ensures StyleFromValue(Some("dotted"), "open") == "dotted"
    ensures StyleFromValue(Some("dotted"), "closed") == "dotted"
  {
    var w := "dotted";
    assert ',' !in w by {
      assert forall k :: 0 <= k < |w| ==> w[k] != ',';
    }
    StripKeepsTrimmed(w, IsSpace);
    SingleTokenForEveryPath(w, "open");
    SingleTokenForEveryPath(w, "closed");
  }

  /** Two tokens: "dotted,solid" is dotted for open paths and solid for closed ones. */
  lemma DottedOpenSolidClosed()
    ensures StyleFromValue(Some("dotted" + Comma + "solid"), "open") == "dotted"
    ensures StyleFromValue(Some("dotted" + Comma + "solid"), "closed") == "solid"
  {
    var w0, w1 := "dotted", "solid";
    assert ',' !in w0 by {
      assert forall k :: 0 <= k < |w0| ==> w0[k] != ',';
    }
    assert ',' !in w1 by {
      assert forall k :: 0 <= k < |w1| ==> w1[k] != ',';
    }
    StripKeepsTrimmed(w0, IsSpace);
    StripKeepsTrimmed(w1, IsSpace);
    TwoOrMoreTokens(w0, w1, "", "open");
    assert w0 + Comma + w1 + "" == w0 + Comma + w1;
  }
}
