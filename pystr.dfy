/**
 * The handful of Python `str` operations the plug-in relies on, written out
 * over `seq<char>`: substring search (`in`), `startswith`, `split(sep)` with
 * an explicit separator, `strip()` with no argument, and clamped slicing.
 */
module PyStr {
  import opened Wrappers

  /** `sub` occurs in `s` starting at index `i`. */
  predicate OccursAt(s: string, sub: string, i: nat)
  {
    i + |sub| <= |s| && s[i..i + |sub|] == sub
  }

  /** The first occurrence of `sub` in `s` at or after index `k`. */
  function IndexFrom(s: string, sub: string, k: nat): (r: Option<nat>)
    ensures r.Some? ==> k <= r.value && OccursAt(s, sub, r.value)
    decreases |s| - k
  {
    if k + |sub| > |s| then None
    else if OccursAt(s, sub, k) then Some(k)
    else IndexFrom(s, sub, k + 1)
  }

  /** Index of the first (leftmost) occurrence of `sub` in `s`, as `str.find` gives it. */
  function IndexOf(s: string, sub: string): (r: Option<nat>)
    ensures r.Some? ==> OccursAt(s, sub, r.value)
  {
    IndexFrom(s, sub, 0)
  }

  lemma {:induction false} IndexFromIsFirst(s: string, sub: string, k: nat)
    ensures IndexFrom(s, sub, k).Some? ==> forall j: nat :: k <= j < IndexFrom(s, sub, k).value ==> !OccursAt(s, sub, j)
    ensures IndexFrom(s, sub, k).None? ==> forall j: nat :: k <= j ==> !OccursAt(s, sub, j)
    decreases |s| - k
  {
    if k + |sub| <= |s| && !OccursAt(s, sub, k) {
      IndexFromIsFirst(s, sub, k + 1);
    }
  }

  /** `IndexOf` finds the leftmost occurrence, and `None` means there is none. */
  lemma IndexOfIsFirst(s: string, sub: string)
    ensures IndexOf(s, sub).Some? ==> forall j: nat :: j < IndexOf(s, sub).value ==> !OccursAt(s, sub, j)
    ensures IndexOf(s, sub).None? ==> forall j: nat :: !OccursAt(s, sub, j)
  {
    IndexFromIsFirst(s, sub, 0);
  }

  /** Python's `sub in s`. */
  predicate Contains(s: string, sub: string)
    ensures Contains(s, sub) ==> |sub| <= |s|
  {
    IndexOf(s, sub).Some?
  }

  lemma ContainsAt(s: string, sub: string, i: nat)
    requires OccursAt(s, sub, i)
    ensures Contains(s, sub)
  {
    IndexOfIsFirst(s, sub);
  }

  /** `sub in s` holds exactly when `sub` occurs somewhere in `s`. */
  lemma ContainsIffOccurs(s: string, sub: string)
    ensures Contains(s, sub) <==> exists i: nat :: OccursAt(s, sub, i)
  {
    IndexOfIsFirst(s, sub);
    if Contains(s, sub) {
      assert OccursAt(s, sub, IndexOf(s, sub).value);
    }
  }

  /** Python's `s.startswith(p)`: `p` occurs at the very start. */
  predicate StartsWith(s: string, p: string)
    ensures StartsWith(s, p) <==> OccursAt(s, p, 0)
  {
    |p| <= |s| && s[..|p|] == p
  }

  /** A separator no proper suffix of which is also a prefix: two occurrences can never overlap. */
  predicate NoSelfOverlap(sep: string)
  {
    forall d :: 0 < d < |sep| ==> sep[d..] != sep[..|sep| - d]
  }

  /** Python's `s.split(sep)` for a non-empty separator: cut at each leftmost occurrence in turn. */
  function Split(s: string, sep: string): (parts: seq<string>)
    requires sep != []
    ensures |parts| >= 1
    ensures |parts| == 1 <==> !Contains(s, sep)
    decreases |s|
  {
    match IndexOf(s, sep)
    case None => [s]
    case Some(i) => [s[..i]] + Split(s[i + |sep|..], sep)
  }

  /** The text before the first separator holds no separator. */
  lemma BeforeFirstIsFree(s: string, sep: string)
    requires sep != [] && Contains(s, sep)
    ensures !Contains(s[..IndexOf(s, sep).value], sep)
  {
    var i := IndexOf(s, sep).value;
    IndexOfIsFirst(s, sep);
    if Contains(s[..i], sep) {
      var j := IndexOf(s[..i], sep).value;
      assert s[..i][j..j + |sep|] == s[j..j + |sep|];
      assert OccursAt(s, sep, j);
    }
  }

  /** No piece of a split holds the separator. */
  lemma {:induction false} SplitPiecesFree(s: string, sep: string)
    requires sep != []
    ensures forall k :: 0 <= k < |Split(s, sep)| ==> !Contains(Split(s, sep)[k], sep)
    decreases |s|
  {
    if Contains(s, sep) {
      SplitAtFirst(s, sep);
      BeforeFirstIsFree(s, sep);
      SplitPiecesFree(s[IndexOf(s, sep).value + |sep|..], sep);
    }
  }

  /** Python's `sep.join(parts)`. */
  function Join(parts: seq<string>, sep: string): string
    requires |parts| >= 1
  {
    if |parts| == 1 then parts[0] else parts[0] + sep + Join(parts[1..], sep)
  }

  lemma JoinCons(head: string, tail: seq<string>, sep: string)
    requires |tail| >= 1
    ensures Join([head] + tail, sep) == head + sep + Join(tail, sep)
  {
    assert ([head] + tail)[1..] == tail;
  }

  /** A string is the text before an occurrence, the occurrence and the text after it. */
  lemma AroundOccurrence(s: string, sub: string, i: nat)
    requires OccursAt(s, sub, i)
    ensures s == s[..i] + sub + s[i + |sub|..]
  {
    assert s == s[..i] + s[i..i + |sub|] + s[i + |sub|..];
  }

  /** One step of `Split`: the text before the first separator, then the split of the rest. */
  lemma SplitAtFirst(s: string, sep: string)
    requires sep != [] && Contains(s, sep)
    ensures Split(s, sep) == [s[..IndexOf(s, sep).value]] + Split(s[IndexOf(s, sep).value + |sep|..], sep)
  {
  }

  /** Joining the pieces of a split gives back the original string. */
  lemma {:induction false} JoinSplit(s: string, sep: string)
    requires sep != []
    ensures Join(Split(s, sep), sep) == s
    decreases |s|
  {
    match IndexOf(s, sep)
    case None =>
    case Some(i) =>
      var head, rest := s[..i], s[i + |sep|..];
      SplitAtFirst(s, sep);
      JoinSplit(rest, sep);
      JoinCons(head, Split(rest, sep), sep);
      AroundOccurrence(s, sep, i);
  }

  /**
   * When `p` holds no separator (and the separator cannot overlap itself), the
   * first separator of `p + sep + rest` is the one right after `p`.
   */
  lemma FirstOccurrenceAfter(p: string, sep: string, rest: string)
    requires sep != [] && NoSelfOverlap(sep) && !Contains(p, sep)
    ensures IndexOf(p + sep + rest, sep) == Some(|p|)
  {
    var s := p + sep + rest;
    var n := |sep|;
    assert s[|p|..|p| + n] == sep;
    assert OccursAt(s, sep, |p|);
    ContainsAt(s, sep, |p|);
    IndexOfIsFirst(s, sep);
    var i := IndexOf(s, sep).value;
    assert i <= |p|;
    if i < |p| {
      if i + n <= |p| {
        assert p[i..i + n] == s[i..i + n];
        assert OccursAt(p, sep, i);
        ContainsAt(p, sep, i);
        assert false;
      } else {
        OverlappingOccurrences(s, sep, i, |p|);
        assert false;
      }
    }
  }

  /** Two occurrences of `sep` that overlap make a suffix of `sep` equal to a prefix. */
  lemma OverlappingOccurrences(s: string, sep: string, i: nat, j: nat)
    requires OccursAt(s, sep, i) && OccursAt(s, sep, j) && i < j < i + |sep|
    ensures sep[j - i..] == sep[..|sep| - (j - i)]
  {
    var d := j - i;
    assert sep[d..] == s[j..i + |sep|];
    assert sep[..|sep| - d] == s[j..i + |sep|];
  }

  /** Splitting a string without the separator gives the string alone. */
  lemma SplitNoSeparator(s: string, sep: string)
    requires sep != [] && !Contains(s, sep)
    ensures Split(s, sep) == [s]
  {
  }

  /** The first piece of `p + sep + rest` is `p` when `p` holds no separator. */
  lemma SplitAfterFirst(p: string, sep: string, rest: string)
    requires sep != [] && NoSelfOverlap(sep) && !Contains(p, sep)
    ensures Split(p + sep + rest, sep) == [p] + Split(rest, sep)
  {
    var s := p + sep + rest;
    FirstOccurrenceAfter(p, sep, rest);
    SplitAtFirst(s, sep);
    assert s[..|p|] == p;
    assert s[|p| + |sep|..] == rest;
  }

  /** Splitting a join of separator-free pieces gives back the pieces. */
  lemma {:induction false} SplitJoin(parts: seq<string>, sep: string)
    requires sep != [] && NoSelfOverlap(sep) && |parts| >= 1
    requires forall k :: 0 <= k < |parts| ==> !Contains(parts[k], sep)
    ensures Split(Join(parts, sep), sep) == parts
    decreases |parts|
  {
    if |parts| == 1 {
      SplitNoSeparator(parts[0], sep);
    } else {
      var rest := parts[1..];
      forall k | 0 <= k < |rest|
        ensures !Contains(rest[k], sep)
      {
        assert rest[k] == parts[k + 1];
      }
      assert !Contains(parts[0], sep);
      assert Join(parts, sep) == parts[0] + sep + Join(rest, sep);
      SplitAfterFirst(parts[0], sep, Join(rest, sep));
      SplitJoin(rest, sep);
      assert [parts[0]] + rest == parts;
    }
  }

  lemma {:induction false} JoinSnoc(parts: seq<string>, sep: string, t: string)
    requires |parts| >= 1
    ensures Join(parts + [t], sep) == Join(parts, sep) + sep + t
    decreases |parts|
  {
    if |parts| == 1 {
    } else {
      assert (parts + [t])[1..] == parts[1..] + [t];
      JoinSnoc(parts[1..], sep, t);
    }
  }

  /**
   * The last piece of a split is the text after the last separator: for any
   * `p`, and any `t` free of the separator, `(p + sep + t).split(sep)[-1] == t`.
   */
  lemma LastPieceAfterLastSeparator(p: string, sep: string, t: string)
    requires sep != [] && NoSelfOverlap(sep) && !Contains(t, sep)
    ensures Split(p + sep + t, sep)[|Split(p + sep + t, sep)| - 1] == t
  {
    var ps := Split(p, sep);
    SplitPiecesFree(p, sep);
    JoinSplit(p, sep);
    JoinSnoc(ps, sep, t);
    SplitJoin(ps + [t], sep);
  }

  /** The last piece of a split string that holds a separator is preceded by one. */
  lemma LastPieceFollowsSeparator(s: string, sep: string) returns (p: string)
    requires sep != [] && Contains(s, sep)
    ensures s == p + sep + Split(s, sep)[|Split(s, sep)| - 1]
  {
    var parts := Split(s, sep);
    var init := parts[..|parts| - 1];
    JoinSplit(s, sep);
    JoinSnoc(init, sep, parts[|parts| - 1]);
    assert init + [parts[|parts| - 1]] == parts;
    p := Join(init, sep);
  }

  /** Single-character separators never overlap themselves. */
  lemma SingleCharNoSelfOverlap(c: char)
    ensures NoSelfOverlap([c])
  {
  }

  /** With a one-character separator `[c]`, `Contains` is plain membership. */
  lemma {:induction false} ContainsChar(s: string, c: char)
    ensures Contains(s, [c]) <==> c in s
  {
    if c in s {
      var i :| 0 <= i < |s| && s[i] == c;
      assert s[i..i + 1] == [c];
      ContainsAt(s, [c], i);
    }
    if Contains(s, [c]) {
      var i := IndexOf(s, [c]).value;
      assert s[i..i + 1] == [c];
      assert s[i] == c;
    }
  }

  /** Python's `str.isspace()` for a single character (Unicode whitespace). */
  predicate IsSpace(c: char)
  {
    ('\U{9}' <= c <= '\U{D}') || ('\U{1C}' <= c <= '\U{20}') || c == '\U{85}' || c == '\U{A0}'
    || c == '\U{1680}' || ('\U{2000}' <= c <= '\U{200A}') || c == '\U{2028}' || c == '\U{2029}'
    || c == '\U{202F}' || c == '\U{205F}' || c == '\U{3000}'
  }

  /** Index of the first character at or after `k` that is not in the set `ws`, or `|s|`. */
  function SkipSpace(s: string, k: nat, ws: char -> bool): (i: nat)
    requires k <= |s|
    ensures k <= i <= |s|
    ensures i < |s| ==> !ws(s[i])
    decreases |s| - k
  {
    if k < |s| && ws(s[k]) then SkipSpace(s, k + 1, ws) else k
  }

  /** Everything `SkipSpace` steps over is in the set. */
  lemma {:induction false} SkipSpaceSkipsSpace(s: string, k: nat, ws: char -> bool)
    requires k <= |s|
    ensures forall j :: k <= j < SkipSpace(s, k, ws) ==> ws(s[j])
    decreases |s| - k
  {
    if k < |s| && ws(s[k]) {
      SkipSpaceSkipsSpace(s, k + 1, ws);
    }
  }

  /** End of the text before the run of `ws` characters that ends at `h`, going back no further than `lo`. */
  function SkipSpaceBack(s: string, lo: nat, h: nat, ws: char -> bool): (i: nat)
    requires lo <= h <= |s|
    ensures lo <= i <= h
    ensures i > lo ==> !ws(s[i - 1])
    decreases h
  {
    if h > lo && ws(s[h - 1]) then SkipSpaceBack(s, lo, h - 1, ws) else h
  }

  /** Everything `SkipSpaceBack` steps back over is in the set. */
  lemma {:induction false} SkipSpaceBackSkipsSpace(s: string, lo: nat, h: nat, ws: char -> bool)
    requires lo <= h <= |s|
    ensures forall j :: SkipSpaceBack(s, lo, h, ws) <= j < h ==> ws(s[j])
    decreases h
  {
    if h > lo && ws(s[h - 1]) {
      SkipSpaceBackSkipsSpace(s, lo, h - 1, ws);
    }
  }

  /** `s` without its leading and trailing characters from the whitespace set `ws`. */
  function StripBy(s: string, ws: char -> bool): (r: string)
    ensures |r| <= |s|
    ensures r != [] ==> !ws(r[0]) && !ws(r[|r| - 1])
  {
    var lo := SkipSpace(s, 0, ws);
    var hi := SkipSpaceBack(s, lo, |s|, ws);
    s[lo..hi]
  }

  /** Python's `s.strip()`: `s` without its leading and trailing whitespace. */
  function Strip(s: string): (r: string)
    ensures |r| <= |s|
    ensures r != [] ==> !IsSpace(r[0]) && !IsSpace(r[|r| - 1])
  {
    StripBy(s, IsSpace)
  }

  /** `s` is its stripped text with only whitespace before it (`lead` characters) and after it. */
  lemma StripShape(s: string, ws: char -> bool) returns (lead: nat)
    ensures lead + |StripBy(s, ws)| <= |s| && StripBy(s, ws) == s[lead..lead + |StripBy(s, ws)|]
    ensures forall k :: 0 <= k < lead ==> ws(s[k])
    ensures forall k :: lead + |StripBy(s, ws)| <= k < |s| ==> ws(s[k])
  {
    lead := SkipSpace(s, 0, ws);
    var hi := SkipSpaceBack(s, lead, |s|, ws);
    SkipSpaceSkipsSpace(s, 0, ws);
    SkipSpaceBackSkipsSpace(s, lead, |s|, ws);
    if lead == |s| {
      assert hi == lead;
    }
  }

  /** A string that neither starts nor ends with whitespace is its own stripped text. */
  lemma StripKeepsTrimmed(s: string, ws: char -> bool)
    requires s != [] ==> !ws(s[0]) && !ws(s[|s| - 1])
    ensures StripBy(s, ws) == s
  {
    assert SkipSpace(s, 0, ws) == 0;
    assert SkipSpaceBack(s, 0, |s|, ws) == |s|;
  }

  /** A concatenation starts with its first part. */
  lemma StartsWithConcat(p: string, x: string)
    ensures StartsWith(p + x, p)
  {
    assert (p + x)[..|p|] == p;
  }

  /** Python's slice `s[lo:hi]` for non-negative bounds: both ends clamp to `len(s)`. */
  function Slice(s: string, lo: nat, hi: nat): (r: string)
    requires lo <= hi
    ensures |r| == (if hi <= |s| then hi - lo else if lo <= |s| then |s| - lo else 0)
    ensures forall k :: 0 <= k < |r| ==> r[k] == s[lo + k]
  {
    var h := if hi <= |s| then hi else |s|;
    var l := if lo <= h then lo else h;
    s[l..h]
  }
}
