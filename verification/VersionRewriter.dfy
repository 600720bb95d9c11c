/**
 The release script's text rewrite: the guarded substitution of the old version, then the old
 minor line in the places that track it. `digit` is Python's `\d`, `space` its `\s`.
 */
module VersionRewriter {
  import opened PyText
  import opened VersionPattern

  /** `text.replace(pattern, replacement)` from position `i` on. */
  function ReplaceAll(text: string, i: nat, pattern: string, replacement: string): string
    requires i <= |text| && pattern != ""
    decreases |text| - i
  {
    if i == |text| then ""
    else if FoundAt(text, i, pattern) then replacement + ReplaceAll(text, i + |pattern|, pattern, replacement)
    else [text[i]] + ReplaceAll(text, i + 1, pattern, replacement)
  }

  const MARKER := "current_minor:"

  function SkipSpace(text: string, i: nat, space: char -> bool): (j: nat)
    requires i <= |text|
    ensures i <= j <= |text| && (forall k :: i <= k < j ==> space(text[k]))
    ensures j < |text| ==> !space(text[j])
    decreases |text| - i
  {
    if i < |text| && space(text[i]) then SkipSpace(text, i + 1, space) else i
  }

  /** The pattern `^(current_minor:\s*)"minor"` at position `i`: where its opening quote is. */
  function MarkerAt(text: string, i: nat, minor: string, space: char -> bool): (r: Option<nat>)
    requires i < |text|
    ensures r.Some? ==> i + |MARKER| <= r.value && FoundAt(text, i, MARKER) && FoundAt(text, r.value, "\"" + minor + "\"")
    ensures r.Some? ==> forall k :: i + |MARKER| <= k < r.value ==> space(text[k])
  {
    if (i == 0 || text[i - 1] == '\n') && FoundAt(text, i, MARKER) then
      var quote := SkipSpace(text, i + |MARKER|, space);
      if FoundAt(text, quote, "\"" + minor + "\"") then Some(quote) else None
    else None
  }

  /** The multi-line `re.sub` over the marker, from position `i` on. */
  function ReplaceMarkers(text: string, i: nat, was: string, now: string, space: char -> bool): string
    requires i <= |text|
    decreases |text| - i
  {
    if i == |text| then ""
    else
      match MarkerAt(text, i, was, space)
      case Some(quote) =>
        text[i..quote] + ("\"" + now + "\"") + ReplaceMarkers(text, quote + |was| + 2, was, now, space)
      case None => [text[i]] + ReplaceMarkers(text, i + 1, was, now, space)
  }

  function CurrentMinorMarkers(text: string, was: string, now: string, space: char -> bool): string {
    if was == now then text
    else
      ReplaceAll(ReplaceMarkers(text, 0, was, now, space), 0,
                 "**Current " + was + " boundary:", "**Current " + now + " boundary:")
  }

  /** The whole rewrite of one text. */
  function Rewritten(text: string, was: Version, now: Version, digit: char -> bool, space: char -> bool): string {
    var bumped := Substitute(text, 0, was.Text(), now.Text(), digit);
    if was.minor == now.minor then bumped
    else
      var oldMinor, newMinor := Minor(was.minor), Minor(now.minor);
      var floors := ReplaceAll(bumped, 0, ">=" + oldMinor + ".0", ">=" + newMinor + ".0");
      var quoted := ReplaceAll(floors, 0, "\"" + oldMinor + ".0\"", "\"" + newMinor + ".0\"");
      CurrentMinorMarkers(quoted, oldMinor, newMinor, space)
  }

  method ReplaceCurrentMinorMarkers(input: string, was: string, now: string, space: char -> bool) returns (text: string)
    ensures text == CurrentMinorMarkers(input, was, now, space)
  {
    text := input;
    if was != now {
      text := ReplaceMarkers(text, 0, was, now, space);
      text := ReplaceAll(text, 0, "**Current " + was + " boundary:", "**Current " + now + " boundary:");
    }
  }

  /** `replace_version`: the result, and the release's guarantee that the old version is gone from it. */
  method ReplaceVersion(input: string, was: Version, now: Version, digit: char -> bool, space: char -> bool)
    returns (text: string)
    requires Digits(digit) && was.Valid() && now.Admitted(digit) && was != now
    ensures text == Rewritten(input, was, now, digit, space)
    ensures !Exposes(now, was) ==> Clean(text, was.Text(), digit)
  {
    text := Substitute(input, 0, was.Text(), now.Text(), digit);
    if was.minor != now.minor {
      var oldMinor, newMinor := Minor(was.minor), Minor(now.minor);
      text := ReplaceAll(text, 0, ">=" + oldMinor + ".0", ">=" + newMinor + ".0");
      text := ReplaceAll(text, 0, "\"" + oldMinor + ".0\"", "\"" + newMinor + ".0\"");
      text := ReplaceCurrentMinorMarkers(text, oldMinor, newMinor, space);
    }
    if !Exposes(now, was) {
      RewrittenIsClean(input, was, now, digit, space);
    }
  }

  /** No step of the rewrite brings the old version back. */
  lemma RewrittenIsClean(text: string, was: Version, now: Version, digit: char -> bool, space: char -> bool)
    requires Replaces(was, now, digit)
    ensures Clean(Rewritten(text, was, now, digit, space), was.Text(), digit)
  {
    assert was.Text() != "" by { VersionShape(was); }
    hide Substitute, ReplaceAll, Clean, CurrentMinorMarkers, Exposes, Version.Text;
    NoOldVersionSurvives(text, was, now, digit);
    if was.minor != now.minor {
      var bumped := Substitute(text, 0, was.Text(), now.Text(), digit);
      var oldMinor, newMinor := Minor(was.minor), Minor(now.minor);
      ReplaceStaysClean(bumped, ">=", ".0", was, now, digit);
      var floors := ReplaceAll(bumped, 0, ">=" + oldMinor + ".0", ">=" + newMinor + ".0");
      ReplaceStaysClean(floors, "\"", ".0\"", was, now, digit);
      MarkersStayClean(ReplaceAll(floors, 0, "\"" + oldMinor + ".0\"", "\"" + newMinor + ".0\""), was, now, digit, space);
    }
  }

  /** A version that moves to another minor line. */
  ghost predicate Moves(was: Version, now: Version, digit: char -> bool) {
    Digits(digit) && was.Valid() && now.Admitted(digit) && was.minor != now.minor
  }

  /** What may stand on the left and on the right of a rewritten minor. */
  ghost predicate Fenced(before: string, after: string) {
    && before != "" && before[|before| - 1] in {'=', '"', ' '}
    && after != "" && (after[0] in {'"', ' '} || (|after| > 1 && after[0] == '.' && after[1] == '0'))
  }

  /** Swapping one fenced minor for another creates no bounded occurrence of the old version. */
  lemma MinorSwapClean(before: string, after: string, was: Version, now: Version, digit: char -> bool)
    requires Moves(was, now, digit) && Fenced(before, after)
    requires Clean(before + Minor(was.minor) + after, was.Text(), digit)
    ensures Clean(before + Minor(now.minor) + after, was.Text(), digit)
  {
    hide Version.Text;
    var out := before + Minor(now.minor) + after;
    forall i | 0 <= i < |out| ensures MatchAt(out, i, was.Text(), digit).None? {
      if i < |before| {
        ConcatAssociative(before, Minor(was.minor), after, "");
        ConcatAssociative(before, Minor(now.minor), after, "");
        SwapInFront(before, Minor(was.minor) + after, Minor(now.minor) + after, was, digit, i);
      } else if i < |before| + |Minor(now.minor)| {
        SwapInside(before, after, was, now, digit, i);
      } else {
        SwapBehind(before, after, was, now, digit, i);
      }
    }
  }

  lemma SwapInFront(before: string, a: string, b: string, was: Version, digit: char -> bool, i: nat)
    requires was.Valid() && before != "" && before[|before| - 1] in {'=', '"', ' '} && i < |before|
    requires a != "" && b != "" && a[0] == b[0] == '0'
    requires Clean(before + a, was.Text(), digit)
    ensures MatchAt(before + b, i, was.Text(), digit).None?
  {
    hide StandsAt;
    var w, text, out := was.Text(), before + a, before + b;
    assert MatchAt(text, i, w, digit).None?;
    assert forall k :: 0 <= k < |before| ==> text[k] == before[k] == out[k];
    FrontSame(before, a, b, was, digit, i);
    if out[i] == 'v' {
      assert i + 1 < |before|;
      FrontSame(before, a, b, was, digit, i + 1);
    }
  }

  /** In front of the fence nothing is new. */
  lemma FrontSame(before: string, a: string, b: string, was: Version, digit: char -> bool, s: nat)
    requires was.Valid() && before != "" && before[|before| - 1] in {'=', '"', ' '} && s < |before|
    requires a != "" && b != "" && a[0] == b[0]
    ensures StandsAt(before + b, s, was.Text(), digit) ==> StandsAt(before + a, s, was.Text(), digit)
  {
    var w, text, out := was.Text(), before + a, before + b;
    if s + |w| < |before| {
      assert text[s..s + |w|] == before[s..s + |w|] == out[s..s + |w|];
      assert forall k :: 0 <= k <= |before| ==> text[k] == out[k];
    } else {
      VersionShape(was);
      if s + |w| <= |out| {
        assert out[s..s + |w|][|before| - 1 - s] == before[|before| - 1] != w[|before| - 1 - s];
      }
    }
  }

  lemma SwapInside(before: string, after: string, was: Version, now: Version, digit: char -> bool, i: nat)
    requires Moves(was, now, digit) && Fenced(before, after)
    requires Clean(before + Minor(was.minor) + after, was.Text(), digit)
    requires |before| <= i < |before| + |Minor(now.minor)|
    ensures MatchAt(before + Minor(now.minor) + after, i, was.Text(), digit).None?
  {
    hide StandsAt, Clean, Version.Text, Fenced;
    var out, m, start := before + Minor(now.minor) + after, now.minor, |before|;
    assert out[start] == '0' && out[start + 1] == '.';
    if i >= start + 2 {
      assert out[i] == m[i - start - 2] && m[i - start - 2] in m;
      MinorTailMismatch(before, after, was, now, digit, i - start - 2);
    } else if i == start {
      MinorMismatch(before, after, was, now, digit);
    } else {
      MatchBeginsWithLetterOrDigit(out, i, was, digit);
    }
  }

  lemma MatchBeginsWithLetterOrDigit(text: string, i: nat, was: Version, digit: char -> bool)
    requires i < |text| && was.Valid() && !Alnum(text[i])
    ensures MatchAt(text, i, was.Text(), digit).None?
  {
    if MatchAt(text, i, was.Text(), digit).Some? {
      MatchIsAlnum(text, i, was, digit);
    }
  }

  lemma MinorChars(before: string, after: string, n: string)
    requires after != ""
    ensures var out := before + Minor(n) + after;
            && |out| > |before| + 2 + |n| && out[|before| + 2 + |n|] == after[0]
            && forall k :: 0 <= k < |n| ==> out[|before| + 2 + k] == n[k]
  {
  }

  lemma StandsChar(text: string, start: nat, word: string, digit: char -> bool, k: nat)
    requires k < |word|
    ensures StandsAt(text, start, word, digit) ==> start + k < |text| && text[start + k] == word[k]
  {
    if StandsAt(text, start, word, digit) {
      assert text[start..start + |word|][k] == text[start + k];
    }
  }

  lemma DifferAt(m: string, n: string) returns (k: nat)
    requires |m| == |n| && m != n
    ensures k < |m| && m[k] != n[k]
  {
    k :| k < |m| && m[k] != n[k];
  }

  /** The new minor, fenced as it is, does not read as the old version. */
  lemma MinorMismatch(before: string, after: string, was: Version, now: Version, digit: char -> bool)
    requires Moves(was, now, digit) && Fenced(before, after)
    ensures !StandsAt(before + Minor(now.minor) + after, |before|, was.Text(), digit)
  {
    var out, w, m, n := before + Minor(now.minor) + after, was.Text(), was.minor, now.minor;
    VersionShape(was);
    VersionParts(was);
    MinorChars(before, after, n);
    hide StandsAt, Version.Text, Minor, Ends;
    if |m| < |n| {
      assert n[|m|] in n && n[|m|] != '.';
      StandsChar(out, |before|, w, digit, 2 + |m|);
    } else if |m| > |n| {
      StandsChar(out, |before|, w, digit, 2 + |n|);
    } else {
      var k := DifferAt(m, n);
      assert w[2..2 + |m|][k] == w[2 + k];
      StandsChar(out, |before|, w, digit, 2 + k);
    }
  }

  /** Nor does any rest of it, unless the old minor, standing in its place, did so before. */
  lemma MinorTailMismatch(before: string, after: string, was: Version, now: Version, digit: char -> bool, z: nat)
    requires Moves(was, now, digit) && Fenced(before, after) && z < |now.minor|
    requires Clean(before + Minor(was.minor) + after, was.Text(), digit)
    ensures !StandsAt(before + Minor(now.minor) + after, |before| + 2 + z, was.Text(), digit)
  {
    hide Clean, StandsAt;
    var out, n := before + Minor(now.minor) + after, now.minor;
    var start := |before| + 2 + z;
    StandsBegins(out, start, was, digit);
    hide Version.Text;
    assert out[start] == n[z];
    if z + 1 < |n| {
      assert out[start + 1] == n[z + 1] && n[z + 1] in n;
    } else {
      assert out[start + 1] == after[0] && (|after| > 1 ==> out[start + 2] == after[1]);
      if was.minor == "0" && n[z] == '0' {
        TailWasThere(before, after, was, now, digit);
      }
    }
  }

  lemma StandsBegins(text: string, start: nat, was: Version, digit: char -> bool)
    requires was.Valid()
    ensures StandsAt(text, start, was.Text(), digit) ==>
              start + 3 <= |text| && text[start] == '0' && text[start + 1] == '.' && text[start + 2] == was.minor[0]
  {
    var w := was.Text();
    VersionShape(was);
    assert w[2] == was.minor[0];
    if StandsAt(text, start, w, digit) {
      var here := text[start..start + |w|];
      assert here[0] == text[start] && here[1] == text[start + 1] && here[2] == text[start + 2];
    }
  }

  /** Behind `0.0` the same text follows the old minor. */
  lemma TailWasThere(before: string, after: string, was: Version, now: Version, digit: char -> bool)
    requires was.Valid() && was.minor == "0" && now.minor != "" && now.minor[|now.minor| - 1] == '0'
    requires Clean(before + Minor(was.minor) + after, was.Text(), digit)
    ensures !StandsAt(before + Minor(now.minor) + after, |before| + 1 + |now.minor|, was.Text(), digit)
  {
    var text, out := before + Minor(was.minor) + after, before + Minor(now.minor) + after;
    var i, j := |before| + 1 + |now.minor|, |before| + 2;
    assert out[i..] == "0" + after == text[j..];
    StandsShift(out, text, i, j, 0, was.Text(), digit);
    assert text[j - 1] == '.' && text[j] == '0';
    assert MatchAt(text, j, was.Text(), digit).None?;
  }

  lemma SwapBehind(before: string, after: string, was: Version, now: Version, digit: char -> bool, i: nat)
    requires Moves(was, now, digit) && Fenced(before, after)
    requires Clean(before + Minor(was.minor) + after, was.Text(), digit)
    requires |before| + |Minor(now.minor)| <= i < |before + Minor(now.minor) + after|
    ensures MatchAt(before + Minor(now.minor) + after, i, was.Text(), digit).None?
  {
    hide StandsAt;
    var text, out := before + Minor(was.minor) + after, before + Minor(now.minor) + after;
    var end := |before| + |Minor(now.minor)|;
    if i == end {
      assert out[i] == after[0];
      MatchBeginsWithLetterOrDigit(out, i, was, digit);
    } else {
      var j := i - end + |before| + |Minor(was.minor)|;
      assert out[i..] == after[i - end..] == text[j..];
      assert out[i - 1] == after[i - 1 - end] == text[j - 1];
      MatchShift(out, text, i, j, was.Text(), digit);
    }
  }

  // ---------------------------------------------------------------- whole passes

  /** Writing `replacement` in place of `pattern` once, anywhere, keeps `g`. */
  ghost predicate KeptBy(g: string -> bool, pattern: string, replacement: string) {
    forall before, after :: g(before + pattern + after) ==> g(before + replacement + after)
  }

  /** So does a pass of literal replacements. */
  lemma {:induction false} ReplaceKeeps(g: string -> bool, done: string, text: string, i: nat, pattern: string,
                                        replacement: string)
    requires pattern != "" && i <= |text| && KeptBy(g, pattern, replacement) && g(done + text[i..])
    ensures g(done + ReplaceAll(text, i, pattern, replacement))
    decreases |text| - i
  {
    if i == |text| {
      assert text[i..] == "";
    } else if FoundAt(text, i, pattern) {
      var k := i + |pattern|;
      CutTwice(text, i, k, k);
      assert text[i..] == pattern + text[k..];
      ConcatAssociative(done, pattern, text[k..], "");
      ReplaceKeeps(g, done + replacement, text, k, pattern, replacement);
      ConcatAssociative(done, replacement, ReplaceAll(text, k, pattern, replacement), "");
    } else {
      assert text[i..] == [text[i]] + text[i + 1..];
      ConcatAssociative(done, [text[i]], text[i + 1..], "");
      ReplaceKeeps(g, done + [text[i]], text, i + 1, pattern, replacement);
      ConcatAssociative(done, [text[i]], ReplaceAll(text, i + 1, pattern, replacement), "");
    }
  }

  lemma PassKeeps(g: string -> bool, text: string, pattern: string, replacement: string)
    requires pattern != "" && KeptBy(g, pattern, replacement) && g(text)
    ensures g(ReplaceAll(text, 0, pattern, replacement))
  {
    hide KeptBy;
    var r := ReplaceAll(text, 0, pattern, replacement);
    assert "" + text[0..] == text && "" + r == r;
    ReplaceKeeps(g, "", text, 0, pattern, replacement);
  }

  /** A marker with some white space in front of its quoted minor. */
  function Marked(gap: string, minor: string): string {
    MARKER + gap + "\"" + minor + "\""
  }

  ghost predicate Gap(gap: string, space: char -> bool) {
    forall c :: c in gap ==> space(c)
  }

  ghost predicate MarkersKept(g: string -> bool, was: string, now: string, space: char -> bool) {
    forall gap :: Gap(gap, space) ==> KeptBy(g, Marked(gap, was), Marked(gap, now))
  }

  /** What a marker that is found looks like. */
  lemma MarkerIsMarked(text: string, i: nat, quote: nat, minor: string, space: char -> bool)
    requires i < |text| && MarkerAt(text, i, minor, space) == Some(quote)
    ensures var gap, k := text[i + |MARKER|..quote], quote + |minor| + 2;
            && Gap(gap, space) && k <= |text| && text[i..quote] == MARKER + gap
            && text[i..] == Marked(gap, minor) + text[k..] && text[i..k] == Marked(gap, minor)
  {
    var gap, k := text[i + |MARKER|..quote], quote + |minor| + 2;
    CutTwice(text, i, i + |MARKER|, quote);
    CutTwice(text, quote, k, k);
    assert text[i..quote] == text[i..i + |MARKER|] + gap;
    assert text[quote..k] == "\"" + minor + "\"";
    assert text[i..k] == text[i..quote] + text[quote..k];
    assert text[i..] == text[i..k] + text[k..];
    assert MARKER + gap + ("\"" + minor + "\"") == Marked(gap, minor);
  }

  lemma MarkersStep(text: string, i: nat, was: string, now: string, space: char -> bool)
    requires i <= |text|
    ensures i == |text| ==> ReplaceMarkers(text, i, was, now, space) == ""
    ensures i < |text| ==>
              match MarkerAt(text, i, was, space)
              case Some(quote) =>
                quote + |was| + 2 <= |text| &&
                ReplaceMarkers(text, i, was, now, space)
                == text[i..quote] + ("\"" + now + "\"") + ReplaceMarkers(text, quote + |was| + 2, was, now, space)
              case None =>
                ReplaceMarkers(text, i, was, now, space) == [text[i]] + ReplaceMarkers(text, i + 1, was, now, space)
  {
    hide SkipSpace;
  }

  lemma {:induction false} MarkersKeep(g: string -> bool, done: string, text: string, i: nat, was: string, now: string,
                                       space: char -> bool)
    requires i <= |text| && MarkersKept(g, was, now, space) && g(done + text[i..])
    ensures g(done + ReplaceMarkers(text, i, was, now, space))
    decreases |text| - i
  {
    hide MarkerAt, Marked, Gap, MarkersKept, ReplaceMarkers;
    MarkersStep(text, i, was, now, space);
    if i == |text| {
      assert text[i..] == "";
    } else {
      match MarkerAt(text, i, was, space)
      case Some(quote) =>
        var k, gap := quote + |was| + 2, text[i + |MARKER|..quote];
        var tail := ReplaceMarkers(text, k, was, now, space);
        MarkerIsMarked(text, i, quote, was, space);
        ConcatAssociative(done, Marked(gap, was), text[k..], "");
        MarkerKept(g, done, gap, text[k..], was, now, space);
        MarkersKeep(g, done + Marked(gap, now), text, k, was, now, space);
        MarkerRegroup(done, text[i..quote], gap, now, tail);
      case None =>
        assert text[i..] == [text[i]] + text[i + 1..];
        ConcatAssociative(done, [text[i]], text[i + 1..], "");
        MarkersKeep(g, done + [text[i]], text, i + 1, was, now, space);
        ConcatAssociative(done, [text[i]], ReplaceMarkers(text, i + 1, was, now, space), "");
    }
  }

  lemma MarkerKept(g: string -> bool, before: string, gap: string, after: string, was: string, now: string, space: char -> bool)
    requires MarkersKept(g, was, now, space) && Gap(gap, space) && g(before + Marked(gap, was) + after)
    ensures g(before + Marked(gap, now) + after)
  {
    hide Marked, Gap;
    assert KeptBy(g, Marked(gap, was), Marked(gap, now));
  }

  lemma MarkerRegroup(done: string, head: string, gap: string, n: string, tail: string)
    requires head == MARKER + gap
    ensures done + Marked(gap, n) + tail == done + (head + ("\"" + n + "\"") + tail)
  {
    assert Marked(gap, n) == head + ("\"" + n + "\"");
  }

  // ---------------------------------------------------------------- and the old version

  /** One rewritten place in a text. */
  lemma FencedStep(done: string, left: string, right: string, rest: string, was: Version, now: Version, digit: char -> bool)
    requires Moves(was, now, digit) && Fenced(left, right)
    requires Clean(done + (left + Minor(was.minor) + right) + rest, was.Text(), digit)
    ensures Clean(done + (left + Minor(now.minor) + right) + rest, was.Text(), digit)
  {
    hide Clean, Moves, Version.Text;
    Regroup(done, left, Minor(was.minor), right, rest);
    Regroup(done, left, Minor(now.minor), right, rest);
    assert (done + left)[|done + left| - 1] == left[|left| - 1];
    MinorSwapClean(done + left, right + rest, was, now, digit);
  }

  lemma Regroup(done: string, left: string, middle: string, right: string, rest: string)
    ensures done + (left + middle + right) + rest == done + left + middle + (right + rest)
  {
  }

  lemma FencedIsKept(left: string, right: string, was: Version, now: Version, digit: char -> bool)
    requires Moves(was, now, digit) && Fenced(left, right)
    ensures KeptBy((s: string) => Clean(s, was.Text(), digit), left + Minor(was.minor) + right, left + Minor(now.minor) + right)
  {
    hide Clean, Moves, Fenced, Minor, Version.Text;
    forall before, after | Clean(before + (left + Minor(was.minor) + right) + after, was.Text(), digit)
      ensures Clean(before + (left + Minor(now.minor) + right) + after, was.Text(), digit)
    {
      FencedStep(before, left, right, after, was, now, digit);
    }
  }

  /** A pass over a fenced pattern keeps a text free of the old version. */
  lemma ReplaceStaysClean(text: string, left: string, right: string, was: Version, now: Version, digit: char -> bool)
    requires Moves(was, now, digit) && Fenced(left, right)
    requires Clean(text, was.Text(), digit)
    ensures Clean(ReplaceAll(text, 0, left + Minor(was.minor) + right, left + Minor(now.minor) + right), was.Text(), digit)
  {
    hide Clean, Fenced, Moves, KeptBy, Version.Text;
    FencedIsKept(left, right, was, now, digit);
    PassKeeps((s: string) => Clean(s, was.Text(), digit), text, left + Minor(was.minor) + right, left + Minor(now.minor) + right);
  }

  /** And so do the marker rewrites. */
  lemma MarkersStayClean(text: string, was: Version, now: Version, digit: char -> bool, space: char -> bool)
    requires Moves(was, now, digit) && Clean(text, was.Text(), digit)
    ensures Clean(CurrentMinorMarkers(text, Minor(was.minor), Minor(now.minor), space), was.Text(), digit)
  {
    hide Clean, ReplaceMarkers, ReplaceAll, KeptBy, Version.Text, Moves;
    var m, n := Minor(was.minor), Minor(now.minor);
    var marked := ReplaceMarkers(text, 0, m, n, space);
    var clean := (s: string) => Clean(s, was.Text(), digit);
    forall gap | Gap(gap, space) ensures KeptBy(clean, Marked(gap, m), Marked(gap, n)) {
      MarkedIsKept(gap, was, now, digit);
    }
    assert "" + text[0..] == text && "" + marked == marked;
    MarkersKeep(clean, "", text, 0, m, n, space);
    ReplaceStaysClean(marked, "**Current ", " boundary:", was, now, digit);
    assert was.minor != now.minor by { MinorsDiffer(was, now, digit); }
    assert m[2..] == was.minor && n[2..] == now.minor;
  }

  lemma MinorsDiffer(was: Version, now: Version, digit: char -> bool)
    requires Moves(was, now, digit)
    ensures was.minor != now.minor
  {
  }

  lemma MarkedIsKept(gap: string, was: Version, now: Version, digit: char -> bool)
    requires Moves(was, now, digit)
    ensures KeptBy((s: string) => Clean(s, was.Text(), digit), Marked(gap, Minor(was.minor)), Marked(gap, Minor(now.minor)))
  {
    hide Clean, Moves, KeptBy, Minor, Version.Text;
    FencedIsKept(MARKER + gap + "\"", "\"", was, now, digit);
  }
}
