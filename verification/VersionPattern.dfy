/**
 The guarded pattern of the release script's version rewriter: leftmost matches of the old
 version, with an optional `v` in front, between boundaries. `digit` is the Unicode class `\d`.
 */
module VersionPattern {
  import opened PyText

  // ---------------------------------------------------------------- versions

  predicate Numeral(s: string) {
    s != "" && (forall c :: c in s ==> AsciiDigit(c)) && (s[0] == '0' ==> s == "0")
  }

  /** Python's decimal digits: the ASCII ones, and others outside ASCII. */
  ghost predicate Digits(digit: char -> bool) {
    && (forall c :: AsciiDigit(c) ==> digit(c))
    && (forall c :: digit(c) ==> AsciiDigit(c) || c as int >= 0x80)
  }

  /** The part `0|[1-9]\d*` of the argument check. */
  ghost predicate AdmittedNumeral(s: string, digit: char -> bool) {
    s == "0" || (s != "" && '1' <= s[0] <= '9' && forall c :: c in s ==> digit(c))
  }

  function Minor(minor: string): string {
    "0." + minor
  }

  /** A version `0.minor.patch`. */
  datatype Version = Version(minor: string, patch: string) {
    /** Canonical, in ASCII digits. */
    ghost predicate Valid() {
      Numeral(minor) && Numeral(patch)
    }

    /** What the argument check lets through. */
    ghost predicate Admitted(digit: char -> bool) {
      AdmittedNumeral(minor, digit) && AdmittedNumeral(patch, digit)
    }

    function Text(): string {
      Minor(minor) + "." + patch
    }
  }

  // ---------------------------------------------------------------- the guarded pattern

  predicate Alnum(c: char) {
    'A' <= c <= 'Z' || 'a' <= c <= 'z' || '0' <= c <= '9'
  }

  /** The lookahead `(?![A-Za-z0-9_+-]|\.\d)` at position `end`. */
  predicate Ends(text: string, end: nat, digit: char -> bool)
    requires end <= |text|
  {
    end == |text| || (
      && !Alnum(text[end]) && text[end] != '_' && text[end] != '+' && text[end] != '-'
      && !(text[end] == '.' && end + 1 < |text| && digit(text[end + 1])))
  }

  /** `word` stands at `start` and the lookahead holds behind it. */
  predicate StandsAt(text: string, start: nat, word: string, digit: char -> bool) {
    && start + |word| <= |text|
    && text[start..start + |word|] == word
    && Ends(text, start + |word|, digit)
  }

  /** The pattern at position `i`: the length of its optional `v` prefix, or no match. */
  function MatchAt(text: string, i: nat, word: string, digit: char -> bool): (r: Option<nat>)
    requires i < |text|
    ensures r.Some? ==> r.value <= 1 && StandsAt(text, i + r.value, word, digit)
    ensures r == Some(1) ==> text[i] == 'v'
  {
    if i > 0 && Alnum(text[i - 1]) then None
    else if text[i] == 'v' && StandsAt(text, i + 1, word, digit) then Some(1)
    else if StandsAt(text, i, word, digit) then Some(0)
    else None
  }

  /** No bounded occurrence of `word` is left anywhere in the text. */
  ghost predicate Clean(text: string, word: string, digit: char -> bool) {
    CleanBefore(text, |text|, word, digit)
  }

  /** No match begins before `limit`. */
  ghost predicate CleanBefore(text: string, limit: nat, word: string, digit: char -> bool) {
    forall i :: 0 <= i < limit && i < |text| ==> MatchAt(text, i, word, digit).None?
  }

  /** `pattern.sub` from position `i` on: leftmost matches, resuming behind each one. */
  function Substitute(text: string, i: nat, was: string, now: string, digit: char -> bool): string
    requires i <= |text| && was != ""
    decreases |text| - i
  {
    if i == |text| then ""
    else
      match MatchAt(text, i, was, digit)
      case Some(prefix) =>
        text[i..i + prefix] + now + Substitute(text, i + prefix + |was|, was, now, digit)
      case None => [text[i]] + Substitute(text, i + 1, was, now, digit)
  }

  // ---------------------------------------------------------------- what the shapes force

  /** A version's dots and digits, by position. */
  lemma VersionShape(v: Version)
    requires v.Valid()
    ensures var t := v.Text();
            && |t| == 3 + |v.minor| + |v.patch|
            && (forall k :: 0 <= k < |t| ==> t[k] == '.' || AsciiDigit(t[k]))
            && (forall k :: 0 <= k < |t| ==> (t[k] == '.' <==> k == 1 || k == 2 + |v.minor|))
            && t[0] == '0'
  {
    var t, m := v.Text(), |v.minor|;
    forall k | 0 <= k < |t|
      ensures t[k] == '.' || AsciiDigit(t[k])
      ensures t[k] == '.' <==> k == 1 || k == 2 + m
    {
      if 2 <= k < 2 + m {
        assert t[k] == v.minor[k - 2] && v.minor[k - 2] in v.minor;
      } else if k >= 3 + m {
        assert t[k] == v.patch[k - 3 - m] && v.patch[k - 3 - m] in v.patch;
      }
    }
  }

  lemma ValidIsAdmitted(v: Version, digit: char -> bool)
    requires v.Valid() && Digits(digit)
    ensures v.Admitted(digit)
  {
    assert v.minor[0] in v.minor && v.patch[0] in v.patch;
  }

  /** The same for any admitted version. */
  lemma AdmittedShape(v: Version, digit: char -> bool)
    requires v.Admitted(digit) && Digits(digit)
    ensures var t := v.Text();
            && |t| == 3 + |v.minor| + |v.patch|
            && (forall k :: 0 <= k < |t| ==> t[k] == '.' || digit(t[k]))
            && (forall k :: 0 <= k < |t| ==> (t[k] == '.' <==> k == 1 || k == 2 + |v.minor|))
            && t[0] == '0'
  {
    var t, m := v.Text(), |v.minor|;
    forall k | 0 <= k < |t|
      ensures t[k] == '.' || digit(t[k])
      ensures t[k] == '.' <==> k == 1 || k == 2 + m
    {
      if 2 <= k < 2 + m {
        assert t[k] == v.minor[k - 2] && v.minor[k - 2] in v.minor;
      } else if k >= 3 + m {
        assert t[k] == v.patch[k - 3 - m] && v.patch[k - 3 - m] in v.patch;
      }
    }
  }

  lemma VersionParts(v: Version)
    ensures var t := v.Text();
            && |t| == 3 + |v.minor| + |v.patch|
            && t[2..2 + |v.minor|] == v.minor
            && t[3 + |v.minor|..] == v.patch
  {
    var t := v.Text();
    assert t == "0." + (v.minor + ("." + v.patch));
    assert t == ("0." + v.minor + ".") + v.patch;
  }

  lemma TextInjective(a: Version, b: Version, digit: char -> bool)
    requires a.Admitted(digit) && b.Admitted(digit) && Digits(digit) && a.Text() == b.Text()
    ensures a == b
  {
    AdmittedShape(a, digit);
    AdmittedShape(b, digit);
    var t := a.Text();
    assert t[2 + |a.minor|] == '.';
    assert |a.minor| == |b.minor|;
    VersionParts(a);
    VersionParts(b);
  }

  /** A decimal digit the lookahead lets through. */
  predicate Foreign(c: char) {
    c != '.' && !AsciiDigit(c)
  }

  /** A word can end strictly inside a version only in front of a foreign digit. */
  lemma EndsBeforeForeign(text: string, start: nat, v: Version, k: nat, digit: char -> bool)
    requires v.Admitted(digit) && Digits(digit) && 1 <= k < |v.Text()|
    requires start + |v.Text()| <= |text| && text[start..start + |v.Text()|] == v.Text()
    ensures Ends(text, start + k, digit) ==> Foreign(v.Text()[k])
  {
    AdmittedShape(v, digit);
    var t := v.Text();
    assert text[start + k] == t[k];
    if t[k] == '.' {
      assert text[start + k + 1] == t[k + 1] && digit(t[k + 1]);
    }
  }

  /** A version that starts before another one and covers it would have a dot too many. */
  lemma NoProperCover(outer: Version, inner: Version, z: nat, digit: char -> bool)
    requires outer.Admitted(digit) && inner.Admitted(digit) && Digits(digit)
    requires 1 <= z && z + |inner.Text()| <= |outer.Text()|
    ensures outer.Text()[z..z + |inner.Text()|] != inner.Text()
  {
    AdmittedShape(outer, digit);
    AdmittedShape(inner, digit);
    var o, n := outer.Text(), inner.Text();
    var covered := o[z..z + |n|];
    assert covered[1] == o[z + 1] && covered[2 + |inner.minor|] == o[z + 2 + |inner.minor|];
  }

  /** `text` begins with `word` and goes on with a digit the lookahead lets through. */
  predicate Continues(text: string, word: string) {
    |word| < |text| && text[..|word|] == word && Foreign(text[|word|])
  }

  /**
   The new version brings the old one back: it begins with it, or, behind a `0.` that is already there, with the rest
   of it, and a digit outside ASCII follows.
   */
  predicate Exposes(now: Version, was: Version) {
    || Continues(now.Text(), was.Text())
    || (was.minor == "0" && Continues(now.Text(), Minor(was.patch)))
  }

  /** Versions in ASCII digits never do that. */
  lemma ValidNeverExposes(now: Version, was: Version)
    requires now.Valid()
    ensures !Exposes(now, was)
  {
    VersionShape(now);
  }

  /** The replaced text: what stood before the hit, its prefix, and the new version. */
  function Patched(before: string, prefix: string, v: Version, after: string): string {
    before + prefix + v.Text() + after
  }

  /** A hit at `|before|`, the first one in the text. */
  ghost predicate FirstHit(before: string, prefix: string, was: Version, after: string, digit: char -> bool) {
    && (prefix == "" || prefix == "v")
    && (before == "" || !Alnum(before[|before| - 1]))
    && CleanBefore(Patched(before, prefix, was, after), |before|, was.Text(), digit)
    && Ends(Patched(before, prefix, was, after), |before| + |prefix| + |was.Text()|, digit)
  }

  /** The versions of a rewrite: the current one in ASCII, and another one that does not bring it back. */
  ghost predicate Replaces(was: Version, now: Version, digit: char -> bool) {
    Digits(digit) && was.Valid() && now.Admitted(digit) && was != now && !Exposes(now, was)
  }

  /** Replacing the first hit leaves no match that begins before the end of the new version. */
  lemma HitCleans(before: string, prefix: string, after: string, was: Version, now: Version, digit: char -> bool)
    requires Replaces(was, now, digit) && FirstHit(before, prefix, was, after, digit)
    ensures CleanBefore(Patched(before, prefix, now, after), |before| + |prefix| + |now.Text()|, was.Text(), digit)
  {
    forall i | 0 <= i < |before| + |prefix| + |now.Text()|
      ensures MatchAt(Patched(before, prefix, now, after), i, was.Text(), digit).None?
    {
      HitCleansAt(before, prefix, after, was, now, digit, i);
    }
  }

  lemma HitCleansAt(before: string, prefix: string, after: string, was: Version, now: Version,
                    digit: char -> bool, i: nat)
    requires Replaces(was, now, digit) && FirstHit(before, prefix, was, after, digit)
    requires i < |before| + |prefix| + |now.Text()|
    ensures MatchAt(Patched(before, prefix, now, after), i, was.Text(), digit).None?
  {
    hide StandsAt, FirstHit, Exposes;
    var out := Patched(before, prefix, now, after);
    var start, w, n := |before| + |prefix|, was.Text(), now.Text();
    assert i < |before| ==> out[i] == before[i];
    if i + 1 + |w| <= |before| {
      SameInFront(before, prefix, after, was, now, digit, i);
    } else {
      AdmittedShape(now, digit);
      assert i >= start ==> out[i] == n[i - start] != 'v';
      assert i > start ==> out[i - 1] == n[i - 1 - start];
      if out[i] == 'v' {
        NoStandNear(before, prefix, after, was, now, digit, i + 1);
      }
      if i + |w| <= |before| {
        SameInFront(before, prefix, after, was, now, digit, i);
        assert i > 0 ==> out[i - 1] == before[i - 1];
      } else if i <= start || !Alnum(n[i - start - 1]) {
        NoStandNear(before, prefix, after, was, now, digit, i);
      }
    }
  }

  /** The old version cannot stand across the hit's edges, nor inside it behind a boundary. */
  lemma NoStandNear(before: string, prefix: string, after: string, was: Version, now: Version,
                    digit: char -> bool, s: nat)
    requires Replaces(was, now, digit) && FirstHit(before, prefix, was, after, digit)
    requires |before| < s + |was.Text()| && s < |before| + |prefix| + |now.Text()|
    requires s > |before| + |prefix| ==> !Alnum(now.Text()[s - |before| - |prefix| - 1])
    ensures !StandsAt(Patched(before, prefix, now, after), s, was.Text(), digit)
  {
    var out, start := Patched(before, prefix, now, after), |before| + |prefix|;
    assert out[start..start + |now.Text()|] == now.Text();
    if s >= start {
      InsideTheHit(before, prefix, after, was, now, digit, s);
    } else if prefix == "v" {
      assert out[|before|] == 'v';
      NoLetterInside(out, was, digit, s, |before|);
    } else {
      assert out[start - 1] == before[|before| - 1];
      CoversTheHit(out, start, was, now, digit, s);
    }
  }

  /** A match wholly in front of the hit would have been there before. */
  lemma SameInFront(before: string, prefix: string, after: string, was: Version, now: Version,
                    digit: char -> bool, i: nat)
    requires was.Valid() && now.Admitted(digit) && Digits(digit)
    requires FirstHit(before, prefix, was, after, digit)
    requires i + |was.Text()| <= |before|
    ensures i + 1 + |was.Text()| <= |before| ==>
              MatchAt(Patched(before, prefix, now, after), i, was.Text(), digit).None?
    ensures !StandsAt(Patched(before, prefix, now, after), i, was.Text(), digit)
            || (i > 0 && Alnum(before[i - 1]))
  {
    var text, out := Patched(before, prefix, was, after), Patched(before, prefix, now, after);
    var w := was.Text();
    VersionShape(was);
    AdmittedShape(now, digit);
    assert MatchAt(text, i, w, digit).None?;
    hide CleanBefore, Version.Text;
    assert forall k :: 0 <= k <= |before| ==> text[k] == out[k];
    assert text[|before|] == 'v' || text[|before|] == '0';
    assert text[i..i + |w|] == out[i..i + |w|];
    hide Patched;
    assert StandsAt(out, i, w, digit) ==> StandsAt(text, i, w, digit);
    if i + 1 + |w| <= |before| {
      assert text[i + 1..i + 1 + |w|] == out[i + 1..i + 1 + |w|];
      assert StandsAt(out, i + 1, w, digit) ==> StandsAt(text, i + 1, w, digit);
    }
  }

  /** No version extends over a `v`. */
  lemma NoLetterInside(out: string, was: Version, digit: char -> bool, s: nat, q: nat)
    requires was.Valid() && s <= q < s + |was.Text()| && q < |out| && out[q] == 'v'
    ensures !StandsAt(out, s, was.Text(), digit)
  {
    VersionShape(was);
    var w := was.Text();
    if s + |w| <= |out| {
      assert out[s..s + |w|][q - s] == 'v' != w[q - s];
    }
  }

  /** A word that begins in front of the new version cannot reach into it. */
  lemma CoversTheHit(out: string, start: nat, was: Version, now: Version, digit: char -> bool, s: nat)
    requires Replaces(was, now, digit)
    requires start + |now.Text()| <= |out| && out[start..start + |now.Text()|] == now.Text()
    requires s < start < s + |was.Text()| && !Alnum(out[start - 1])
    ensures !StandsAt(out, s, was.Text(), digit)
  {
    hide Ends, Exposes, Foreign, Version.Text;
    var w, n := was.Text(), now.Text();
    ValidIsAdmitted(was, digit);
    if s + |w| < start + |n| {
      if out[s..s + |w|] == w && Ends(out, s + |w|, digit) {
        CutInside(out, start, was, now, digit, s);
      }
    } else if s + |w| <= |out| {
      NoProperCover(was, now, start - s, digit);
      SliceOfSlice(out, s, s + |w|, start - s, start - s + |n|);
      assert out[s..s + |w|][start - s..start - s + |n|] == n;
    }
  }

  lemma CutInside(out: string, start: nat, was: Version, now: Version, digit: char -> bool, s: nat)
    requires was.Valid() && now.Admitted(digit) && Digits(digit)
    requires start + |now.Text()| <= |out| && out[start..start + |now.Text()|] == now.Text()
    requires s < start < s + |was.Text()| < start + |now.Text()| && !Alnum(out[start - 1])
    requires out[s..s + |was.Text()|] == was.Text() && Ends(out, s + |was.Text()|, digit)
    ensures Exposes(now, was)
  {
    hide Ends, Exposes, Foreign, Version.Text;
    var w, n, k := was.Text(), now.Text(), s + |was.Text()| - start;
    EndsBeforeForeign(out, start, now, k, digit);
    assert w[start - 1 - s] == out[s..s + |w|][start - 1 - s] == out[start - 1];
    SliceOfSlice(out, s, s + |w|, start - s, |w|);
    SliceOfSlice(out, start, start + |n|, 0, k);
    assert w[start - s..] == w[start - s..|w|] && n[..k] == n[0..k];
    TailExposes(was, now, start - s, digit);
  }

  /** Only the rest behind a leading `0.` can be a beginning of the new version. */
  lemma TailExposes(was: Version, now: Version, d: nat, digit: char -> bool)
    requires was.Valid() && now.Admitted(digit) && Digits(digit)
    requires 1 <= d < |was.Text()| && !Alnum(was.Text()[d - 1])
    requires |was.Text()| - d < |now.Text()| && was.Text()[d..] == now.Text()[..|was.Text()| - d]
    requires Foreign(now.Text()[|was.Text()| - d])
    ensures Exposes(now, was)
  {
    VersionShape(was);
    AdmittedShape(now, digit);
    VersionParts(was);
    var w, n := was.Text(), now.Text();
    assert w[d] == w[d..][0] == n[0] && n[1] == '.';
    assert d == 2 || d == 3 + |was.minor|;
    assert w[3 + |was.minor|] == was.patch[0] && (was.patch[0] == '0' ==> |was.patch| == 1);
    assert d == 2 && w[2] == was.minor[0];
    assert w[2..] == Minor(was.patch);
  }

  /** A word that begins at the hit, or inside it, ends inside, runs on, or has too few dots. */
  lemma InsideTheHit(before: string, prefix: string, after: string, was: Version, now: Version,
                     digit: char -> bool, s: nat)
    requires Replaces(was, now, digit) && FirstHit(before, prefix, was, after, digit)
    requires |before| + |prefix| <= s < |before| + |prefix| + |now.Text()|
    ensures !StandsAt(Patched(before, prefix, now, after), s, was.Text(), digit)
  {
    hide FirstHit, StandsAt, Replaces;
    var out := Patched(before, prefix, now, after);
    var start, w, n := |before| + |prefix|, was.Text(), now.Text();
    assert out[start..start + |n|] == n;
    hide Patched;
    if s + |w| > start + |n| {
      assert Digits(digit) && was.Valid() by { OfReplaces(was, now, digit); }
      RunsPast(before, prefix, after, was, now, digit, s);
    } else {
      WithinTheHit(out, start, was, now, digit, s);
    }
  }

  lemma OfReplaces(was: Version, now: Version, digit: char -> bool)
    requires Replaces(was, now, digit)
    ensures Digits(digit) && was.Valid()
  {
  }

  lemma WithinTheHit(out: string, start: nat, was: Version, now: Version, digit: char -> bool, s: nat)
    requires Replaces(was, now, digit)
    requires start + |now.Text()| <= |out| && out[start..start + |now.Text()|] == now.Text()
    requires start <= s && s + |was.Text()| <= start + |now.Text()|
    ensures !StandsAt(out, s, was.Text(), digit)
  {
    hide Ends, Foreign, Digits, Version.Text;
    var w, n, z := was.Text(), now.Text(), s - start;
    ValidIsAdmitted(was, digit);
    SliceOfSlice(out, start, start + |n|, z, z + |w|);
    assert start + z == s && out[s..s + |w|] == n[z..z + |w|];
    if z > 0 {
      NoProperCover(now, was, z, digit);
    } else if |w| < |n| {
      assert |w| >= 1 by { VersionShape(was); }
      EndsBeforeForeign(out, start, now, |w|, digit);
    } else {
      assert n[0..|w|] == n;
      if w == n {
        TextInjective(was, now, digit);
      }
    }
  }

  /** The text behind the hit still refuses to continue a version. */
  lemma RunsPast(before: string, prefix: string, after: string, was: Version, now: Version,
                 digit: char -> bool, s: nat)
    requires was.Valid() && Digits(digit)
    requires FirstHit(before, prefix, was, after, digit)
    requires var end := |before| + |prefix| + |now.Text()|;
             |before| + |prefix| <= s < end < s + |was.Text()|
    ensures !StandsAt(Patched(before, prefix, now, after), s, was.Text(), digit)
  {
    var text, out := Patched(before, prefix, was, after), Patched(before, prefix, now, after);
    var start, w, n := |before| + |prefix|, was.Text(), now.Text();
    var j := start + |n| - s;
    assert Ends(text, start + |w|, digit);
    hide FirstHit, CleanBefore;
    assert text[start + |w|..] == after && out[start + |n|..] == after;
    assert |text| == start + |w| + |after| && |out| == start + |n| + |after|;
    hide Patched;
    if s + |w| <= |out| {
      var here := out[s..s + |w|];
      VersionShape(was);
      assert here[j] == out[start + |n|] == after[0] == text[start + |w|];
      assert AsciiDigit(w[j]) || (w[j] == '.' && j + 1 < |w| && AsciiDigit(w[j + 1]));
      assert j + 1 < |w| ==> here[j + 1] == out[start + |n| + 1] == after[1] == text[start + |w| + 1];
    }
  }

  // ---------------------------------------------------------------- the whole substitution

  /** Whether a match begins somewhere depends on the character before it and the text from there on. */
  lemma MatchShift(a: string, b: string, i: nat, j: nat, word: string, digit: char -> bool)
    requires i < |a| && j < |b| && a[i..] == b[j..]
    requires (i > 0 && Alnum(a[i - 1])) == (j > 0 && Alnum(b[j - 1]))
    ensures MatchAt(a, i, word, digit) == MatchAt(b, j, word, digit)
  {
    hide StandsAt;
    assert a[i] == a[i..][0] == b[j..][0] == b[j];
    assert |a| - i == |a[i..]| == |b[j..]| == |b| - j;
    StandsShift(a, b, i, j, 0, word, digit);
    StandsShift(a, b, i, j, 1, word, digit);
  }

  lemma StandsShift(a: string, b: string, i: nat, j: nat, d: nat, word: string, digit: char -> bool)
    requires i + d <= |a| && j + d <= |b| && a[i..] == b[j..]
    ensures StandsAt(a, i + d, word, digit) == StandsAt(b, j + d, word, digit)
  {
    assert |a| - i == |a[i..]| == |b[j..]| == |b| - j;
    assert forall k :: 0 <= k < |a| - i ==> a[i + k] == a[i..][k] == b[j..][k] == b[j + k];
    if i + d + |word| <= |a| {
      assert a[i + d..i + d + |word|] == b[j + d..j + d + |word|];
    }
  }

  /**
   The scan's invariant: `done` is rewritten, nothing that begins in it matches, and it borders like the original,
   unless what comes next cannot begin a match anyway.
   */
  ghost predicate Scanned(done: string, text: string, i: nat, was: Version, digit: char -> bool)
    requires i <= |text|
  {
    && CleanBefore(done + text[i..], |done|, was.Text(), digit)
    && (i < |text| && Alnum(text[i]) ==>
          (done != "" && Alnum(done[|done| - 1])) == (i > 0 && Alnum(text[i - 1])))
  }

  lemma {:induction false} SubstituteCleans(done: string, text: string, i: nat, was: Version, now: Version,
                                            digit: char -> bool)
    requires Replaces(was, now, digit)
    requires i <= |text| && Scanned(done, text, i, was, digit)
    ensures Clean(done + Substitute(text, i, was.Text(), now.Text(), digit), was.Text(), digit)
    decreases |text| - i
  {
    hide MatchAt, Scanned, Replaces, Substitute, Pieces, Clean;
    var w, n := was.Text(), now.Text();
    ScanStep(text, i, w, n, digit);
    if i == |text| {
      assert Scanned(done, text, i, was, digit);
      ScanEnd(done, text, was, digit);
      assert done + "" == done;
    } else {
      match MatchAt(text, i, w, digit)
      case Some(p) =>
        ScanHit(done, text, i, p, was, now, digit);
        SubstituteCleans(done + text[i..i + p] + n, text, i + p + |w|, was, now, digit);
        var prefix, rest := text[i..i + p], Substitute(text, i + p + |w|, w, n, digit);
        ConcatAssociative(done, prefix, n, rest);
      case None =>
        ScanMiss(done, text, i, was, now, digit);
        SubstituteCleans(done + [text[i]], text, i + 1, was, now, digit);
        var rest := Substitute(text, i + 1, w, n, digit);
        ConcatAssociative(done, [text[i]], rest, "");
    }
  }

  lemma ScanEnd(done: string, text: string, was: Version, digit: char -> bool)
    requires Scanned(done, text, |text|, was, digit)
    ensures Clean(done, was.Text(), digit)
  {
    assert done + text[|text|..] == done;
  }

  /** A match begins with a letter or digit. */
  lemma MatchIsAlnum(text: string, i: nat, was: Version, digit: char -> bool)
    requires i < |text| && was.Valid() && MatchAt(text, i, was.Text(), digit).Some?
    ensures Alnum(text[i]) && (i > 0 ==> !Alnum(text[i - 1]))
  {
    VersionShape(was);
    var w := was.Text();
    if text[i] != 'v' {
      assert text[i] == text[i..i + |w|][0];
    }
  }

  lemma ScanMiss(done: string, text: string, i: nat, was: Version, now: Version, digit: char -> bool)
    requires Replaces(was, now, digit)
    requires i < |text| && Scanned(done, text, i, was, digit) && MatchAt(text, i, was.Text(), digit).None?
    ensures Scanned(done + [text[i]], text, i + 1, was, digit)
  {
    hide MatchAt, Exposes;
    var whole := done + text[i..];
    assert whole == done + [text[i]] + text[i + 1..];
    assert whole[|done|..] == text[i..] && whole[|done|] == text[i];
    if Alnum(text[i]) {
      MatchShift(whole, text, |done|, i, was.Text(), digit);
    } else if MatchAt(whole, |done|, was.Text(), digit).Some? {
      MatchIsAlnum(whole, |done|, was, digit);
    }
  }

  lemma ScanHit(done: string, text: string, i: nat, p: nat, was: Version, now: Version, digit: char -> bool)
    requires Replaces(was, now, digit)
    requires i < |text| && Scanned(done, text, i, was, digit) && MatchAt(text, i, was.Text(), digit) == Some(p)
    ensures i + p + |was.Text()| <= |text|
    ensures Scanned(done + text[i..i + p] + now.Text(), text, i + p + |was.Text()|, was, digit)
  {
    hide MatchAt, CleanBefore, Replaces;
    ScanHitClean(done, text, i, p, was, now, digit);
    assert StandsAt(text, i + p, was.Text(), digit);
  }

  lemma ScanHitClean(done: string, text: string, i: nat, p: nat, was: Version, now: Version, digit: char -> bool)
    requires Replaces(was, now, digit)
    requires i < |text| && Scanned(done, text, i, was, digit) && MatchAt(text, i, was.Text(), digit) == Some(p)
    ensures i + p + |was.Text()| <= |text|
    ensures var done' := done + text[i..i + p] + now.Text();
            CleanBefore(done' + text[i + p + |was.Text()|..], |done'|, was.Text(), digit)
  {
    hide MatchAt, Ends, FirstHit, CleanBefore, Exposes;
    HitFound(done, text, i, p, was, digit);
    HitCleans(done, text[i..i + p], text[i + p + |was.Text()|..], was, now, digit);
  }

  lemma HitFound(done: string, text: string, i: nat, p: nat, was: Version, digit: char -> bool)
    requires was.Valid()
    requires i < |text| && Scanned(done, text, i, was, digit) && MatchAt(text, i, was.Text(), digit) == Some(p)
    ensures i + p + |was.Text()| <= |text|
    ensures FirstHit(done, text[i..i + p], was, text[i + p + |was.Text()|..], digit)
  {
    hide MatchAt, Ends, CleanBefore;
    var w := was.Text();
    MatchIsAlnum(text, i, was, digit);
    CutHit(done, text, i, i + p, w);
    DropPrefix(done, text[i..]);
    StandsShift(done + text[i..], text, |done|, i, p, w, digit);
  }

  lemma CutHit(done: string, text: string, i: nat, j: nat, w: string)
    requires i <= j && j + |w| <= |text| && text[j..j + |w|] == w
    ensures done + text[i..] == done + text[i..j] + w + text[j + |w|..]
  {
    CutTwice(text, i, j, j + |w|);
    ConcatAssociative(done, text[i..j], w, text[j + |w|..]);
  }

  /** After the substitution no bounded occurrence of the old version remains, not even across an edge. */
  lemma NoOldVersionSurvives(text: string, was: Version, now: Version, digit: char -> bool)
    requires Replaces(was, now, digit)
    ensures Clean(Substitute(text, 0, was.Text(), now.Text(), digit), was.Text(), digit)
  {
    hide Replaces;
    SubstituteCleans("", text, 0, was, now, digit);
    assert "" + Substitute(text, 0, was.Text(), now.Text(), digit) == Substitute(text, 0, was.Text(), now.Text(), digit);
  }

  /** In a text that is just one hit, the substitution leaves the new version. */
  lemma OneHit(before: string, was: Version, now: Version, digit: char -> bool)
    requires was.Valid() && Digits(digit) && (before == "" || (before == "0." && was.minor == "0"))
    ensures Substitute(before + was.Text(), 0, was.Text(), now.Text(), digit) == before + now.Text()
  {
    hide Substitute, MatchAt, Pieces, Digits, Version.Text;
    var w, n := was.Text(), now.Text();
    assert w != "" by { VersionShape(was); }
    var text := before + w;
    OneHitMatches(before, was, digit);
    ScanStep(text, |before|, w, n, digit);
    ScanStep(text, |text|, w, n, digit);
    assert text[|before|..|before|] == "" && "" + n + "" == n;
    assert Substitute(text, |before|, w, n, digit) == n;
    if before == "0." {
      ScanStep(text, 0, w, n, digit);
      ScanStep(text, 1, w, n, digit);
      assert [text[0]] + ([text[1]] + n) == before + n;
    }
  }

  lemma OneHitMatches(before: string, was: Version, digit: char -> bool)
    requires was.Valid() && Digits(digit) && (before == "" || (before == "0." && was.minor == "0"))
    ensures var text := before + was.Text();
            && MatchAt(text, |before|, was.Text(), digit) == Some(0)
            && (before == "0." ==> forall i :: 0 <= i < 2 ==> MatchAt(text, i, was.Text(), digit).None?)
  {
    var w := was.Text();
    var text := before + w;
    VersionShape(was);
    assert w[0] == '0';
    hide Version.Text;
    DropPrefix(before, w);
    assert text[|before|..|before| + |w|] == w && text[|before|] == w[0];
    if before == "0." {
      VersionParts(was);
      assert text[1] == '.' && text[4] == '0' && text[5] == '.';
      assert w[2] == '0' && w[4] == was.patch[0];
      assert text[0..|w|][4] == '0';
      assert w[4] == '0' ==> |w| == 5;
      assert |w| == 5 ==> text[6] == w[4] && AsciiDigit(text[6]);
      assert !StandsAt(text, 0, w, digit);
    }
  }

  /** Where a version stands in front of a foreign digit, it is a bounded occurrence. */
  lemma StandsInFront(text: string, word: string, digit: char -> bool)
    requires Continues(text, word) && Digits(digit) && digit(text[|word|]) && word != "" && word[0] != 'v'
    ensures !Clean(text, word, digit)
  {
    assert text[0..|word|] == word;
    assert text[0] == word[0];
    assert MatchAt(text, 0, word, digit).Some?;
  }

  /**
   The substitution frees every text of the old version if and only if the new version does not bring it back.
   Versions in ASCII digits never do; the argument check admits others that do.
   */
  lemma VersionGoneExactly(was: Version, now: Version, digit: char -> bool)
    requires Digits(digit) && was.Valid() && now.Admitted(digit) && was != now
    ensures (forall text :: Clean(Substitute(text, 0, was.Text(), now.Text(), digit), was.Text(), digit)) <==> !Exposes(now, was)
  {
    hide Clean, Substitute, Exposes;
    if !Exposes(now, was) {
      forall text ensures Clean(Substitute(text, 0, was.Text(), now.Text(), digit), was.Text(), digit) {
        NoOldVersionSurvives(text, was, now, digit);
      }
    } else {
      var text := ExposedSurvives(was, now, digit);
    }
  }

  lemma ExposedSurvives(was: Version, now: Version, digit: char -> bool) returns (text: string)
    requires Digits(digit) && was.Valid() && now.Admitted(digit) && Exposes(now, was)
    ensures !Clean(Substitute(text, 0, was.Text(), now.Text(), digit), was.Text(), digit)
  {
    hide Clean, Substitute;
    var w, n := was.Text(), now.Text();
    VersionShape(was);
    AdmittedShape(now, digit);
    var before := if Continues(n, w) then "" else "0.";
    OneHit(before, was, now, digit);
    var out := before + n;
    assert before == "0." ==> w == before + Minor(was.patch);
    assert out[..|w|] == w && out[|w|] == n[|w| - |before|];
    hide Digits;
    StandsInFront(out, w, digit);
    text := before + w;
  }

  /** From 0.5.1 to a version that goes on with an Arabic-Indic two, the text `0.5.1` keeps the old version. */
  lemma ForeignDigitKeepsTheOldVersion(digit: char -> bool)
    requires Digits(digit) && digit('\U{662}')
    ensures var was, now := Version("5", "1"), Version("5", "1\U{662}");
            now.Admitted(digit) && !Clean(Substitute("0.5.1", 0, was.Text(), now.Text(), digit), was.Text(), digit)
  {
    var was, now := Version("5", "1"), Version("5", "1\U{662}");
    assert was.Text() == "0.5.1" && now.Text() == "0.5.1\U{662}";
    OneHit("", was, now, digit);
    assert "" + was.Text() == "0.5.1" && "" + now.Text() == now.Text();
    StandsInFront(now.Text(), was.Text(), digit);
  }

  // ---------------------------------------------------------------- twice

  lemma {:induction false} CleanIsFixed(text: string, i: nat, was: string, now: string, digit: char -> bool)
    requires i <= |text| && was != "" && Clean(text, was, digit)
    ensures Substitute(text, i, was, now, digit) == text[i..]
    decreases |text| - i
  {
    if i < |text| {
      CleanIsFixed(text, i + 1, was, now, digit);
    }
  }

  /** Substituting again changes nothing. */
  lemma SubstituteTwice(text: string, was: Version, now: Version, digit: char -> bool)
    requires Replaces(was, now, digit)
    ensures var once := Substitute(text, 0, was.Text(), now.Text(), digit);
            Substitute(once, 0, was.Text(), now.Text(), digit) == once
  {
    hide Replaces;
    NoOldVersionSurvives(text, was, now, digit);
    CleanIsFixed(Substitute(text, 0, was.Text(), now.Text(), digit), 0, was.Text(), now.Text(), digit);
  }

  /** With a longer new version a text with a match grows, and with a shorter one it shrinks. */
  lemma {:induction false} SubstituteResizes(text: string, i: nat, j: nat, was: string, now: string, digit: char -> bool)
    requires i <= |text| && was != "" && |was| != |now|
    ensures var size := |Substitute(text, i, was, now, digit)|;
            && (if |was| < |now| then size >= |text| - i else size <= |text| - i)
            && (i <= j < |text| && MatchAt(text, j, was, digit).Some? ==> size != |text| - i)
    decreases |text| - i
  {
    if i < |text| {
      var next := match MatchAt(text, i, was, digit) case Some(p) => i + p + |was| case None => i + 1;
      SubstituteResizes(text, next, if j < next then next else j, was, now, digit);
    }
  }

  /** A version that exposes the old one is longer. */
  lemma ExposingIsLonger(now: Version, was: Version, digit: char -> bool)
    requires Digits(digit) && was.Valid() && now.Admitted(digit) && Exposes(now, was)
    ensures |was.Text()| < |now.Text()|
  {
    AdmittedShape(now, digit);
    VersionShape(was);
    var n, k := now.Text(), |now.minor|;
    hide Version.Text;
    assert k < |was.patch| ==> Minor(was.patch)[2 + k] in was.patch;
  }

  /** Substituting twice is substituting once, in every text, if and only if the new version does not bring the old one back. */
  lemma SubstituteTwiceExactly(was: Version, now: Version, digit: char -> bool)
    requires Digits(digit) && was.Valid() && now.Admitted(digit) && was != now
    ensures (forall text :: var once := Substitute(text, 0, was.Text(), now.Text(), digit);
               Substitute(once, 0, was.Text(), now.Text(), digit) == once)
            <==> !Exposes(now, was)
  {
    hide Substitute, Exposes, MatchAt;
    if !Exposes(now, was) {
      forall text ensures var once := Substitute(text, 0, was.Text(), now.Text(), digit);
                          Substitute(once, 0, was.Text(), now.Text(), digit) == once {
        SubstituteTwice(text, was, now, digit);
      }
    } else {
      var text := ExposedSurvives(was, now, digit);
      var once := Substitute(text, 0, was.Text(), now.Text(), digit);
      var j :| 0 <= j < |once| && MatchAt(once, j, was.Text(), digit).Some?;
      ExposingIsLonger(now, was, digit);
      assert was.Text() != "" by { VersionParts(was); }
      SubstituteResizes(once, 0, j, was.Text(), now.Text(), digit);
    }
  }

  /** The text as kept characters and hits. */
  datatype Piece = Kept(c: char) | Hit(prefix: string)

  function Pieces(text: string, i: nat, was: string, digit: char -> bool): seq<Piece>
    requires i <= |text| && was != ""
    decreases |text| - i
  {
    if i == |text| then []
    else
      match MatchAt(text, i, was, digit)
      case Some(p) =>
        [Hit(text[i..i + p])] + Pieces(text, i + p + |was|, was, digit)
      case None => [Kept(text[i])] + Pieces(text, i + 1, was, digit)
  }

  function Render(pieces: seq<Piece>, version: string): string {
    if pieces == [] then ""
    else RenderPiece(pieces[0], version) + Render(pieces[1..], version)
  }

  function RenderPiece(piece: Piece, version: string): string {
    match piece
    case Kept(c) => [c]
    case Hit(prefix) => prefix + version
  }

  lemma RenderCons(piece: Piece, rest: seq<Piece>, version: string)
    ensures Render([piece] + rest, version) == RenderPiece(piece, version) + Render(rest, version)
  {
    assert ([piece] + rest)[1..] == rest;
  }

  lemma HitIsCut(text: string, i: nat, p: nat, was: string, digit: char -> bool)
    requires i < |text| && MatchAt(text, i, was, digit) == Some(p)
    ensures i + p + |was| <= |text| && text[i..] == text[i..i + p] + was + text[i + p + |was|..]
  {
    CutTwice(text, i, i + p, i + p + |was|);
  }

  /** Text outside the hits is untouched: one list of pieces renders to the input and to the output. */
  lemma {:induction false} OnlyHitsChange(text: string, i: nat, was: string, now: string, digit: char -> bool)
    requires i <= |text| && was != ""
    ensures Render(Pieces(text, i, was, digit), was) == text[i..]
    ensures Render(Pieces(text, i, was, digit), now) == Substitute(text, i, was, now, digit)
    decreases |text| - i
  {
    hide MatchAt, StandsAt, Render, Pieces, Substitute;
    ScanStep(text, i, was, now, digit);
    if i == |text| {
      RenderNothing(was);
      RenderNothing(now);
    } else {
      match MatchAt(text, i, was, digit)
      case Some(p) =>
        HitIsCut(text, i, p, was, digit);
        var prefix, rest := text[i..i + p], Pieces(text, i + p + |was|, was, digit);
        OnlyHitsChange(text, i + p + |was|, was, now, digit);
        RenderCons(Hit(prefix), rest, was);
        RenderCons(Hit(prefix), rest, now);
      case None =>
        var rest := Pieces(text, i + 1, was, digit);
        OnlyHitsChange(text, i + 1, was, now, digit);
        RenderCons(Kept(text[i]), rest, was);
        RenderCons(Kept(text[i]), rest, now);
    }
  }

  /** One step of the scan, for the pieces and for the substitution. */
  lemma ScanStep(text: string, i: nat, was: string, now: string, digit: char -> bool)
    requires i <= |text| && was != ""
    ensures i == |text| ==> Pieces(text, i, was, digit) == [] && Substitute(text, i, was, now, digit) == ""
    ensures i < |text| ==>
              match MatchAt(text, i, was, digit)
              case Some(p) =>
                var k := i + p + |was|;
                && Pieces(text, i, was, digit) == [Hit(text[i..i + p])] + Pieces(text, k, was, digit)
                && Substitute(text, i, was, now, digit) == text[i..i + p] + now + Substitute(text, k, was, now, digit)
              case None =>
                && Pieces(text, i, was, digit) == [Kept(text[i])] + Pieces(text, i + 1, was, digit)
                && Substitute(text, i, was, now, digit) == [text[i]] + Substitute(text, i + 1, was, now, digit)
  {
    hide MatchAt;
  }

  lemma RenderNothing(version: string)
    ensures Render([], version) == ""
  {
  }
}
