/**
 The places of a text that track a minor line, as mentions: a fixed text in front of the minor and
 behind it. A pass of the version rewriter adds no mention of the old minor, removes none of another
 kind, and all of its own, except that of two quoted pins sharing a quote one is left.
 */
module VersionMentions {
  import opened PyText
  import opened VersionPattern
  import opened VersionRewriter

  // ---------------------------------------------------------------- mentions of a minor line

  /** What stands around a minor, and whether it has to begin a line. */
  datatype Mention = Mention(left: string, right: string, atLine: bool)

  const FLOOR := Mention(">=", ".0", false)
  const PIN := Mention("\"", ".0\"", false)
  const BOUNDARY := Mention("**Current ", " boundary:", false)

  function Marker(gap: string): Mention {
    Mention(MARKER + gap + "\"", "\"", true)
  }

  function Word(mention: Mention, minor: string): string {
    mention.left + Minor(minor) + mention.right
  }

  ghost predicate At(text: string, p: int, mention: Mention, minor: string) {
    && 0 <= p && FoundAt(text, p, Word(mention, minor))
    && (mention.atLine ==> p == 0 || text[p - 1] == '\n')
  }

  ghost predicate Mentions(text: string, mention: Mention, minor: string) {
    exists p :: At(text, p, mention, minor)
  }

  predicate Fence(c: char) {
    c == '=' || c == '"' || c == ' '
  }

  /** White space is no digit and none of the characters around a minor. */
  ghost predicate Spaces(space: char -> bool) {
    forall c :: space(c) ==> !AsciiDigit(c) && c != '"' && c != 'c'
  }

  /** The text in front ends with the only fence that a zero follows; neither side touches the minor with a digit. */
  ghost predicate Proper(mention: Mention, digit: char -> bool) {
    && mention.left != "" && Fence(mention.left[|mention.left| - 1])
    && mention.left[0] != '.' && !digit(mention.left[0])
    && (forall k :: 0 <= k < |mention.left| - 1 && Fence(mention.left[k]) ==> mention.left[k + 1] != '0')
    && mention.right != "" && !digit(mention.right[0])
    && (forall k :: 0 <= k < |mention.right| - 1 && Fence(mention.right[k]) ==> mention.right[k + 1] != '0')
  }

  lemma FixedAreProper(digit: char -> bool)
    requires Digits(digit)
    ensures Proper(FLOOR, digit) && Proper(PIN, digit) && Proper(BOUNDARY, digit)
  {
    BoundaryIsProper(digit);
    hide BOUNDARY;
  }

  lemma BoundaryIsProper(digit: char -> bool)
    requires Digits(digit)
    ensures Proper(BOUNDARY, digit)
  {
  }

  lemma MarkerIsProper(gap: string, space: char -> bool, digit: char -> bool)
    requires Digits(digit) && Spaces(space) && Gap(gap, space)
    ensures Proper(Marker(gap), digit)
  {
    var left := Marker(gap).left;
    assert MARKER[0] == 'c' && left[0] == MARKER[0] && left[|left| - 1] == '"';
    forall k | 0 <= k < |left| - 1 && Fence(left[k]) ensures left[k + 1] != '0' {
      GapChar(gap, k + 1, space);
    }
  }

  lemma GapChar(gap: string, k: nat, space: char -> bool)
    requires Spaces(space) && Gap(gap, space) && k < |Marker(gap).left|
    ensures Marker(gap).left[k] != '0'
  {
    var left := Marker(gap).left;
    if k < |MARKER| {
      assert left[k] == MARKER[k];
    } else if k < |MARKER| + |gap| {
      assert left[k] == gap[k - |MARKER|] && left[k] in gap;
    }
  }

  lemma MinorShape(minor: string, digit: char -> bool)
    requires AdmittedNumeral(minor, digit) && Digits(digit)
    ensures var m := Minor(minor);
            && |m| == |minor| + 2 && m[0] == '0' && m[1] == '.' && m[2..] == minor
            && forall k :: 0 <= k < |m| ==> (k == 1 || digit(m[k])) && m[k] != '\n' && !Fence(m[k])
  {
    var m := Minor(minor);
    forall k | 2 <= k < |m| ensures digit(m[k]) {
      assert m[k] == minor[k - 2] && minor[k - 2] in minor;
    }
  }

  /** Where the surroundings of a swapped minor let a mention of `m` overlap it: only exactly in its place. */
  lemma OverlapIsExact(before: string, x: string, after: string, mention: Mention, m: string, p: int, digit: char -> bool)
    requires Digits(digit) && Proper(mention, digit) && AdmittedNumeral(x, digit) && AdmittedNumeral(m, digit)
    requires before != "" && Fence(before[|before| - 1]) && after != "" && !digit(after[0])
    requires At(before + Minor(x) + after, p, mention, m)
    ensures || p + |Word(mention, m)| <= |before|
            || p >= |before| + |Minor(x)|
            || (x == m && mention.left[|mention.left| - 1] == before[|before| - 1] && mention.right[0] == after[0])
  {
    hide Word, Minor, Fence, Digits, AdmittedNumeral, FoundAt;
    var text, word := before + Minor(x) + after, Word(mention, m);
    if p < |before| {
      if p + |word| > |before| {
        ReachesIn(text, before, x, after, mention, m, p, digit);
      }
    } else {
      MiddleChars(before, x, after, digit);
      WordParts(mention, m);
      CharFound(text, p, word, 0);
    }
  }

  lemma ReachesIn(text: string, before: string, x: string, after: string, mention: Mention, m: string, p: int,
                  digit: char -> bool)
    requires Digits(digit) && Proper(mention, digit) && AdmittedNumeral(x, digit) && AdmittedNumeral(m, digit)
    requires text == before + Minor(x) + after
    requires before != "" && Fence(before[|before| - 1]) && after != "" && !digit(after[0])
    requires 0 <= p < |before| < p + |Word(mention, m)| && FoundAt(text, p, Word(mention, m))
    ensures x == m && mention.left[|mention.left| - 1] == before[|before| - 1] && mention.right[0] == after[0]
  {
    hide Word, Minor, Fence, Digits, AdmittedNumeral, FoundAt;
    var word, k := Word(mention, m), |before| - 1 - p;
    MiddleChars(before, x, after, digit);
    CharFound(text, p, word, k);
    CharFound(text, p, word, k + 1);
    FenceIsLast(mention, m, k, digit);
    SameMinor(text, before, x, after, mention, m, p, digit);
  }

  lemma MiddleChars(before: string, x: string, after: string, digit: char -> bool)
    requires Digits(digit) && AdmittedNumeral(x, digit) && before != ""
    ensures var text, s := before + Minor(x) + after, |before|;
            && (forall p :: s <= p < s + |Minor(x)| ==> text[p] == '.' || digit(text[p]))
            && text[s - 1] == before[s - 1] && text[s] == '0'
  {
    var text, s := before + Minor(x) + after, |before|;
    MinorShape(x, digit);
    hide Minor;
    forall p | s <= p < s + |Minor(x)| ensures text[p] == '.' || digit(text[p]) {
      assert text[p] == Minor(x)[p - s];
    }
  }

  lemma WordParts(mention: Mention, m: string)
    ensures var word, l := Word(mention, m), |mention.left|;
            && |word| == l + |Minor(m)| + |mention.right|
            && (forall k :: 0 <= k < l ==> word[k] == mention.left[k])
            && (forall k :: 0 <= k < |Minor(m)| ==> word[l + k] == Minor(m)[k])
            && (forall k :: 0 <= k < |mention.right| ==> word[l + |Minor(m)| + k] == mention.right[k])
  {
  }

  lemma FenceIsLast(mention: Mention, m: string, k: int, digit: char -> bool)
    requires Digits(digit) && Proper(mention, digit) && AdmittedNumeral(m, digit)
    requires 0 <= k < |Word(mention, m)| - 1
    ensures Fence(Word(mention, m)[k]) && Word(mention, m)[k + 1] == '0' ==> k == |mention.left| - 1
  {
    MinorShape(m, digit);
    WordParts(mention, m);
    var word, l := Word(mention, m), |mention.left|;
    hide Word, Fence, Minor, Digits;
    if k < l {
      assert word[k] == mention.left[k];
      assert k + 1 < l ==> word[k + 1] == mention.left[k + 1];
    } else if k < l + |Minor(m)| {
      assert word[k] == word[l + (k - l)] == Minor(m)[k - l];
    } else {
      var j := k - l - |Minor(m)|;
      assert word[k] == word[l + |Minor(m)| + j] == mention.right[j];
      assert word[k + 1] == word[l + |Minor(m)| + (j + 1)] == mention.right[j + 1];
    }
  }

  /** Two minors in the same place, each ended by something that is no digit. */
  lemma SameMinor(text: string, before: string, x: string, after: string, mention: Mention, m: string, p: int,
                  digit: char -> bool)
    requires Digits(digit) && AdmittedNumeral(x, digit) && AdmittedNumeral(m, digit)
    requires text == before + Minor(x) + after && before != "" && after != "" && !digit(after[0])
    requires mention.left != "" && mention.right != "" && !digit(mention.right[0])
    requires 0 <= p && p + |mention.left| == |before| && FoundAt(text, p, Word(mention, m))
    ensures x == m && mention.left[|mention.left| - 1] == before[|before| - 1] && mention.right[0] == after[0]
  {
    var s, l, word := |before|, |mention.left|, Word(mention, m);
    hide AdmittedNumeral, Digits;
    CharFound(text, p, word, l - 1);
    WordTail(mention, m);
    hide Word;
    SliceOfSlice(text, p, p + |word|, l, |word|);
    assert text[s..] == Minor(x) + after;
    assert text[s..][..|word| - l] == text[s..s + |word| - l];
    hide Minor;
    SamePrefix(x, after, m, mention.right, digit);
  }

  lemma WordTail(mention: Mention, m: string)
    requires mention.left != ""
    ensures var word, l := Word(mention, m), |mention.left|;
            l <= |word| && word[l - 1] == mention.left[l - 1] && word[l..|word|] == Minor(m) + mention.right
  {
  }

  /** How many digits a text begins with. */
  function DigitRun(s: string, digit: char -> bool): nat {
    if s == "" || !digit(s[0]) then 0 else 1 + DigitRun(s[1..], digit)
  }

  lemma {:induction false} DigitRunOf(x: string, rest: string, digit: char -> bool)
    requires (forall c :: c in x ==> digit(c)) && (rest == "" || !digit(rest[0]))
    ensures DigitRun(x + rest, digit) == |x|
  {
    if x == "" {
      assert x + rest == rest;
    } else {
      assert (x + rest)[0] == x[0] && x[0] in x && (x + rest)[1..] == x[1..] + rest;
      DigitRunOf(x[1..], rest, digit);
    }
  }

  lemma SamePrefix(x: string, after: string, m: string, right: string, digit: char -> bool)
    requires Digits(digit) && AdmittedNumeral(x, digit) && AdmittedNumeral(m, digit)
    requires after != "" && right != "" && !digit(after[0]) && !digit(right[0])
    requires Minor(m) + right <= Minor(x) + after
    ensures x == m && right[0] == after[0]
  {
    var a, b := Minor(x) + after, Minor(m) + right;
    var more := a[|b|..];
    assert a == b + more;
    var tail := right + more;
    BehindTheZero(x, after);
    BehindTheZero(m, tail);
    assert b + more == Minor(m) + tail;
    assert x + after == m + tail;
    DigitRunOf(x, after, digit);
    DigitRunOf(m, tail, digit);
    hide Digits, AdmittedNumeral, Minor;
    SameHead(x, after, m, tail);
  }

  lemma BehindTheZero(x: string, after: string)
    ensures (Minor(x) + after)[2..] == x + after
  {
  }

  lemma SameHead(a: string, b: string, c: string, d: string)
    requires a + b == c + d && |a| == |c|
    ensures a == c && b == d
  {
    assert (a + b)[..|a|] == a && (c + d)[..|c|] == c;
    assert (a + b)[|a|..] == b && (c + d)[|c|..] == d;
  }

  /** A mention beside a minor stays when the minor is swapped. */
  lemma BesideStays(before: string, x: string, y: string, after: string, mention: Mention, m: string, p: int,
                    digit: char -> bool)
    requires Digits(digit) && AdmittedNumeral(x, digit) && AdmittedNumeral(y, digit)
    requires At(before + Minor(x) + after, p, mention, m)
    requires p + |Word(mention, m)| <= |before| || p >= |before| + |Minor(x)|
    ensures Mentions(before + Minor(y) + after, mention, m)
  {
    MinorShape(x, digit);
    hide Word, Minor, Digits;
    if p + |Word(mention, m)| <= |before| {
      FrontStays(before, Minor(x) + after, Minor(y) + after, mention, m, p);
      ConcatAssociative(before, Minor(x), after, "");
      ConcatAssociative(before, Minor(y), after, "");
    } else {
      BackStays(before + Minor(x), before + Minor(y), after, mention, m, p);
    }
  }

  lemma FrontStays(before: string, a: string, b: string, mention: Mention, m: string, p: int)
    requires At(before + a, p, mention, m) && p + |Word(mention, m)| <= |before|
    ensures Mentions(before + b, mention, m)
  {
    hide Word;
    var word := Word(mention, m);
    assert (before + a)[p..p + |word|] == before[p..p + |word|] == (before + b)[p..p + |word|];
    assert p > 0 && p - 1 < |before| ==> (before + a)[p - 1] == before[p - 1] == (before + b)[p - 1];
    assert At(before + b, p, mention, m);
  }

  lemma BackStays(a: string, b: string, after: string, mention: Mention, m: string, p: int)
    requires At(a + after, p, mention, m) && p >= |a| && a != "" && a[|a| - 1] != '\n'
    ensures Mentions(b + after, mention, m)
  {
    hide Word;
    var word, j := Word(mention, m), p - |a|;
    assert (a + after)[p..p + |word|] == after[j..j + |word|] == (b + after)[|b| + j..|b| + j + |word|];
    assert j == 0 ==> (a + after)[p - 1] == a[|a| - 1];
    assert j > 0 ==> (a + after)[p - 1] == after[j - 1] == (b + after)[|b| + j - 1];
    assert At(b + after, |b| + j, mention, m);
  }

  // ---------------------------------------------------------------- what a pass does to mentions

  /** The rewrite of one mention's minor adds no mention of the old minor, of any kind. */
  lemma SwapAddsNone(replaced: Mention, mention: Mention, was: Version, now: Version, digit: char -> bool)
    requires Moves(was, now, digit) && Proper(replaced, digit) && Proper(mention, digit)
    ensures KeptBy((s: string) => !Mentions(s, mention, was.minor), Word(replaced, was.minor), Word(replaced, now.minor))
  {
    hide Mentions, At, Proper, Digits, Fence;
    var m, n := was.minor, now.minor;
    forall a, z | !Mentions(a + Word(replaced, m) + z, mention, m) ensures !Mentions(a + Word(replaced, n) + z, mention, m) {
      Regroup(a, replaced.left, Minor(m), replaced.right, z);
      Regroup(a, replaced.left, Minor(n), replaced.right, z);
      if Mentions(a + Word(replaced, n) + z, mention, m) {
        SwapBack(a + replaced.left, replaced.right + z, replaced, mention, was, now, digit);
      }
    }
  }

  lemma SwapBack(before: string, after: string, replaced: Mention, mention: Mention, was: Version, now: Version,
                 digit: char -> bool)
    requires Moves(was, now, digit) && Proper(replaced, digit) && Proper(mention, digit)
    requires |replaced.left| <= |before| && before[|before| - |replaced.left|..] == replaced.left && replaced.right <= after
    requires Mentions(before + Minor(now.minor) + after, mention, was.minor)
    ensures Mentions(before + Minor(was.minor) + after, mention, was.minor)
  {
    hide At;
    WasAdmitted(was, now, digit);
    var p :| At(before + Minor(now.minor) + after, p, mention, was.minor);
    OverlapIsExact(before, now.minor, after, mention, was.minor, p, digit);
    BesideStays(before, now.minor, was.minor, after, mention, was.minor, p, digit);
  }

  lemma WasAdmitted(was: Version, now: Version, digit: char -> bool)
    requires Moves(was, now, digit)
    ensures Digits(digit) && AdmittedNumeral(was.minor, digit) && AdmittedNumeral(now.minor, digit) && was.minor != now.minor
  {
    ValidIsAdmitted(was, digit);
  }

  /** Nor does it remove one of another kind. */
  lemma SwapKeepsOthers(replaced: Mention, mention: Mention, was: Version, now: Version, digit: char -> bool)
    requires Moves(was, now, digit) && Proper(replaced, digit) && Proper(mention, digit)
    requires || replaced.left[|replaced.left| - 1] != mention.left[|mention.left| - 1]
             || replaced.right[0] != mention.right[0]
    ensures KeptBy((s: string) => Mentions(s, mention, was.minor), Word(replaced, was.minor), Word(replaced, now.minor))
  {
    hide Mentions, At, Proper, Digits, Fence;
    var m, n := was.minor, now.minor;
    forall a, z | Mentions(a + Word(replaced, m) + z, mention, m) ensures Mentions(a + Word(replaced, n) + z, mention, m) {
      Regroup(a, replaced.left, Minor(m), replaced.right, z);
      Regroup(a, replaced.left, Minor(n), replaced.right, z);
      SwapAside(a + replaced.left, replaced.right + z, replaced, mention, was, now, digit);
    }
  }

  lemma SwapAside(before: string, after: string, replaced: Mention, mention: Mention, was: Version, now: Version,
                  digit: char -> bool)
    requires Moves(was, now, digit) && Proper(replaced, digit) && Proper(mention, digit)
    requires |replaced.left| <= |before| && before[|before| - |replaced.left|..] == replaced.left && replaced.right <= after
    requires || replaced.left[|replaced.left| - 1] != mention.left[|mention.left| - 1]
             || replaced.right[0] != mention.right[0]
    requires Mentions(before + Minor(was.minor) + after, mention, was.minor)
    ensures Mentions(before + Minor(now.minor) + after, mention, was.minor)
  {
    hide At;
    WasAdmitted(was, now, digit);
    var p :| At(before + Minor(was.minor) + after, p, mention, was.minor);
    OverlapIsExact(before, was.minor, after, mention, was.minor, p, digit);
    BesideStays(before, was.minor, now.minor, after, mention, was.minor, p, digit);
  }

  // ---------------------------------------------------------------- a pass removes what it looks for

  ghost predicate NoneBefore(text: string, limit: nat, mention: Mention, m: string) {
    forall p :: 0 <= p < limit ==> !At(text, p, mention, m)
  }

  /** The right-hand side holds, at `k`, the character a mention begins with. */
  predicate Meets(mention: Mention, k: nat) {
    k < |mention.right| && mention.left != "" && mention.right[k] == mention.left[0]
  }

  /** No mention begins inside the right-hand side of another one. */
  ghost predicate Apart(text: string, mention: Mention, m: string) {
    forall j: nat, k: nat :: FoundAt(text, j, Word(mention, m)) && Meets(mention, k) ==>
                               !FoundAt(text, j + |mention.left| + |Minor(m)| + k, Word(mention, m))
  }

  /** Where no two mentions share text, one pass removes them all. */
  lemma {:induction false} ReplaceLeavesNone(done: string, text: string, i: nat, mention: Mention, was: Version, now: Version,
                                             digit: char -> bool)
    requires Moves(was, now, digit) && Proper(mention, digit) && !mention.atLine
    requires i <= |text| && Apart(text, mention, was.minor) && NoneBefore(done + text[i..], |done|, mention, was.minor)
    ensures var out := done + ReplaceAll(text, i, Word(mention, was.minor), Word(mention, now.minor));
            NoneBefore(out, |out|, mention, was.minor)
    decreases |text| - i
  {
    WordParts(mention, was.minor);
    assert mention.left != "";
    hide NoneBefore, Apart, Proper, Word, Moves, Minor;
    var pattern, replacement := Word(mention, was.minor), Word(mention, now.minor);
    assert pattern != "";
    if i == |text| {
      assert done + text[i..] == done + "" == done;
    } else if FoundAt(text, i, pattern) {
      var k := i + |pattern|;
      HitLeavesNone(done, text, i, mention, was, now, digit);
      ReplaceLeavesNone(done + replacement, text, k, mention, was, now, digit);
      ConcatAssociative(done, replacement, ReplaceAll(text, k, pattern, replacement), "");
    } else {
      MissLeavesNone(done, text, i, mention, was.minor);
      ReplaceLeavesNone(done + [text[i]], text, i + 1, mention, was, now, digit);
      ConcatAssociative(done, [text[i]], ReplaceAll(text, i + 1, pattern, replacement), "");
    }
  }

  lemma MissLeavesNone(done: string, text: string, i: nat, mention: Mention, m: string)
    requires i < |text| && !mention.atLine && NoneBefore(done + text[i..], |done|, mention, m)
    requires !FoundAt(text, i, Word(mention, m))
    ensures NoneBefore(done + [text[i]] + text[i + 1..], |done| + 1, mention, m)
  {
    hide Word;
    var word := Word(mention, m);
    var whole := done + text[i..];
    assert whole == done + [text[i]] + text[i + 1..];
    if |done| + |word| <= |whole| {
      assert whole[|done|..|done| + |word|] == text[i..i + |word|];
    }
  }

  lemma HitLeavesNone(done: string, text: string, i: nat, mention: Mention, was: Version, now: Version, digit: char -> bool)
    requires Moves(was, now, digit) && Proper(mention, digit) && !mention.atLine
    requires FoundAt(text, i, Word(mention, was.minor)) && Apart(text, mention, was.minor)
    requires NoneBefore(done + text[i..], |done|, mention, was.minor)
    ensures var k, replacement := i + |Word(mention, was.minor)|, Word(mention, now.minor);
            k <= |text| && NoneBefore(done + replacement + text[k..], |done| + |replacement|, mention, was.minor)
  {
    hide Proper, Moves, At, Word, Minor;
    var m, n, k := was.minor, now.minor, i + |Word(mention, was.minor)|;
    var out := done + Word(mention, n) + text[k..];
    forall p | 0 <= p < |done| + |Word(mention, n)| ensures !At(out, p, mention, m) {
      HitAddsNone(done, text, i, mention, was, now, digit, p);
    }
  }

  /** A mention in front of the hit was there before; one behind its minor would share text with it. */
  lemma HitAddsNone(done: string, text: string, i: nat, mention: Mention, was: Version, now: Version, digit: char -> bool, p: int)
    requires Moves(was, now, digit) && Proper(mention, digit) && !mention.atLine
    requires FoundAt(text, i, Word(mention, was.minor)) && 0 <= p < |done| + |Word(mention, now.minor)|
    ensures var k := i + |Word(mention, was.minor)|;
            At(done + Word(mention, now.minor) + text[k..], p, mention, was.minor) ==>
              (p < |done| && At(done + text[i..], p, mention, was.minor)) || RunsOn(text, i, mention, was.minor)
  {
    hide Proper, Digits, AdmittedNumeral, FoundAt, RunsOn;
    var m, n, k := was.minor, now.minor, i + |Word(mention, was.minor)|;
    assert k <= |text| by { FoundFits(text, i, Word(mention, m)); }
    if At(done + Word(mention, n) + text[k..], p, mention, m) {
      HitHas(done, text, i, mention, was, now, digit, p);
    }
  }

  lemma FoundFits(text: string, i: nat, word: string)
    requires FoundAt(text, i, word)
    ensures i + |word| <= |text|
  {
  }

  /** Another mention begins in the right-hand side of the one at `i`. */
  ghost predicate RunsOn(text: string, i: nat, mention: Mention, m: string) {
    exists k: nat :: Meets(mention, k) && FoundAt(text, i + |mention.left| + |Minor(m)| + k, Word(mention, m))
  }

  lemma HitHas(done: string, text: string, i: nat, mention: Mention, was: Version, now: Version, digit: char -> bool, p: int)
    requires Moves(was, now, digit) && Proper(mention, digit) && !mention.atLine
    requires FoundAt(text, i, Word(mention, was.minor)) && p < |done| + |Word(mention, now.minor)|
    requires At(done + Word(mention, now.minor) + text[i + |Word(mention, was.minor)|..], p, mention, was.minor)
    ensures (p < |done| && At(done + text[i..], p, mention, was.minor)) || RunsOn(text, i, mention, was.minor)
  {
    hide Proper, Digits, AdmittedNumeral, FoundAt, Word, At, Minor, Meets;
    var m, n := was.minor, now.minor;
    HitCut(done, text, i, mention, m);
    var rest := text[i + |Word(mention, m)|..];
    var before, after, at := done + mention.left, mention.right + rest, i + |mention.left| + |Minor(m)|;
    WasAdmitted(was, now, digit);
    Regrouped(done, mention, n, rest);
    Surrounds(done, rest, mention, digit);
    HitSplit(before, n, after, text, at, mention, m, p, digit);
    Regrouped(done, mention, m, rest);
    if k: nat :| Meets(mention, k) && FoundAt(text, at + k, Word(mention, m)) {
      assert FoundAt(text, i + |mention.left| + |Minor(m)| + k, Word(mention, m));
    }
  }

  lemma Regrouped(done: string, mention: Mention, x: string, rest: string)
    ensures done + Word(mention, x) + rest == done + mention.left + Minor(x) + (mention.right + rest)
    ensures |Word(mention, x)| == |mention.left| + |Minor(x)| + |mention.right| > |mention.left|
  {
    Regroup(done, mention.left, Minor(x), mention.right, rest);
  }

  lemma HitSplit(before: string, n: string, after: string, text: string, at: nat, mention: Mention, m: string, p: int,
                 digit: char -> bool)
    requires Digits(digit) && Proper(mention, digit) && AdmittedNumeral(n, digit) && AdmittedNumeral(m, digit) && n != m
    requires before != "" && Fence(before[|before| - 1]) && after != "" && !digit(after[0])
    requires at <= |text| && text[at..] == after && mention.right <= after
    requires At(before + Minor(n) + after, p, mention, m) && p < |before| + |Minor(n)| + |mention.right|
    ensures || (p + |Word(mention, m)| <= |before| && At(before + Minor(m) + after, p, mention, m))
            || exists k: nat :: Meets(mention, k) && FoundAt(text, at + k, Word(mention, m))
  {
    assert mention.left != "";
    hide Proper, Digits, AdmittedNumeral, FoundAt, Word, At, Minor;
    OverlapIsExact(before, n, after, mention, m, p, digit);
    if p + |Word(mention, m)| <= |before| {
      ConcatAssociative(before, Minor(n), after, "");
      ConcatAssociative(before, Minor(m), after, "");
      PrefixAt(before, Minor(n) + after, Minor(m) + after, mention, m, p);
    } else {
      SuffixAt(before + Minor(n), after, text, at, mention, m, p);
      var k: nat := p - |before + Minor(n)|;
      assert after[k] == mention.right[k];
      assert Meets(mention, k) && FoundAt(text, at + k, Word(mention, m));
    }
  }

  lemma Surrounds(done: string, rest: string, mention: Mention, digit: char -> bool)
    requires Proper(mention, digit)
    ensures var before, after := done + mention.left, mention.right + rest;
            && before != "" && Fence(before[|before| - 1]) && after != "" && !digit(after[0])
  {
    hide Fence;
    assert (done + mention.left)[|done + mention.left| - 1] == mention.left[|mention.left| - 1];
  }

  lemma HitCut(done: string, text: string, i: nat, mention: Mention, m: string)
    requires FoundAt(text, i, Word(mention, m))
    ensures i + |Word(mention, m)| <= |text|
    ensures var k := i + |Word(mention, m)|;
            && done + text[i..] == done + mention.left + Minor(m) + (mention.right + text[k..])
            && text[i + |mention.left| + |Minor(m)|..] == mention.right + text[k..]
  {
    var k := i + |Word(mention, m)|;
    hide Minor;
    assert text[i..] == text[i..k] + text[k..];
    Regroup(done, mention.left, Minor(m), mention.right, text[k..]);
    ConcatAssociative(done, Word(mention, m), text[k..], "");
    assert text[i..] == mention.left + Minor(m) + (mention.right + text[k..]);
    assert text[i + |mention.left| + |Minor(m)|..] == text[i..][|mention.left| + |Minor(m)|..];
  }

  lemma PrefixAt(before: string, a: string, b: string, mention: Mention, m: string, p: int)
    requires At(before + a, p, mention, m) && p + |Word(mention, m)| <= |before|
    ensures At(before + b, p, mention, m)
  {
    hide Word;
    var word := Word(mention, m);
    assert (before + a)[p..p + |word|] == before[p..p + |word|] == (before + b)[p..p + |word|];
    assert p > 0 && p - 1 < |before| ==> (before + a)[p - 1] == before[p - 1] == (before + b)[p - 1];
  }

  lemma SuffixAt(front: string, after: string, text: string, at: nat, mention: Mention, m: string, p: int)
    requires At(front + after, p, mention, m) && p >= |front| && mention.left != ""
    requires at <= |text| && text[at..] == after
    ensures FoundAt(text, at + p - |front|, Word(mention, m))
    ensures p - |front| < |after| && after[p - |front|] == mention.left[0]
  {
    var word, j := Word(mention, m), p - |front|;
    CharFound(front + after, p, word, 0);
    assert word[0] == mention.left[0];
    hide Word;
    assert (front + after)[p..p + |word|] == after[j..j + |word|] == text[at + j..at + j + |word|];
  }

  // ---------------------------------------------------------------- the fixed mentions

  lemma NoneIsNoMention(text: string, mention: Mention, m: string)
    requires NoneBefore(text, |text|, mention, m) && mention.left != ""
    ensures !Mentions(text, mention, m)
  {
    forall p ensures !At(text, p, mention, m) {
      WordParts(mention, m);
    }
  }

  /** A pass over a text where no two mentions share text leaves none. */
  lemma PassLeavesNone(text: string, mention: Mention, was: Version, now: Version, digit: char -> bool)
    requires Moves(was, now, digit) && Proper(mention, digit) && !mention.atLine && Apart(text, mention, was.minor)
    ensures !Mentions(ReplaceAll(text, 0, Word(mention, was.minor), Word(mention, now.minor)), mention, was.minor)
  {
    hide Proper, Moves, Word, Mentions;
    WordParts(mention, was.minor);
    assert mention.left != "" by { LeftGiven(mention, digit); }
    var out := ReplaceAll(text, 0, Word(mention, was.minor), Word(mention, now.minor));
    assert "" + text[0..] == text && "" + out == out;
    ReplaceLeavesNone("", text, 0, mention, was, now, digit);
    NoneIsNoMention(out, mention, was.minor);
  }

  lemma LeftGiven(mention: Mention, digit: char -> bool)
    requires Proper(mention, digit)
    ensures mention.left != ""
  {
  }

  /** Without a mention a pass changes nothing. */
  lemma {:induction false} PassIsIdle(text: string, i: nat, mention: Mention, m: string, replacement: string)
    requires i <= |text| && mention.left != "" && !mention.atLine && !Mentions(text, mention, m)
    ensures Word(mention, m) != "" && ReplaceAll(text, i, Word(mention, m), replacement) == text[i..]
    decreases |text| - i
  {
    WordParts(mention, m);
    hide Word;
    if i < |text| {
      assert !At(text, i, mention, m);
      PassIsIdle(text, i + 1, mention, m, replacement);
    }
  }

  /** With one, it does. */
  lemma {:induction false} PassChanges(text: string, i: nat, p: nat, mention: Mention, was: Version, now: Version,
                                       digit: char -> bool)
    requires Moves(was, now, digit) && Proper(mention, digit) && !mention.atLine
    requires i <= p && FoundAt(text, p, Word(mention, was.minor)) && i <= |text|
    ensures Word(mention, was.minor) != ""
    ensures ReplaceAll(text, i, Word(mention, was.minor), Word(mention, now.minor)) != text[i..]
    decreases |text| - i
  {
    hide Word, Proper, Moves, Minor, FoundAt;
    var pattern, replacement := Word(mention, was.minor), Word(mention, now.minor);
    assert pattern != "" by {
      LeftGiven(mention, digit);
      WordParts(mention, was.minor);
    }
    FoundFits(text, p, pattern);
    if FoundAt(text, i, pattern) {
      HitDiffers(text, i, ReplaceAll(text, i + |pattern|, pattern, replacement), mention, was, now, digit);
    } else {
      PassChanges(text, i + 1, p, mention, was, now, digit);
      MissDiffers(text, i, ReplaceAll(text, i + 1, pattern, replacement));
    }
  }

  lemma MissDiffers(text: string, i: nat, rest: string)
    requires i < |text| && rest != text[i + 1..]
    ensures [text[i]] + rest != text[i..]
  {
    assert ([text[i]] + rest)[1..] == rest && text[i..][1..] == text[i + 1..];
  }

  lemma HitDiffers(text: string, i: nat, rest: string, mention: Mention, was: Version, now: Version, digit: char -> bool)
    requires Moves(was, now, digit) && Proper(mention, digit) && FoundAt(text, i, Word(mention, was.minor))
    ensures Word(mention, now.minor) + rest != text[i..]
  {
    hide AdmittedNumeral, Digits;
    WasAdmitted(was, now, digit);
    var m, n, right, l := was.minor, now.minor, mention.right, |mention.left|;
    hide Word, Minor, FoundAt;
    HitCut("", text, i, mention, m);
    var after := right + text[i + |Word(mention, m)|..];
    assert "" + text[i..] == text[i..] && "" + mention.left == mention.left;
    PrefixesDiffer(m, after, n, right, digit);
    TailsOf(mention, m, n, after, rest);
  }

  lemma TailsOf(mention: Mention, m: string, n: string, after: string, rest: string)
    requires !(Minor(n) + mention.right <= Minor(m) + after)
    ensures Word(mention, n) + rest != mention.left + Minor(m) + after
  {
    var l := |mention.left|;
    assert (Word(mention, n) + rest)[l..] == Minor(n) + mention.right + rest;
    assert (mention.left + Minor(m) + after)[l..] == Minor(m) + after;
    hide Word, Minor;
    assert Minor(n) + mention.right <= Minor(n) + mention.right + rest;
  }

  lemma PrefixesDiffer(x: string, after: string, m: string, right: string, digit: char -> bool)
    requires Digits(digit) && AdmittedNumeral(x, digit) && AdmittedNumeral(m, digit) && x != m
    requires after != "" && right != "" && !digit(after[0]) && !digit(right[0])
    ensures !(Minor(m) + right <= Minor(x) + after)
  {
    hide AdmittedNumeral, Digits, Minor;
    if Minor(m) + right <= Minor(x) + after {
      SamePrefix(x, after, m, right, digit);
    }
  }

  lemma FloorsAndBoundariesAreApart(text: string, m: string)
    ensures Apart(text, FLOOR, m) && Apart(text, BOUNDARY, m)
  {
    forall k: nat ensures !Meets(FLOOR, k) && !Meets(BOUNDARY, k) {
    }
  }

  /** Two quoted pins that share a quote. */
  function Pair(m: string): string {
    Word(PIN, m) + Minor(m) + ".0\""
  }

  ghost predicate HoldsPair(text: string, m: string) {
    exists p: nat :: FoundAt(text, p, Pair(m))
  }

  lemma PairIsTwoPins(text: string, p: nat, m: string)
    ensures FoundAt(text, p, Pair(m))
            <==> FoundAt(text, p, Word(PIN, m)) && FoundAt(text, p + |Word(PIN, m)| - 1, Word(PIN, m))
  {
    var tail := Minor(m) + ".0\"";
    assert Word(PIN, m) == ['"'] + tail && Pair(m) == ['"'] + tail + tail;
    assert tail[|tail| - 1] == '"';
    hide Word, Pair, Minor, FoundAt;
    SharedQuote(text, p, tail);
  }

  lemma SharedQuote(text: string, p: nat, tail: string)
    requires tail != "" && tail[|tail| - 1] == '"'
    ensures FoundAt(text, p, ['"'] + tail + tail) <==> FoundAt(text, p, ['"'] + tail) && FoundAt(text, p + |tail|, ['"'] + tail)
  {
    var pin, n := ['"'] + tail, |tail|;
    FoundInTwo(text, p, pin, tail);
    FoundInTwo(text, p + n, ['"'], tail);
    assert |pin| == n + 1 && pin[n] == '"';
    hide FoundAt;
    if FoundAt(text, p, pin) {
      FoundFits(text, p, pin);
      CharFound(text, p, pin, n);
      QuoteFound(text, p + n);
    }
  }

  lemma FoundInTwo(text: string, p: nat, a: string, b: string)
    ensures FoundAt(text, p, a + b) <==> FoundAt(text, p, a) && FoundAt(text, p + |a|, b)
  {
    if p + |a + b| <= |text| {
      assert text[p..p + |a + b|] == text[p..p + |a|] + text[p + |a|..p + |a + b|];
      assert (a + b)[..|a|] == a && (a + b)[|a|..] == b;
      assert text[p..p + |a + b|][..|a|] == text[p..p + |a|];
    }
  }

  lemma QuoteFound(text: string, p: nat)
    requires p < |text| && text[p] == '"'
    ensures FoundAt(text, p, ['"'])
  {
  }

  lemma PinsAreApartExactly(text: string, m: string)
    ensures Apart(text, PIN, m) <==> !HoldsPair(text, m)
  {
    assert PIN.right[2] == '"';
    var l := |Word(PIN, m)|;
    assert l - 1 == 1 + |Minor(m)| + 2;
    assert forall k: nat :: Meets(PIN, k) <==> k == 2;
    hide Word, Pair, Minor, FoundAt;
    forall p: nat ensures FoundAt(text, p, Pair(m))
                          <==> FoundAt(text, p, Word(PIN, m)) && FoundAt(text, p + |Word(PIN, m)| - 1, Word(PIN, m)) {
      PairIsTwoPins(text, p, m);
    }
    if j: nat, k: nat :| FoundAt(text, j, Word(PIN, m)) && Meets(PIN, k)
                            && FoundAt(text, j + |PIN.left| + |Minor(m)| + k, Word(PIN, m)) {
      assert FoundAt(text, j, Pair(m));
    }
    if p: nat :| FoundAt(text, p, Pair(m)) {
      assert FoundAt(text, p + |PIN.left| + |Minor(m)| + 2, Word(PIN, m)) && Meets(PIN, 2);
    }
  }

  lemma ReplaceStep(text: string, i: nat, pattern: string, replacement: string)
    requires i < |text| && pattern != ""
    ensures FoundAt(text, i, pattern) ==> i + |pattern| <= |text| && ReplaceAll(text, i, pattern, replacement)
                                            == replacement + ReplaceAll(text, i + |pattern|, pattern, replacement)
    ensures !FoundAt(text, i, pattern) ==> ReplaceAll(text, i, pattern, replacement)
                                             == [text[i]] + ReplaceAll(text, i + 1, pattern, replacement)
  {
  }

  /** A shared quote keeps one of two pins out of a pass's reach. */
  lemma {:induction false} PairLeavesAPin(text: string, i: nat, p: nat, m: string, n: string)
    requires i <= p && FoundAt(text, p, Pair(m)) && '"' !in m
    ensures p < |text| && Word(PIN, m) != "" && Mentions(ReplaceAll(text, i, Word(PIN, m), Word(PIN, n)), PIN, m)
    decreases |text| - i
  {
    hide Word, Pair, Minor, Mentions, FoundAt, Unquoted, ReplaceAll;
    PairIsTwoPins(text, p, m);
    PinShape(m);
    FoundFits(text, p, Word(PIN, m));
    var l := |Word(PIN, m)|;
    if !FoundAt(text, i, Word(PIN, m)) {
      assert i != p;
      PairLeavesAPin(text, i + 1, p, m, n);
      PinMissed(text, i, m, n);
    } else if !FoundAt(text, i + l - 1, Word(PIN, m)) {
      PinsMeetAtQuotes(text, i, p, m);
      PairLeavesAPin(text, i + l, p, m, n);
      PinReplaced(text, i, m, n);
    } else {
      SharedPinStays(text, i, m, n);
    }
  }

  lemma PinMissed(text: string, i: nat, m: string, n: string)
    requires i < |text| && Word(PIN, m) != "" && !FoundAt(text, i, Word(PIN, m))
    requires Mentions(ReplaceAll(text, i + 1, Word(PIN, m), Word(PIN, n)), PIN, m)
    ensures Mentions(ReplaceAll(text, i, Word(PIN, m), Word(PIN, n)), PIN, m)
  {
    ReplaceStep(text, i, Word(PIN, m), Word(PIN, n));
    hide Word, Mentions, ReplaceAll;
    MentionBehind([text[i]], ReplaceAll(text, i + 1, Word(PIN, m), Word(PIN, n)), PIN, m);
  }

  lemma PinReplaced(text: string, i: nat, m: string, n: string)
    requires i < |text| && Word(PIN, m) != "" && FoundAt(text, i, Word(PIN, m))
    requires Mentions(ReplaceAll(text, i + |Word(PIN, m)|, Word(PIN, m), Word(PIN, n)), PIN, m)
    ensures Mentions(ReplaceAll(text, i, Word(PIN, m), Word(PIN, n)), PIN, m)
  {
    ReplaceStep(text, i, Word(PIN, m), Word(PIN, n));
    hide Word, Mentions, ReplaceAll;
    MentionBehind(Word(PIN, n), ReplaceAll(text, i + |Word(PIN, m)|, Word(PIN, m), Word(PIN, n)), PIN, m);
  }

  lemma SharedPinStays(text: string, i: nat, m: string, n: string)
    requires i < |text| && Word(PIN, m) != "" && '"' !in m && FoundAt(text, i, Word(PIN, m))
    requires FoundAt(text, i + |Word(PIN, m)| - 1, Word(PIN, m))
    ensures Mentions(ReplaceAll(text, i, Word(PIN, m), Word(PIN, n)), PIN, m)
  {
    hide Word, Mentions, ReplaceAll, FoundAt, Unquoted;
    PinShape(n);
    ReplaceStep(text, i, Word(PIN, m), Word(PIN, n));
    SecondPinStays(text, i + |Word(PIN, m)| - 1, m, n);
    PinBehind(Word(PIN, n), ReplaceAll(text, i + |Word(PIN, m)|, Word(PIN, m), Word(PIN, n)), m);
  }

  /** Inside a pin there is no quote, so another one can only begin at its end. */
  lemma PinsMeetAtQuotes(text: string, i: nat, p: nat, m: string)
    requires i < p && FoundAt(text, i, Word(PIN, m)) && FoundAt(text, p, Word(PIN, m)) && '"' !in m
    requires !FoundAt(text, i + |Word(PIN, m)| - 1, Word(PIN, m))
    ensures i + |Word(PIN, m)| <= p
  {
    PinShape(m);
    hide Word, Unquoted, FoundAt;
    var word := Word(PIN, m);
    CharFound(text, p, word, 0);
    if p < i + |word| - 1 {
      InsideAPin(m, p - i);
      CharFound(text, i, word, p - i);
    }
  }

  lemma NoQuoteInside(m: string)
    requires '"' !in m
    ensures '"' !in Unquoted(m)
  {
    forall c | c in Unquoted(m) ensures c != '"' {
      assert c in "0." || c in m || c in ".0";
    }
  }

  lemma InsideAPin(m: string, k: nat)
    requires '"' !in m && 0 < k < |Word(PIN, m)| - 1
    ensures Word(PIN, m)[k] != '"'
  {
    PinShape(m);
    NoQuoteInside(m);
    hide Word, Unquoted;
    assert Word(PIN, m)[k] == Unquoted(m)[k - 1];
  }

  function Unquoted(m: string): string {
    Minor(m) + ".0"
  }

  lemma PinShape(m: string)
    ensures var word := Word(PIN, m);
            word == ['"'] + Unquoted(m) + ['"'] && |word| > 2 && word[0] == '"' == word[|word| - 1]
  {
  }

  lemma MentionBehind(a: string, b: string, mention: Mention, m: string)
    requires Mentions(b, mention, m) && !mention.atLine
    ensures Mentions(a + b, mention, m)
  {
    hide Word;
    var p :| At(b, p, mention, m);
    assert (a + b)[|a| + p..|a| + p + |Word(mention, m)|] == b[p..p + |Word(mention, m)|];
    assert At(a + b, |a| + p, mention, m);
  }

  lemma PinBehind(replacement: string, rest: string, m: string)
    requires replacement != "" && replacement[|replacement| - 1] == '"'
    requires Unquoted(m) + ['"'] <= rest
    ensures Mentions(replacement + rest, PIN, m)
  {
    PinShape(m);
    hide Word, Unquoted;
    var out, p, word := replacement + rest, |replacement| - 1, Word(PIN, m);
    assert out[p..] == ['"'] + rest;
    assert out[p..p + |word|] == out[p..][..|word|] == word;
    assert At(out, p, PIN, m);
  }

  /** A pass keeps what stands in front of the next quote. */
  lemma {:induction false} QuoteIsReached(text: string, i: nat, u: string, pattern: string, replacement: string)
    requires pattern != "" && replacement != "" && pattern[0] == '"' == replacement[0]
    requires i <= |text| && '"' !in u && u + ['"'] <= text[i..]
    ensures u + ['"'] <= ReplaceAll(text, i, pattern, replacement)
    decreases |u|
  {
    assert text[i] == (u + ['"'])[0];
    FirstFound(text, i, pattern);
    hide FoundAt;
    if u != "" {
      assert u[0] in u && text[i] == u[0];
      assert u == [u[0]] + u[1..] && text[i..] == [text[i]] + text[i + 1..];
      assert (u + ['"'])[1..] == u[1..] + ['"'];
      QuoteIsReached(text, i + 1, u[1..], pattern, replacement);
    }
  }

  lemma FirstFound(text: string, i: nat, word: string)
    requires word != ""
    ensures FoundAt(text, i, word) ==> i < |text| && text[i] == word[0]
  {
    if FoundAt(text, i, word) {
      CharFound(text, i, word, 0);
    }
  }

  lemma SecondPinStays(text: string, p: nat, m: string, n: string)
    requires FoundAt(text, p, Word(PIN, m)) && '"' !in m
    ensures p < |text| && Unquoted(m) + ['"'] <= ReplaceAll(text, p + 1, Word(PIN, m), Word(PIN, n))
  {
    PinShape(m);
    PinShape(n);
    var word := Word(PIN, m);
    NoQuoteInside(m);
    hide Word, Unquoted;
    SliceOfSlice(text, p, p + |word|, 1, |word|);
    assert word[1..|word|] == Unquoted(m) + ['"'];
    assert text[p + 1..][..|word| - 1] == text[p + 1..p + |word|];
    QuoteIsReached(text, p + 1, Unquoted(m), word, Word(PIN, n));
  }
}
