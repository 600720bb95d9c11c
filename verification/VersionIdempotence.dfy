/**
 Running the version rewriter twice. Every step leaves nothing for its second run but one: two quoted
 pins of the old minor that share a quote. So the rewrite is idempotent on exactly the texts without
 such a pair; a release from a `.0` patch rewrites the pair as whole versions first.
 */
module VersionIdempotence {
  import opened PyText
  import opened VersionPattern
  import opened VersionRewriter
  import opened VersionMentions

  // ---------------------------------------------------------------- the marker pass

  ghost predicate NoMarkers(text: string, m: string, space: char -> bool) {
    forall gap :: Gap(gap, space) ==> !Mentions(text, Marker(gap), m)
  }

  ghost predicate NoMarkersBefore(text: string, limit: nat, m: string, space: char -> bool) {
    forall gap, p :: Gap(gap, space) && 0 <= p < limit ==> !At(text, p, Marker(gap), m)
  }

  predicate AtLineStart(text: string, i: nat) {
    i == 0 || (i <= |text| && text[i - 1] == '\n')
  }

  lemma MarkedIsAWord(gap: string, m: string)
    ensures Marked(gap, Minor(m)) == Word(Marker(gap), m)
  {
  }

  /** A marker that stands at the beginning of a line is found there. */
  lemma MarkedIsFound(text: string, i: nat, gap: string, m: string, space: char -> bool)
    requires Gap(gap, space) && !space('"') && AtLineStart(text, i) && FoundAt(text, i, Word(Marker(gap), m))
    ensures i < |text| && MarkerAt(text, i, Minor(m), space).Some?
  {
    var word, g := Word(Marker(gap), m), |MARKER| + |gap|;
    MarkerParts(gap, m);
    hide Word, Marker;
    PartFound(text, i, word, 0, |MARKER|);
    PartFound(text, i, word, |MARKER|, g);
    PartFound(text, i, word, g, |word|);
    assert text[i + g] == text[i + g..i + |word|][0] == '"';
    GapIsSkipped(text, i + |MARKER|, gap, space);
  }

  lemma PartFound(text: string, i: nat, word: string, a: nat, b: nat)
    requires FoundAt(text, i, word) && a <= b <= |word|
    ensures i + |word| <= |text| && text[i + a..i + b] == word[a..b]
  {
    SliceOfSlice(text, i, i + |word|, a, b);
  }

  lemma GapIsSkipped(text: string, i: nat, gap: string, space: char -> bool)
    requires Gap(gap, space) && !space('"') && i + |gap| < |text|
    requires text[i..i + |gap|] == gap && text[i + |gap|] == '"'
    ensures SkipSpace(text, i, space) == i + |gap|
  {
    var j := SkipSpace(text, i, space);
    forall k | i <= k < i + |gap| ensures space(text[k]) {
      assert text[k] == text[i..i + |gap|][k - i] == gap[k - i] && gap[k - i] in gap;
    }
  }

  lemma MarkerParts(gap: string, m: string)
    ensures var word, g := Word(Marker(gap), m), |MARKER| + |gap|;
            && |word| == g + |Minor(m)| + 2
            && word[0..|MARKER|] == MARKER && word[|MARKER|..g] == gap && word[g..|word|] == "\"" + Minor(m) + "\""
  {
    var word := Word(Marker(gap), m);
    assert word == MARKER + gap + ("\"" + Minor(m) + "\"");
  }

  /** Without a marker of the old minor the pass changes nothing. */
  lemma {:induction false} MarkerPassIsIdle(text: string, i: nat, m: string, now: string, space: char -> bool)
    requires i <= |text| && NoMarkers(text, m, space)
    ensures ReplaceMarkers(text, i, Minor(m), now, space) == text[i..]
    decreases |text| - i
  {
    hide NoMarkers, MarkerAt, Minor;
    if i < |text| {
      if MarkerAt(text, i, Minor(m), space).Some? {
        MarkerIsAMention(text, i, m, space);
      }
      MarkerPassIsIdle(text, i + 1, m, now, space);
    }
  }

  lemma MarkerIsAMention(text: string, i: nat, m: string, space: char -> bool)
    requires i < |text| && MarkerAt(text, i, Minor(m), space).Some?
    ensures !NoMarkers(text, m, space)
  {
    var quote := MarkerAt(text, i, Minor(m), space).value;
    MarkerIsMarked(text, i, quote, Minor(m), space);
    var gap := text[i + |MARKER|..quote];
    MarkedIsAWord(gap, m);
    assert At(text, i, Marker(gap), m);
  }

  /** The marker pass leaves no marker of the old minor. */
  lemma {:induction false} MarkersLeaveNone(done: string, text: string, i: nat, was: Version, now: Version,
                                            space: char -> bool, digit: char -> bool)
    requires Moves(was, now, digit) && Spaces(space) && i <= |text|
    requires NoMarkersBefore(done + text[i..], |done|, was.minor, space)
    requires AtLineStart(done, |done|) == AtLineStart(text, i)
    ensures var out := done + ReplaceMarkers(text, i, Minor(was.minor), Minor(now.minor), space);
            NoMarkersBefore(out, |out|, was.minor, space)
    decreases |text| - i
  {
    hide NoMarkersBefore, Moves, Spaces, MarkerAt, Marked, Gap, Minor;
    var m, n := Minor(was.minor), Minor(now.minor);
    if i == |text| {
      assert done + text[i..] == done + "" == done;
    } else {
      match MarkerAt(text, i, m, space)
      case Some(quote) =>
        var k, gap := quote + |m| + 2, text[i + |MARKER|..quote];
        var tail := ReplaceMarkers(text, k, m, n, space);
        MarkerIsMarked(text, i, quote, m, space);
        MarkerHitLeavesNone(done, text, i, quote, was, now, space, digit);
        MarkersLeaveNone(done + Marked(gap, n), text, k, was, now, space, digit);
        MarkerRegroup(done, text[i..quote], gap, n, tail);
      case None =>
        MarkerMissLeavesNone(done, text, i, was.minor, space);
        MarkersLeaveNone(done + [text[i]], text, i + 1, was, now, space, digit);
        ConcatAssociative(done, [text[i]], ReplaceMarkers(text, i + 1, m, n, space), "");
    }
  }

  lemma MarkerMissLeavesNone(done: string, text: string, i: nat, m: string, space: char -> bool)
    requires i < |text| && Spaces(space) && NoMarkersBefore(done + text[i..], |done|, m, space)
    requires AtLineStart(done, |done|) == AtLineStart(text, i) && MarkerAt(text, i, Minor(m), space).None?
    ensures NoMarkersBefore(done + [text[i]] + text[i + 1..], |done| + 1, m, space)
    ensures AtLineStart(done + [text[i]], |done| + 1) == AtLineStart(text, i + 1)
  {
    hide MarkerAt, Marker, Word;
    var whole := done + text[i..];
    assert whole == done + [text[i]] + text[i + 1..];
    forall gap | Gap(gap, space) ensures !At(whole, |done|, Marker(gap), m) {
      if At(whole, |done|, Marker(gap), m) {
        assert Marker(gap).atLine && (|done| > 0 ==> whole[|done| - 1] == done[|done| - 1]) by { MarkerIsAtLine(gap); }
        FoundBehind(done, text, i, Word(Marker(gap), m));
        MarkedIsFound(text, i, gap, m, space);
      }
    }
  }

  lemma MarkerIsAtLine(gap: string)
    ensures Marker(gap).atLine
  {
  }

  lemma FoundBehind(done: string, text: string, i: nat, word: string)
    requires i <= |text| && FoundAt(done + text[i..], |done|, word)
    ensures FoundAt(text, i, word)
  {
    assert (done + text[i..])[|done|..|done| + |word|] == text[i..i + |word|];
  }

  lemma MarkerHitLeavesNone(done: string, text: string, i: nat, quote: nat, was: Version, now: Version, space: char -> bool,
                            digit: char -> bool)
    requires Moves(was, now, digit) && Spaces(space) && i < |text|
    requires MarkerAt(text, i, Minor(was.minor), space) == Some(quote)
    requires NoMarkersBefore(done + text[i..], |done|, was.minor, space)
    ensures var k, gap := quote + |Minor(was.minor)| + 2, text[i + |MARKER|..quote];
            && k <= |text|
            && NoMarkersBefore(done + Marked(gap, Minor(now.minor)) + text[k..], |done| + |Marked(gap, Minor(now.minor))|,
                               was.minor, space)
            && AtLineStart(done + Marked(gap, Minor(now.minor)), |done| + |Marked(gap, Minor(now.minor))|) == AtLineStart(text, k)
  {
    var m, n := was.minor, now.minor;
    MarkerIsMarked(text, i, quote, Minor(m), space);
    var k, gap := quote + |Minor(m)| + 2, text[i + |MARKER|..quote];
    MarkedIsAWord(gap, m);
    MarkedIsAWord(gap, n);
    LastIsQuote(text, i, k, gap, m);
    LastIsQuote(Marked(gap, Minor(n)), 0, |Marked(gap, Minor(n))|, gap, n);
    hide MarkerAt, Moves, Spaces, Marked, At, Minor;
    forall other, p | Gap(other, space) && 0 <= p < |done| + |Marked(gap, Minor(n))|
      ensures !At(done + Marked(gap, Minor(n)) + text[k..], p, Marker(other), m)
    {
      MarkerHitAddsNone(done, text, i, k, gap, other, was, now, space, digit, p);
    }
  }

  lemma LastIsQuote(text: string, i: nat, k: nat, gap: string, m: string)
    requires i <= k <= |text| && text[i..k] == Word(Marker(gap), m)
    ensures k > 0 && text[k - 1] == '"'
  {
    MarkerParts(gap, m);
    var word := Word(Marker(gap), m);
    assert word[|word| - 1] == word[|MARKER| + |gap|..|word|][|Minor(m)| + 1] == '"';
    assert text[i..k][k - 1 - i] == text[k - 1];
  }

  lemma MarkerHitAddsNone(done: string, text: string, i: nat, k: nat, gap: string, other: string, was: Version, now: Version,
                          space: char -> bool, digit: char -> bool, p: int)
    requires Moves(was, now, digit) && Spaces(space) && Gap(gap, space) && Gap(other, space)
    requires i <= k <= |text| && text[i..] == Word(Marker(gap), was.minor) + text[k..]
    requires NoMarkersBefore(done + text[i..], |done|, was.minor, space)
    requires 0 <= p < |done| + |Word(Marker(gap), now.minor)|
    ensures !At(done + Word(Marker(gap), now.minor) + text[k..], p, Marker(other), was.minor)
  {
    hide Moves, Spaces, Marker, Word, At, Minor, Proper, Gap;
    var m, n, rest := was.minor, now.minor, text[k..];
    var mention, sought := Marker(gap), Marker(other);
    WasAdmitted(was, now, digit);
    MarkerIsProper(gap, space, digit);
    MarkerIsProper(other, space, digit);
    var before, after := done + mention.left, mention.right + rest;
    Surrounds(done, rest, mention, digit);
    Regrouped(done, mention, n, rest);
    Regrouped(done, mention, m, rest);
    ConcatAssociative(done, Word(mention, m), rest, "");
    assert sought.right == mention.right == "\"" by { MarkerRight(gap); MarkerRight(other); }
    if At(done + Word(mention, n) + rest, p, sought, m) {
      HitSplit(before, n, after, after, 0, sought, m, p, digit);
      NothingMeets(other);
      assert p + |Word(sought, m)| <= |before| && At(done + text[i..], p, sought, m);
      if p >= |done| {
        NoMarkerInside(done, gap, other, m, p, space, text[i..]);
      }
    }
  }

  lemma MarkerRight(gap: string)
    ensures Marker(gap).right == "\""
  {
  }

  lemma NothingMeets(gap: string)
    ensures forall k: nat :: !Meets(Marker(gap), k)
  {
    assert Marker(gap).left[0] == MARKER[0] == 'c';
  }

  /** Up to its quote a marker holds no other one: there is no quote in it. */
  lemma NoMarkerInside(done: string, gap: string, other: string, m: string, p: int, space: char -> bool, rest: string)
    requires Spaces(space) && Gap(gap, space) && Word(Marker(gap), m) <= rest && p >= |done|
    requires p + |Word(Marker(other), m)| <= |done| + |Marker(gap).left|
    ensures !At(done + rest, p, Marker(other), m)
  {
    MarkerParts(gap, m);
    MarkerParts(other, m);
    var word, sought := Word(Marker(gap), m), Word(Marker(other), m);
    var q := |MARKER| + |other|;
    assert sought[q] == sought[q..|sought|][0] == '"';
    var j := p + q - |done|;
    assert word[j] == (done + rest)[p + q];
    assert word[j] == word[|MARKER|..|MARKER| + |gap|][j - |MARKER|] == gap[j - |MARKER|] && gap[j - |MARKER|] in gap;
    assert word[j] != '"';
    if At(done + rest, p, Marker(other), m) {
      CharFound(done + rest, p, sought, q);
    }
  }

  lemma MarkerPassLeavesNone(text: string, was: Version, now: Version, space: char -> bool, digit: char -> bool)
    requires Moves(was, now, digit) && Spaces(space)
    ensures NoMarkers(ReplaceMarkers(text, 0, Minor(was.minor), Minor(now.minor), space), was.minor, space)
  {
    hide Moves, Spaces, Mentions;
    var out := ReplaceMarkers(text, 0, Minor(was.minor), Minor(now.minor), space);
    assert "" + text[0..] == text && "" + out == out;
    MarkersLeaveNone("", text, 0, was, now, space, digit);
    forall gap | Gap(gap, space) ensures !Mentions(out, Marker(gap), was.minor) {
      NoneIsNoMention(out, Marker(gap), was.minor);
    }
  }

  // ---------------------------------------------------------------- where the pairs come from

  /** The substitution keeps what one replaced occurrence keeps. */
  lemma {:induction false} SubstituteKeeps(g: string -> bool, done: string, text: string, i: nat, was: string, now: string,
                                           digit: char -> bool)
    requires was != "" && i <= |text| && KeptBy(g, was, now) && g(done + text[i..])
    ensures g(done + Substitute(text, i, was, now, digit))
    decreases |text| - i
  {
    hide MatchAt, KeptBy, Substitute, Pieces;
    ScanStep(text, i, was, now, digit);
    if i == |text| {
      assert text[i..] == "";
    } else {
      match MatchAt(text, i, was, digit)
      case Some(p) =>
        var k, prefix := i + p + |was|, text[i..i + p];
        assert StandsAt(text, i + p, was, digit);
        CutHit(done, text, i, i + p, was);
        OneKept(g, done + prefix, was, now, text[k..]);
        SubstituteKeeps(g, done + prefix + now, text, k, was, now, digit);
        ConcatAssociative(done, prefix, now, Substitute(text, k, was, now, digit));
      case None =>
        assert text[i..] == [text[i]] + text[i + 1..];
        ConcatAssociative(done, [text[i]], text[i + 1..], "");
        SubstituteKeeps(g, done + [text[i]], text, i + 1, was, now, digit);
        ConcatAssociative(done, [text[i]], Substitute(text, i + 1, was, now, digit), "");
    }
  }

  lemma OneKept(g: string -> bool, before: string, pattern: string, replacement: string, after: string)
    requires KeptBy(g, pattern, replacement) && g(before + pattern + after)
    ensures g(before + replacement + after)
  {
  }

  lemma PairShape(m: string)
    ensures var pair, u := Pair(m), Unquoted(m);
            && |pair| == 3 + 2 * |u|
            && pair[0] == pair[1 + |u|] == pair[2 + 2 * |u|] == '"'
            && pair[1..1 + |u|] == u && pair[2 + |u|..2 + 2 * |u|] == u
            && u == Version(m, "0").Text() && u != "" && u[0] == '0'
  {
    var u := Unquoted(m);
    assert Pair(m) == ['"'] + u + ['"'] + u + ['"'];
    assert u == Version(m, "0").Text();
  }

  /** A text without quotes that a pair overlaps lies inside one of its two pins. */
  lemma PairAround(a: string, x: string, z: string, m: string, p: nat) returns (k: nat)
    requires FoundAt(a + x + z, p, Pair(m)) && x != "" && '"' !in x
    requires p < |a| + |x| && p + |Pair(m)| > |a|
    ensures k + |x| <= |Unquoted(m)| && Unquoted(m)[k..k + |x|] == x
  {
    var text, pair, u := a + x + z, Pair(m), Unquoted(m);
    PairShape(m);
    hide Pair, Unquoted, Version.Text, FoundAt;
    FoundFits(text, p, pair);
    OutsideQuoteless(a, x, z, p, pair, 0);
    OutsideQuoteless(a, x, z, p, pair, 1 + |u|);
    OutsideQuoteless(a, x, z, p, pair, 2 + 2 * |u|);
    var at := if |a| > p + 1 + |u| then p + 2 + |u| else p + 1;
    k := |a| - at;
    PartFound(text, p, pair, at - p, at - p + |u|);
    SliceOfSlice(text, at, at + |u|, k, k + |x|);
    assert text[|a|..|a| + |x|] == x;
  }

  lemma OutsideQuoteless(a: string, x: string, z: string, p: nat, word: string, q: nat)
    requires FoundAt(a + x + z, p, word) && q < |word| && word[q] == '"' && '"' !in x
    ensures p + q < |a| || p + q >= |a| + |x|
  {
    var text := a + x + z;
    forall j | |a| <= j < |a| + |x| ensures text[j] != '"' {
      assert text[j] == x[j - |a|] && x[j - |a|] in x;
    }
    CharFound(text, p, word, q);
  }

  /** A version inside a pin begins it, so it is of the old minor line, at patch 0. */
  lemma VersionInAPin(v: Version, m: string, k: nat, digit: char -> bool)
    requires Digits(digit) && v.Admitted(digit) && Numeral(m)
    requires k + |v.Text()| <= |Unquoted(m)| && Unquoted(m)[k..k + |v.Text()|] == v.Text()
    ensures v.minor == m && v.patch == "0"
  {
    var pin := Version(m, "0");
    PairShape(m);
    ValidIsAdmitted(pin, digit);
    AdmittedShape(pin, digit);
    AdmittedShape(v, digit);
    VersionParts(pin);
    VersionParts(v);
    var t, u := v.Text(), pin.Text();
    hide Unquoted, Pair, Digits;
    if k > 0 {
      NoProperCover(pin, v, k, digit);
    } else {
      assert u[0..|t|] == t;
      assert t[2 + |v.minor|] == u[2 + |v.minor|];
      assert |v.minor| == |m| && |t| == |u|;
      assert t == u;
      TextInjective(v, pin, digit);
    }
  }

  lemma NoQuote(v: Version, digit: char -> bool)
    requires Digits(digit) && v.Admitted(digit)
    ensures '"' !in v.Text() && v.Text() != ""
  {
    AdmittedShape(v, digit);
  }

  /** Exchanging one version for another, neither of them in a pin, neither makes nor breaks a pair. */
  lemma PairSurvives(x: Version, y: Version, m: string, digit: char -> bool)
    requires Digits(digit) && x.Admitted(digit) && Numeral(m) && !(x.minor == m && x.patch == "0")
    ensures KeptBy((s: string) => HoldsPair(s, m), x.Text(), y.Text())
  {
    hide Pair, FoundAt, Version.Text, Digits;
    forall a, z | HoldsPair(a + x.Text() + z, m) ensures HoldsPair(a + y.Text() + z, m) {
      var p: nat :| FoundAt(a + x.Text() + z, p, Pair(m));
      NoQuote(x, digit);
      if p < |a| + |x.Text()| && p + |Pair(m)| > |a| {
        var k := PairAround(a, x.Text(), z, m, p);
        VersionInAPin(x, m, k, digit);
      } else {
        PairElsewhere(a, x.Text(), y.Text(), z, m, p);
      }
    }
  }

  lemma PairElsewhere(a: string, x: string, y: string, z: string, m: string, p: nat)
    requires FoundAt(a + x + z, p, Pair(m)) && (p + |Pair(m)| <= |a| || p >= |a| + |x|)
    ensures HoldsPair(a + y + z, m)
  {
    hide Pair;
    var pair := Pair(m);
    if p + |pair| <= |a| {
      assert (a + x + z)[p..p + |pair|] == a[p..p + |pair|] == (a + y + z)[p..p + |pair|];
      assert FoundAt(a + y + z, p, pair);
    } else {
      var j := p - |a| - |x|;
      assert (a + x + z)[p..p + |pair|] == z[j..j + |pair|] == (a + y + z)[|a| + |y| + j..|a| + |y| + j + |pair|];
      assert FoundAt(a + y + z, |a| + |y| + j, pair);
    }
  }

  // ---------------------------------------------------------------- the passes of a run

  function Pass(text: string, mention: Mention, was: Version, now: Version): string
    requires mention.left != ""
  {
    WordParts(mention, was.minor);
    ReplaceAll(text, 0, Word(mention, was.minor), Word(mention, now.minor))
  }

  lemma PassAddsNone(text: string, replaced: Mention, mention: Mention, was: Version, now: Version, digit: char -> bool)
    requires Moves(was, now, digit) && Proper(replaced, digit) && Proper(mention, digit) && replaced.left != ""
    ensures !Mentions(text, mention, was.minor) ==> !Mentions(Pass(text, replaced, was, now), mention, was.minor)
  {
    if !Mentions(text, mention, was.minor) {
      WordParts(replaced, was.minor);
      hide Moves, Proper, Mentions, Word, KeptBy;
      SwapAddsNone(replaced, mention, was, now, digit);
      PassKeeps((s: string) => !Mentions(s, mention, was.minor), text, Word(replaced, was.minor), Word(replaced, now.minor));
    }
  }

  lemma PassKeepsOthers(text: string, replaced: Mention, mention: Mention, was: Version, now: Version, digit: char -> bool)
    requires Moves(was, now, digit) && Proper(replaced, digit) && Proper(mention, digit) && replaced.left != ""
    requires || replaced.left[|replaced.left| - 1] != mention.left[|mention.left| - 1]
             || replaced.right[0] != mention.right[0]
    ensures Mentions(text, mention, was.minor) ==> Mentions(Pass(text, replaced, was, now), mention, was.minor)
  {
    if Mentions(text, mention, was.minor) {
      WordParts(replaced, was.minor);
      SwapKeepsOthers(replaced, mention, was, now, digit);
      hide Moves, Proper, Mentions, Word, KeptBy;
      PassKeeps((s: string) => Mentions(s, mention, was.minor), text, Word(replaced, was.minor), Word(replaced, now.minor));
    }
  }

  lemma PassAddsNoMarkers(text: string, replaced: Mention, was: Version, now: Version, space: char -> bool, digit: char -> bool)
    requires Moves(was, now, digit) && Spaces(space) && Proper(replaced, digit) && replaced.left != ""
    ensures NoMarkers(text, was.minor, space) ==> NoMarkers(Pass(text, replaced, was, now), was.minor, space)
  {
    hide Moves, Proper, Mentions, Pass, Marker;
    forall gap | Gap(gap, space)
      ensures !Mentions(text, Marker(gap), was.minor) ==> !Mentions(Pass(text, replaced, was, now), Marker(gap), was.minor)
    {
      assert Digits(digit) by { WasAdmitted(was, now, digit); }
      MarkerIsProper(gap, space, digit);
      PassAddsNone(text, replaced, Marker(gap), was, now, digit);
    }
  }

  function MarkerPass(text: string, was: Version, now: Version, space: char -> bool): string {
    ReplaceMarkers(text, 0, Minor(was.minor), Minor(now.minor), space)
  }

  /** The marker pass adds no mention of any kind, and removes none but markers. */
  lemma MarkerPassAddsNone(text: string, mention: Mention, was: Version, now: Version, space: char -> bool, digit: char -> bool)
    requires Moves(was, now, digit) && Spaces(space) && Proper(mention, digit)
    ensures !Mentions(text, mention, was.minor) ==> !Mentions(MarkerPass(text, was, now, space), mention, was.minor)
  {
    if !Mentions(text, mention, was.minor) {
      hide Moves, Proper, Mentions, Word, KeptBy, Marked, Marker, Minor;
      var g := (s: string) => !Mentions(s, mention, was.minor);
      forall gap | Gap(gap, space) ensures KeptBy(g, Marked(gap, Minor(was.minor)), Marked(gap, Minor(now.minor))) {
        assert Digits(digit) by { WasAdmitted(was, now, digit); }
        MarkerIsProper(gap, space, digit);
        MarkedIsAWord(gap, was.minor);
        MarkedIsAWord(gap, now.minor);
        SwapAddsNone(Marker(gap), mention, was, now, digit);
      }
      MarkerPassHas(g, text, was, now, space);
    }
  }

  lemma MarkerPassKeepsPins(text: string, was: Version, now: Version, space: char -> bool, digit: char -> bool)
    requires Moves(was, now, digit) && Spaces(space)
    ensures Mentions(text, PIN, was.minor) ==> Mentions(MarkerPass(text, was, now, space), PIN, was.minor)
  {
    if Mentions(text, PIN, was.minor) {
      hide Moves, Proper, Mentions, Word, KeptBy, Marked, Marker, Minor;
      var g := (s: string) => Mentions(s, PIN, was.minor);
      forall gap | Gap(gap, space) ensures KeptBy(g, Marked(gap, Minor(was.minor)), Marked(gap, Minor(now.minor))) {
        assert Digits(digit) by { WasAdmitted(was, now, digit); }
        MarkerIsProper(gap, space, digit);
        FixedAreProper(digit);
        MarkerRight(gap);
        MarkedIsAWord(gap, was.minor);
        MarkedIsAWord(gap, now.minor);
        assert Marker(gap).left != "" by { LeftGiven(Marker(gap), digit); }
        SwapKeepsOthers(Marker(gap), PIN, was, now, digit);
      }
      MarkerPassHas(g, text, was, now, space);
    }
  }

  lemma MarkerPassHas(g: string -> bool, text: string, was: Version, now: Version, space: char -> bool)
    requires MarkersKept(g, Minor(was.minor), Minor(now.minor), space) && g(text)
    ensures g(MarkerPass(text, was, now, space))
  {
    hide MarkersKept, ReplaceMarkers;
    var out := MarkerPass(text, was, now, space);
    assert "" + text[0..] == text && "" + out == out;
    MarkersKeep(g, "", text, 0, Minor(was.minor), Minor(now.minor), space);
  }

  // ---------------------------------------------------------------- two runs

  /** The rewrite as its five passes. */
  lemma RewrittenInPasses(text: string, was: Version, now: Version, digit: char -> bool, space: char -> bool)
    requires Moves(was, now, digit)
    ensures was.Text() != "" && Rewritten(text, was, now, digit, space)
            == Pass(MarkerPass(Pass(Pass(Substitute(text, 0, was.Text(), now.Text(), digit), FLOOR, was, now), PIN, was, now),
                               was, now, space), BOUNDARY, was, now)
  {
    hide ReplaceAll, ReplaceMarkers, Substitute;
    VersionShape(was);
    assert Minor(was.minor)[2..] == was.minor && Minor(now.minor)[2..] == now.minor;
  }

  /** What a run leaves for the next one to do, apart from pins. */
  ghost predicate Settled(text: string, was: Version, digit: char -> bool, space: char -> bool) {
    && Clean(text, was.Text(), digit)
    && !Mentions(text, FLOOR, was.minor) && !Mentions(text, BOUNDARY, was.minor) && NoMarkers(text, was.minor, space)
  }

  lemma FirstRun(text: string, was: Version, now: Version, digit: char -> bool, space: char -> bool)
    requires Replaces(was, now, digit) && was.minor != now.minor && Spaces(space)
    ensures var r := Rewritten(text, was, now, digit, space);
            Settled(r, was, digit, space) && (Mentions(r, PIN, was.minor) <==> was.patch != "0" && HoldsPair(text, was.minor))
  {
    var m := was.minor;
    assert Moves(was, now, digit) && Numeral(m);
    RewrittenIsClean(text, was, now, digit, space);
    RewrittenInPasses(text, was, now, digit, space);
    FixedAreProper(digit);
    hide Replaces, Moves, Proper, Mentions, Pass, MarkerPass, Substitute, Clean, Version.Text, Spaces, HoldsPair;
    var bumped := Substitute(text, 0, was.Text(), now.Text(), digit);
    var floors := Pass(bumped, FLOOR, was, now);
    var pinned := Pass(floors, PIN, was, now);
    var marked := MarkerPass(pinned, was, now, space);
    FloorsAreGone(bumped, was, now, digit);
    PairsOfFloors(text, was, now, digit);
    PinsAfterPass(floors, was, now, digit);
    PassAddsNone(floors, PIN, FLOOR, was, now, digit);
    MarkerPassAddsNone(pinned, FLOOR, was, now, space, digit);
    PassAddsNone(marked, BOUNDARY, FLOOR, was, now, digit);
    MarkersAreGone(pinned, was, now, space, digit);
    PassAddsNoMarkers(marked, BOUNDARY, was, now, space, digit);
    BoundariesAreGone(marked, was, now, digit);
    MarkerPassAddsNone(pinned, PIN, was, now, space, digit);
    MarkerPassKeepsPins(pinned, was, now, space, digit);
    PassAddsNone(marked, BOUNDARY, PIN, was, now, digit);
    PassKeepsOthers(marked, BOUNDARY, PIN, was, now, digit);
  }

  lemma FloorsAreGone(text: string, was: Version, now: Version, digit: char -> bool)
    requires Moves(was, now, digit) && Proper(FLOOR, digit)
    ensures !Mentions(Pass(text, FLOOR, was, now), FLOOR, was.minor)
  {
    hide Moves, Proper, Mentions, Apart;
    FloorsAndBoundariesAreApart(text, was.minor);
    PassLeavesNone(text, FLOOR, was, now, digit);
  }

  lemma BoundariesAreGone(text: string, was: Version, now: Version, digit: char -> bool)
    requires Moves(was, now, digit) && Proper(BOUNDARY, digit)
    ensures !Mentions(Pass(text, BOUNDARY, was, now), BOUNDARY, was.minor)
  {
    hide Moves, Proper, Mentions, Apart;
    FloorsAndBoundariesAreApart(text, was.minor);
    PassLeavesNone(text, BOUNDARY, was, now, digit);
  }

  lemma MarkersAreGone(text: string, was: Version, now: Version, space: char -> bool, digit: char -> bool)
    requires Moves(was, now, digit) && Spaces(space)
    ensures NoMarkers(MarkerPass(text, was, now, space), was.minor, space)
  {
    hide Moves, Spaces, NoMarkers;
    MarkerPassLeavesNone(text, was, now, space, digit);
  }

  /** A pass over the pins leaves one exactly where two of them shared a quote. */
  lemma PinsAfterPass(text: string, was: Version, now: Version, digit: char -> bool)
    requires Moves(was, now, digit) && Proper(PIN, digit)
    ensures Mentions(Pass(text, PIN, was, now), PIN, was.minor) <==> HoldsPair(text, was.minor)
  {
    assert '"' !in was.minor;
    hide Moves, Proper, Mentions, Apart, Pair;
    PinsAreApartExactly(text, was.minor);
    if HoldsPair(text, was.minor) {
      var p: nat :| FoundAt(text, p, Pair(was.minor));
      PairLeavesAPin(text, 0, p, was.minor, now.minor);
    } else {
      PassLeavesNone(text, PIN, was, now, digit);
    }
  }

  /** The pairs left in front of the pins' pass are the text's own, unless whole versions were pinned. */
  lemma PairsOfFloors(text: string, was: Version, now: Version, digit: char -> bool)
    requires Replaces(was, now, digit) && was.minor != now.minor && Proper(FLOOR, digit)
    ensures was.Text() != "" && (HoldsPair(Pass(Substitute(text, 0, was.Text(), now.Text(), digit), FLOOR, was, now), was.minor)
                                 <==> was.patch != "0" && HoldsPair(text, was.minor))
  {
    VersionShape(was);
    hide HoldsPair, Pass, Version.Text, Exposes;
    var bumped := Substitute(text, 0, was.Text(), now.Text(), digit);
    PairsAcrossFloors(bumped, was, now, digit);
    if was.patch == "0" {
      NoOldVersionSurvives(text, was, now, digit);
      CleanHoldsNoPair(bumped, was, digit);
    } else {
      PairsAcrossSubstitution(text, was, now, digit);
    }
  }

  lemma PairsAcrossSubstitution(text: string, was: Version, now: Version, digit: char -> bool)
    requires Digits(digit) && was.Valid() && now.Admitted(digit) && was.minor != now.minor && was.patch != "0"
    ensures was.Text() != ""
            && (HoldsPair(Substitute(text, 0, was.Text(), now.Text(), digit), was.minor) <==> HoldsPair(text, was.minor))
  {
    VersionShape(was);
    ValidIsAdmitted(was, digit);
    hide HoldsPair, Version.Text, Digits, KeptBy;
    var m, out := was.minor, Substitute(text, 0, was.Text(), now.Text(), digit);
    assert "" + text[0..] == text && "" + out == out;
    PairSurvives(was, now, m, digit);
    NoPairAppears(now, was, m, digit);
    if HoldsPair(text, m) {
      SubstituteKeeps((s: string) => HoldsPair(s, m), "", text, 0, was.Text(), now.Text(), digit);
    } else {
      SubstituteKeeps((s: string) => !HoldsPair(s, m), "", text, 0, was.Text(), now.Text(), digit);
    }
  }

  lemma NoPairAppears(x: Version, y: Version, m: string, digit: char -> bool)
    requires Digits(digit) && x.Admitted(digit) && Numeral(m) && !(x.minor == m && x.patch == "0")
    ensures KeptBy((s: string) => !HoldsPair(s, m), y.Text(), x.Text())
  {
    hide HoldsPair, Version.Text, Digits;
    PairSurvives(x, y, m, digit);
    forall a, z | !HoldsPair(a + y.Text() + z, m) ensures !HoldsPair(a + x.Text() + z, m) {
    }
  }

  lemma FloorsAvoidPairs(was: Version, now: Version, digit: char -> bool)
    requires Moves(was, now, digit)
    ensures KeptBy((s: string) => HoldsPair(s, was.minor), Word(FLOOR, was.minor), Word(FLOOR, now.minor))
    ensures KeptBy((s: string) => !HoldsPair(s, was.minor), Word(FLOOR, was.minor), Word(FLOOR, now.minor))
  {
    WasAdmitted(was, now, digit);
    var m, x, y := was.minor, Word(FLOOR, was.minor), Word(FLOOR, now.minor);
    hide HoldsPair, Digits, AdmittedNumeral, Word;
    forall a, z ensures HoldsPair(a + x + z, m) <==> HoldsPair(a + y + z, m) {
      if HoldsPair(a + x + z, m) {
        PairBesideFloor(a, m, now.minor, z, m, digit);
      }
      if HoldsPair(a + y + z, m) {
        PairBesideFloor(a, now.minor, m, z, m, digit);
      }
    }
  }

  lemma PairBesideFloor(a: string, x: string, y: string, z: string, m: string, digit: char -> bool)
    requires Digits(digit) && AdmittedNumeral(x, digit) && AdmittedNumeral(m, digit)
    requires HoldsPair(a + Word(FLOOR, x) + z, m)
    ensures HoldsPair(a + Word(FLOOR, y) + z, m)
  {
    var floor, pair := Word(FLOOR, x), Pair(m);
    WordParts(FLOOR, x);
    MinorShape(x, digit);
    assert floor[0] == '>' && '"' !in floor;
    PairChars(m, digit);
    PairShape(m);
    hide Word, Pair, Digits, FoundAt, Minor;
    var text := a + floor + z;
    assert text[|a|] == '>';
    var p: nat :| FoundAt(text, p, pair);
    OutsideQuoteless(a, floor, z, p, pair, 0);
    if p < |a| && p + |pair| > |a| {
      CharFound(text, p, pair, |a| - p);
    }
    PairElsewhere(a, floor, Word(FLOOR, y), z, m, p);
  }

  lemma PairChars(m: string, digit: char -> bool)
    requires Digits(digit) && AdmittedNumeral(m, digit)
    ensures forall k :: 0 <= k < |Pair(m)| ==> Pair(m)[k] != '>'
  {
    assert '>' !in m;
    forall k | 0 <= k < |Pair(m)| ensures Pair(m)[k] != '>' {
      var c := Pair(m)[k];
      assert c in "\"0." || c in m || c in ".0\"0." || c in ".0\"";
    }
  }

  /** A text free of the old version holds no pin of it: the quotes are boundaries. */
  lemma CleanHoldsNoPair(text: string, was: Version, digit: char -> bool)
    requires was.Valid() && was.patch == "0" && Digits(digit) && Clean(text, was.Text(), digit)
    ensures !HoldsPair(text, was.minor)
  {
    forall p: nat ensures !FoundAt(text, p, Pair(was.minor)) {
      if FoundAt(text, p, Pair(was.minor)) {
        PairMatches(text, p, was, digit);
      }
    }
  }

  lemma PairMatches(text: string, p: nat, was: Version, digit: char -> bool)
    requires was.Valid() && was.patch == "0" && FoundAt(text, p, Pair(was.minor))
    ensures !Clean(text, was.Text(), digit)
  {
    var pair, u := Pair(was.minor), Unquoted(was.minor);
    PairShape(was.minor);
    hide Pair, Unquoted, Version.Text;
    PartFound(text, p, pair, 1, 1 + |u|);
    CharFound(text, p, pair, 0);
    CharFound(text, p, pair, 1 + |u|);
    assert text[p + 1] == text[p + 1..p + 1 + |u|][0] == '0';
    assert StandsAt(text, p + 1, u, digit);
    assert MatchAt(text, p + 1, u, digit).Some?;
  }

  /** A floor and a pair do not overlap. */
  lemma PairsAcrossFloors(text: string, was: Version, now: Version, digit: char -> bool)
    requires Moves(was, now, digit)
    ensures HoldsPair(Pass(text, FLOOR, was, now), was.minor) <==> HoldsPair(text, was.minor)
  {
    hide HoldsPair, Moves, Word, KeptBy;
    var m, x, y := was.minor, Word(FLOOR, was.minor), Word(FLOOR, now.minor);
    WordParts(FLOOR, m);
    FloorsAvoidPairs(was, now, digit);
    if HoldsPair(text, m) {
      PassKeeps((s: string) => HoldsPair(s, m), text, x, y);
    } else {
      PassKeeps((s: string) => !HoldsPair(s, m), text, x, y);
    }
  }

  lemma SecondRun(text: string, was: Version, now: Version, digit: char -> bool, space: char -> bool)
    requires Moves(was, now, digit) && Spaces(space) && Settled(text, was, digit, space)
    ensures Rewritten(text, was, now, digit, space) == Pass(text, PIN, was, now)
  {
    RewrittenInPasses(text, was, now, digit, space);
    assert Digits(digit) by { WasAdmitted(was, now, digit); }
    FixedAreProper(digit);
    hide Moves, Spaces, Proper, Mentions, Clean, Version.Text, MarkerPass, NoMarkers, Substitute, Pass;
    CleanIsFixed(text, 0, was.Text(), now.Text(), digit);
    assert text[0..] == text;
    PassDoesNothing(text, FLOOR, was, now);
    var pinned := Pass(text, PIN, was, now);
    PassAddsNoMarkers(text, PIN, was, now, space, digit);
    PassAddsNone(text, PIN, BOUNDARY, was, now, digit);
    MarkerPassDoesNothing(pinned, was, now, space);
    PassDoesNothing(pinned, BOUNDARY, was, now);
  }

  lemma PassDoesNothing(text: string, mention: Mention, was: Version, now: Version)
    requires mention.left != "" && !mention.atLine && !Mentions(text, mention, was.minor)
    ensures Pass(text, mention, was, now) == text
  {
    PassIsIdle(text, 0, mention, was.minor, Word(mention, now.minor));
    assert text[0..] == text;
  }

  lemma MarkerPassDoesNothing(text: string, was: Version, now: Version, space: char -> bool)
    requires NoMarkers(text, was.minor, space)
    ensures MarkerPass(text, was, now, space) == text
  {
    MarkerPassIsIdle(text, 0, was.minor, Minor(now.minor), space);
    assert text[0..] == text;
  }

  lemma PinPassIsIdleExactly(text: string, was: Version, now: Version, digit: char -> bool)
    requires Moves(was, now, digit) && Proper(PIN, digit)
    ensures Pass(text, PIN, was, now) == text <==> !Mentions(text, PIN, was.minor)
  {
    hide Moves, Proper;
    if p :| At(text, p, PIN, was.minor) {
      PassChanges(text, 0, p, PIN, was, now, digit);
      assert text[0..] == text;
    } else {
      PassDoesNothing(text, PIN, was, now);
    }
  }

  /**
   Between two minor lines, rewriting twice is rewriting once if and only if the release starts from a `.0` patch
   or the text holds no two quoted pins of the old minor that share a quote.
   */
  lemma RewriteTwiceExactly(text: string, was: Version, now: Version, digit: char -> bool, space: char -> bool)
    requires Replaces(was, now, digit) && was.minor != now.minor && Spaces(space)
    ensures var once := Rewritten(text, was, now, digit, space);
            Rewritten(once, was, now, digit, space) == once <==> was.patch == "0" || !HoldsPair(text, was.minor)
  {
    assert Moves(was, now, digit);
    FixedAreProper(digit);
    hide Replaces, Moves, Spaces, Proper, Mentions, Rewritten, Settled, HoldsPair;
    FirstRun(text, was, now, digit, space);
    var once := Rewritten(text, was, now, digit, space);
    SecondRun(once, was, now, digit, space);
    PinPassIsIdleExactly(once, was, now, digit);
  }

  /** Within a minor line it always is. */
  lemma PatchRewriteTwice(text: string, was: Version, now: Version, digit: char -> bool, space: char -> bool)
    requires Replaces(was, now, digit) && was.minor == now.minor
    ensures var once := Rewritten(text, was, now, digit, space);
            Rewritten(once, was, now, digit, space) == once
  {
    hide Replaces, Substitute;
    SubstituteTwice(text, was, now, digit);
  }

  /** The input on which a release from 0.5.1 to 0.6.0 is not done after one run. */
  lemma SharedQuoteIsNotIdempotent(digit: char -> bool, space: char -> bool)
    requires Digits(digit) && Spaces(space)
    ensures var was, now := Version("5", "1"), Version("6", "0");
            var once := Rewritten("\"0.5.0\"0.5.0\"", was, now, digit, space);
            Rewritten(once, was, now, digit, space) != once
  {
    var was, now, text := Version("5", "1"), Version("6", "0"), "\"0.5.0\"0.5.0\"";
    ValidIsAdmitted(now, digit);
    ValidNeverExposes(now, was);
    assert text == Pair("5");
    assert text[0..|text|] == text && FoundAt(text, 0, Pair("5"));
    assert Replaces(was, now, digit) && HoldsPair(text, "5");
    hide Rewritten, HoldsPair;
    RewriteTwiceExactly(text, was, now, digit, space);
  }
}
