/**
 Which texts the release script leaves alone. What counts as an occurrence of the old version, and which of them the
 pattern refuses, is written out character by character here, apart from the scanner's own functions.
 */
module VersionUntouched {
  import opened PyText
  import opened VersionPattern
  import opened VersionRewriter
  import opened VersionMentions
  import opened VersionIdempotence

  // ---------------------------------------------------------------- the pattern

  /** An ASCII letter or digit stands in front, other than the `v` of a bounded version. */
  predicate RefusedBehind(text: string, p: nat)
    requires p <= |text|
  {
    && p > 0
    && ('0' <= text[p - 1] <= '9' || 'A' <= text[p - 1] <= 'Z' || 'a' <= text[p - 1] <= 'z')
    && !(text[p - 1] == 'v' && (p == 1 || !('0' <= text[p - 2] <= '9' || 'A' <= text[p - 2] <= 'Z' || 'a' <= text[p - 2] <= 'z')))
  }

  /** What goes on at `q` makes a longer word, build label or version number of it. */
  predicate RefusedInFront(text: string, q: nat, digit: char -> bool) {
    && q < |text|
    && (|| '0' <= text[q] <= '9' || 'A' <= text[q] <= 'Z' || 'a' <= text[q] <= 'z'
        || text[q] == '_' || text[q] == '+' || text[q] == '-'
        || (text[q] == '.' && q + 1 < |text| && digit(text[q + 1])))
  }

  /** The occurrence of `word` at `p` is part of something longer. */
  predicate Refused(text: string, p: nat, word: string, digit: char -> bool)
    requires p <= |text|
  {
    RefusedBehind(text, p) || RefusedInFront(text, p + |word|, digit)
  }

  ghost predicate AllRefused(text: string, word: string, digit: char -> bool) {
    forall p: nat :: FoundAt(text, p, word) ==> Refused(text, p, word, digit)
  }

  lemma StandsUnlessRefused(text: string, p: nat, word: string, digit: char -> bool)
    requires p <= |text|
    ensures StandsAt(text, p, word, digit) <==> FoundAt(text, p, word) && !RefusedInFront(text, p + |word|, digit)
  {
  }

  /** A match at `i` is an occurrence that is not refused. */
  lemma MatchIsUnrefused(text: string, i: nat, word: string, digit: char -> bool)
    requires i < |text| && MatchAt(text, i, word, digit).Some?
    ensures var p := i + MatchAt(text, i, word, digit).value;
            p <= |text| && FoundAt(text, p, word) && !Refused(text, p, word, digit)
  {
    hide StandsAt;
    var p := i + MatchAt(text, i, word, digit).value;
    StandsUnlessRefused(text, p, word, digit);
  }

  /** An occurrence that is not refused is matched, with the `v` in front of it if that is bounded. */
  lemma UnrefusedIsMatched(text: string, p: nat, word: string, digit: char -> bool)
    requires word != "" && p < |text| && FoundAt(text, p, word) && !Refused(text, p, word, digit)
    ensures MatchAt(text, p, word, digit).Some? || (p > 0 && text[p - 1] == 'v' && MatchAt(text, p - 1, word, digit) == Some(1))
  {
    hide StandsAt, RefusedInFront;
    StandsUnlessRefused(text, p, word, digit);
  }

  /** A text holds no match if and only if every occurrence of the version in it is refused. */
  lemma CleanExactly(text: string, word: string, digit: char -> bool)
    requires word != ""
    ensures Clean(text, word, digit) <==> AllRefused(text, word, digit)
  {
    hide MatchAt, Refused;
    if Clean(text, word, digit) {
      forall p: nat | FoundAt(text, p, word) ensures Refused(text, p, word, digit) {
        if !Refused(text, p, word, digit) {
          UnrefusedIsMatched(text, p, word, digit);
        }
      }
    }
    if AllRefused(text, word, digit) {
      forall i | 0 <= i < |text| ensures MatchAt(text, i, word, digit).None? {
        if MatchAt(text, i, word, digit).Some? {
          MatchIsUnrefused(text, i, word, digit);
        }
      }
    }
  }

  /** A text with a match does not come out as it was. */
  lemma {:induction false} MatchIsReplaced(text: string, i: nat, j: nat, was: string, now: string, digit: char -> bool)
    requires i <= j < |text| && was != "" && |was| == |now| && was != now && MatchAt(text, j, was, digit).Some?
    ensures Substitute(text, i, was, now, digit) != text[i..]
    decreases |text| - i
  {
    hide MatchAt;
    var out := Substitute(text, i, was, now, digit);
    match MatchAt(text, i, was, digit)
    case None =>
      MatchIsReplaced(text, i + 1, j, was, now, digit);
      assert out[1..] == Substitute(text, i + 1, was, now, digit) && text[i..][1..] == text[i + 1..];
    case Some(p) =>
      HitDiffers(text, i, p, was, now, Substitute(text, i + p + |was|, was, now, digit), digit);
  }

  lemma HitDiffers(text: string, i: nat, p: nat, was: string, now: string, rest: string, digit: char -> bool)
    requires i < |text| && MatchAt(text, i, was, digit) == Some(p) && |was| == |now| && was != now
    ensures text[i..i + p] + now + rest != text[i..]
  {
    assert FoundAt(text, i + p, was);
    var out := text[i..i + p] + now + rest;
    assert out[p..p + |now|] == now;
    SliceOfSlice(text, i, |text|, p, p + |was|);
    assert text[i..][p..p + |now|] == was;
  }

  /** The substitution leaves a text as it is if and only if every occurrence of the old version in it is refused. */
  lemma SubstituteUntouchedExactly(text: string, was: string, now: string, digit: char -> bool)
    requires was != "" && was != now
    ensures Substitute(text, 0, was, now, digit) == text <==> AllRefused(text, was, digit)
  {
    hide MatchAt, AllRefused, Substitute;
    CleanExactly(text, was, digit);
    assert text[0..] == text;
    if Clean(text, was, digit) {
      CleanIsFixed(text, 0, was, now, digit);
    } else {
      var j :| 0 <= j < |text| && MatchAt(text, j, was, digit).Some?;
      if |was| == |now| {
        MatchIsReplaced(text, 0, j, was, now, digit);
      } else {
        SubstituteResizes(text, 0, j, was, now, digit);
      }
    }
  }

  // ---------------------------------------------------------------- where the hits are

  /** Where the hits among some pieces put the version, when the pieces begin at `start`. */
  function HitPositions(pieces: seq<Piece>, start: nat, size: nat): set<nat> {
    if pieces == [] then {}
    else
      match pieces[0]
      case Kept(_) => HitPositions(pieces[1..], start + 1, size)
      case Hit(prefix) => {start + |prefix|} + HitPositions(pieces[1..], start + |prefix| + size, size)
  }

  /** Two occurrences that are not refused do not overlap. */
  lemma UnrefusedDoNotOverlap(text: string, p: nat, q: nat, was: Version, digit: char -> bool)
    requires was.Valid() && Digits(digit) && p < q < p + |was.Text()|
    requires FoundAt(text, p, was.Text()) && FoundAt(text, q, was.Text())
    ensures RefusedInFront(text, p + |was.Text()|, digit)
  {
    var w := was.Text();
    var k := p + |w| - q;
    VersionShape(was);
    CharFound(text, q, w, k);
    if w[k] == '.' {
      DotIsNotLast(was, k);
      CharFound(text, q, w, k + 1);
    }
  }

  lemma DotIsNotLast(v: Version, k: nat)
    requires v.Valid() && k < |v.Text()| && v.Text()[k] == '.'
    ensures k + 1 < |v.Text()| && AsciiDigit(v.Text()[k + 1])
  {
    VersionShape(v);
  }

  /** Nothing in front of `i` reaches over it. */
  predicate Fresh(text: string, i: nat, word: string, digit: char -> bool)
    requires i <= |text|
  {
    i == 0 || text[i - 1] != 'v' || MatchAt(text, i - 1, word, digit).None?
  }

  ghost predicate Unrefused(text: string, p: nat, word: string, digit: char -> bool) {
    FoundAt(text, p, word) && !Refused(text, p, word, digit)
  }

  /** From `i` on, the hits are the unrefused occurrences. */
  ghost predicate HitsAre(text: string, i: nat, word: string, digit: char -> bool)
    requires i <= |text| && word != ""
  {
    forall p: nat :: p in HitPositions(Pieces(text, i, word, digit), i, |word|)
                     <==> i <= p < |text| && Unrefused(text, p, word, digit)
  }

  lemma PiecesOfMiss(text: string, i: nat, word: string, digit: char -> bool)
    requires i < |text| && word != "" && MatchAt(text, i, word, digit).None?
    ensures HitPositions(Pieces(text, i, word, digit), i, |word|)
            == HitPositions(Pieces(text, i + 1, word, digit), i + 1, |word|)
  {
    hide MatchAt, HitPositions;
    assert Pieces(text, i, word, digit) == [Kept(text[i])] + Pieces(text, i + 1, word, digit);
    hide Pieces;
    KeptPiece(text[i], Pieces(text, i + 1, word, digit), i, |word|);
  }

  lemma KeptStep(text: string, i: nat, word: string, digit: char -> bool)
    requires i < |text| && word != "" && !Unrefused(text, i, word, digit)
    requires HitPositions(Pieces(text, i, word, digit), i, |word|)
             == HitPositions(Pieces(text, i + 1, word, digit), i + 1, |word|)
    requires HitsAre(text, i + 1, word, digit)
    ensures HitsAre(text, i, word, digit)
  {
    hide Unrefused, Pieces, HitPositions;
  }

  lemma PiecesAtHit(text: string, i: nat, k: nat, word: string, digit: char -> bool)
    requires i < |text| && word != "" && MatchAt(text, i, word, digit) == Some(k) && i + k + |word| <= |text|
    ensures Pieces(text, i, word, digit) == [Hit(text[i..i + k])] + Pieces(text, i + k + |word|, word, digit)
  {
    hide MatchAt;
  }

  lemma PiecesOfHit(text: string, i: nat, k: nat, word: string, digit: char -> bool)
    requires i < |text| && word != "" && MatchAt(text, i, word, digit) == Some(k) && i + k + |word| <= |text|
    ensures HitPositions(Pieces(text, i, word, digit), i, |word|)
            == {i + k} + HitPositions(Pieces(text, i + k + |word|, word, digit), i + k + |word|, |word|)
  {
    hide MatchAt, Pieces, HitPositions, FoundAt, StandsAt;
    PiecesAtHit(text, i, k, word, digit);
    var prefix, rest := text[i..i + k], Pieces(text, i + k + |word|, word, digit);
    HitPiece(prefix, rest, i, |word|);
  }

  lemma HitStep(text: string, i: nat, k: nat, word: string, digit: char -> bool)
    requires i <= i + k + |word| <= |text| && word != ""
    requires HitPositions(Pieces(text, i, word, digit), i, |word|)
             == {i + k} + HitPositions(Pieces(text, i + k + |word|, word, digit), i + k + |word|, |word|)
    requires forall p: nat :: i <= p < i + k + |word| ==> (Unrefused(text, p, word, digit) <==> p == i + k)
    requires HitsAre(text, i + k + |word|, word, digit)
    ensures HitsAre(text, i, word, digit)
  {
    hide Unrefused, Pieces, HitPositions;
  }

  lemma {:induction false} HitsFrom(text: string, i: nat, was: Version, digit: char -> bool)
    requires was.Valid() && Digits(digit) && i <= |text| && was.Text() != "" && Fresh(text, i, was.Text(), digit)
    ensures HitsAre(text, i, was.Text(), digit)
    decreases |text| - i
  {
    var w := was.Text();
    hide MatchAt, Unrefused, Version.Text, Digits;
    if i == |text| {
      assert Pieces(text, i, w, digit) == [];
      NoHits(i, |w|);
    } else {
      hide HitsAre, Fresh;
      match MatchAt(text, i, w, digit)
      case None =>
        NotMatchedHere(text, i, was, digit);
        HitsFrom(text, i + 1, was, digit);
        PiecesOfMiss(text, i, w, digit);
        KeptStep(text, i, w, digit);
      case Some(k) =>
        OneHitHere(text, i, k, was, digit);
        HitsFrom(text, i + k + |w|, was, digit);
        PiecesOfHit(text, i, k, w, digit);
        HitStep(text, i, k, w, digit);
    }
  }

  lemma NoHits(start: nat, size: nat)
    ensures HitPositions([], start, size) == {}
  {
  }

  lemma KeptPiece(c: char, rest: seq<Piece>, start: nat, size: nat)
    ensures HitPositions([Kept(c)] + rest, start, size) == HitPositions(rest, start + 1, size)
  {
    assert ([Kept(c)] + rest)[1..] == rest;
  }

  lemma HitPiece(prefix: string, rest: seq<Piece>, start: nat, size: nat)
    ensures HitPositions([Hit(prefix)] + rest, start, size)
            == {start + |prefix|} + HitPositions(rest, start + |prefix| + size, size)
  {
    assert ([Hit(prefix)] + rest)[1..] == rest;
  }

  lemma NotMatchedHere(text: string, i: nat, was: Version, digit: char -> bool)
    requires i < |text| && was.Text() != "" && Fresh(text, i, was.Text(), digit) && MatchAt(text, i, was.Text(), digit).None?
    ensures !Unrefused(text, i, was.Text(), digit) && Fresh(text, i + 1, was.Text(), digit)
  {
    hide MatchAt, Version.Text, Refused;
    if Unrefused(text, i, was.Text(), digit) {
      UnrefusedIsMatched(text, i, was.Text(), digit);
    }
  }

  lemma OverlapsNoOther(text: string, at: nat, i: nat, p: nat, was: Version, digit: char -> bool)
    requires was.Valid() && Digits(digit) && i <= at <= i + 1 && i <= p < at + |was.Text()| <= |text|
    requires Unrefused(text, at, was.Text(), digit) && (at == i + 1 ==> text[i] == 'v')
    ensures Unrefused(text, p, was.Text(), digit) ==> p == at
  {
    var w := was.Text();
    VersionShape(was);
    hide Version.Text, Digits;
    if Unrefused(text, p, w, digit) {
      CharFound(text, p, w, 0);
      if at < p {
        UnrefusedDoNotOverlap(text, at, p, was, digit);
      }
    }
  }

  lemma BehindADigit(text: string, at: nat, was: Version, digit: char -> bool)
    requires was.Valid() && FoundAt(text, at, was.Text())
    ensures at + |was.Text()| <= |text| && Fresh(text, at + |was.Text()|, was.Text(), digit)
  {
    VersionShape(was);
    hide MatchAt, Version.Text;
    CharFound(text, at, was.Text(), |was.Text()| - 1);
  }

  /** A hit is the only unrefused occurrence it covers, and the scan goes on behind a digit. */
  lemma OneHitHere(text: string, i: nat, k: nat, was: Version, digit: char -> bool)
    requires was.Valid() && Digits(digit) && i < |text| && MatchAt(text, i, was.Text(), digit) == Some(k)
    ensures var next := i + k + |was.Text()|;
            && next <= |text| && Fresh(text, next, was.Text(), digit) && i + k < next
            && forall p: nat :: i <= p < next ==> (Unrefused(text, p, was.Text(), digit) <==> p == i + k)
  {
    var w := was.Text();
    assert w != "" by { VersionShape(was); }
    hide Version.Text, Digits;
    MatchIsUnrefused(text, i, w, digit);
    var at := i + k;
    assert text[i..at] == "v" ==> text[i] == text[i..at][0];
    hide MatchAt, Fresh;
    BehindADigit(text, at, was, digit);
    hide Refused, FoundAt;
    assert Unrefused(text, at, w, digit);
    hide Unrefused;
    forall p: nat | i <= p < at + |w| ensures Unrefused(text, p, w, digit) <==> p == at {
      OverlapsNoOther(text, at, i, p, was, digit);
    }
  }

  /** The hits are exactly the occurrences of the old version that are not refused: all of these change and nothing else. */
  lemma HitsExactly(text: string, was: Version, digit: char -> bool)
    requires was.Valid() && Digits(digit) && was.Text() != ""
    ensures forall p: nat :: p in HitPositions(Pieces(text, 0, was.Text(), digit), 0, |was.Text()|)
                             <==> p < |text| && FoundAt(text, p, was.Text()) && !Refused(text, p, was.Text(), digit)
  {
    HitsFrom(text, 0, was, digit);
  }

  /** A wheel's file name keeps its version: a hyphen follows. */
  lemma WheelNamesAreLeftAlone(before: string, was: Version, after: string, digit: char -> bool)
    requires was.Valid() && Digits(digit)
    ensures Refused(before + was.Text() + "-" + after, |before|, was.Text(), digit)
  {
  }

  // ---------------------------------------------------------------- the whole rewrite

  /** The text holds none of the places the minor rewrite looks for. */
  ghost predicate NoMinor(text: string, m: string, space: char -> bool) {
    && !Contains(text, ">=0." + m + ".0") && !Contains(text, "\"0." + m + ".0\"")
    && !Contains(text, "**Current 0." + m + " boundary:")
    && forall i: nat, gap: string :: FoundAt(text, i, "current_minor:" + gap + "\"0." + m + "\"") && i <= |text| ==>
         (exists c :: c in gap && !space(c)) || (i > 0 && text[i - 1] != '\n')
  }

  lemma Found(text: string, word: string)
    ensures Contains(text, word) <==> exists p: nat :: FoundAt(text, p, word)
  {
  }

  lemma MentionTexts(m: string)
    ensures Word(FLOOR, m) == ">=0." + m + ".0" && Word(PIN, m) == "\"0." + m + ".0\""
    ensures Word(BOUNDARY, m) == "**Current 0." + m + " boundary:"
  {
    assert ">=" + ("0." + m) == ">=0." + m;
    assert "\"" + ("0." + m) == "\"0." + m;
    assert "**Current " + ("0." + m) == "**Current 0." + m;
  }

  lemma MarkerText(gap: string, m: string)
    ensures Word(Marker(gap), m) == "current_minor:" + gap + "\"0." + m + "\""
  {
    assert (MARKER + gap + "\"") + ("0." + m) + "\"" == MARKER + gap + "\"0." + m + "\"";
  }

  lemma NoMention(text: string, mention: Mention, m: string)
    requires !mention.atLine
    ensures !Mentions(text, mention, m) <==> !Contains(text, Word(mention, m))
  {
    hide Word;
    Found(text, Word(mention, m));
    if Contains(text, Word(mention, m)) {
      var p: nat :| FoundAt(text, p, Word(mention, m));
      assert At(text, p, mention, m);
    }
  }

  lemma NoMinorExactly(text: string, m: string, space: char -> bool)
    ensures NoMinor(text, m, space)
            <==> !Mentions(text, FLOOR, m) && !Mentions(text, PIN, m) && !Mentions(text, BOUNDARY, m) && NoMarkers(text, m, space)
  {
    MentionTexts(m);
    NoMention(text, FLOOR, m);
    NoMention(text, PIN, m);
    NoMention(text, BOUNDARY, m);
    MarkersExactly(text, m, space);
    hide Mentions, Contains, NoMarkers, Word;
  }

  lemma MarkersExactly(text: string, m: string, space: char -> bool)
    ensures NoMarkers(text, m, space)
            <==> forall i: nat, gap: string :: FoundAt(text, i, "current_minor:" + gap + "\"0." + m + "\"") && i <= |text| ==>
                   (exists c :: c in gap && !space(c)) || (i > 0 && text[i - 1] != '\n')
  {
    forall gap ensures Word(Marker(gap), m) == "current_minor:" + gap + "\"0." + m + "\"" {
      MarkerText(gap, m);
    }
    hide Word, FoundAt;
    if NoMarkers(text, m, space) {
      forall i: nat, gap: string | FoundAt(text, i, "current_minor:" + gap + "\"0." + m + "\"") && i <= |text|
        ensures (exists c :: c in gap && !space(c)) || (i > 0 && text[i - 1] != '\n')
      {
        assert Gap(gap, space) ==> !Mentions(text, Marker(gap), m);
        assert !At(text, i, Marker(gap), m) || !Gap(gap, space);
      }
    }
  }

  /**
   Between two minor lines the rewrite leaves a text as it is if and only if every occurrence of the old version is refused
   and the text holds no floor, no quoted pin, no line-start marker and no boundary of the old minor.
   */
  lemma RewriteUntouchedExactly(text: string, was: Version, now: Version, digit: char -> bool, space: char -> bool)
    requires Replaces(was, now, digit) && was.minor != now.minor && Spaces(space)
    ensures Rewritten(text, was, now, digit, space) == text
            <==> AllRefused(text, was.Text(), digit) && NoMinor(text, was.minor, space)
  {
    assert Moves(was, now, digit) && was.Text() != "";
    FixedAreProper(digit);
    CleanExactly(text, was.Text(), digit);
    NoMinorExactly(text, was.minor, space);
    hide Replaces, Moves, Spaces, Proper, Mentions, Rewritten, NoMinor, AllRefused, Clean, NoMarkers, HoldsPair, Pass,
        Version.Text;
    FirstRun(text, was, now, digit, space);
    if Settled(text, was, digit, space) {
      SecondRun(text, was, now, digit, space);
      PinPassIsIdleExactly(text, was, now, digit);
    }
  }

  /** Within a minor line only the pattern decides. */
  lemma PatchUntouchedExactly(text: string, was: Version, now: Version, digit: char -> bool, space: char -> bool)
    requires Replaces(was, now, digit) && was.minor == now.minor
    ensures was.Text() != "" && (Rewritten(text, was, now, digit, space) == text <==> AllRefused(text, was.Text(), digit))
  {
    ValidIsAdmitted(was, digit);
    if was.Text() == now.Text() {
      TextInjective(was, now, digit);
    }
    hide Substitute, AllRefused;
    SubstituteUntouchedExactly(text, was.Text(), now.Text(), digit);
  }
}
