/**
 The guard in front of the rewrite: the release script compares versions as tuples of integers and
 only goes on with an increasing one. Behind it, what becomes of each tracked file.
 */
module VersionOrder {
  import opened PyText
  import opened VersionPattern
  import opened VersionRewriter
  import opened VersionMentions
  import opened VersionIdempotence

  /** The values `int` gives to decimal digits. */
  ghost predicate Values(digit: char -> bool, value: char -> nat) {
    && (forall c :: digit(c) ==> value(c) <= 9)
    && (forall c :: AsciiDigit(c) ==> value(c) == c as int - '0' as int)
  }

  /** `int(numeral)` for a run of decimal digits. */
  function Number(numeral: string, value: char -> nat): nat {
    if numeral == "" then 0
    else 10 * Number(numeral[..|numeral| - 1], value) + value(numeral[|numeral| - 1])
  }

  /** `old_pair < new_pair`; both start with the same zero. */
  predicate Precedes(was: Version, now: Version, value: char -> nat) {
    || Number(was.minor, value) < Number(now.minor, value)
    || (Number(was.minor, value) == Number(now.minor, value) && Number(was.patch, value) < Number(now.patch, value))
  }

  /** A canonical numeral is what `str` prints for its value. */
  lemma {:induction false} NumeralIsPrinted(s: string, digit: char -> bool, value: char -> nat)
    requires Numeral(s) && Digits(digit) && Values(digit, value)
    ensures s == Decimal(Number(s, value)) && PyInt(s) == Some(Number(s, value))
  {
    hide PyInt;
    var last := s[|s| - 1];
    assert last in s;
    if |s| == 1 {
      assert s == [last] && s[..0] == "" && Number("", value) == 0;
    } else {
      var front := s[..|s| - 1];
      assert s == front + [last] && s[0] == front[0] && s[0] != '0';
      NumeralIsPrinted(front, digit, value);
      assert Decimal(0) == "0";
      assert Number(s, value) / 10 == Number(front, value) && Number(s, value) % 10 == value(last);
    }
    PyIntDecimal(Number(s, value));
  }

  lemma SameNumber(a: string, b: string, digit: char -> bool, value: char -> nat)
    requires Numeral(a) && Numeral(b) && Digits(digit) && Values(digit, value)
    ensures Number(a, value) == Number(b, value) <==> a == b
  {
    hide Number, Decimal, Values, Digits;
    NumeralIsPrinted(a, digit, value);
    NumeralIsPrinted(b, digit, value);
  }

  /** Of two versions exactly one precedes the other, unless they are the same text. */
  lemma VersionsAreOrdered(a: Version, b: Version, digit: char -> bool, value: char -> nat)
    requires a.Valid() && b.Valid() && Digits(digit) && Values(digit, value)
    ensures Precedes(a, b, value) <==> a != b && !Precedes(b, a, value)
  {
    SameNumber(a.minor, b.minor, digit, value);
    SameNumber(a.patch, b.patch, digit, value);
  }

  /** Passing the guard is transitive, so releases never return to an earlier version, whatever their digits. */
  lemma {:induction false} ReleasesNeverReturn(releases: seq<Version>, i: nat, j: nat, value: char -> nat)
    requires forall k :: 0 < k < |releases| ==> Precedes(releases[k - 1], releases[k], value)
    requires i < j < |releases|
    ensures Precedes(releases[i], releases[j], value) && releases[i] != releases[j]
    decreases j
  {
    if i < j - 1 {
      ReleasesNeverReturn(releases, i, j - 1, value);
    }
  }

  /** The guard lets the version of `ForeignDigitKeepsTheOldVersion` through. */
  lemma ForeignDigitPassesTheGuard(value: char -> nat)
    requires value('1') == 1 && value('\U{662}') == 2
    ensures Precedes(Version("5", "1"), Version("5", "1\U{662}"), value)
  {
    assert "1\U{662}"[..1] == "1" && "1"[..0] == "";
    assert Number("1", value) == 10 * Number("", value) + value('1');
    assert Number("1\U{662}", value) == 10 * Number("1", value) + value('\U{662}');
  }

  /** One tracked file: pages below `docs` get the marker rewrite first, and only version surfaces the whole one. */
  function FileAfter(input: string, docsPage: bool, surface: bool, was: Version, now: Version, digit: char -> bool,
                     space: char -> bool): string
  {
    var marked := if docsPage then CurrentMinorMarkers(input, Minor(was.minor), Minor(now.minor), space) else input;
    if surface then Rewritten(marked, was, now, digit, space) else marked
  }

  /**
   The guard, and behind it the rewrite of one file: unless the new version brings the old one back, a surface is free of
   it, and neither it nor a page keeps a marker of an old minor line. Other files stay as they are.
   */
  method Bump(input: string, docsPage: bool, surface: bool, was: Version, now: Version, digit: char -> bool,
              value: char -> nat, space: char -> bool)
    returns (text: Option<string>)
    requires was.Valid() && now.Admitted(digit) && Digits(digit) && Spaces(space)
    ensures text.Some? <==> Precedes(was, now, value)
    ensures text.Some? ==> text.value == FileAfter(input, docsPage, surface, was, now, digit, space)
    ensures text.Some? && surface && !Exposes(now, was) ==> Clean(text.value, was.Text(), digit)
    ensures text.Some? && (docsPage || surface) && was.minor != now.minor ==> NoMarkers(text.value, was.minor, space)
    ensures text.Some? && !docsPage && !surface ==> text.value == input
  {
    hide Precedes, Rewritten, NoMarkers, Clean, CurrentMinorMarkers, Spaces, Exposes;
    NotBeforeItself(was, value);
    if now == was || !Precedes(was, now, value) {
      return None;
    }
    var updated := input;
    if docsPage {
      updated := ReplaceCurrentMinorMarkers(updated, Minor(was.minor), Minor(now.minor), space);
      if was.minor != now.minor {
        MarkersUpdated(input, was, now, digit, space);
      }
    }
    if surface {
      if was.minor != now.minor {
        RewriteUpdatesMarkers(updated, was, now, digit, space);
      }
      updated := ReplaceVersion(updated, was, now, digit, space);
    }
    return Some(updated);
  }

  lemma NotBeforeItself(v: Version, value: char -> nat)
    ensures !Precedes(v, v, value)
  {
  }

  lemma RewriteUpdatesMarkers(text: string, was: Version, now: Version, digit: char -> bool, space: char -> bool)
    requires Moves(was, now, digit) && Spaces(space)
    ensures NoMarkers(Rewritten(text, was, now, digit, space), was.minor, space)
  {
    RewrittenInPasses(text, was, now, digit, space);
    assert Digits(digit);
    FixedAreProper(digit);
    hide Moves, Spaces, Proper, NoMarkers, Rewritten, Pass, MarkerPass, Substitute;
    var pinned := Pass(Pass(Substitute(text, 0, was.Text(), now.Text(), digit), FLOOR, was, now), PIN, was, now);
    MarkersAreGone(pinned, was, now, space, digit);
    PassAddsNoMarkers(MarkerPass(pinned, was, now, space), BOUNDARY, was, now, space, digit);
  }

  lemma MarkersUpdated(text: string, was: Version, now: Version, digit: char -> bool, space: char -> bool)
    requires Moves(was, now, digit) && Spaces(space)
    ensures NoMarkers(CurrentMinorMarkers(text, Minor(was.minor), Minor(now.minor), space), was.minor, space)
  {
    assert Minor(was.minor)[2..] == was.minor && Minor(now.minor)[2..] == now.minor;
    assert Digits(digit);
    FixedAreProper(digit);
    hide Moves, Spaces, Proper, NoMarkers, ReplaceMarkers, ReplaceAll;
    MarkersAreGone(text, was, now, space, digit);
    PassAddsNoMarkers(MarkerPass(text, was, now, space), BOUNDARY, was, now, space, digit);
  }
}
