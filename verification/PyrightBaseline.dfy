/**
 The strict type-checking baseline: diagnostics become JSON fingerprints, the fingerprints are
 sorted and joined by newlines, and that text is hashed. Strings are Unicode scalar values.
 */
module PyrightBaseline {
  import opened PyText
  import opened Sorting

  /** What a diagnostic's identity is. */
  datatype Identity = Identity(path: string, rule: string, message: string)

  /** A diagnostic as reported, with its source coordinates. */
  datatype Diagnostic = Diagnostic(identity: Identity, line: int, column: int)

  // ---------------------------------------------------------------- JSON strings

  function Pow16(k: nat): (p: nat)
    ensures p > 0
  {
    if k == 0 then 1 else 16 * Pow16(k - 1)
  }

  /** `k` hexadecimal digits, most significant first. */
  function HexDigits(n: nat, k: nat): (s: string)
    ensures |s| == k && Hexadecimal(s)
  {
    if k == 0 then "" else HexDigits(n / 16, k - 1) + [HexDigit(n % 16)]
  }

  function Hex4(n: nat): (s: string)
    requires n < 0x10000
    ensures |s| == 4 && Hexadecimal(s)
  {
    HexDigits(n, 4)
  }

  lemma {:induction false} HexDigitsInjective(m: nat, n: nat, k: nat)
    requires m < Pow16(k) && n < Pow16(k) && HexDigits(m, k) == HexDigits(n, k)
    ensures m == n
  {
    if k > 0 {
      var s := HexDigits(m, k);
      assert s[k - 1] == HexDigit(m % 16) && s[k - 1] == HexDigit(n % 16);
      assert s[..k - 1] == HexDigits(m / 16, k - 1) && s[..k - 1] == HexDigits(n / 16, k - 1);
      HexDigitsInjective(m / 16, n / 16, k - 1);
    }
  }

  lemma Hex4Injective(m: nat, n: nat)
    requires m < 0x10000 && n < 0x10000 && Hex4(m) == Hex4(n)
    ensures m == n
  {
    assert Pow16(2) == 256;
    assert Pow16(4) == 16 * (16 * Pow16(2));
    HexDigitsInjective(m, n, 4);
  }

  function High(n: nat): (h: nat)
    requires 0x10000 <= n < 0x110000
    ensures 0xd800 <= h < 0xdc00
  {
    0xd800 + (n - 0x10000) / 1024
  }

  function Low(n: nat): (l: nat)
    requires 0x10000 <= n < 0x110000
    ensures 0xdc00 <= l < 0xe000
  {
    0xdc00 + (n - 0x10000) % 1024
  }

  /** The letter of a two-character escape (section 7 of RFC 8259). */
  function ShortEscape(c: char): Option<char> {
    if c == '"' then Some('"')
    else if c == '\\' then Some('\\')
    else if c == '\n' then Some('n')
    else if c == '\r' then Some('r')
    else if c == '\t' then Some('t')
    else if c as int == 8 then Some('b')
    else if c as int == 12 then Some('f')
    else None
  }

  /** Backspace and form feed are the control characters beside tab, line feed and carriage return with a letter. */
  lemma ControlLetters()
    ensures ShortEscape('\U{8}') == Some('b') && ShortEscape('\U{C}') == Some('f')
    ensures forall c :: c < ' ' && ShortEscape(c).Some? ==> c in {'\U{8}', '\t', '\n', '\U{C}', '\r'}
  {
  }

  /** One character of `json.dumps(..., ensure_ascii=True)`. */
  function EscapeChar(c: char): (s: string)
    ensures s != "" && s[0] != '"'
    ensures forall x :: x in s ==> ' ' <= x <= '~'
  {
    var n := c as int;
    if ShortEscape(c).Some? then ['\\', ShortEscape(c).value]
    else if ' ' <= c <= '~' then [c]
    else if n < 0x10000 then "\\u" + Hex4(n)
    else "\\u" + Hex4(High(n)) + "\\u" + Hex4(Low(n))
  }

  function EscapeText(text: string): (s: string)
    ensures forall x :: x in s ==> ' ' <= x <= '~'
  {
    if text == "" then "" else EscapeChar(text[0]) + EscapeText(text[1..])
  }

  function Quote(text: string): string {
    "\"" + EscapeText(text) + "\""
  }

  /** The escapes form a prefix code. */
  lemma EscapeCharDecodes(c: char, x: string, d: char, y: string)
    requires EscapeChar(c) + x == EscapeChar(d) + y
    ensures c == d && x == y
  {
    var s := EscapeChar(c) + x;
    assert s[0] == EscapeChar(c)[0] == EscapeChar(d)[0];
    if s[0] == '\\' {
      assert s[1] == EscapeChar(c)[1] == EscapeChar(d)[1];
      if s[1] == 'u' {
        UnicodeEscapeDecodes(c, x, d, y);
      }
    }
    assert s[|EscapeChar(c)|..] == x && s[|EscapeChar(d)|..] == y;
  }

  lemma UnicodeEscapeDecodes(c: char, x: string, d: char, y: string)
    requires EscapeChar(c) + x == EscapeChar(d) + y
    requires ShortEscape(c).None? && ShortEscape(d).None?
    requires !(' ' <= c <= '~') && !(' ' <= d <= '~')
    ensures c == d
  {
    hide HexDigit, Hex4;
    var s := EscapeChar(c) + x;
    var first := (n: int) requires 0 <= n < 0x110000 => if n < 0x10000 then n else High(n);
    var m, n := c as int, d as int;
    assert s[2..6] == Hex4(first(m)) && s[2..6] == Hex4(first(n));
    Hex4Injective(first(m), first(n));
    if m >= 0x10000 {
      assert n >= 0x10000;
      assert s[8..12] == Hex4(Low(m)) && s[8..12] == Hex4(Low(n));
      Hex4Injective(Low(m), Low(n));
    }
  }

  lemma FirstIsQuote(text: string, rest: string)
    ensures (EscapeText(text) + "\"" + rest)[0] == '"' <==> text == ""
  {
    hide EscapeChar;
    if text != "" {
      assert (EscapeText(text) + "\"" + rest)[0] == EscapeChar(text[0])[0];
    }
  }

  /** A quoted string ends where it says it does. */
  lemma {:induction false} EscapeTextDecodes(a: string, x: string, b: string, y: string)
    requires EscapeText(a) + "\"" + x == EscapeText(b) + "\"" + y
    ensures a == b && x == y
  {
    hide EscapeChar;
    var s := EscapeText(a) + "\"" + x;
    FirstIsQuote(a, x);
    FirstIsQuote(b, y);
    if a == "" {
      assert s[1..] == x && s[1..] == y;
    } else {
      var restA, restB := EscapeText(a[1..]) + "\"" + x, EscapeText(b[1..]) + "\"" + y;
      assert s == EscapeChar(a[0]) + restA;
      assert s == EscapeChar(b[0]) + restB;
      EscapeCharDecodes(a[0], restA, b[0], restB);
      EscapeTextDecodes(a[1..], x, b[1..], y);
      assert a == [a[0]] + a[1..] && b == [b[0]] + b[1..];
    }
  }

  // ---------------------------------------------------------------- fingerprints

  /** `json.dumps([path, rule, message], separators=(",", ":"))`. */
  function Fingerprint(d: Identity): string {
    "[" + Quote(d.path) + "," + Quote(d.rule) + "," + Quote(d.message) + "]"
  }

  lemma FingerprintShape(d: Identity)
    ensures Fingerprint(d) != ""
    ensures forall x :: x in Fingerprint(d) ==> ' ' <= x <= '~'
    ensures Fingerprint(d) == "[\"" + (EscapeText(d.path) + "\"" + (",\"" + (EscapeText(d.rule) + "\"" +
                              (",\"" + (EscapeText(d.message) + "\"" + "]")))))
  {
    hide EscapeText;
  }

  lemma TailEqual(prefix: string, a: string, b: string)
    requires prefix + a == prefix + b
    ensures a == b
  {
    assert (prefix + a)[|prefix|..] == a && (prefix + b)[|prefix|..] == b;
  }

  /** Different identities have different fingerprints. */
  lemma FingerprintInjective()
    ensures Injective(Fingerprint)
  {
    forall a, b | Fingerprint(a) == Fingerprint(b) ensures a == b {
      FingerprintDecodes(a, b);
    }
  }

  lemma FingerprintDecodes(a: Identity, b: Identity)
    requires Fingerprint(a) == Fingerprint(b)
    ensures a == b
  {
    hide EscapeText, Fingerprint;
    FingerprintShape(a);
    FingerprintShape(b);
    var messageA, messageB := EscapeText(a.message) + "\"" + "]", EscapeText(b.message) + "\"" + "]";
    var ruleA, ruleB := EscapeText(a.rule) + "\"" + (",\"" + messageA), EscapeText(b.rule) + "\"" + (",\"" + messageB);
    TailEqual("[\"", EscapeText(a.path) + "\"" + (",\"" + ruleA), EscapeText(b.path) + "\"" + (",\"" + ruleB));
    EscapeTextDecodes(a.path, ",\"" + ruleA, b.path, ",\"" + ruleB);
    TailEqual(",\"", ruleA, ruleB);
    EscapeTextDecodes(a.rule, ",\"" + messageA, b.rule, ",\"" + messageB);
    TailEqual(",\"", messageA, messageB);
    EscapeTextDecodes(a.message, "]", b.message, "]");
  }

  function Identities(diagnostics: seq<Diagnostic>): seq<Identity> {
    MapSeq((d: Diagnostic) => d.identity, diagnostics)
  }

  function Fingerprints(diagnostics: seq<Diagnostic>): seq<string> {
    SortStrings(MapSeq(Fingerprint, Identities(diagnostics)))
  }

  method DiagnosticFingerprints(diagnostics: seq<Diagnostic>) returns (r: seq<string>)
    ensures r == Fingerprints(diagnostics)
  {
    var fingerprints: seq<string> := [];
    var identities := Identities(diagnostics);
    for i := 0 to |diagnostics|
      invariant fingerprints == MapSeq(Fingerprint, identities[..i])
    {
      assert identities[..i + 1] == identities[..i] + [diagnostics[i].identity];
      fingerprints := fingerprints + [Fingerprint(diagnostics[i].identity)];
    }
    assert identities[..|diagnostics|] == identities;
    return SortStrings(fingerprints);
  }

  /** The text whose digest is the baseline. */
  function Hashed(diagnostics: seq<Diagnostic>): string {
    Join(Fingerprints(diagnostics), "\n")
  }

  lemma FingerprintsAreLines(diagnostics: seq<Diagnostic>)
    ensures forall f :: f in Fingerprints(diagnostics) ==> f != "" && '\n' !in f
  {
    hide Fingerprint;
    var unsorted := MapSeq(Fingerprint, Identities(diagnostics));
    SortMembers(unsorted, StringLe);
    forall f | f in Fingerprints(diagnostics) ensures f != "" && '\n' !in f {
      var i :| 0 <= i < |unsorted| && unsorted[i] == f;
      FingerprintShape(Identities(diagnostics)[i]);
    }
  }

  /** Lines without newlines, none of them empty, are determined by their join. */
  lemma JoinInjective(a: seq<string>, b: seq<string>)
    requires forall f :: f in a || f in b ==> f != "" && '\n' !in f
    requires Join(a, "\n") == Join(b, "\n")
    ensures a == b
  {
    hide Split;
    JoinEmpty(a);
    JoinEmpty(b);
    if a != [] {
      SplitJoin(a, '\n');
      SplitJoin(b, '\n');
    }
  }

  lemma JoinEmpty(a: seq<string>)
    requires "" !in a
    ensures Join(a, "\n") == "" <==> a == []
  {
    if a != [] {
      assert a[0] in a && |Join(a, "\n")| >= |a[0]|;
    }
  }

  /**
   The hashed text is equal for two reports exactly when they hold the same multiset of
   (path, rule, message), whatever the order and the source coordinates.
   */
  lemma BaselineIsTheMultiset(a: seq<Diagnostic>, b: seq<Diagnostic>)
    ensures Hashed(a) == Hashed(b) <==> multiset(Identities(a)) == multiset(Identities(b))
  {
    hide Fingerprint, Join;
    var left, right := MapSeq(Fingerprint, Identities(a)), MapSeq(Fingerprint, Identities(b));
    StringOrder();
    SortCanonical(left, right, StringLe);
    FingerprintInjective();
    MapMultiset(Fingerprint, Identities(a), Identities(b));
    if Hashed(a) == Hashed(b) {
      FingerprintsAreLines(a);
      FingerprintsAreLines(b);
      JoinInjective(Fingerprints(a), Fingerprints(b));
    }
  }
}
