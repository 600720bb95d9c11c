/**
 The pieces of Python's `str` and `bytes` that the scripts lean on. A byte string is a `string`
 whose characters are the byte codes; every statement here holds for all strings.
 */
module PyText {

  datatype Option<+T> = None | Some(value: T) {
    function GetOr(default: T): T {
      match this
      case Some(v) => v
      case None => default
    }
  }

  /** The outcome of Python code: a value, or a raised exception with its reason. */
  datatype Result<+T> = Ok(value: T) | Raised(reason: string) {
    predicate IsFailure() {
      Raised?
    }

    function PropagateFailure<U>(): Result<U>
      requires Raised?
    {
      Raised(reason)
    }

    function Extract(): T
      requires Ok?
    {
      value
    }
  }

  /** What a loop has gathered, in front of the outcome of what is left. */
  function Prepend<T>(done: seq<T>, rest: Result<seq<T>>): Result<seq<T>> {
    match rest
    case Raised(e) => Raised(e)
    case Ok(more) => Ok(done + more)
  }

  lemma PrependNothing<T>(rest: Result<seq<T>>)
    ensures Prepend([], rest) == rest
  {
    if rest.Ok? {
      assert [] + rest.value == rest.value;
    }
  }

  lemma PrependMore<T>(done: seq<T>, x: seq<T>, rest: Result<seq<T>>)
    ensures Prepend(done, Prepend(x, rest)) == Prepend(done + x, rest)
  {
    if rest.Ok? {
      assert done + (x + rest.value) == done + x + rest.value;
    }
  }

  /** `s.split(c)` for a one-character separator. */
  function Split(s: string, c: char): (parts: seq<string>)
    ensures |parts| > 0
    ensures forall p :: p in parts ==> c !in p
  {
    if s == "" then [""]
    else if s[0] == c then [""] + Split(s[1..], c)
    else
      var rest := Split(s[1..], c);
      [[s[0]] + rest[0]] + rest[1..]
  }

  /** `s.split(c, 1)`: the text before and after the first separator, if there is one. */
  function SplitFirst(s: string, c: char): (r: Option<(string, string)>)
    ensures r.Some? <==> c in s
    ensures r.Some? ==> s == r.value.0 + [c] + r.value.1 && c !in r.value.0
  {
    if s == "" then None
    else if s[0] == c then Some(("", s[1..]))
    else
      var r := SplitFirst(s[1..], c);
      if r.None? then None else Some(([s[0]] + r.value.0, r.value.1))
  }

  function Join(parts: seq<string>, sep: string): string {
    if parts == [] then ""
    else if |parts| == 1 then parts[0]
    else parts[0] + sep + Join(parts[1..], sep)
  }

  /** Every part followed by the terminator, as git's `-z` listings are written. */
  function Terminated(parts: seq<string>, c: char): string {
    if parts == [] then "" else parts[0] + [c] + Terminated(parts[1..], c)
  }

  lemma {:induction false} SplitPrefix(a: string, c: char, b: string)
    requires c !in a
    ensures Split(a + [c] + b, c) == [a] + Split(b, c)
  {
    var s := a + [c] + b;
    if a == "" {
      assert s == [c] + b && s[1..] == b;
    } else {
      assert a[0] in a && s[0] == a[0] && [a[0]] + a[1..] == a;
      assert s[1..] == a[1..] + [c] + b;
      SplitPrefix(a[1..], c, b);
    }
  }

  lemma {:induction false} SplitNone(a: string, c: char)
    requires c !in a
    ensures Split(a, c) == [a]
  {
    if a != "" {
      assert a[0] in a && [a[0]] + a[1..] == a;
      SplitNone(a[1..], c);
    }
  }

  lemma {:induction false} SplitTerminated(parts: seq<string>, c: char)
    requires forall p :: p in parts ==> c !in p
    ensures Split(Terminated(parts, c), c) == parts + [""]
  {
    if parts != [] {
      SplitPrefix(parts[0], c, Terminated(parts[1..], c));
      SplitTerminated(parts[1..], c);
    }
  }

  lemma {:induction false} SplitJoin(parts: seq<string>, c: char)
    requires parts != []
    requires forall p :: p in parts ==> c !in p
    ensures Split(Join(parts, [c]), c) == parts
  {
    if |parts| == 1 {
      SplitNone(parts[0], c);
    } else {
      SplitPrefix(parts[0], c, Join(parts[1..], [c]));
      SplitJoin(parts[1..], c);
    }
  }

  lemma {:induction false} SplitFirstPrefix(a: string, c: char, b: string)
    requires c !in a
    ensures SplitFirst(a + [c] + b, c) == Some((a, b))
  {
    var s := a + [c] + b;
    if a == "" {
      assert s[1..] == b;
    } else {
      assert a[0] in a && s[0] == a[0] && [a[0]] + a[1..] == a;
      assert s[1..] == a[1..] + [c] + b;
      SplitFirstPrefix(a[1..], c, b);
    }
  }

  /** `sep.join` undoes `split`. */
  lemma {:induction false} SplitRebuild(s: string, c: char)
    ensures Join(Split(s, c), [c]) == s
  {
    if s != "" {
      SplitRebuild(s[1..], c);
      var rest := Split(s[1..], c);
      if s[0] == c {
        assert Split(s, c)[1..] == rest;
        assert s == [c] + s[1..];
      } else {
        assert Split(s, c)[1..] == rest[1..];
        assert s == [s[0]] + s[1..];
      }
    }
  }

  lemma {:induction false} SplitLast(front: string, c: char, name: string)
    requires c !in name
    ensures Split(front + [c] + name, c) == Split(front, c) + [name]
  {
    var s := front + [c] + name;
    if front == "" {
      assert s == [c] + name && s[1..] == name;
      SplitNone(name, c);
    } else {
      assert s[0] == front[0] && s[1..] == front[1..] + [c] + name;
      SplitLast(front[1..], c, name);
      var rest := Split(front[1..], c);
      assert (rest + [name])[1..] == rest[1..] + [name];
    }
  }

  lemma {:induction false} JoinSnoc(parts: seq<string>, last: string, sep: string)
    requires parts != []
    ensures Join(parts + [last], sep) == Join(parts, sep) + sep + last
  {
    if |parts| == 1 {
      assert (parts + [last])[1..] == [last];
    } else {
      assert (parts + [last])[1..] == parts[1..] + [last];
      JoinSnoc(parts[1..], last, sep);
    }
  }

  lemma JoinThree(parts: seq<string>, sep: string)
    requires |parts| == 3
    ensures Join(parts, sep) == parts[0] + sep + (parts[1] + sep + parts[2])
  {
    assert parts[1..][1..] == [parts[2]];
    assert Join(parts[1..], sep) == parts[1] + sep + Join(parts[1..][1..], sep);
  }

  lemma ConcatAssociative<T>(a: seq<T>, b: seq<T>, c: seq<T>, d: seq<T>)
    ensures a + (b + c + d) == a + b + c + d
    ensures a + (b + c) == a + b + c
  {
  }

  lemma CutTwice<T>(s: seq<T>, i: nat, j: nat, k: nat)
    requires i <= j <= k <= |s|
    ensures s[i..] == s[i..j] + s[j..k] + s[k..]
    ensures (s[..i] + s[i..])[i..] == s[i..]
  {
  }

  lemma DropPrefix<T>(a: seq<T>, b: seq<T>)
    ensures (a + b)[|a|..] == b
  {
  }

  lemma SliceOfSlice<T>(s: seq<T>, a: nat, b: nat, c: nat, d: nat)
    requires a <= b <= |s| && c <= d <= b - a
    ensures s[a..b][c..d] == s[a + c..a + d]
  {
    var left, right := s[a..b][c..d], s[a + c..a + d];
    forall k | 0 <= k < |left| ensures left[k] == right[k] {
    }
  }

  predicate FoundAt(text: string, i: nat, pattern: string) {
    i + |pattern| <= |text| && text[i..i + |pattern|] == pattern
  }

  lemma CharFound(text: string, p: nat, word: string, k: nat)
    requires FoundAt(text, p, word) && k < |word|
    ensures text[p + k] == word[k]
  {
    assert text[p..p + |word|][k] == text[p + k];
  }

  /** `word in s`. */
  predicate Contains(s: string, word: string) {
    exists i :: 0 <= i <= |s| - |word| && FoundAt(s, i, word)
  }

  /** `s.startswith(prefix)`. */
  predicate StartsWith(s: string, prefix: string) {
    prefix <= s
  }

  /** Normalises a slice bound as CPython does: negative bounds count from the end. */
  function SliceBound(i: int, n: nat): (r: nat)
    ensures r <= n
  {
    if i < 0 then (if i + n < 0 then 0 else i + n) else if i > n then n else i
  }

  /** `s[i:j]` with Python's rules for bounds outside the string. */
  function Slice(s: string, i: int, j: int): string {
    var lo, hi := SliceBound(i, |s|), SliceBound(j, |s|);
    if lo < hi then s[lo..hi] else ""
  }

  /** `s.index(c, start)`; `None` where Python raises. */
  function IndexFrom(s: string, c: char, start: int): (r: Option<nat>)
    ensures r.Some? ==> SliceBound(start, |s|) <= r.value < |s| && s[r.value] == c
    ensures r.Some? ==> c !in s[SliceBound(start, |s|)..r.value]
    ensures r.None? ==> c !in s[SliceBound(start, |s|)..]
  {
    FindAt(s, c, SliceBound(start, |s|))
  }

  function FindAt(s: string, c: char, i: nat): (r: Option<nat>)
    requires i <= |s|
    ensures r.Some? ==> i <= r.value < |s| && s[r.value] == c && c !in s[i..r.value]
    ensures r.None? ==> c !in s[i..]
    decreases |s| - i
  {
    if i == |s| then None
    else if s[i] == c then Some(i)
    else
      var r := FindAt(s, c, i + 1);
      assert r.Some? ==> s[i..r.value] == [s[i]] + s[i + 1..r.value];
      assert s[i..] == [s[i]] + s[i + 1..];
      r
  }

  /** ASCII whitespace, which `int(bytes)` strips. */
  predicate ByteSpace(c: char) {
    c == ' ' || '\t' <= c <= '\r'
  }

  function StripLeft(s: string): string {
    if s != "" && ByteSpace(s[0]) then StripLeft(s[1..]) else s
  }

  function StripRight(s: string): string {
    if s != "" && ByteSpace(s[|s| - 1]) then StripRight(s[..|s| - 1]) else s
  }

  predicate AsciiDigit(c: char) {
    '0' <= c <= '9'
  }

  /** Decimal digits, most significant first, with single underscores between digits. */
  function DigitsValue(s: string, afterDigit: bool, acc: nat): Option<nat> {
    if s == "" then if afterDigit then Some(acc) else None
    else if s[0] == '_' then if afterDigit then DigitsValue(s[1..], false, acc) else None
    else if AsciiDigit(s[0]) then DigitsValue(s[1..], true, 10 * acc + (s[0] as int - '0' as int))
    else None
  }

  /** `int(s)` for a byte string; `None` where Python raises. */
  function PyInt(s: string): Option<int> {
    var t := StripRight(StripLeft(s));
    if t == "" then None
    else
      var signed := t[0] == '-' || t[0] == '+';
      match DigitsValue(if signed then t[1..] else t, false, 0)
      case None => None
      case Some(v) =>
        var n: int := v;
        Some(if t[0] == '-' then -n else n)
  }

  /** `str(n)` for a non-negative integer. */
  function Decimal(n: nat): (s: string)
    ensures s != "" && forall c :: c in s ==> AsciiDigit(c)
  {
    var d := [(n % 10 + '0' as int) as char];
    if n < 10 then d else Decimal(n / 10) + d
  }

  lemma {:induction false} DigitsValueSnoc(s: string, afterDigit: bool, acc: nat, d: char, v: nat)
    requires DigitsValue(s, afterDigit, acc) == Some(v) || (s == "" && v == acc)
    requires AsciiDigit(d)
    ensures DigitsValue(s + [d], afterDigit, acc) == Some(10 * v + (d as int - '0' as int))
  {
    if s == "" {
      assert (s + [d])[1..] == "";
    } else {
      assert (s + [d])[1..] == s[1..] + [d];
      if s[0] == '_' {
        DigitsValueSnoc(s[1..], false, acc, d, v);
      } else {
        DigitsValueSnoc(s[1..], true, 10 * acc + (s[0] as int - '0' as int), d, v);
      }
    }
  }

  lemma {:induction false} DigitsValueDecimal(n: nat)
    ensures DigitsValue(Decimal(n), false, 0) == Some(n)
  {
    var d := (n % 10 + '0' as int) as char;
    if n < 10 {
      DigitsValueSnoc("", false, 0, d, 0);
      assert Decimal(n) == "" + [d];
    } else {
      DigitsValueDecimal(n / 10);
      DigitsValueSnoc(Decimal(n / 10), false, 0, d, n / 10);
    }
  }

  /** Reading back what `str` printed. */
  lemma PyIntDecimal(n: nat)
    ensures PyInt(Decimal(n)) == Some(n)
  {
    var s := Decimal(n);
    assert s[0] in s && s[|s| - 1] in s;
    DigitsValueDecimal(n);
  }

  // ---------------------------------------------------------------- hexadecimal

  /** `[0-9a-f]*`. */
  predicate Hexadecimal(s: string) {
    forall c :: c in s ==> '0' <= c <= '9' || 'a' <= c <= 'f'
  }

  /** A lower-case hexadecimal digit. */
  function HexDigit(n: nat): (c: char)
    requires n < 16
  {
    if n < 10 then ('0' as int + n) as char else ('a' as int + n - 10) as char
  }

  /** `bytes.hex()`, as `hexdigest` writes it. */
  function Hex(bytes: seq<nat>): (s: string)
    requires forall i :: 0 <= i < |bytes| ==> bytes[i] < 256
    ensures |s| == 2 * |bytes|
  {
    if bytes == [] then ""
    else [HexDigit(bytes[0] / 16), HexDigit(bytes[0] % 16)] + Hex(bytes[1..])
  }

  lemma {:induction false} HexIsHexadecimal(bytes: seq<nat>)
    requires forall i :: 0 <= i < |bytes| ==> bytes[i] < 256
    ensures Hexadecimal(Hex(bytes))
  {
    if bytes != [] {
      HexIsHexadecimal(bytes[1..]);
    }
  }

  function HexValue(c: char): (n: nat)
    requires '0' <= c <= '9' || 'a' <= c <= 'f'
    ensures n < 16
  {
    if c <= '9' then c as int - '0' as int else c as int - 'a' as int + 10
  }

  lemma {:induction false} HexadecimalIsHex(s: string, n: nat) returns (bytes: seq<nat>)
    requires Hexadecimal(s) && |s| == 2 * n
    ensures (forall i :: 0 <= i < |bytes| ==> bytes[i] < 256) && |bytes| == n && s == Hex(bytes)
  {
    if n == 0 {
      bytes := [];
    } else {
      assert s[0] in s && s[1] in s && s == [s[0], s[1]] + s[2..];
      forall c | c in s[2..] ensures c in s {
      }
      var high, low := HexValue(s[0]), HexValue(s[1]);
      var rest := HexadecimalIsHex(s[2..], n - 1);
      bytes := [16 * high + low] + rest;
      assert (16 * high + low) / 16 == high && (16 * high + low) % 16 == low;
      assert bytes[1..] == rest;
    }
  }

  ghost predicate Octets(bytes: seq<nat>, n: nat) {
    |bytes| == n && forall i :: 0 <= i < |bytes| ==> bytes[i] < 256
  }

  /** Lower-case hexadecimal texts of even length are exactly what `hexdigest` writes. */
  lemma HexadecimalExactly(s: string, n: nat)
    ensures |s| == 2 * n && Hexadecimal(s) <==> exists bytes :: Octets(bytes, n) && s == Hex(bytes)
  {
    if |s| == 2 * n && Hexadecimal(s) {
      var bytes := HexadecimalIsHex(s, n);
      assert Octets(bytes, n);
    }
    forall bytes | Octets(bytes, n) && s == Hex(bytes) ensures |s| == 2 * n && Hexadecimal(s) {
      HexIsHexadecimal(bytes);
    }
  }
}
