/**
 What the hashed pre-image of a tree tells about it. The pre-image writes each path and each content with a NUL behind it
 and no length, so contents that hold NULs can look like the separators between them.
 */
module TreePreimage {
  import opened PyText
  import opened Sorting
  import opened TreeDigest

  lemma BlobTail(b: Blob, rest: Bytes)
    ensures BlobText(b) + rest == b.path + ['\0'] + (b.content + ['\0'] + rest)
  {
  }

  /** For NUL-free paths and contents the pre-image determines the blobs. */
  lemma {:induction false} PreimageInjective(a: seq<Blob>, b: seq<Blob>)
    requires forall x :: x in a || x in b ==> '\0' !in x.path && '\0' !in x.content
    requires Preimage(a) == Preimage(b)
    ensures a == b
  {
    if a != [] && b != [] {
      assert a[0] in a && b[0] in b;
      var restA, restB := Preimage(a[1..]), Preimage(b[1..]);
      var tailA := a[0].content + ['\0'] + restA;
      var tailB := b[0].content + ['\0'] + restB;
      BlobTail(a[0], restA);
      BlobTail(b[0], restB);
      assert Preimage(a) == a[0].path + ['\0'] + tailA;
      assert Preimage(b) == b[0].path + ['\0'] + tailB;
      SplitFirstPrefix(a[0].path, '\0', tailA);
      SplitFirstPrefix(b[0].path, '\0', tailB);
      SplitFirstPrefix(a[0].content, '\0', restA);
      SplitFirstPrefix(b[0].content, '\0', restB);
      PreimageInjective(a[1..], b[1..]);
    }
  }

  // ---------------------------------------------------------------- among as many blobs

  /** Two NULs for each blob, and the contents' own. */
  lemma {:induction false} NulCount(blobs: seq<Blob>)
    requires forall x :: x in blobs ==> '\0' !in x.path
    ensures multiset(Preimage(blobs))['\0'] >= 2 * |blobs|
    ensures multiset(Preimage(blobs))['\0'] == 2 * |blobs| <==> forall x :: x in blobs ==> '\0' !in x.content
  {
    if blobs != [] {
      var b, rest := blobs[0], blobs[1..];
      NulCount(rest);
      assert blobs == [b] + rest && b in blobs;
      BlobNuls(b);
      hide BlobText;
      assert multiset(Preimage(blobs)) == multiset(BlobText(b)) + multiset(Preimage(rest));
      assert forall x :: x in blobs <==> x == b || x in rest;
    }
  }

  lemma BlobNuls(b: Blob)
    requires '\0' !in b.path
    ensures multiset(BlobText(b))['\0'] == 2 + multiset(b.content)['\0']
  {
    assert BlobText(b) == b.path + ['\0'] + b.content + ['\0'];
  }

  /** Among as many blobs under NUL-free paths, NUL-free contents on one side are enough to tell them apart. */
  lemma PreimageTellsApart(a: seq<Blob>, b: seq<Blob>)
    requires |a| == |b| && forall x :: x in a || x in b ==> '\0' !in x.path
    requires forall x :: x in a ==> '\0' !in x.content
    requires Preimage(a) == Preimage(b)
    ensures a == b
  {
    NulCount(a);
    NulCount(b);
    PreimageInjective(a, b);
  }

  ghost predicate NulFreePaths(blobs: seq<Blob>) {
    forall x :: x in blobs ==> '\0' !in x.path
  }

  lemma {:induction false} PreimageConcat(a: seq<Blob>, b: seq<Blob>)
    ensures Preimage(a + b) == Preimage(a) + Preimage(b)
  {
    if a == [] {
      assert a + b == b;
    } else {
      assert (a + b)[1..] == a[1..] + b;
      PreimageConcat(a[1..], b);
      ConcatAssociative(BlobText(a[0]), Preimage(a[1..]), Preimage(b), "");
    }
  }

  /** A reading of two neighbouring blobs that hashes the same text. */
  lemma ReadPairOtherwise(a: seq<Blob>, k: nat, p: Blob, q: Blob) returns (b: seq<Blob>)
    requires k + 1 < |a| && BlobText(p) + BlobText(q) == BlobText(a[k]) + BlobText(a[k + 1])
    ensures b == a[..k] + [p, q] + a[k + 2..]
    ensures Preimage(b) == Preimage(a)
  {
    b := a[..k] + [p, q] + a[k + 2..];
    PairText(p, q);
    PairText(a[k], a[k + 1]);
    PreimageConcat(a[..k] + [p, q], a[k + 2..]);
    PreimageConcat(a[..k], [p, q]);
    PreimageConcat(a[..k] + [a[k], a[k + 1]], a[k + 2..]);
    PreimageConcat(a[..k], [a[k], a[k + 1]]);
    assert a == a[..k] + [a[k], a[k + 1]] + a[k + 2..];
  }

  lemma PairText(p: Blob, q: Blob)
    ensures Preimage([p, q]) == BlobText(p) + BlobText(q)
  {
    hide BlobText;
    assert [p, q][1..] == [q] && [q][1..] == [];
    assert Preimage([q]) == BlobText(q) + "";
  }

  /** A NUL in a content, with a neighbour to shift to, can be read as the end of a path or of another content. */
  lemma NulReadsOtherwise(a: seq<Blob>, k: nat) returns (b: seq<Blob>)
    requires |a| > 1 && k < |a| && NulFreePaths(a) && '\0' in a[k].content
    ensures |b| == |a| && NulFreePaths(b) && Preimage(b) == Preimage(a) && b != a
  {
    var cut := SplitFirst(a[k].content, '\0').value;
    var i := if k == 0 then 0 else k - 1;
    var p, q := a[i], a[i + 1];
    assert p in a && q in a;
    var p', q';
    if k == 0 {
      var rest := cut.1 + "\0" + q.path + "\0" + q.content;
      assert rest[|cut.1|] == '\0';
      var next := SplitFirst(rest, '\0').value;
      p', q' := Blob(p.path, cut.0), Blob(next.0, next.1);
      ShiftRight(p, q, cut.0, cut.1, next.0, next.1);
    } else {
      p', q' := Blob(p.path, p.content + "\0" + q.path), Blob(cut.0, cut.1);
      ShiftLeft(p, q, cut.0, cut.1);
    }
    b := ReadPairOtherwise(a, i, p', q');
    assert b[i] == p' != p;
    forall x | x in b ensures '\0' !in x.path {
      assert x in a[..i] || x == p' || x == q' || x in a[i + 2..];
    }
  }

  lemma ShiftRight(p: Blob, q: Blob, u: Bytes, v: Bytes, t: Bytes, r: Bytes)
    requires p.content == u + ['\0'] + v && v + "\0" + q.path + "\0" + q.content == t + ['\0'] + r
    ensures BlobText(Blob(p.path, u)) + BlobText(Blob(t, r)) == BlobText(p) + BlobText(q)
  {
    var front := p.path + "\0" + u + "\0";
    assert BlobText(Blob(p.path, u)) + BlobText(Blob(t, r)) == front + (t + ['\0'] + r) + "\0";
    assert BlobText(p) + BlobText(q) == front + (v + "\0" + q.path + "\0" + q.content) + "\0";
  }

  lemma ShiftLeft(p: Blob, q: Blob, u: Bytes, v: Bytes)
    requires q.content == u + ['\0'] + v
    ensures BlobText(Blob(p.path, p.content + "\0" + q.path)) + BlobText(Blob(u, v)) == BlobText(p) + BlobText(q)
  {
    var front := p.path + "\0" + p.content + "\0" + q.path + "\0";
    assert BlobText(p) + BlobText(q) == front + (u + ['\0'] + v) + "\0";
    assert BlobText(Blob(p.path, p.content + "\0" + q.path)) + BlobText(Blob(u, v)) == front + (u + ['\0'] + v) + "\0";
  }

  /**
   Among all lists of as many blobs under NUL-free paths, whichever those are, the pre-image determines the list if and
   only if its contents are NUL-free or there is at most one.
   */
  lemma CountTellsApartExactly(a: seq<Blob>)
    requires NulFreePaths(a)
    ensures (forall b: seq<Blob> :: |b| == |a| && NulFreePaths(b) && Preimage(b) == Preimage(a) ==> b == a)
            <==> |a| <= 1 || forall x :: x in a ==> '\0' !in x.content
  {
    hide Preimage, NulFreePaths;
    if |a| > 1 && exists x :: x in a && '\0' in x.content {
      var k :| 0 <= k < |a| && '\0' in a[k].content;
      var b := NulReadsOtherwise(a, k);
    } else {
      forall b: seq<Blob> | |b| == |a| && NulFreePaths(b) && Preimage(b) == Preimage(a) ensures b == a {
        CountTellsApart(a, b);
      }
    }
  }

  lemma CountTellsApart(a: seq<Blob>, b: seq<Blob>)
    requires |b| == |a| && NulFreePaths(a) && NulFreePaths(b) && Preimage(b) == Preimage(a)
    requires |a| <= 1 || forall x :: x in a ==> '\0' !in x.content
    ensures b == a
  {
    if |a| == 1 {
      assert a[0] in a && b[0] in b;
      assert a == [a[0]] && b == [b[0]];
      OneBlob(a[0], b[0]);
    } else if |a| > 1 {
      PreimageTellsApart(a, b);
    }
  }

  lemma OneBlob(p: Blob, q: Blob)
    requires '\0' !in p.path && '\0' !in q.path && Preimage([p]) == Preimage([q])
    ensures p == q
  {
    assert [p][1..] == [] && [q][1..] == [];
    assert Preimage([p]) == p.path + ['\0'] + (p.content + "\0");
    assert Preimage([q]) == q.path + ['\0'] + (q.content + "\0");
    SplitFirstPrefix(p.path, '\0', p.content + "\0");
    SplitFirstPrefix(q.path, '\0', q.content + "\0");
    assert (p.content + "\0")[..|p.content|] == p.content && (q.content + "\0")[..|q.content|] == q.content;
  }

  // ---------------------------------------------------------------- over the same paths

  /** What stands between a content and the content of `path` behind it. */
  function Separator(path: Bytes): Bytes {
    "\0" + path + "\0"
  }

  /** The separator of `b` shows up in the content in front of it or in its own, a NUL of its neighbourhood included. */
  predicate LooksAlike(a: Blob, b: Blob) {
    Contains(a.content + "\0", Separator(b.path)) || Contains("\0" + b.content, Separator(b.path))
  }

  /** No content holds the look-alike of a separator beside it. */
  predicate Separated(blobs: seq<Blob>) {
    forall k :: 0 <= k < |blobs| - 1 ==> !LooksAlike(blobs[k], blobs[k + 1])
  }

  ghost predicate OverSamePaths(a: seq<Blob>, b: seq<Blob>) {
    |a| == |b| && forall i :: 0 <= i < |a| ==> a[i].path == b[i].path
  }

  /** The pre-image behind its first path and NUL. */
  function Tail(blobs: seq<Blob>): Bytes
    requires blobs != []
  {
    blobs[0].content + "\0" + Preimage(blobs[1..])
  }

  lemma PreimageTail(blobs: seq<Blob>)
    requires blobs != []
    ensures Preimage(blobs) == blobs[0].path + "\0" + Tail(blobs)
    ensures |blobs| > 1 ==> Tail(blobs) == blobs[0].content + Separator(blobs[1].path) + Tail(blobs[1..])
    ensures |blobs| == 1 ==> Tail(blobs) == blobs[0].content + "\0"
  {
    var rest := Preimage(blobs[1..]);
    TailText(blobs[0], rest);
    if |blobs| > 1 {
      var next := blobs[1..];
      TailText(next[0], Preimage(next[1..]));
      SeparatorText(blobs[0].content, next[0].path, Tail(next));
    }
  }

  lemma TailText(b: Blob, rest: Bytes)
    ensures BlobText(b) + rest == b.path + "\0" + (b.content + "\0" + rest)
  {
  }

  lemma SeparatorText(content: Bytes, path: Bytes, tail: Bytes)
    ensures content + "\0" + (path + "\0" + tail) == content + Separator(path) + tail
  {
  }

  /** Two different occurrences of one separator share at most a NUL. */
  lemma SeparatorsMeetAtNul(text: Bytes, x: nat, y: nat, path: Bytes)
    requires '\0' !in path && x < y
    requires FoundAt(text, x, Separator(path)) && FoundAt(text, y, Separator(path))
    ensures y >= x + |path| + 1
  {
    var s := Separator(path);
    assert y - x < |s| ==> text[x..x + |s|][y - x] == text[y];
    assert text[y..y + |s|][0] == text[y];
    assert forall k :: 1 <= k <= |path| ==> s[k] == path[k - 1];
  }

  lemma SeparatorAt(x: Bytes, path: Bytes, t: Bytes)
    ensures FoundAt(x + Separator(path) + t, |x|, Separator(path))
  {
    var text := x + Separator(path) + t;
    assert text[|x|..|x| + |Separator(path)|] == Separator(path);
  }

  lemma ReadingsApart(x: Bytes, t: Bytes, y: Bytes, u: Bytes, path: Bytes)
    requires '\0' !in path && x + Separator(path) + t == y + Separator(path) + u && |x| < |y|
    ensures |x| + |path| + 1 <= |y| && |Separator(path)| == |path| + 2 && Separator(path)[0] == '\0'
    ensures FoundAt(x + Separator(path) + t, |x|, Separator(path))
  {
    SeparatorAt(x, path, t);
    SeparatorAt(y, path, u);
    SeparatorsMeetAtNul(x + Separator(path) + t, |x|, |y|, path);
  }

  /** Of two readings of one text, the one whose separator comes later reads it no earlier than the other one's last NUL. */
  lemma LaterReading(x: Bytes, t: Bytes, y: Bytes, u: Bytes, path: Bytes) returns (g: Bytes)
    requires '\0' !in path && x + Separator(path) + t == y + Separator(path) + u && |x| < |y|
    ensures "\0" + t == g + Separator(path) + u
    ensures Contains(y + "\0", Separator(path))
  {
    var text, s := x + Separator(path) + t, Separator(path);
    ReadingsApart(x, t, y, u, path);
    CutReading(x, t, path);
    hide Separator, FoundAt, Contains;
    var from := |x| + |path| + 1;
    g := text[from..|y|];
    ConcatAssociative(y, s, u, "");
    DropPrefix(y, s + u);
    assert text[|y|..] == s + u;
    assert text[from..] == text[from..|y|] + text[|y|..];
    ConcatAssociative(g, s, u, "");
    EarlierFound(text, x, y, s, u);
  }

  lemma CutReading(x: Bytes, t: Bytes, path: Bytes)
    ensures (x + Separator(path) + t)[|x| + |path| + 1..] == "\0" + t
  {
    var front := x + "\0" + path;
    assert x + Separator(path) + t == front + ("\0" + t);
    DropPrefix(front, "\0" + t);
  }

  lemma EarlierFound(text: Bytes, x: Bytes, y: Bytes, s: Bytes, u: Bytes)
    requires text == y + s + u && s != "" && s[0] == '\0'
    requires FoundAt(text, |x|, s) && |x| + |s| <= |y| + 1
    ensures Contains(y + "\0", s)
  {
    assert (y + "\0") == text[..|y| + 1];
    SliceOfSlice(text, 0, |y| + 1, |x|, |x| + |s|);
    assert FoundAt(y + "\0", |x|, s);
  }

  lemma PrefixFound(c: Bytes, rest: Bytes, g: Bytes, s: Bytes, tail: Bytes)
    requires c + rest == g + s + tail && |g| + |s| <= |c|
    ensures Contains(c, s)
  {
    var text := c + rest;
    assert text[|g|..|g| + |s|] == s;
    assert c == text[..|c|];
    SliceOfSlice(text, 0, |c|, |g|, |g| + |s|);
    assert FoundAt(c, |g|, s);
  }

  lemma RestOf(a: seq<Blob>, b: seq<Blob>)
    requires a != [] && OverSamePaths(a, b) && NulFreePaths(a) && Separated(a)
    ensures OverSamePaths(a[1..], b[1..]) && NulFreePaths(a[1..]) && Separated(a[1..])
    ensures b != [] && b[0].path == a[0].path && '\0' !in a[0].path
    ensures |a| > 1 ==> a[1] == a[1..][0] && b[1] == b[1..][0] && a[1].path == b[1].path && '\0' !in a[1].path
    ensures |a| > 1 ==> !LooksAlike(a[0], a[1])
  {
    hide LooksAlike;
    assert a[0] in a;
    if |a| > 1 {
      assert a[1] in a;
      assert !LooksAlike(a[0], a[0 + 1]);
    }
    forall k | 0 <= k < |a[1..]| - 1 ensures !LooksAlike(a[1..][k], a[1..][k + 1]) {
      assert a[1..][k] == a[k + 1] && a[1..][k + 1] == a[(k + 1) + 1];
    }
  }

  lemma LagText(c: Bytes, next: Bytes, tail: Bytes, g: Bytes, s: Bytes, d: Bytes, behind: Bytes)
    requires "\0" + (c + next + tail) == g + s + (d + next + behind)
    ensures ("\0" + c) + next + tail == (g + s + d) + next + behind
  {
    assert "\0" + (c + next + tail) == ("\0" + c) + next + tail;
    assert g + s + (d + next + behind) == (g + s + d) + next + behind;
  }

  /** A reading that lags behind never catches up with one whose contents hold no look-alike of their own separator. */
  lemma {:induction false} LagsForGood(a: seq<Blob>, b: seq<Blob>, g: Bytes)
    requires a != [] && OverSamePaths(a, b) && NulFreePaths(a) && Separated(a)
    requires !Contains("\0" + a[0].content, Separator(a[0].path))
    ensures "\0" + Tail(a) != g + Separator(a[0].path) + Tail(b)
    decreases |a|
  {
    RestOf(a, b);
    var c, d, s := a[0].content, b[0].content, Separator(a[0].path);
    PreimageTail(a);
    PreimageTail(b);
    assert |a| == |b|;
    hide Separated, NulFreePaths, OverSamePaths, Tail, Separator, Contains;
    if "\0" + Tail(a) == g + s + Tail(b) {
      if |a| == 1 {
        assert ("\0" + c) + "\0" == g + s + (d + "\0");
        PrefixFound("\0" + c, "\0", g, s, d + "\0");
      } else {
        var next, tail, behind := Separator(a[1].path), Tail(a[1..]), Tail(b[1..]);
        LagText(c, next, tail, g, s, d, behind);
        if |g| + |s| <= 1 + |c| {
          ConcatAssociative("\0" + c, next, tail, "");
          ConcatAssociative(g + s, d + next, behind, "");
          PrefixFound("\0" + c, next + tail, g, s, d + next + behind);
        }
        var later := LaterReading("\0" + c, tail, g + s + d, behind, a[1].path);
        LagsForGood(a[1..], b[1..], later);
      }
    }
  }

  /** Separated contents are told apart from all others over the same paths. */
  lemma {:induction false} SeparatedTellsApart(a: seq<Blob>, b: seq<Blob>)
    requires OverSamePaths(a, b) && NulFreePaths(a) && Separated(a)
    requires Preimage(a) == Preimage(b)
    ensures a == b
    decreases |a|
  {
    if a != [] {
      RestOf(a, b);
      PreimageTail(a);
      PreimageTail(b);
      var c, d := a[0].content, b[0].content;
      DropPrefix(a[0].path + "\0", Tail(a));
      DropPrefix(b[0].path + "\0", Tail(b));
      assert Tail(a) == Tail(b);
      if |a| == 1 {
        assert (c + "\0")[..|c|] == c && (d + "\0")[..|d|] == d;
      } else {
        SameFirstContent(a, b);
        assert (c + "\0")[..] + Preimage(a[1..]) == (d + "\0") + Preimage(b[1..]);
        DropPrefix(c + "\0", Preimage(a[1..]));
        DropPrefix(d + "\0", Preimage(b[1..]));
        SeparatedTellsApart(a[1..], b[1..]);
        assert a == [a[0]] + a[1..] && b == [b[0]] + b[1..];
      }
    }
  }

  lemma SameFirstContent(a: seq<Blob>, b: seq<Blob>)
    requires |a| > 1 && OverSamePaths(a, b) && NulFreePaths(a) && Separated(a)
    requires Tail(a) == Tail(b)
    ensures a[0].content == b[0].content
  {
    RestOf(a, b);
    PreimageTail(a);
    PreimageTail(b);
    var c, d, s, t, u := a[0].content, b[0].content, Separator(a[1].path), Tail(a[1..]), Tail(b[1..]);
    hide Separated, NulFreePaths, OverSamePaths, Tail, Separator, Contains;
    if |c| < |d| {
      var later := LaterReading(c, t, d, u, a[1].path);
      LagsForGood(a[1..], b[1..], later);
    } else if |d| < |c| {
      var later := LaterReading(d, u, c, t, a[1].path);
    } else {
      assert (c + s + t)[..|c|] == c && (d + s + u)[..|d|] == d;
    }
  }

  /** A look-alike can be read as the separator itself. */
  lemma LookAlikeReadsOtherwise(a: seq<Blob>, k: nat) returns (b: seq<Blob>)
    requires k + 1 < |a| && LooksAlike(a[k], a[k + 1])
    ensures OverSamePaths(a, b) && Preimage(b) == Preimage(a) && b != a
  {
    var p, q := a[k], a[k + 1];
    var u, v := MoveSeparator(p.content, q.path, q.content);
    var p', q' := Blob(p.path, u), Blob(q.path, v);
    PairAsText(p, q);
    PairAsText(p', q');
    b := ReadPairOtherwise(a, k, p', q');
    assert b[k] == p' != p;
  }

  lemma PairAsText(p: Blob, q: Blob)
    ensures BlobText(p) + BlobText(q) == p.path + "\0" + (p.content + Separator(q.path) + q.content) + "\0"
  {
  }

  lemma CutFound(text: Bytes, s: Bytes) returns (front: Bytes, back: Bytes)
    requires Contains(text, s)
    ensures text == front + s + back
  {
    var i :| 0 <= i <= |text| - |s| && FoundAt(text, i, s);
    front, back := text[..i], text[i + |s|..];
  }

  lemma MoveSeparator(c: Bytes, path: Bytes, d: Bytes) returns (u: Bytes, v: Bytes)
    requires Contains(c + "\0", Separator(path)) || Contains("\0" + d, Separator(path))
    ensures u + Separator(path) + v == c + Separator(path) + d && |u| != |c|
  {
    var s := Separator(path);
    assert |s| >= 2;
    if Contains(c + "\0", s) {
      var front, back := CutFound(c + "\0", s);
      u, v := front, back + (path + "\0" + d);
      assert |c + "\0"| == |front| + |s| + |back|;
      assert u + s + v == (front + s + back) + (path + "\0" + d);
      assert c + s + d == (c + "\0") + (path + "\0" + d);
    } else {
      var front, back := CutFound("\0" + d, s);
      u, v := c + "\0" + path + front, back;
      assert u + s + v == (c + "\0" + path) + (front + s + back);
      assert c + s + d == (c + "\0" + path) + ("\0" + d);
    }
  }

  /**
   Over given NUL-free paths the pre-image determines the contents if and only if no content holds the look-alike of a
   separator beside it.
   */
  lemma TellsApartExactly(a: seq<Blob>)
    requires NulFreePaths(a)
    ensures (forall b :: OverSamePaths(a, b) && Preimage(b) == Preimage(a) ==> b == a) <==> Separated(a)
  {
    hide Preimage, LooksAlike;
    if Separated(a) {
      forall b | OverSamePaths(a, b) && Preimage(b) == Preimage(a) ensures b == a {
        SeparatedTellsApart(a, b);
      }
    } else {
      var k :| 0 <= k < |a| - 1 && LooksAlike(a[k], a[k + 1]);
      var b := LookAlikeReadsOtherwise(a, k);
    }
  }

  /** NUL-free contents hold no look-alike. */
  lemma NulFreeIsSeparated(blobs: seq<Blob>)
    requires forall x :: x in blobs ==> '\0' !in x.content
    ensures Separated(blobs)
  {
    forall k | 0 <= k < |blobs| - 1 ensures !LooksAlike(blobs[k], blobs[k + 1]) {
      assert blobs[k] in blobs && blobs[k + 1] in blobs;
      NoSeparatorBehind(blobs[k].content, blobs[k + 1].path);
      NoSeparatorInFront(blobs[k + 1].content, blobs[k + 1].path);
    }
  }

  lemma NoSeparatorBehind(c: Bytes, path: Bytes)
    requires '\0' !in c
    ensures !Contains(c + "\0", Separator(path))
  {
    forall i: nat ensures !FoundAt(c + "\0", i, Separator(path)) {
      if FoundAt(c + "\0", i, Separator(path)) {
        CharFound(c + "\0", i, Separator(path), 0);
      }
    }
  }

  lemma NoSeparatorInFront(d: Bytes, path: Bytes)
    requires '\0' !in d
    ensures !Contains("\0" + d, Separator(path))
  {
    forall i: nat ensures !FoundAt("\0" + d, i, Separator(path)) {
      if FoundAt("\0" + d, i, Separator(path)) {
        CharFound("\0" + d, i, Separator(path), |path| + 1);
      }
    }
  }

  /** With NULs in the contents of both, two trees over the same paths can have one pre-image. */
  lemma NulContentsAreAmbiguous()
    ensures Preimage([Blob("p", "x"), Blob("q", "y\0q\0z")]) == Preimage([Blob("p", "x\0q\0y"), Blob("q", "z")])
  {
    var a, b := [Blob("p", "x"), Blob("q", "y\0q\0z")], [Blob("p", "x\0q\0y"), Blob("q", "z")];
    assert a[1..] == [Blob("q", "y\0q\0z")] && b[1..] == [Blob("q", "z")] && a[1..][1..] == [] == b[1..][1..];
    assert Preimage(a) == BlobText(a[0]) + (BlobText(a[1]) + "");
    assert Preimage(b) == BlobText(b[0]) + (BlobText(b[1]) + "");
  }

  // ---------------------------------------------------------------- the two digests

  /** The blobs the checker hashes when git is honest. */
  function TrackedBlobs(tree: seq<TreeEntry>, store: map<Bytes, Bytes>): seq<Blob>
    requires forall t :: t in Sort(Selected(tree), TrackedLe) ==> t.oid in store
  {
    Contents(Sort(Selected(tree), TrackedLe), store)
  }

  lemma TrackedFacts(tree: seq<TreeEntry>, names: seq<Bytes>, worktree: map<Bytes, Bytes>, decodes: Bytes -> bool)
    requires Checkout(tree, names, worktree, decodes)
    ensures forall t :: t in Sort(Selected(tree), TrackedLe) ==> '\0' !in t.path && t.path in worktree
  {
    SortedSelection(tree);
    forall t | t in Sort(Selected(tree), TrackedLe) ensures '\0' !in t.path && t.path in worktree {
      var e :| e in tree && Qualified(e) && t == Tracked(e.path, e.oid);
      assert GitEntry(e);
    }
  }

  /** On a checkout, the digests compare the pre-images of the same paths, and the files match when the contents do. */
  lemma DigestsCompare(tree: seq<TreeEntry>, store: map<Bytes, Bytes>, catFile: Bytes -> Bytes,
                       names: seq<Bytes>, worktree: map<Bytes, Bytes>, decodes: Bytes -> bool)
    requires Checkout(tree, names, worktree, decodes) && HonestCatFile(tree, store, catFile)
    ensures forall n :: n in Outside(SortStrings(names)) ==> n in worktree
    ensures var tracked, files := TrackedBlobs(tree, store), Files(Outside(SortStrings(names)), worktree);
            && OverSamePaths(tracked, files) && NulFreePaths(tracked)
            && (QualifiedDigest(LsTree(tree), catFile) == SourceDigest(Terminated(names, '\0'), worktree, decodes)
                <==> Preimage(tracked) == Preimage(files))
            && (WorktreeMatches(tree, store, worktree) <==> tracked == files)
  {
    hide QualifiedDigest, SourceDigest, Preimage, Selected, Sort, SortStrings, Outside, Qualified, LsTree, Terminated,
         CatFileOutput;
    ParserRecoversEveryBlob(tree, store, catFile);
    GeneratorOnCheckout(tree, names, worktree, decodes);
    TreeDigest.SamePaths(tree, names, worktree, decodes);
    TrackedFacts(tree, names, worktree, decodes);
    MatchExactly(tree, store, worktree);
    hide Checkout, WorktreeMatches;
    var ordered, files := Sort(Selected(tree), TrackedLe), Outside(SortStrings(names));
    assert |ordered| == |TrackedPaths(ordered)| == |files|;
    forall i | 0 <= i < |ordered|
      ensures files[i] == ordered[i].path && '\0' !in ordered[i].path
    {
      assert TrackedPaths(ordered)[i] == files[i] && ordered[i] in ordered;
    }
  }

  lemma SortedSelection(tree: seq<TreeEntry>)
    ensures forall t :: t in Sort(Selected(tree), TrackedLe) <==>
              exists e :: e in tree && Qualified(e) && t == Tracked(e.path, e.oid)
  {
    SelectedMembers(tree);
    SortMembers(Selected(tree), TrackedLe);
  }

  lemma SelectionMatches(tree: seq<TreeEntry>, store: map<Bytes, Bytes>, worktree: map<Bytes, Bytes>)
    requires forall t :: t in Sort(Selected(tree), TrackedLe) ==> t.oid in store && t.path in worktree
    ensures WorktreeMatches(tree, store, worktree)
            <==> forall t :: t in Sort(Selected(tree), TrackedLe) ==> store[t.oid] == worktree[t.path]
  {
    SortedSelection(tree);
    hide Sort, Selected, Qualified;
    if forall t :: t in Sort(Selected(tree), TrackedLe) ==> store[t.oid] == worktree[t.path] {
      forall e | e in tree && Qualified(e) && e.oid in store && e.path in worktree
        ensures store[e.oid] == worktree[e.path]
      {
        assert Tracked(e.path, e.oid) in Sort(Selected(tree), TrackedLe);
      }
    }
  }

  lemma SameContents(ordered: seq<Tracked>, store: map<Bytes, Bytes>, worktree: map<Bytes, Bytes>)
    requires forall t :: t in ordered ==> t.oid in store && t.path in worktree
    requires forall n :: n in TrackedPaths(ordered) ==> n in worktree
    ensures Contents(ordered, store) == Files(TrackedPaths(ordered), worktree)
            <==> forall t :: t in ordered ==> store[t.oid] == worktree[t.path]
  {
    var left, right := Contents(ordered, store), Files(TrackedPaths(ordered), worktree);
    if left == right {
      forall t | t in ordered ensures store[t.oid] == worktree[t.path] {
        var i :| 0 <= i < |ordered| && ordered[i] == t;
        assert left[i] == right[i];
      }
    }
    if forall t :: t in ordered ==> store[t.oid] == worktree[t.path] {
      forall i | 0 <= i < |ordered| ensures left[i] == right[i] {
        assert ordered[i] in ordered;
      }
    }
  }

  /** The files match if and only if each tracked path has its content. */
  lemma MatchExactly(tree: seq<TreeEntry>, store: map<Bytes, Bytes>, worktree: map<Bytes, Bytes>)
    requires forall t :: t in Sort(Selected(tree), TrackedLe) ==> t.oid in store && t.path in worktree
    requires forall n :: n in TrackedPaths(Sort(Selected(tree), TrackedLe)) ==> n in worktree
    ensures WorktreeMatches(tree, store, worktree)
            <==> TrackedBlobs(tree, store) == Files(TrackedPaths(Sort(Selected(tree), TrackedLe)), worktree)
  {
    SelectionMatches(tree, store, worktree);
    SameContents(Sort(Selected(tree), TrackedLe), store, worktree);
  }

  /** A checkout in which the files of these paths hold other contents. */
  function Overlaid(worktree: map<Bytes, Bytes>, blobs: seq<Blob>): map<Bytes, Bytes> {
    if blobs == [] then worktree else Overlaid(worktree, blobs[1..])[blobs[0].path := blobs[0].content]
  }

  lemma {:induction false} OverlaidFiles(worktree: map<Bytes, Bytes>, blobs: seq<Blob>)
    requires forall i, j :: 0 <= i < j < |blobs| ==> blobs[i].path != blobs[j].path
    ensures worktree.Keys <= Overlaid(worktree, blobs).Keys
    ensures forall x :: x in blobs ==> x.path in Overlaid(worktree, blobs) && Overlaid(worktree, blobs)[x.path] == x.content
  {
    if blobs != [] {
      var rest := blobs[1..];
      OverlaidFiles(worktree, rest);
      forall x | x in rest ensures x.path != blobs[0].path {
        var k :| 0 <= k < |rest| && rest[k] == x;
        assert blobs[k + 1] == x;
      }
      assert blobs == [blobs[0]] + rest;
    }
  }

  lemma OverlaidCheckout(tree: seq<TreeEntry>, names: seq<Bytes>, worktree: map<Bytes, Bytes>, other: map<Bytes, Bytes>,
                         decodes: Bytes -> bool)
    requires Checkout(tree, names, worktree, decodes) && worktree.Keys <= other.Keys
    ensures Checkout(tree, names, other, decodes)
  {
  }

  lemma FilesHold(files: seq<Bytes>, other: map<Bytes, Bytes>, b: seq<Blob>)
    requires |b| == |files| && forall i :: 0 <= i < |b| ==> b[i].path == files[i]
    requires forall n :: n in files ==> n in other
    requires forall x :: x in b ==> x.path in other && other[x.path] == x.content
    ensures Files(files, other) == b
  {
    forall i | 0 <= i < |b| ensures Files(files, other)[i] == b[i] {
      assert b[i] in b;
    }
  }

  lemma PathsOfFiles(tracked: seq<Blob>, files: seq<Bytes>, worktree: map<Bytes, Bytes>, b: seq<Blob>)
    requires forall n :: n in files ==> n in worktree
    requires OverSamePaths(tracked, Files(files, worktree)) && OverSamePaths(tracked, b)
    ensures |b| == |files| && forall i :: 0 <= i < |b| ==> b[i].path == files[i]
  {
    forall i | 0 <= i < |b| ensures b[i].path == files[i] {
      assert Files(files, worktree)[i].path == tracked[i].path;
    }
  }

  /** Contents that read otherwise are those of a checkout that differs and has the same digest. */
  lemma ConfusedCheckout(tree: seq<TreeEntry>, store: map<Bytes, Bytes>, catFile: Bytes -> Bytes, names: seq<Bytes>,
                         worktree: map<Bytes, Bytes>, decodes: Bytes -> bool, b: seq<Blob>)
    requires Checkout(tree, names, worktree, decodes) && HonestCatFile(tree, store, catFile)
    requires OverSamePaths(TrackedBlobs(tree, store), b) && Preimage(b) == Preimage(TrackedBlobs(tree, store))
    requires b != TrackedBlobs(tree, store)
    ensures var other := Overlaid(worktree, b);
            && Checkout(tree, names, other, decodes) && !WorktreeMatches(tree, store, other)
            && QualifiedDigest(LsTree(tree), catFile) == SourceDigest(Terminated(names, '\0'), other, decodes)
  {
    var tracked := TrackedBlobs(tree, store);
    hide QualifiedDigest, SourceDigest, Preimage, SortStrings, Outside, LsTree, Terminated, HonestCatFile,
         WorktreeMatches, Checkout, TrackedBlobs, Files, OverSamePaths, NulFreePaths, Overlaid;
    var files := Outside(SortStrings(names));
    DigestsCompare(tree, store, catFile, names, worktree, decodes);
    FilesAreDistinct(tree, names, worktree, decodes);
    PathsOfFiles(tracked, files, worktree, b);
    OverlaidFiles(worktree, b);
    var other := Overlaid(worktree, b);
    OverlaidCheckout(tree, names, worktree, other, decodes);
    DigestsCompare(tree, store, catFile, names, other, decodes);
    FilesHold(files, other, b);
  }

  lemma FilesAreDistinct(tree: seq<TreeEntry>, names: seq<Bytes>, worktree: map<Bytes, Bytes>, decodes: Bytes -> bool)
    requires Checkout(tree, names, worktree, decodes)
    ensures Distinct(Outside(SortStrings(names)))
  {
    DistinctPermutation(Paths(tree), SortStrings(names));
    OutsideDistinct(SortStrings(names));
  }

  /**
   On every checkout the two digests agree exactly when the files hold their blobs' bytes, if and only if no tracked
   content holds the look-alike of a separator beside it. The condition is on the commit alone.
   */
  lemma DigestsAgreeExactly(tree: seq<TreeEntry>, store: map<Bytes, Bytes>, catFile: Bytes -> Bytes,
                            names: seq<Bytes>, worktree: map<Bytes, Bytes>, decodes: Bytes -> bool)
    requires Checkout(tree, names, worktree, decodes) && HonestCatFile(tree, store, catFile)
    ensures (forall files :: Checkout(tree, names, files, decodes) ==>
               (QualifiedDigest(LsTree(tree), catFile) == SourceDigest(Terminated(names, '\0'), files, decodes)
                <==> WorktreeMatches(tree, store, files)))
            <==> Separated(TrackedBlobs(tree, store))
  {
    hide Checkout, WorktreeMatches, QualifiedDigest, SourceDigest, Preimage, Separated, HonestCatFile, Terminated, LsTree;
    assert forall t :: t in Sort(Selected(tree), TrackedLe) ==> t.oid in store by { StoreHolds(tree, store, catFile); }
    var tracked := TrackedBlobs(tree, store);
    hide TrackedBlobs;
    DigestsCompare(tree, store, catFile, names, worktree, decodes);
    TellsApartExactly(tracked);
    if Separated(tracked) {
      forall files | Checkout(tree, names, files, decodes)
        ensures QualifiedDigest(LsTree(tree), catFile) == SourceDigest(Terminated(names, '\0'), files, decodes)
                <==> WorktreeMatches(tree, store, files)
      {
        DigestsCompare(tree, store, catFile, names, files, decodes);
      }
    } else {
      var b :| OverSamePaths(tracked, b) && Preimage(b) == Preimage(tracked) && b != tracked;
      ConfusedCheckout(tree, store, catFile, names, worktree, decodes, b);
    }
  }

  lemma StoreHolds(tree: seq<TreeEntry>, store: map<Bytes, Bytes>, catFile: Bytes -> Bytes)
    requires HonestCatFile(tree, store, catFile)
    ensures forall t :: t in Sort(Selected(tree), TrackedLe) ==> t.oid in store
  {
  }
}
