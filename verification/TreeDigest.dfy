/**
 The source-tree digest of the portable 0.50 evidence, computed twice: by the release checker
 from `git ls-tree -rz` and `git cat-file --batch` output, and by the evidence generator from
 `git ls-files -z` and the worktree. Both hash the same pre-image on a clean tree.
 */
module TreeDigest {
  import opened PyText
  import opened Sorting

  type Bytes = string

  /** SHA-256, taken as injective: a digest is its pre-image. */
  datatype Digest = Sha256(preimage: Bytes)

  const EVIDENCE_PREFIX: Bytes := "docs/11_DEVELOPMENT/evidence/portable_0_50/"

  /** One line of `git ls-tree`, as git knows it. */
  datatype TreeEntry = TreeEntry(mode: Bytes, kind: Bytes, oid: Bytes, path: Bytes)

  /** What the checker keeps of a line. */
  datatype Tracked = Tracked(path: Bytes, oid: Bytes)

  /** A path with the content that goes into the digest. */
  datatype Blob = Blob(path: Bytes, content: Bytes)

  /** Python's order on `(path, object_id)` tuples. */
  predicate TrackedLe(a: Tracked, b: Tracked) {
    if a.path == b.path then StringLe(a.oid, b.oid) else StringLe(a.path, b.path)
  }

  function BlobText(b: Blob): Bytes {
    b.path + "\0" + b.content + "\0"
  }

  function Preimage(blobs: seq<Blob>): Bytes {
    if blobs == [] then "" else BlobText(blobs[0]) + Preimage(blobs[1..])
  }

  // ---------------------------------------------------------------- the checker

  function ParseRecord(record: Bytes): Result<TreeEntry> {
    match SplitFirst(record, '\t')
    case None => Raised("record has no tab")
    case Some((metadata, path)) =>
      match SplitFirst(metadata, ' ')
      case None => Raised("metadata has fewer than three fields")
      case Some((mode, rest)) =>
        match SplitFirst(rest, ' ')
        case None => Raised("metadata has fewer than three fields")
        case Some((kind, oid)) => Ok(TreeEntry(mode, kind, oid, path))
  }

  predicate Qualified(e: TreeEntry) {
    e.kind == "blob" && !StartsWith(e.path, EVIDENCE_PREFIX)
  }

  function ParseRecords(records: seq<Bytes>): Result<seq<Tracked>> {
    if records == [] then Ok([])
    else if records[0] == "" then ParseRecords(records[1..])
    else
      var e :- ParseRecord(records[0]);
      Prepend(if Qualified(e) then [Tracked(e.path, e.oid)] else [], ParseRecords(records[1..]))
  }

  /** One frame of batch output: its content, where the next one starts, its declared size. */
  datatype Frame = Frame(blob: Blob, sizeText: Bytes, size: int, next: int)

  function ReadBlob(entry: Tracked, objects: Bytes, offset: int): Result<Frame> {
    match IndexFrom(objects, '\n', offset)
    case None => Raised("no frame header")
    case Some(headerEnd) =>
      var header := Split(Slice(objects, offset, headerEnd), ' ');
      if |header| != 3 || header[0] != entry.oid || header[1] != "blob" then
        Raised("cannot read qualified source blob")
      else
        match PyInt(header[2])
        case None => Raised("frame size is not an integer")
        case Some(size) =>
          var contentStart := headerEnd + 1;
          var contentEnd := contentStart + size;
          if Slice(objects, contentEnd, contentEnd + 1) != "\n" then
            Raised("invalid qualified source blob framing")
          else
            Ok(Frame(Blob(entry.path, Slice(objects, contentStart, contentEnd)), header[2], size, contentEnd + 1))
  }

  function ReadBlobs(ordered: seq<Tracked>, objects: Bytes, offset: int): Result<seq<Frame>> {
    if ordered == [] then
      if offset != |objects| then Raised("unexpected trailing qualified source blob data") else Ok([])
    else
      var frame :- ReadBlob(ordered[0], objects, offset);
      Prepend([frame], ReadBlobs(ordered[1..], objects, frame.next))
  }

  function BlobsOf(frames: seq<Frame>): seq<Blob> {
    seq(|frames|, i requires 0 <= i < |frames| => frames[i].blob)
  }

  function BatchInput(ordered: seq<Tracked>): Bytes {
    Terminated(seq(|ordered|, i requires 0 <= i < |ordered| => ordered[i].oid), '\n')
  }

  /** The checker's digest, for the listing git printed and the batch output it answers with. */
  function QualifiedDigest(tree: Bytes, catFile: Bytes -> Bytes): Result<Digest> {
    var entries :- ParseRecords(Split(tree, '\0'));
    var ordered := Sort(entries, TrackedLe);
    var objects := catFile(BatchInput(ordered));
    var frames :- ReadBlobs(ordered, objects, 0);
    Ok(Sha256(Preimage(BlobsOf(frames))))
  }

  lemma {:induction false} PreimageSnoc(blobs: seq<Blob>, b: Blob)
    ensures Preimage(blobs + [b]) == Preimage(blobs) + BlobText(b)
  {
    hide BlobText;
    if blobs == [] {
      assert blobs + [b] == [b] && [b][1..] == [];
      assert Preimage([b]) == BlobText(b) + "";
    } else {
      assert (blobs + [b])[1..] == blobs[1..] + [b] && (blobs + [b])[0] == blobs[0];
      PreimageSnoc(blobs[1..], b);
    }
  }

  method QualifiedSourceTreeDigest(tree: Bytes, catFile: Bytes -> Bytes) returns (r: Result<Digest>)
    ensures r == QualifiedDigest(tree, catFile)
  {
    var records := Split(tree, '\0');
    assert records[0..] == records;
    var entries: seq<Tracked> := [];
    PrependNothing(ParseRecords(records));
    for i := 0 to |records|
      invariant ParseRecords(records) == Prepend(entries, ParseRecords(records[i..]))
    {
      assert records[i..][1..] == records[i + 1..];
      if records[i] != "" {
        var e := ParseRecord(records[i]);
        if e.Raised? {
          return Raised(e.reason);
        }
        var kept := if Qualified(e.value) then [Tracked(e.value.path, e.value.oid)] else [];
        PrependMore(entries, kept, ParseRecords(records[i + 1..]));
        entries := entries + kept;
      }
    }
    assert entries + [] == entries;
    var ordered := Sort(entries, TrackedLe);
    var objects := catFile(BatchInput(ordered));
    r := HashBlobs(ordered, objects);
  }

  /** The checker's second loop: walks the batch output and feeds the digest. */
  method HashBlobs(ordered: seq<Tracked>, objects: Bytes) returns (r: Result<Digest>)
    ensures r == match ReadBlobs(ordered, objects, 0)
                 case Raised(e) => Raised(e)
                 case Ok(frames) => Ok(Sha256(Preimage(BlobsOf(frames))))
  {
    hide ReadBlob;
    var offset: int := 0;
    var hashed: Bytes := "";
    ghost var done: seq<Frame> := [];
    assert ordered[0..] == ordered;
    PrependNothing(ReadBlobs(ordered, objects, 0));
    for i := 0 to |ordered|
      invariant hashed == Preimage(BlobsOf(done))
      invariant ReadBlobs(ordered, objects, 0) == Prepend(done, ReadBlobs(ordered[i..], objects, offset))
    {
      assert ordered[i..][1..] == ordered[i + 1..];
      var frame := ReadBlob(ordered[i], objects, offset);
      if frame.Raised? {
        return Raised(frame.reason);
      }
      var blob := frame.value.blob;
      assert BlobsOf(done + [frame.value]) == BlobsOf(done) + [blob];
      PreimageSnoc(BlobsOf(done), blob);
      hashed := hashed + blob.path + "\0" + blob.content + "\0";
      PrependMore(done, [frame.value], ReadBlobs(ordered[i + 1..], objects, frame.value.next));
      done := done + [frame.value];
      offset := frame.value.next;
    }
    if offset != |objects| {
      return Raised("unexpected trailing qualified source blob data");
    }
    assert done + [] == done;
    return Ok(Sha256(hashed));
  }

  // ---------------------------------------------------------------- what git prints

  /** Git's field syntax: the separators never occur inside the fields they end. */
  ghost predicate GitEntry(e: TreeEntry) {
    && (forall c :: c in e.mode + e.kind ==> c != ' ' && c != '\t' && c != '\0')
    && (forall c :: c in e.oid ==> c != ' ' && c != '\t' && c != '\0' && c != '\n')
    && '\0' !in e.path
  }

  function Record(e: TreeEntry): Bytes {
    e.mode + " " + e.kind + " " + e.oid + "\t" + e.path
  }

  function LsTree(tree: seq<TreeEntry>): Bytes {
    Terminated(Records(tree), '\0')
  }

  function Selected(tree: seq<TreeEntry>): seq<Tracked> {
    if tree == [] then []
    else (if Qualified(tree[0]) then [Tracked(tree[0].path, tree[0].oid)] else []) + Selected(tree[1..])
  }

  function Header(oid: Bytes, sizeText: Bytes): Bytes {
    oid + " blob " + sizeText
  }

  function FrameText(oid: Bytes, sizeText: Bytes, content: Bytes): Bytes {
    Header(oid, sizeText) + "\n" + content + "\n"
  }

  function HonestText(oid: Bytes, content: Bytes): Bytes {
    FrameText(oid, Decimal(|content|), content)
  }

  function CatFileOutput(ordered: seq<Tracked>, store: map<Bytes, Bytes>): Bytes
    requires forall t :: t in ordered ==> t.oid in store
  {
    if ordered == [] then ""
    else HonestText(ordered[0].oid, store[ordered[0].oid]) + CatFileOutput(ordered[1..], store)
  }

  lemma RecordSplits(mode: Bytes, kind: Bytes, oid: Bytes, path: Bytes)
    requires ' ' !in mode && ' ' !in kind && '\t' !in mode && '\t' !in kind && '\t' !in oid
    ensures var metadata := mode + " " + kind + " " + oid;
            && SplitFirst(metadata + "\t" + path, '\t') == Some((metadata, path))
            && SplitFirst(metadata, ' ') == Some((mode, kind + " " + oid))
            && SplitFirst(kind + " " + oid, ' ') == Some((kind, oid))
  {
    hide SplitFirst;
    var metadata := mode + " " + kind + " " + oid;
    SplitFirstPrefix(metadata, '\t', path);
    assert metadata == mode + [' '] + (kind + " " + oid);
    SplitFirstPrefix(mode, ' ', kind + " " + oid);
    SplitFirstPrefix(kind, ' ', oid);
  }

  lemma RecordParses(e: TreeEntry)
    requires GitEntry(e)
    ensures ParseRecord(Record(e)) == Ok(e) && Record(e) != "" && '\0' !in Record(e)
  {
    hide SplitFirst;
    assert forall c :: c in e.mode || c in e.kind ==> c in e.mode + e.kind;
    RecordSplits(e.mode, e.kind, e.oid, e.path);
  }

  lemma SplitFirstExactly(s: string, c: char, a: string, b: string)
    ensures SplitFirst(s, c) == Some((a, b)) <==> s == a + [c] + b && c !in a
  {
    hide SplitFirst;
    if s == a + [c] + b && c !in a {
      SplitFirstPrefix(a, c, b);
    }
  }

  /** A record parses to an entry if and only if it is the entry's three fields, a tab and its path, cut as early as possible. */
  lemma RecordParsesExactly(record: Bytes, e: TreeEntry)
    ensures ParseRecord(record) == Ok(e)
            <==> record == e.mode + " " + e.kind + " " + e.oid + "\t" + e.path
                 && ' ' !in e.mode && ' ' !in e.kind && '\t' !in e.mode + " " + e.kind + " " + e.oid
  {
    hide SplitFirst;
    var rest := e.kind + " " + e.oid;
    var metadata := e.mode + " " + rest;
    assert metadata == e.mode + " " + e.kind + " " + e.oid;
    SplitFirstExactly(record, '\t', metadata, e.path);
    SplitFirstExactly(metadata, ' ', e.mode, rest);
    SplitFirstExactly(rest, ' ', e.kind, e.oid);
    if ParseRecord(record) == Ok(e) {
      var (m, p) := SplitFirst(record, '\t').value;
      var (mode, more) := SplitFirst(m, ' ').value;
      var (kind, oid) := SplitFirst(more, ' ').value;
      assert m == mode + " " + (kind + " " + oid) == metadata;
    }
  }

  /** A listing is accepted if and only if each of its records is empty or parses; only blobs outside the evidence are kept. */
  lemma {:induction false} ListingAcceptedExactly(records: seq<Bytes>)
    ensures ParseRecords(records).Ok? <==> forall r :: r in records ==> r == "" || ParseRecord(r).Ok?
    ensures ParseRecords(records).Ok? ==>
              forall t :: t in ParseRecords(records).value
                          <==> exists r :: r in records && r != ""
                                 && t == Tracked(ParseRecord(r).value.path, ParseRecord(r).value.oid)
                                 && ParseRecord(r).value.kind == "blob"
                                 && !("docs/11_DEVELOPMENT/evidence/portable_0_50/" <= ParseRecord(r).value.path)
  {
    hide ParseRecord;
    if records != [] {
      var rest := records[1..];
      ListingAcceptedExactly(rest);
      assert records == [records[0]] + rest;
      assert forall r :: r in records <==> r == records[0] || r in rest;
    }
  }

  function Records(tree: seq<TreeEntry>): seq<Bytes> {
    seq(|tree|, i requires 0 <= i < |tree| => Record(tree[i]))
  }

  lemma ParseListing(tree: seq<TreeEntry>)
    requires forall e :: e in tree ==> GitEntry(e)
    ensures ParseRecords(Split(LsTree(tree), '\0')) == Ok(Selected(tree))
  {
    forall p | p in Records(tree) ensures '\0' !in p {
      var i :| 0 <= i < |tree| && p == Record(tree[i]);
      RecordParses(tree[i]);
    }
    SplitTerminated(Records(tree), '\0');
    ParseFields(tree);
  }

  lemma {:induction false} ParseFields(tree: seq<TreeEntry>)
    requires forall e :: e in tree ==> GitEntry(e)
    ensures ParseRecords(Records(tree) + [""]) == Ok(Selected(tree))
  {
    hide ParseRecord, Record, Qualified, GitEntry;
    if tree == [] {
      assert Records(tree) + [""] == [""];
    } else {
      RecordParses(tree[0]);
      var records := Records(tree) + [""];
      assert records[0] == Record(tree[0]);
      assert records[1..] == Records(tree[1..]) + [""];
      ParseFields(tree[1..]);
    }
  }

  lemma IndexAfter(before: Bytes, text: Bytes, c: char, after: Bytes)
    requires c !in text
    ensures IndexFrom(before + text + [c] + after, c, |before|) == Some(|before| + |text|)
  {
    var s := before + text + [c] + after;
    var end := |before| + |text|;
    assert s[end] == c && forall k :: |before| <= k < end ==> s[k] == text[k - |before|];
    assert c in s[|before|..] by {
      assert s[|before|..][|text|] == c;
    }
    assert forall k :: end < k <= |s| ==> s[|before|..k][|text|] == c;
  }

  lemma FrameSlices(before: Bytes, content: Bytes, after: Bytes)
    ensures var s := before + content + "\n" + after;
            && Slice(s, |before|, |before| + |content|) == content
            && Slice(s, |before| + |content|, |before| + |content| + 1) == "\n"
  {
    var s := before + content + "\n" + after;
    assert s[|before|..|before| + |content|] == content;
    assert s[|before| + |content|..|before| + |content| + 1] == "\n";
  }

  lemma HeaderFields(oid: Bytes, sizeText: Bytes)
    requires ' ' !in oid && ' ' !in sizeText
    ensures Split(Header(oid, sizeText), ' ') == [oid, "blob", sizeText]
  {
    SplitPrefix(oid, ' ', "blob " + sizeText);
    SplitPrefix("blob", ' ', sizeText);
    SplitNone(sizeText, ' ');
    assert Header(oid, sizeText) == oid + [' '] + ("blob " + sizeText);
    assert "blob " + sizeText == "blob" + [' '] + sizeText;
  }

  lemma FrameFound(entry: Tracked, objects: Bytes, offset: int, headerEnd: nat, sizeText: Bytes, size: int, content: Bytes)
    requires IndexFrom(objects, '\n', offset) == Some(headerEnd)
    requires Split(Slice(objects, offset, headerEnd), ' ') == [entry.oid, "blob", sizeText]
    requires PyInt(sizeText) == Some(size)
    requires Slice(objects, headerEnd + 1, headerEnd + 1 + size) == content
    requires Slice(objects, headerEnd + 1 + size, headerEnd + 2 + size) == "\n"
    ensures ReadBlob(entry, objects, offset) == Ok(Frame(Blob(entry.path, content), sizeText, size, headerEnd + 2 + size))
  {
    hide IndexFrom, Split, Slice, PyInt;
  }

  /** One honest frame, wherever it stands, is read back exactly and the offset moves past it. */
  lemma HonestFrame(entry: Tracked, content: Bytes, before: Bytes, after: Bytes)
    requires ' ' !in entry.oid && '\n' !in entry.oid
    ensures ReadBlob(entry, before + HonestText(entry.oid, content) + after, |before|)
            == Ok(HonestlyRead(entry, content, |before|))
  {
    hide IndexFrom, Split, Slice, PyInt, ReadBlob, Decimal;
    var size := Decimal(|content|);
    var header := Header(entry.oid, size);
    assert HonestText(entry.oid, content) == header + "\n" + content + "\n";
    assert '\n' !in header;
    HonestSlices(before, header, content, after);
    HeaderFields(entry.oid, size);
    PyIntDecimal(|content|);
    FrameFound(entry, before + HonestText(entry.oid, content) + after, |before|, |before| + |header|, size, |content|,
               content);
  }

  lemma HonestSlices(before: Bytes, header: Bytes, content: Bytes, after: Bytes)
    requires '\n' !in header
    ensures var objects := before + (header + "\n" + content + "\n") + after;
            var headerEnd := |before| + |header|;
            && IndexFrom(objects, '\n', |before|) == Some(headerEnd)
            && Slice(objects, |before|, headerEnd) == header
            && Slice(objects, headerEnd + 1, headerEnd + 1 + |content|) == content
            && Slice(objects, headerEnd + 1 + |content|, headerEnd + 2 + |content|) == "\n"
  {
    Layout(before, header, content, after);
    IndexAfter(before, header, '\n', content + "\n" + after);
    var objects := before + (header + "\n" + content + "\n") + after;
    assert objects[|before|..|before| + |header|] == header;
    FrameSlices(before + header + "\n", content, after);
  }

  lemma Layout(before: Bytes, header: Bytes, content: Bytes, after: Bytes)
    ensures var objects := before + (header + "\n" + content + "\n") + after;
            && objects == before + header + ['\n'] + (content + "\n" + after)
            && objects == before + header + "\n" + content + "\n" + after
  {
  }

  function HonestlyRead(entry: Tracked, content: Bytes, offset: nat): (f: Frame)
    ensures f.next > offset
  {
    Frame(Blob(entry.path, content), Decimal(|content|), |content|, offset + |HonestText(entry.oid, content)|)
  }

  function HonestFrames(ordered: seq<Tracked>, store: map<Bytes, Bytes>, offset: nat): seq<Frame>
    requires forall t :: t in ordered ==> t.oid in store
  {
    if ordered == [] then []
    else
      var content := store[ordered[0].oid];
      var frame := HonestlyRead(ordered[0], content, offset);
      [frame] + HonestFrames(ordered[1..], store, frame.next)
  }

  lemma BatchStep(ordered: seq<Tracked>, objects: Bytes, offset: int, frame: Frame, rest: seq<Frame>)
    requires ordered != [] && ReadBlob(ordered[0], objects, offset) == Ok(frame)
    requires ReadBlobs(ordered[1..], objects, frame.next) == Ok(rest)
    ensures ReadBlobs(ordered, objects, offset) == Ok([frame] + rest)
  {
  }

  lemma {:induction false} HonestBatch(ordered: seq<Tracked>, store: map<Bytes, Bytes>, before: Bytes, objects: Bytes)
    requires forall t :: t in ordered ==> t.oid in store && ' ' !in t.oid && '\n' !in t.oid
    requires objects == before + CatFileOutput(ordered, store)
    ensures ReadBlobs(ordered, objects, |before|) == Ok(HonestFrames(ordered, store, |before|))
  {
    hide ReadBlob;
    if ordered == [] {
      assert objects == before;
    } else {
      var content := store[ordered[0].oid];
      var text := HonestText(ordered[0].oid, content);
      var after := CatFileOutput(ordered[1..], store);
      assert objects == before + text + after;
      HonestFrame(ordered[0], content, before, after);
      var frame := HonestlyRead(ordered[0], content, |before|);
      HonestBatch(ordered[1..], store, before + text, objects);
      var rest := HonestFrames(ordered[1..], store, frame.next);
      BatchStep(ordered, objects, |before|, frame, rest);
      assert HonestFrames(ordered, store, |before|) == [frame] + rest;
    }
  }

  function Contents(ordered: seq<Tracked>, store: map<Bytes, Bytes>): seq<Blob>
    requires forall t :: t in ordered ==> t.oid in store
  {
    seq(|ordered|, i requires 0 <= i < |ordered| => Blob(ordered[i].path, store[ordered[i].oid]))
  }

  lemma {:induction false} HonestBlobs(ordered: seq<Tracked>, store: map<Bytes, Bytes>, offset: nat)
    requires forall t :: t in ordered ==> t.oid in store
    ensures BlobsOf(HonestFrames(ordered, store, offset)) == Contents(ordered, store)
  {
    if ordered != [] {
      var content := store[ordered[0].oid];
      HonestBlobs(ordered[1..], store, offset + |HonestText(ordered[0].oid, content)|);
      var frames, contents := HonestFrames(ordered, store, offset), Contents(ordered, store);
      hide HonestText, HonestFrames;
      assert BlobsOf(frames)[0] == contents[0] && BlobsOf(frames)[1..] == BlobsOf(frames[1..]);
      assert contents[1..] == Contents(ordered[1..], store);
    }
  }

  lemma {:induction false} SelectedMembers(tree: seq<TreeEntry>)
    ensures forall t :: t in Selected(tree) <==>
              exists e :: e in tree && Qualified(e) && t == Tracked(e.path, e.oid)
  {
    if tree != [] {
      SelectedMembers(tree[1..]);
      assert forall e :: e in tree <==> e == tree[0] || e in tree[1..];
    }
  }

  /** What `git cat-file --batch` writes for a list of object ids: each id with its object, in the order of the list. */
  function Answers(oids: seq<Bytes>, store: map<Bytes, Bytes>): Bytes
    requires forall oid :: oid in oids ==> oid in store
  {
    if oids == [] then "" else HonestText(oids[0], store[oids[0]]) + Answers(oids[1..], store)
  }

  /** Git answers every list of stored object ids, one to a line. */
  ghost predicate HonestGit(store: map<Bytes, Bytes>, catFile: Bytes -> Bytes) {
    forall oids: seq<Bytes> :: (forall oid :: oid in oids ==> oid in store && '\n' !in oid) ==>
      catFile(Terminated(oids, '\n')) == Answers(oids, store)
  }

  /** Such a git exists for every store. */
  function Git(store: map<Bytes, Bytes>): Bytes -> Bytes {
    input =>
      var lines := Split(input, '\n');
      var oids := lines[..|lines| - 1];
      if forall oid :: oid in oids ==> oid in store then Answers(oids, store) else ""
  }

  lemma GitIsHonest(store: map<Bytes, Bytes>)
    ensures HonestGit(store, Git(store))
  {
    forall oids: seq<Bytes> | forall oid :: oid in oids ==> oid in store && '\n' !in oid
      ensures Git(store)(Terminated(oids, '\n')) == Answers(oids, store)
    {
      SplitTerminated(oids, '\n');
      assert (oids + [""])[..|oids|] == oids;
    }
  }

  /** The store holds the commit's qualified objects, and git answers for it. */
  ghost predicate HonestCatFile(tree: seq<TreeEntry>, store: map<Bytes, Bytes>, catFile: Bytes -> Bytes) {
    && (forall t :: t in Sort(Selected(tree), TrackedLe) ==> t.oid in store)
    && HonestGit(store, catFile)
  }

  lemma {:induction false} AnswersInOrder(ordered: seq<Tracked>, oids: seq<Bytes>, store: map<Bytes, Bytes>)
    requires |oids| == |ordered| && forall i :: 0 <= i < |ordered| ==> oids[i] == ordered[i].oid
    requires forall t :: t in ordered ==> t.oid in store
    ensures (forall oid :: oid in oids ==> oid in store) && Answers(oids, store) == CatFileOutput(ordered, store)
  {
    if ordered != [] {
      assert oids == [oids[0]] + oids[1..] && ordered[0] in ordered;
      AnswersInOrder(ordered[1..], oids[1..], store);
    }
  }

  /** What the checker asks for is answered with one frame per entry, in its order. */
  lemma BatchIsAnswered(ordered: seq<Tracked>, store: map<Bytes, Bytes>, catFile: Bytes -> Bytes)
    requires HonestGit(store, catFile) && forall t :: t in ordered ==> t.oid in store && '\n' !in t.oid
    ensures catFile(BatchInput(ordered)) == CatFileOutput(ordered, store)
  {
    hide Answers, CatFileOutput, Terminated;
    var oids := seq(|ordered|, i requires 0 <= i < |ordered| => ordered[i].oid);
    forall oid | oid in oids ensures oid in store && '\n' !in oid {
      var i :| 0 <= i < |oids| && oids[i] == oid;
      assert ordered[i] in ordered;
    }
    AnswersInOrder(ordered, oids, store);
    assert BatchInput(ordered) == Terminated(oids, '\n');
  }

  /** Whatever the blobs contain, the parser recovers each path with exactly its content. */
  lemma ParserRecoversEveryBlob(tree: seq<TreeEntry>, store: map<Bytes, Bytes>, catFile: Bytes -> Bytes)
    requires forall e :: e in tree ==> GitEntry(e)
    requires HonestCatFile(tree, store, catFile)
    ensures QualifiedDigest(LsTree(tree), catFile)
            == Ok(Sha256(Preimage(Contents(Sort(Selected(tree), TrackedLe), store))))
  {
    var ordered := Sort(Selected(tree), TrackedLe);
    ParseListing(tree);
    SelectedMembers(tree);
    SortMembers(Selected(tree), TrackedLe);
    forall t | t in ordered ensures ' ' !in t.oid && '\n' !in t.oid {
      var e :| e in tree && t == Tracked(e.path, e.oid);
      assert GitEntry(e);
    }
    BatchIsAnswered(ordered, store, catFile);
    HonestBatch(ordered, store, "", CatFileOutput(ordered, store));
    HonestBlobs(ordered, store, 0);
  }

  // ---------------------------------------------------------------- arbitrary batch output

  lemma NewlineAt(objects: Bytes, k: nat)
    requires Slice(objects, k, k + 1) == "\n"
    ensures k < |objects| && objects[k] == '\n'
  {
    if k < |objects| {
      assert Slice(objects, k, k + 1) == [objects[k]];
    }
  }

  /**
   On any batch output and from any offset, an accepted frame moves the offset forward if and only if its declared size
   is at least -1; counted from the end, an offset has one whole turn more.
   */
  lemma AcceptedFrameAdvances(entry: Tracked, objects: Bytes, offset: int)
    requires ReadBlob(entry, objects, offset).Ok?
    ensures var frame := ReadBlob(entry, objects, offset).value;
            frame.next > offset <==> frame.size >= -1 - if offset < 0 then |objects| else 0
  {
    hide Split, PyInt;
    var start, headerEnd := SliceBound(offset, |objects|), IndexFrom(objects, '\n', offset).value;
    var frame := ReadBlob(entry, objects, offset).value;
    var contentEnd := headerEnd + 1 + frame.size;
    assert forall k :: start <= k < headerEnd ==> objects[start..headerEnd][k - start] == objects[k];
    NewlineWraps(objects, contentEnd);
  }

  lemma NewlineWraps(objects: Bytes, k: int)
    requires Slice(objects, k, k + 1) == "\n"
    ensures -|objects| <= k < |objects| && k != -1
    ensures var at := if k < 0 then k + |objects| else k; objects[at] == '\n'
  {
    var at := if k < 0 then k + |objects| else k;
    if 0 <= at < |objects| && k != -1 {
      assert Slice(objects, k, k + 1) == objects[at..at + 1];
    }
  }

  lemma SliceInside(s: Bytes, i: nat, j: nat)
    requires i <= |s| && j <= |s|
    ensures Slice(s, i, j) == if i <= j then s[i..j] else ""
  {
  }

  lemma HeaderLine(before: Bytes, header: Bytes, after: Bytes)
    requires '\n' !in header
    ensures var objects := before + header + ['\n'] + after;
            && IndexFrom(objects, '\n', |before|) == Some(|before| + |header|)
            && Slice(objects, |before|, |before| + |header|) == header
  {
    IndexAfter(before, header, '\n', after);
    var objects := before + header + ['\n'] + after;
    assert objects[|before|..|before| + |header|] == header;
  }

  /** Where the declared size puts the end of a frame's content. */
  lemma ContentEnd(objects: Bytes, start: nat, size: int)
    requires start <= |objects| && 0 <= start + size < |objects| && objects[start + size] == '\n'
    ensures Slice(objects, start, start + size) == if size >= 0 then objects[start..start + size] else ""
    ensures Slice(objects, start + size, start + size + 1) == "\n"
  {
    SliceInside(objects, start, start + size);
    SliceInside(objects, start + size, start + size + 1);
    assert objects[start + size..start + size + 1] == "\n";
  }

  lemma HeaderIsALine(oid: Bytes, sizeText: Bytes)
    requires '\n' !in oid && '\n' !in sizeText
    ensures '\n' !in Header(oid, sizeText)
  {
  }

  /** Reading a frame of any declared size, its content empty where the size is negative. */
  lemma FrameRead(entry: Tracked, sizeText: Bytes, size: int, before: Bytes, after: Bytes)
    requires ' ' !in entry.oid && '\n' !in entry.oid && ' ' !in sizeText && '\n' !in sizeText && PyInt(sizeText) == Some(size)
    requires var objects := before + Header(entry.oid, sizeText) + ['\n'] + after;
             var end := |before| + |Header(entry.oid, sizeText)| + 1 + size;
             0 <= end < |objects| && objects[end] == '\n'
    ensures var objects := before + Header(entry.oid, sizeText) + ['\n'] + after;
            var start := |before| + |Header(entry.oid, sizeText)| + 1;
            ReadBlob(entry, objects, |before|)
            == Ok(Frame(Blob(entry.path, if size >= 0 then objects[start..start + size] else ""), sizeText, size,
                        start + size + 1))
  {
    hide Header, ReadBlob, PyInt, Split, Slice, IndexFrom;
    var header := Header(entry.oid, sizeText);
    HeaderIsALine(entry.oid, sizeText);
    HeaderFields(entry.oid, sizeText);
    HeaderLine(before, header, after);
    var objects, start := before + header + ['\n'] + after, |before| + |header| + 1;
    ContentEnd(objects, start, size);
    FrameFound(entry, objects, |before|, start - 1, sizeText, size, if size >= 0 then objects[start..start + size] else "");
  }

  const LOOPING: Bytes := Header("a", "9") + "\n" + Header("c", "10") + "\n" + Header("b", "-22") + "\n"

  lemma LoopingText()
    ensures LOOPING == "a blob 9\nc blob 10\nb blob -22\n"
    ensures |LOOPING| == 30
  {
  }

  /** A whole run that is accepted although its second frame moves the offset from 19 back to 9. */
  lemma OffsetCanMoveBack()
    ensures ReadBlobs([Tracked("p", "a"), Tracked("q", "b"), Tracked("r", "c")], LOOPING, 0)
            == Ok([Frame(Blob("p", Header("c", "10")), "9", 9, 19), Frame(Blob("q", ""), "-22", -22, 9),
                   Frame(Blob("r", Header("b", "-22")), "10", 10, 30)])
  {
    var a, b, c := Tracked("p", "a"), Tracked("q", "b"), Tracked("r", "c");
    FirstFrame();
    SecondFrame();
    ThirdFrame();
    LoopingText();
    hide ReadBlob, LOOPING, Header;
    assert [a, b, c][1..] == [b, c] && [b, c][1..] == [c] && [c][1..] == [];
    assert ReadBlobs([], LOOPING, 30) == Ok([]);
    var first, second := Frame(Blob("p", Header("c", "10")), "9", 9, 19), Frame(Blob("q", ""), "-22", -22, 9);
    var third := Frame(Blob("r", Header("b", "-22")), "10", 10, 30);
    BatchStep([c], LOOPING, 9, third, []);
    BatchStep([b, c], LOOPING, 19, second, [third] + []);
    BatchStep([a, b, c], LOOPING, 0, first, [second] + ([third] + []));
    assert [first] + ([second] + ([third] + [])) == [first, second, third];
  }

  lemma HeaderSize(oid: Bytes, sizeText: Bytes)
    ensures |Header(oid, sizeText)| == |oid| + 6 + |sizeText|
  {
  }

  lemma HeaderSizes()
    ensures |Header("a", "9")| == 8 && |Header("c", "10")| == 9 && |Header("b", "-22")| == 10
  {
    HeaderSize("a", "9");
    HeaderSize("c", "10");
    HeaderSize("b", "-22");
  }

  lemma FirstFrame()
    ensures ReadBlob(Tracked("p", "a"), LOOPING, 0) == Ok(Frame(Blob("p", Header("c", "10")), "9", 9, 19))
  {
    SizeTexts();
    HeaderSizes();
    hide ReadBlob, PyInt, Header;
    var rest := Header("c", "10") + "\n" + Header("b", "-22") + "\n";
    assert LOOPING == "" + Header("a", "9") + ['\n'] + rest;
    assert LOOPING[18] == '\n' && LOOPING[9..18] == Header("c", "10");
    FrameRead(Tracked("p", "a"), "9", 9, "", rest);
  }

  lemma SecondFrame()
    ensures ReadBlob(Tracked("q", "b"), LOOPING, 19) == Ok(Frame(Blob("q", ""), "-22", -22, 9))
  {
    SizeTexts();
    HeaderSizes();
    hide ReadBlob, PyInt, Header;
    var before := Header("a", "9") + "\n" + Header("c", "10") + "\n";
    assert LOOPING == before + Header("b", "-22") + ['\n'] + "";
    assert LOOPING[8] == '\n';
    FrameRead(Tracked("q", "b"), "-22", -22, before, "");
  }

  lemma ThirdFrame()
    ensures ReadBlob(Tracked("r", "c"), LOOPING, 9) == Ok(Frame(Blob("r", Header("b", "-22")), "10", 10, 30))
  {
    SizeTexts();
    HeaderSizes();
    hide ReadBlob, PyInt, Header;
    var before, after := Header("a", "9") + "\n", Header("b", "-22") + "\n";
    assert LOOPING == before + Header("c", "10") + ['\n'] + after;
    assert LOOPING[29] == '\n' && LOOPING[19..29] == Header("b", "-22");
    FrameRead(Tracked("r", "c"), "10", 10, before, after);
  }

  lemma DecimalTexts()
    ensures Decimal(9) == "9" && Decimal(1) == "1" && Decimal(10) == "10" && Decimal(22) == "22"
  {
    assert Decimal(2) == "2" && Decimal(0) == "0";
    assert Decimal(22) == Decimal(2) + "2" && Decimal(10) == Decimal(1) + "0";
  }

  lemma SizeTexts()
    ensures PyInt("9") == Some(9) && PyInt("10") == Some(10) && PyInt("-22") == Some(-22) && PyInt("-1") == Some(-1)
  {
    hide PyInt;
    PyIntDecimal(9);
    PyIntDecimal(10);
    Negative(22);
    Negative(1);
    DecimalTexts();
    hide Decimal;
    assert "-" + "22" == "-22" && "-" + "1" == "-1";
  }

  lemma Negative(n: nat)
    ensures PyInt("-" + Decimal(n)) == Some(0 - n)
  {
    var s := "-" + Decimal(n);
    assert s[|s| - 1] in Decimal(n);
    assert s[1..] == Decimal(n);
    DigitsValueDecimal(n);
    hide Decimal, DigitsValue;
    assert StripLeft(s) == s && StripRight(s) == s;
  }

  function Reassemble(ordered: seq<Tracked>, frames: seq<Frame>): Bytes
    requires |ordered| == |frames|
  {
    if ordered == [] then ""
    else FrameText(ordered[0].oid, frames[0].sizeText, frames[0].blob.content) + Reassemble(ordered[1..], frames[1..])
  }

  /** The output is its frames back to back, each of the size of its content. */
  ghost predicate Framed(ordered: seq<Tracked>, frames: seq<Frame>, objects: Bytes, offset: int) {
    && 0 <= offset <= |objects| && |frames| == |ordered|
    && objects[offset..] == Reassemble(ordered, frames)
    && forall f :: f in frames ==> PyInt(f.sizeText) == Some(|f.blob.content|)
  }

  /** Accepted output is exactly its frames back to back if and only if no declared size is negative. */
  lemma AcceptedOutputIsFramedExactly(ordered: seq<Tracked>, objects: Bytes, offset: nat)
    requires offset <= |objects| && ReadBlobs(ordered, objects, offset).Ok?
    ensures var frames := ReadBlobs(ordered, objects, offset).value;
            Framed(ordered, frames, objects, offset) <==> forall f :: f in frames ==> f.size >= 0
  {
    var frames := ReadBlobs(ordered, objects, offset).value;
    FrameSizes(ordered, objects, offset);
    hide ReadBlobs, PyInt, Reassemble;
    if forall f :: f in frames ==> f.size >= 0 {
      AcceptedOutputIsFramed(ordered, objects, offset);
    }
  }

  const UNFRAMED: Bytes := "a blob -1\n"

  lemma UnframedText()
    ensures |UNFRAMED| == 10 && UNFRAMED[9] == '\n' && UNFRAMED == "" + Header("a", "-1") + ['\n'] + ""
  {
  }

  lemma UnframedRead()
    ensures ReadBlob(Tracked("p", "a"), UNFRAMED, 0) == Ok(Frame(Blob("p", ""), "-1", -1, 10))
  {
    hide *;
    SizeTexts();
    HeaderSize("a", "-1");
    UnframedText();
    FrameRead(Tracked("p", "a"), "-1", -1, "", "");
  }

  /** The smallest accepted output that is not its frames: one header that declares the size -1. */
  lemma AcceptedUnframed()
    ensures var r := ReadBlobs([Tracked("p", "a")], UNFRAMED, 0);
            r.Ok? && !Framed([Tracked("p", "a")], r.value, UNFRAMED, 0)
  {
    var entry, frame := Tracked("p", "a"), Frame(Blob("p", ""), "-1", -1, 10);
    UnframedRead();
    UnframedText();
    hide ReadBlob, Header, UNFRAMED, Framed;
    assert [entry][1..] == [];
    assert ReadBlobs([], UNFRAMED, 10) == Ok([]);
    BatchStep([entry], UNFRAMED, 0, frame, []);
    assert frame in [frame] + [];
    AcceptedOutputIsFramedExactly([entry], UNFRAMED, 0);
  }

  /** An accepted frame's size is what its size text says. */
  lemma {:induction false} FrameSizes(ordered: seq<Tracked>, objects: Bytes, offset: int)
    requires ReadBlobs(ordered, objects, offset).Ok?
    ensures forall f :: f in ReadBlobs(ordered, objects, offset).value ==> PyInt(f.sizeText) == Some(f.size)
    decreases ordered
  {
    hide PyInt, Split, Slice, IndexFrom;
    if ordered != [] {
      var frame := ReadBlob(ordered[0], objects, offset).value;
      FrameSizes(ordered[1..], objects, frame.next);
      var rest := ReadBlobs(ordered[1..], objects, frame.next).value;
      assert ReadBlobs(ordered, objects, offset).value == [frame] + rest;
      assert forall f :: f in [frame] + rest ==> f == frame || f in rest;
    }
  }

  lemma {:induction false} AcceptedOutputIsFramed(ordered: seq<Tracked>, objects: Bytes, offset: nat)
    requires offset <= |objects| && ReadBlobs(ordered, objects, offset).Ok?
    requires forall f :: f in ReadBlobs(ordered, objects, offset).value ==> f.size >= 0
    ensures Framed(ordered, ReadBlobs(ordered, objects, offset).value, objects, offset)
  {
    hide ReadBlob, PyInt, FrameText;
    if ordered != [] {
      var frame := ReadBlob(ordered[0], objects, offset).value;
      var rest := ReadBlobs(ordered[1..], objects, frame.next).value;
      assert ReadBlobs(ordered, objects, offset).value == [frame] + rest;
      assert frame in [frame] + rest && forall f :: f in rest ==> f in [frame] + rest;
      AcceptedFrame(ordered[0], objects, offset, frame);
      AcceptedOutputIsFramed(ordered[1..], objects, frame.next);
      ReassembleCons(ordered, frame, rest);
      assert objects[offset..] == objects[offset..frame.next] + objects[frame.next..];
      assert forall f :: f in [frame] + rest ==> f == frame || f in rest;
    }
  }

  lemma ReassembleCons(ordered: seq<Tracked>, frame: Frame, rest: seq<Frame>)
    requires |ordered| == |rest| + 1
    ensures Reassemble(ordered, [frame] + rest)
            == FrameText(ordered[0].oid, frame.sizeText, frame.blob.content) + Reassemble(ordered[1..], rest)
  {
    assert ([frame] + rest)[1..] == rest;
  }

  lemma AcceptedFrame(entry: Tracked, objects: Bytes, offset: nat, f: Frame)
    requires offset <= |objects| && ReadBlob(entry, objects, offset) == Ok(f) && f.size >= 0
    ensures offset < f.next <= |objects|
    ensures objects[offset..f.next] == FrameText(entry.oid, f.sizeText, f.blob.content)
    ensures PyInt(f.sizeText) == Some(|f.blob.content|)
  {
    hide Split, PyInt;
    var headerEnd := IndexFrom(objects, '\n', offset).value;
    var contentEnd := headerEnd + 1 + f.size;
    var header := Slice(objects, offset, headerEnd);
    assert header == objects[offset..headerEnd];
    HeaderRebuilt(entry.oid, header);
    assert header == Header(entry.oid, f.sizeText);
    NewlineAt(objects, contentEnd);
    assert f.blob.content == objects[headerEnd + 1..contentEnd];
    Bracketed(objects, offset, headerEnd, contentEnd);
  }

  lemma Bracketed(s: Bytes, start: nat, middle: nat, end: nat)
    requires start <= middle < end < |s| && s[middle] == '\n' && s[end] == '\n'
    ensures s[start..end + 1] == s[start..middle] + "\n" + s[middle + 1..end] + "\n"
  {
  }

  lemma HeaderRebuilt(oid: Bytes, header: Bytes)
    requires |Split(header, ' ')| == 3 && Split(header, ' ')[0] == oid && Split(header, ' ')[1] == "blob"
    ensures header == Header(oid, Split(header, ' ')[2])
  {
    SplitRebuild(header, ' ');
    JoinThree(Split(header, ' '), " ");
    var size := Split(header, ' ')[2];
    assert oid + " " + ("blob" + " " + size) == oid + " blob " + size;
  }

  // ---------------------------------------------------------------- the generator

  function GeneratorBlobs(names: seq<Bytes>, worktree: map<Bytes, Bytes>, decodes: Bytes -> bool): Result<seq<Blob>> {
    if names == [] then Ok([])
    else if !decodes(names[0]) then Raised("path is not UTF-8")
    else if StartsWith(names[0], EVIDENCE_PREFIX) then GeneratorBlobs(names[1..], worktree, decodes)
    else if names[0] !in worktree then Raised("cannot read file")
    else
      Prepend([Blob(names[0], worktree[names[0]])], GeneratorBlobs(names[1..], worktree, decodes))
  }

  function NonEmpty(names: seq<Bytes>): seq<Bytes> {
    if names == [] then []
    else (if names[0] == "" then [] else [names[0]]) + NonEmpty(names[1..])
  }

  /** The generator's digest, for the listing git printed and the files it reads. */
  function SourceDigest(lsFiles: Bytes, worktree: map<Bytes, Bytes>, decodes: Bytes -> bool): Result<Digest> {
    var blobs :- GeneratorBlobs(SortStrings(NonEmpty(Split(lsFiles, '\0'))), worktree, decodes);
    Ok(Sha256(Preimage(blobs)))
  }

  method SourceTreeDigest(lsFiles: Bytes, worktree: map<Bytes, Bytes>, decodes: Bytes -> bool)
    returns (r: Result<Digest>)
    ensures r == SourceDigest(lsFiles, worktree, decodes)
  {
    hide StartsWith, NonEmpty, Split;
    var names := SortStrings(NonEmpty(Split(lsFiles, '\0')));
    var hashed: Bytes := "";
    ghost var done: seq<Blob> := [];
    assert names[0..] == names;
    PrependNothing(GeneratorBlobs(names, worktree, decodes));
    for i := 0 to |names|
      invariant hashed == Preimage(done)
      invariant GeneratorBlobs(names, worktree, decodes) ==
                Prepend(done, GeneratorBlobs(names[i..], worktree, decodes))
    {
      assert names[i..][1..] == names[i + 1..];
      var raw := names[i];
      if !decodes(raw) {
        return Raised("path is not UTF-8");
      }
      if !StartsWith(raw, EVIDENCE_PREFIX) {
        if raw !in worktree {
          return Raised("cannot read file");
        }
        PreimageSnoc(done, Blob(raw, worktree[raw]));
        PrependMore(done, [Blob(raw, worktree[raw])], GeneratorBlobs(names[i + 1..], worktree, decodes));
        hashed := hashed + raw + "\0" + worktree[raw] + "\0";
        done := done + [Blob(raw, worktree[raw])];
      }
    }
    assert done + [] == done;
    return Ok(Sha256(hashed));
  }

  // ---------------------------------------------------------------- agreement

  function Outside(names: seq<Bytes>): seq<Bytes> {
    if names == [] then []
    else (if StartsWith(names[0], EVIDENCE_PREFIX) then [] else [names[0]]) + Outside(names[1..])
  }

  function Files(names: seq<Bytes>, worktree: map<Bytes, Bytes>): seq<Blob>
    requires forall n :: n in names ==> n in worktree
  {
    seq(|names|, i requires 0 <= i < |names| => Blob(names[i], worktree[names[i]]))
  }

  lemma {:induction false} OutsideMembers(names: seq<Bytes>)
    ensures forall n :: n in Outside(names) <==> n in names && !StartsWith(n, EVIDENCE_PREFIX)
  {
    if names != [] {
      OutsideMembers(names[1..]);
      assert forall n :: n in names <==> n == names[0] || n in names[1..];
    }
  }

  lemma {:induction false} OutsideSorted(names: seq<Bytes>)
    requires SortedBy(StringLe, names)
    ensures SortedBy(StringLe, Outside(names))
  {
    if names != [] {
      OutsideSorted(names[1..]);
      OutsideMembers(names[1..]);
      var rest := Outside(names[1..]);
      forall j | 0 <= j < |rest| ensures StringLe(names[0], rest[j]) {
        assert rest[j] in rest;
        var k :| 0 <= k < |names[1..]| && names[1..][k] == rest[j];
        assert names[k + 1] == rest[j];
      }
    }
  }

  lemma {:induction false} OutsideDistinct(names: seq<Bytes>)
    requires Distinct(names)
    ensures Distinct(Outside(names))
  {
    if names != [] {
      OutsideDistinct(names[1..]);
      OutsideMembers(names[1..]);
    }
  }

  lemma {:induction false} NonEmptyIdentity(names: seq<Bytes>)
    requires "" !in names
    ensures NonEmpty(names + [""]) == names
  {
    if names == [] {
      assert names + [""] == [""];
    } else {
      assert (names + [""])[1..] == names[1..] + [""];
      assert names == [names[0]] + names[1..];
      NonEmptyIdentity(names[1..]);
    }
  }

  lemma {:induction false} GeneratorReads(names: seq<Bytes>, worktree: map<Bytes, Bytes>, decodes: Bytes -> bool)
    requires forall n :: n in names ==> decodes(n)
    requires forall n :: n in Outside(names) ==> n in worktree
    ensures GeneratorBlobs(names, worktree, decodes) == Ok(Files(Outside(names), worktree))
  {
    hide StartsWith;
    if names == [] {
      assert Files(Outside(names), worktree) == [];
    } else {
      assert Outside(names) == (if StartsWith(names[0], EVIDENCE_PREFIX) then [] else [names[0]]) + Outside(names[1..]);
      assert forall n :: n in Outside(names[1..]) ==> n in Outside(names);
      GeneratorReads(names[1..], worktree, decodes);
      if !StartsWith(names[0], EVIDENCE_PREFIX) {
        assert names[0] in Outside(names);
        assert Outside(names) == [names[0]] + Outside(names[1..]);
        assert Files(Outside(names), worktree) ==
               [Blob(names[0], worktree[names[0]])] + Files(Outside(names[1..]), worktree);
      } else {
        assert Outside(names) == Outside(names[1..]);
      }
    }
  }

  lemma TrackedOrder()
    ensures TotalOrder(TrackedLe)
  {
    StringOrder();
  }

  function Paths(tree: seq<TreeEntry>): seq<Bytes> {
    seq(|tree|, i requires 0 <= i < |tree| => tree[i].path)
  }

  function TrackedPaths(ordered: seq<Tracked>): seq<Bytes> {
    seq(|ordered|, i requires 0 <= i < |ordered| => ordered[i].path)
  }

  /**
   A checkout of the commit: the index lists the commit's paths, each once and in any order,
   paths decode, and outside the evidence tree every entry is a blob with a readable file.
   */
  ghost predicate Checkout(tree: seq<TreeEntry>, names: seq<Bytes>, worktree: map<Bytes, Bytes>,
                           decodes: Bytes -> bool)
  {
    && (forall e :: e in tree ==> GitEntry(e) && e.path != "" && decodes(e.path))
    && Distinct(Paths(tree))
    && multiset(names) == multiset(Paths(tree))
    && (forall e :: e in tree && !StartsWith(e.path, EVIDENCE_PREFIX) ==> e.kind == "blob" && e.path in worktree)
  }

  lemma PathMembers(tree: seq<TreeEntry>)
    ensures forall n :: n in Paths(tree) <==> exists e :: e in tree && e.path == n
  {
    forall n | n in Paths(tree) ensures exists e :: e in tree && e.path == n {
      var i :| 0 <= i < |tree| && Paths(tree)[i] == n;
      assert tree[i] in tree;
    }
    forall e | e in tree ensures e.path in Paths(tree) {
      var i :| 0 <= i < |tree| && tree[i] == e;
      assert Paths(tree)[i] == e.path;
    }
  }

  /** Sorting the tuples sorts the paths. */
  lemma SortedTrackedPaths(ordered: seq<Tracked>)
    requires SortedBy(TrackedLe, ordered)
    ensures SortedBy(StringLe, TrackedPaths(ordered))
  {
    StringOrder();
    forall i, j | 0 <= i < j < |ordered| ensures StringLe(ordered[i].path, ordered[j].path) {
      assert TrackedLe(ordered[i], ordered[j]);
    }
  }

  lemma {:induction false} SelectedDistinct(tree: seq<TreeEntry>)
    requires Distinct(Paths(tree))
    ensures Distinct(TrackedPaths(Selected(tree)))
  {
    if tree != [] {
      assert Paths(tree[1..]) == Paths(tree)[1..];
      SelectedDistinct(tree[1..]);
      var rest := Selected(tree[1..]);
      SelectedMembers(tree[1..]);
      forall i | 0 <= i < |rest| ensures rest[i].path != tree[0].path {
        assert rest[i] in rest;
        var e :| e in tree[1..] && rest[i] == Tracked(e.path, e.oid);
        var k :| 0 <= k < |tree[1..]| && tree[1..][k] == e;
        assert Paths(tree)[k + 1] == e.path && Paths(tree)[0] == tree[0].path;
      }
      if Qualified(tree[0]) {
        assert TrackedPaths(Selected(tree)) == [tree[0].path] + TrackedPaths(rest);
      } else {
        assert Selected(tree) == rest;
      }
    }
  }

  lemma TrackedPathsPermuted(a: seq<Tracked>, b: seq<Tracked>)
    requires multiset(a) == multiset(b) && Distinct(TrackedPaths(a))
    ensures Distinct(TrackedPaths(b))
  {
    forall i, j | 0 <= i < j < |a| ensures a[i] != a[j] {
      assert TrackedPaths(a)[i] != TrackedPaths(a)[j];
    }
    DistinctPermutation(a, b);
    forall i, j | 0 <= i < j < |b| ensures b[i].path != b[j].path {
      assert b[i] in multiset(a) && b[j] in multiset(a);
      var k :| 0 <= k < |a| && a[k] == b[i];
      var l :| 0 <= l < |a| && a[l] == b[j];
      assert TrackedPaths(a)[k] == b[i].path && TrackedPaths(a)[l] == b[j].path;
    }
  }

  lemma SameMembers(tree: seq<TreeEntry>, names: seq<Bytes>, worktree: map<Bytes, Bytes>, decodes: Bytes -> bool)
    requires Checkout(tree, names, worktree, decodes)
    ensures forall n :: n in TrackedPaths(Sort(Selected(tree), TrackedLe)) <==> n in Outside(SortStrings(names))
  {
    hide Sort, Selected, Outside, Paths, StringLe, GitEntry;
    var ordered := Sort(Selected(tree), TrackedLe);
    PathMembers(tree);
    OutsideMembers(SortStrings(names));
    SelectedMembers(tree);
    SortMembers(Selected(tree), TrackedLe);
    SortMembers(names, StringLe);
    hide SortStrings;
    forall n ensures n in TrackedPaths(ordered) <==> n in Outside(SortStrings(names)) {
      assert n in names <==> n in Paths(tree) by {
        assert n in multiset(names) <==> n in multiset(Paths(tree));
      }
      if n in TrackedPaths(ordered) {
        var i :| 0 <= i < |ordered| && TrackedPaths(ordered)[i] == n;
        assert ordered[i] in ordered;
        var e :| e in tree && Qualified(e) && ordered[i] == Tracked(e.path, e.oid);
      }
      if n in Outside(SortStrings(names)) {
        var e :| e in tree && e.path == n;
        assert Qualified(e) && Tracked(e.path, e.oid) in ordered;
        var i :| 0 <= i < |ordered| && ordered[i] == Tracked(e.path, e.oid);
        assert TrackedPaths(ordered)[i] == n;
      }
    }
  }

  /** The checker and the generator walk the same paths in the same order. */
  lemma SamePaths(tree: seq<TreeEntry>, names: seq<Bytes>, worktree: map<Bytes, Bytes>, decodes: Bytes -> bool)
    requires Checkout(tree, names, worktree, decodes)
    ensures TrackedPaths(Sort(Selected(tree), TrackedLe)) == Outside(SortStrings(names))
  {
    var ordered := Sort(Selected(tree), TrackedLe);
    var sorted := SortStrings(names);
    var left, right := TrackedPaths(ordered), Outside(sorted);
    TrackedOrder();
    StringOrder();
    SortSorted(Selected(tree), TrackedLe);
    SortSorted(names, StringLe);
    SortedTrackedPaths(ordered);
    OutsideSorted(sorted);
    SelectedDistinct(tree);
    TrackedPathsPermuted(Selected(tree), ordered);
    DistinctPermutation(Paths(tree), sorted);
    OutsideDistinct(sorted);
    SameMembers(tree, names, worktree, decodes);
    DistinctMultiset(left, right);
    SortedUnique(left, right, StringLe);
  }

  /** Every qualified blob has the bytes of its file. */
  ghost predicate WorktreeMatches(tree: seq<TreeEntry>, store: map<Bytes, Bytes>, worktree: map<Bytes, Bytes>) {
    forall e :: e in tree && Qualified(e) && e.oid in store && e.path in worktree ==>
      store[e.oid] == worktree[e.path]
  }

  lemma GeneratorOnCheckout(tree: seq<TreeEntry>, names: seq<Bytes>, worktree: map<Bytes, Bytes>, decodes: Bytes -> bool)
    requires Checkout(tree, names, worktree, decodes)
    ensures forall n :: n in Outside(SortStrings(names)) ==> n in worktree
    ensures SourceDigest(Terminated(names, '\0'), worktree, decodes)
            == Ok(Sha256(Preimage(Files(Outside(SortStrings(names)), worktree))))
  {
    PathMembers(tree);
    var sorted := SortStrings(names);
    forall n ensures (n in names <==> n in Paths(tree)) && (n in sorted <==> n in Paths(tree)) {
      assert n in multiset(names) <==> n in multiset(Paths(tree));
      assert n in multiset(sorted) <==> n in multiset(names);
    }
    SplitTerminated(names, '\0');
    NonEmptyIdentity(names);
    OutsideMembers(sorted);
    GeneratorReads(sorted, worktree, decodes);
  }

  /** On a checkout whose files hold the blobs' bytes, checker and generator hash the same pre-image. */
  lemma CheckerAgreesWithGenerator(tree: seq<TreeEntry>, store: map<Bytes, Bytes>, catFile: Bytes -> Bytes,
                                   names: seq<Bytes>, worktree: map<Bytes, Bytes>, decodes: Bytes -> bool)
    requires Checkout(tree, names, worktree, decodes)
    requires HonestCatFile(tree, store, catFile)
    requires WorktreeMatches(tree, store, worktree)
    ensures QualifiedDigest(LsTree(tree), catFile).Ok?
    ensures QualifiedDigest(LsTree(tree), catFile) == SourceDigest(Terminated(names, '\0'), worktree, decodes)
  {
    ParserRecoversEveryBlob(tree, store, catFile);
    GeneratorOnCheckout(tree, names, worktree, decodes);
    SamePaths(tree, names, worktree, decodes);
    var ordered := Sort(Selected(tree), TrackedLe);
    var files := Outside(SortStrings(names));
    SelectedMembers(tree);
    SortMembers(Selected(tree), TrackedLe);
    forall i | 0 <= i < |ordered| ensures Contents(ordered, store)[i] == Files(files, worktree)[i] {
      assert TrackedPaths(ordered)[i] == files[i];
      assert ordered[i] in ordered;
    }
    assert |ordered| == |TrackedPaths(ordered)|;
    assert Contents(ordered, store) == Files(files, worktree);
  }
}
