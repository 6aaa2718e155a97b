/** Chunked uploads (internal/cacheserver/handlers.go, internal/artifactserver/storage.go). */
module Upload {
  import opened Outcomes
  import opened Text

  // ----- a file as bytes -----

  /** The byte at i after a write, wherever i is. */
  function ByteAfter(file: seq<bv8>, start: nat, bytes: seq<bv8>, i: nat): bv8 {
    if start <= i < start + |bytes| then bytes[i - start] else if i < |file| then file[i] else 0
  }

  /** Writing at an offset: nothing is truncated, a gap reads as zeros, no bytes change nothing. */
  function Write(file: seq<bv8>, start: nat, bytes: seq<bv8>): seq<bv8> {
    if bytes == [] then file
    else
      var n := if start + |bytes| > |file| then start + |bytes| else |file|;
      seq(n, i requires 0 <= i < n => ByteAfter(file, start, bytes, i))
  }

  lemma WrittenByte(file: seq<bv8>, start: nat, bytes: seq<bv8>, i: nat)
    requires start <= i < start + |bytes|
    ensures i < |Write(file, start, bytes)| && Write(file, start, bytes)[i] == bytes[i - start]
  {
  }

  lemma KeptByte(file: seq<bv8>, start: nat, bytes: seq<bv8>, i: nat)
    requires i < |file| && !(start <= i < start + |bytes|)
    ensures i < |Write(file, start, bytes)| && Write(file, start, bytes)[i] == file[i]
  {
  }

  function Concat(pieces: seq<seq<bv8>>): seq<bv8> {
    if pieces == [] then [] else Concat(pieces[..|pieces| - 1]) + pieces[|pieces| - 1]
  }

  /** How long a write leaves the file. */
  function LengthAfter(file: seq<bv8>, start: nat, bytes: seq<bv8>): nat {
    if bytes == [] || start + |bytes| <= |file| then |file| else start + |bytes|
  }

  /** r is the file after the write, told byte by byte. */
  ghost predicate IsWrite(file: seq<bv8>, start: nat, bytes: seq<bv8>, r: seq<bv8>) {
    |r| == LengthAfter(file, start, bytes) && forall i: nat :: i < |r| ==> r[i] == ByteAfter(file, start, bytes, i)
  }

  lemma WriteIs(file: seq<bv8>, start: nat, bytes: seq<bv8>)
    ensures IsWrite(file, start, bytes, Write(file, start, bytes))
  {
  }

  lemma OneWrite(file: seq<bv8>, start: nat, bytes: seq<bv8>, r: seq<bv8>, r': seq<bv8>)
    requires IsWrite(file, start, bytes, r) && IsWrite(file, start, bytes, r')
    ensures r == r'
  {
  }

  lemma PiecesAreWrite(file: seq<bv8>, start: nat, a: seq<bv8>, b: seq<bv8>, once: seq<bv8>, twice: seq<bv8>)
    requires IsWrite(file, start, a, once) && IsWrite(once, start + |a|, b, twice)
    ensures IsWrite(file, start, a + b, twice)
  {
    forall i: nat | i < |twice| ensures twice[i] == ByteAfter(file, start, a + b, i) {
      if i < |once| {
        assert once[i] == ByteAfter(file, start, a, i);
      }
    }
  }

  /** Two writes, the second where the first ended, are one write. */
  lemma WriteInPieces(file: seq<bv8>, start: nat, a: seq<bv8>, b: seq<bv8>)
    ensures Write(Write(file, start, a), start + |a|, b) == Write(file, start, a + b)
  {
    var once := Write(file, start, a);
    WriteIs(file, start, a);
    WriteIs(once, start + |a|, b);
    PiecesAreWrite(file, start, a, b, once, Write(once, start + |a|, b));
    WriteIs(file, start, a + b);
    OneWrite(file, start, a + b, Write(once, start + |a|, b), Write(file, start, a + b));
  }

  /** What the file system does: fill the gap with zeros, then replace the bytes in place. */
  method Overwritten(file: seq<bv8>, start: nat, bytes: seq<bv8>) returns (r: seq<bv8>)
    requires bytes != []
    ensures r == Write(file, start, bytes)
  {
    var padded := if start > |file| then file + seq(start - |file|, _ => 0) else file;
    var end := start + |bytes|;
    r := padded[..start] + bytes + if end < |padded| then padded[end..] else [];
    assert IsWrite(file, start, bytes, r);
    WriteIs(file, start, bytes);
    OneWrite(file, start, bytes, r, Write(file, start, bytes));
  }

  /** A file opened for writing, with its position. */
  class OpenFile {
    var data: seq<bv8>
    var position: nat

    constructor (contents: seq<bv8>)
      ensures data == contents && position == 0
    {
      data, position := contents, 0;
    }

    method Seek(offset: int) returns (ok: bool)
      modifies this`position
      ensures ok == (offset >= 0) && position == if ok then offset else old(position)
    {
      if offset < 0 {
        return false;
      }
      position := offset;
      return true;
    }

    method WriteBytes(bytes: seq<bv8>)
      modifies this
      ensures data == Write(old(data), old(position), bytes) && position == old(position) + |bytes|
    {
      if bytes == [] {
        return;
      }
      data := Overwritten(data, position, bytes);
      position := position + |bytes|;
    }

    /** io.Copy: the body arrives in pieces. */
    method CopyFrom(pieces: seq<seq<bv8>>)
      modifies this
      ensures data == Write(old(data), old(position), Concat(pieces))
    {
      ghost var start, before := position, data;
      for i := 0 to |pieces|
        invariant position == start + |Concat(pieces[..i])|
        invariant data == Write(before, start, Concat(pieces[..i]))
      {
        ghost var done := Concat(pieces[..i]);
        assert Concat(pieces[..i + 1]) == done + pieces[i] by {
          assert pieces[..i + 1][..i] == pieces[..i];
        }
        WriteInPieces(before, start, done, pieces[i]);
        WriteBytes(pieces[i]);
      }
      assert pieces[..|pieces|] == pieces;
    }
  }

  // ----- the Content-Range header -----

  const INT64_LIMIT := 0x8000_0000_0000_0000

  predicate IsDigit(c: char) {
    '0' <= c <= '9'
  }

  predicate AllDigits(s: string) {
    forall i :: 0 <= i < |s| ==> IsDigit(s[i])
  }

  /** The number a string of digits denotes. */
  function ValueOf(s: string): nat
    requires AllDigits(s)
  {
    if s == "" then 0
    else
      var last := s[|s| - 1];
      assert IsDigit(last);
      10 * ValueOf(s[..|s| - 1]) + (last - '0') as nat
  }

  /** strconv.ParseInt(s, 10, 64). */
  function ParseInt(s: string): Option<int> {
    var negative := s != "" && s[0] == '-';
    var digits := if negative || (s != "" && s[0] == '+') then s[1..] else s;
    if digits == "" || !AllDigits(digits) then None
    else
      var n: int := ValueOf(digits);
      if negative then if n <= INT64_LIMIT then Some(-n) else None
      else if n < INT64_LIMIT then Some(n) else None
  }

  function TrimPrefix(s: string, prefix: string): string {
    if HasPrefix(s, prefix) then s[|prefix|..] else s
  }

  /** The first part of strings.SplitN(s, sep, 2), which always has a first part. */
  function BeforeFirst(s: string, sep: char): string {
    if s == "" || s[0] == sep then "" else [s[0]] + BeforeFirst(s[1..], sep)
  }

  function ParseContentRangeStart(header: string): int {
    match ParseInt(BeforeFirst(TrimPrefix(header, "bytes "), '-'))
    case None => 0
    case Some(n) => n
  }

  lemma {:induction false} ValueOfDecimal(n: nat)
    ensures ValueOf(Decimal(n)) == n
  {
    if n < 10 {
      assert Decimal(n)[..0] == "";
    } else {
      ValueOfDecimal(n / 10);
      assert Decimal(n)[..|Decimal(n)| - 1] == Decimal(n / 10);
    }
  }

  lemma {:induction false} BeforeFirstOf(a: string, rest: string, sep: char)
    requires sep !in a
    ensures BeforeFirst(a + [sep] + rest, sep) == a
  {
    if a == "" {
    } else {
      BeforeFirstOf(a[1..], rest, sep);
      assert (a + [sep] + rest)[1..] == a[1..] + [sep] + rest;
    }
  }

  lemma {:induction false} BeforeFirstLacks(s: string, sep: char)
    ensures sep !in BeforeFirst(s, sep)
  {
    if s != "" && s[0] != sep {
      BeforeFirstLacks(s[1..], sep);
    }
  }

  /**
    The parser recovers the start of any range it is sent, and reads a start that does not fit
    in 63 bits as 0; only the part up to the first '-' matters.
   */
  lemma StartRecovered(n: nat, rest: string)
    ensures ParseContentRangeStart("bytes " + Decimal(n) + "-" + rest) == if n < 0x8000_0000_0000_0000 then n else 0
  {
    var s := Decimal(n);
    var header := "bytes " + s + "-" + rest;
    assert '-' !in s;
    assert TrimPrefix(header, "bytes ") == s + ['-'] + rest by {
      assert header[..6] == "bytes " && header[6..] == s + ['-'] + rest;
    }
    BeforeFirstOf(s, rest, '-');
    ValueOfDecimal(n);
    assert IsDigit(s[0]);
    assert AllDigits(s);
  }

  /** A numeral with nothing in front of it but perhaps a plus sign. */
  predicate Numeric(field: string, digits: string) {
    && (field == digits || field == "+" + digits) && digits != ""
    && forall i :: 0 <= i < |digits| ==> '0' <= digits[i] <= '9'
  }

  lemma {:induction false} WholeBeforeFirst(s: string, sep: char)
    requires sep !in s
    ensures BeforeFirst(s, sep) == s
  {
    if s != "" {
      WholeBeforeFirst(s[1..], sep);
      assert [s[0]] + s[1..] == s;
    }
  }

  lemma FieldRead(prefix: string, field: string, tail: string)
    requires '-' !in field && (tail == "" || tail[0] == '-')
    requires prefix == "bytes " || (prefix == "" && !HasPrefix(field + tail, "bytes "))
    ensures BeforeFirst(TrimPrefix(prefix + field + tail, "bytes "), '-') == field
  {
    var header := prefix + field + tail;
    if prefix == "bytes " {
      assert header[..6] == "bytes " && header[6..] == field + tail;
    } else {
      assert header == field + tail;
    }
    if tail == "" {
      assert field + tail == field;
      WholeBeforeFirst(field, '-');
    } else {
      assert field + ['-'] + tail[1..] == field + tail;
      BeforeFirstOf(field, tail[1..], '-');
    }
  }

  /**
    The start of any header: the number before the first '-', behind an optional "bytes " and an
    optional plus sign, if there is one below 2^63; anything else reads as 0.
   */
  lemma StartMeans(prefix: string, field: string, tail: string)
    requires '-' !in field && (tail == "" || tail[0] == '-')
    requires prefix == "bytes " || (prefix == "" && !HasPrefix(field + tail, "bytes "))
    ensures var start := ParseContentRangeStart(prefix + field + tail);
            && (forall digits :: Numeric(field, digits) ==>
                 AllDigits(digits) && start == if ValueOf(digits) < 0x8000_0000_0000_0000 then ValueOf(digits) else 0)
            && ((forall digits :: !Numeric(field, digits)) ==> start == 0)
  {
    FieldRead(prefix, field, tail);
    NumeralParsed(field);
  }

  lemma NumeralParsed(field: string)
    requires '-' !in field
    ensures forall digits :: Numeric(field, digits) ==>
              AllDigits(digits) &&
              ParseInt(field) == if ValueOf(digits) < 0x8000_0000_0000_0000 then Some(ValueOf(digits)) else None
    ensures (forall digits :: !Numeric(field, digits)) ==> ParseInt(field) == None
  {
    var own := if field != "" && field[0] == '+' then field[1..] else field;
    if own != "" && AllDigits(own) {
      assert field == own || field == "+" + own;
      assert Numeric(field, own);
    }
    forall digits | Numeric(field, digits) ensures digits == own && AllDigits(digits) {
      SameDigits(field, digits, own);
    }
  }

  lemma SameDigits(field: string, digits: string, own: string)
    requires Numeric(field, digits) && own == if field != "" && field[0] == '+' then field[1..] else field
    ensures digits == own && AllDigits(digits)
  {
    if field == "+" + digits {
      assert field[1..] == digits;
    } else {
      assert '0' <= digits[0] <= '9';
    }
  }

  /** Whatever the header, seeking to the parsed start succeeds: it is never negative. */
  lemma StartNeverNegative(header: string)
    ensures 0 <= ParseContentRangeStart(header) < INT64_LIMIT
  {
    var start := BeforeFirst(TrimPrefix(header, "bytes "), '-');
    BeforeFirstLacks(TrimPrefix(header, "bytes "), '-');
    assert start != "" ==> start[0] in start;
  }

  // ----- the two upload paths -----

  function Contents(files: map<string, seq<bv8>>, name: string): seq<bv8> {
    if name in files then files[name] else []
  }

  class BlobStore {
    var files: map<string, seq<bv8>>

    /** handleUpload: the body, in pieces, goes where the header says. */
    method HandleUpload(id: string, header: string, pieces: seq<seq<bv8>>) returns (ok: bool)
      modifies this
      ensures ok && ParseContentRangeStart(header) >= 0
      ensures files == old(files)[id := Write(Contents(old(files), id), ParseContentRangeStart(header), Concat(pieces))]
    {
      var f := new OpenFile(Contents(files, id));
      StartNeverNegative(header);
      ok := f.Seek(ParseContentRangeStart(header));
      f.CopyFrom(pieces);
      files := files[id := f.data];
    }

    /** The artifact store's WriteAt; resolve refuses a path that leaves the root. */
    method WriteAt(resolve: string -> Option<string>, rel: string, offset: int, pieces: seq<seq<bv8>>)
      returns (ok: bool)
      modifies this
      ensures ok == (resolve(rel).Some? && offset >= 0)
      ensures resolve(rel).None? ==> files == old(files)
      ensures resolve(rel).Some? ==>
                var path := resolve(rel).value;
                files == old(files)[path := var was := Contents(old(files), path);
                                            if offset < 0 then was else Write(was, offset, Concat(pieces))]
    {
      match resolve(rel) {
        case None => return false;
        case Some(path) =>
          var f := new OpenFile(Contents(files, path));
          ok := f.Seek(offset);
          if ok {
            f.CopyFrom(pieces);
          }
          files := files[path := f.data];
      }
    }
  }

  // ----- many chunks -----

  datatype Chunk = Chunk(start: nat, bytes: seq<bv8>)

  predicate Covers(c: Chunk, i: nat) {
    c.start <= i < c.start + |c.bytes|
  }

  /** A write of c makes the file long enough to hold position i. */
  predicate Reaches(c: Chunk, i: nat) {
    c.bytes != [] && i < c.start + |c.bytes|
  }

  function Writes(file: seq<bv8>, chunks: seq<Chunk>): seq<bv8> {
    if chunks == [] then file
    else
      var last := |chunks| - 1;
      Write(Writes(file, chunks[..last]), chunks[last].start, chunks[last].bytes)
  }

  predicate Untouched(chunks: seq<Chunk>, i: nat) {
    forall k :: 0 <= k < |chunks| ==> !Covers(chunks[k], i)
  }

  /** k is the last chunk that covers position i. */
  predicate LastCover(chunks: seq<Chunk>, k: nat, i: nat) {
    k < |chunks| && Covers(chunks[k], i) && forall j :: k < j < |chunks| ==> !Covers(chunks[j], i)
  }

  predicate Reached(chunks: seq<Chunk>, i: nat) {
    exists k :: 0 <= k < |chunks| && Reaches(chunks[k], i)
  }

  lemma SplitReached(chunks: seq<Chunk>, i: nat)
    requires chunks != []
    ensures Reached(chunks, i) <==> Reached(chunks[..|chunks| - 1], i) || Reaches(chunks[|chunks| - 1], i)
  {
    var before := chunks[..|chunks| - 1];
    if Reached(before, i) {
      var k :| 0 <= k < |before| && Reaches(before[k], i);
      assert Reaches(chunks[k], i);
    }
    if Reached(chunks, i) {
      var k :| 0 <= k < |chunks| && Reaches(chunks[k], i);
      assert k < |before| ==> before[k] == chunks[k];
    }
  }

  /** The file holds a position exactly if it did before or some chunk reaches it. */
  lemma {:induction false} HeldIff(file: seq<bv8>, chunks: seq<Chunk>, i: nat)
    ensures i < |Writes(file, chunks)| <==> i < |file| || Reached(chunks, i)
  {
    if chunks != [] {
      HeldIff(file, chunks[..|chunks| - 1], i);
      SplitReached(chunks, i);
    }
  }

  /** After any chunks in any order, a byte is the one of the last chunk that covers its position. */
  lemma {:induction false} LastWriterWins(file: seq<bv8>, chunks: seq<Chunk>, k: nat, i: nat)
    requires LastCover(chunks, k, i)
    ensures i < |Writes(file, chunks)| && Writes(file, chunks)[i] == chunks[k].bytes[i - chunks[k].start]
  {
    var last := |chunks| - 1;
    if k < last {
      var before := chunks[..last];
      assert forall j :: 0 <= j < last ==> before[j] == chunks[j];
      LastWriterWins(file, before, k, i);
      assert !Covers(chunks[last], i);
      KeptByte(Writes(file, before), chunks[last].start, chunks[last].bytes, i);
    } else {
      WrittenByte(Writes(file, chunks[..last]), chunks[last].start, chunks[last].bytes, i);
    }
  }

  /** An uncovered byte is what it was, or zero past the old end. */
  lemma {:induction false} UncoveredKept(file: seq<bv8>, chunks: seq<Chunk>, i: nat)
    requires i < |Writes(file, chunks)| && Untouched(chunks, i)
    ensures Writes(file, chunks)[i] == if i < |file| then file[i] else 0
  {
    if chunks != [] {
      var last := |chunks| - 1;
      assert !Covers(chunks[last], i);
      var before := chunks[..last];
      assert forall j :: 0 <= j < last ==> before[j] == chunks[j];
      if i < |Writes(file, before)| {
        UncoveredKept(file, before, i);
      } else {
        HeldIff(file, before, i);
      }
    }
  }

  lemma {:induction false} SomeLastCover(chunks: seq<Chunk>, i: nat) returns (k: nat)
    requires !Untouched(chunks, i)
    ensures LastCover(chunks, k, i)
  {
    var last := |chunks| - 1;
    if Covers(chunks[last], i) {
      return last;
    }
    k := SomeLastCover(chunks[..last], i);
    assert forall j :: 0 <= j < last ==> chunks[..last][j] == chunks[j];
  }

  /** c is a part of the original. */
  predicate PartOf(c: Chunk, original: seq<bv8>) {
    c.start + |c.bytes| <= |original| && original[c.start..c.start + |c.bytes|] == c.bytes
  }

  predicate AllPartsOf(chunks: seq<Chunk>, original: seq<bv8>) {
    forall k :: 0 <= k < |chunks| ==> PartOf(chunks[k], original)
  }

  lemma ReachedInside(original: seq<bv8>, chunks: seq<Chunk>, i: nat)
    requires AllPartsOf(chunks, original) && i < |Writes([], chunks)|
    ensures i < |original|
  {
    HeldIff([], chunks, i);
    var k :| 0 <= k < |chunks| && Reaches(chunks[k], i);
    assert PartOf(chunks[k], original);
  }

  lemma CoveredRight(original: seq<bv8>, chunks: seq<Chunk>, i: nat)
    requires AllPartsOf(chunks, original) && !Untouched(chunks, i)
    ensures i < |original| && i < |Writes([], chunks)| && Writes([], chunks)[i] == original[i]
  {
    var k := SomeLastCover(chunks, i);
    LastWriterWins([], chunks, k, i);
    var c := chunks[k];
    assert PartOf(c, original);
    assert original[c.start..c.start + |c.bytes|][i - c.start] == original[i];
  }

  lemma PartsAgree(original: seq<bv8>, chunks: seq<Chunk>, i: nat)
    requires AllPartsOf(chunks, original) && i < |Writes([], chunks)|
    ensures i < |original| && Writes([], chunks)[i] == if Untouched(chunks, i) then 0 else original[i]
  {
    ReachedInside(original, chunks, i);
    if Untouched(chunks, i) {
      UncoveredKept([], chunks, i);
    } else {
      CoveredRight(original, chunks, i);
    }
  }

  /**
    Parts of a file written to a fresh one, in any order, overlapping or repeated, restore it
    exactly if they reach its end and leave out nothing but zero bytes; so covering parts do.
   */
  lemma PartsRestoreIff(original: seq<bv8>, chunks: seq<Chunk>)
    requires AllPartsOf(chunks, original)
    ensures Writes([], chunks) == original <==>
              (original == [] || !Untouched(chunks, |original| - 1)) &&
              forall i :: 0 <= i < |original| && Untouched(chunks, i) ==> original[i] == 0
  {
    var file := Writes([], chunks);
    forall i: nat | i < |file|
      ensures i < |original| && file[i] == if Untouched(chunks, i) then 0 else original[i]
    {
      PartsAgree(original, chunks, i);
    }
    assert |file| <= |original| by {
      if |file| > |original| { PartsAgree(original, chunks, |original|); }
    }
    if original != [] {
      EndReached(original, chunks);
    }
  }

  lemma EndReached(original: seq<bv8>, chunks: seq<Chunk>)
    requires AllPartsOf(chunks, original) && original != []
    ensures |Writes([], chunks)| >= |original| <==> !Untouched(chunks, |original| - 1)
  {
    var i := |original| - 1;
    if !Untouched(chunks, i) {
      CoveredRight(original, chunks, i);
    }
    if |Writes([], chunks)| >= |original| {
      HeldIff([], chunks, i);
      var k :| 0 <= k < |chunks| && Reaches(chunks[k], i);
      assert PartOf(chunks[k], original) && Covers(chunks[k], i);
    }
  }

  /** The Content-Range header of a chunk; the server reads no further than its start. */
  function ContentRange(c: Chunk, end: nat): string {
    "bytes " + Decimal(c.start) + "-" + Decimal(end) + "/*"
  }

  datatype Request = Request(header: string, body: seq<bv8>)

  /** The chunk a request writes, as the server understands it. */
  function AsChunk(r: Request): Chunk {
    StartNeverNegative(r.header);
    Chunk(ParseContentRangeStart(r.header), r.body)
  }

  function Received(requests: seq<Request>): (r: seq<Chunk>)
    ensures |r| == |requests| && forall k :: 0 <= k < |r| ==> r[k] == AsChunk(requests[k])
  {
    seq(|requests|, k requires 0 <= k < |requests| => AsChunk(requests[k]))
  }

  /** Request k carries chunk k; what it says about the chunk's end is free. */
  ghost predicate Carry(requests: seq<Request>, chunks: seq<Chunk>, ends: seq<nat>) {
    |requests| == |chunks| == |ends| &&
    forall k :: 0 <= k < |requests| ==> requests[k] == Request(ContentRange(chunks[k], ends[k]), chunks[k].bytes)
  }

  lemma HeaderParsed(c: Chunk, end: nat)
    requires c.start < INT64_LIMIT
    ensures ParseContentRangeStart(ContentRange(c, end)) == c.start
  {
    var rest := Decimal(end) + "/*";
    StartRecovered(c.start, rest);
    assert ContentRange(c, end) == "bytes " + Decimal(c.start) + "-" + rest;
  }

  lemma SentAsChunk(c: Chunk, end: nat)
    requires c.start < INT64_LIMIT
    ensures AsChunk(Request(ContentRange(c, end), c.bytes)) == c
  {
    HeaderParsed(c, end);
  }

  lemma ReceivedAsSent(requests: seq<Request>, chunks: seq<Chunk>, ends: seq<nat>)
    requires Carry(requests, chunks, ends) && forall k :: 0 <= k < |chunks| ==> chunks[k].start < INT64_LIMIT
    ensures Received(requests) == chunks
  {
    forall k | 0 <= k < |chunks| ensures Received(requests)[k] == chunks[k] {
      SentAsChunk(chunks[k], ends[k]);
    }
  }

  /** End to end: parts that cover a file are stored as the file, whatever order they arrive in. */
  lemma ChunkedUploadRestores(original: seq<bv8>, requests: seq<Request>, chunks: seq<Chunk>, ends: seq<nat>)
    requires Carry(requests, chunks, ends) && AllPartsOf(chunks, original) && |original| < INT64_LIMIT
    requires forall i :: 0 <= i < |original| ==> !Untouched(chunks, i)
    ensures Writes([], Received(requests)) == original
  {
    forall k | 0 <= k < |chunks| ensures chunks[k].start < INT64_LIMIT {
      assert PartOf(chunks[k], original);
    }
    ReceivedAsSent(requests, chunks, ends);
    PartsRestoreIff(original, chunks);
  }
}
