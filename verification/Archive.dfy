/**
  The archive and the live tail of one tenant's readings: immutable Parquet files up to a
  boundary, a mutable hot table after it, and one view over both.

  Rows are identified by their stream sequence number. `Stream` is every decodable reading the
  tenant's stream ever held; sequence numbers that are absent are payloads nobody could decode.
*/
module Archive {
  import opened Wrappers

  datatype Key = Key(sensor: string, kind: string, sensorMs: int)

  datatype Row = Row(key: Key, value: real, receivedMs: int, number: nat)

  ghost predicate NumberedByPosition(s: map<nat, Row>) {
    forall n :: n in s ==> 1 <= n && s[n].number == n
  }

  type Stream = s: map<nat, Row> | NumberedByPosition(s) witness map[]

  // A Parquet file: the archiver writes distinct rows, and the file never changes.
  type File = set<Row>

  datatype Manifest = Manifest(covers: nat, files: seq<File>)

  function Elements(rows: seq<Row>): set<Row> {
    set r | r in rows
  }

  function Contents(files: seq<File>): set<Row> {
    set f, r | f in files && r in f :: r
  }

  ghost function UpTo(stream: Stream, covers: nat): set<Row> {
    set n | n in stream && n <= covers :: stream[n]
  }

  ghost predicate FromStream(rows: set<Row>, stream: Stream) {
    forall r :: r in rows ==> r.number in stream && stream[r.number] == r
  }

  /** Of the rows with one key, the one with the highest sequence number. */
  function Latest(rows: set<Row>): set<Row> {
    set r | r in rows && forall q :: q in rows && q.key == r.key ==> q.number <= r.number
  }

  /** The rows after the boundary, the order of arrival kept. */
  function Above(rows: seq<Row>, covers: nat): seq<Row> {
    if rows == [] then []
    else
      var rest := Above(rows[..|rows| - 1], covers);
      if rows[|rows| - 1].number > covers then rest + [rows[|rows| - 1]] else rest
  }

  ghost predicate Succeeded(r: Row, rows: set<Row>) {
    exists q :: q in rows && q.key == r.key && r.number <= q.number
  }

  /** A smaller table that still has, for each row of the larger one, a row of the same key at least as late. */
  ghost predicate Condenses(small: set<Row>, large: set<Row>) {
    && small <= large
    && forall r {:trigger Succeeded(r, small)} :: r in large ==> Succeeded(r, small)
  }

  ghost predicate Faithful(m: Manifest, stream: Stream) {
    Condenses(Contents(m.files), UpTo(stream, m.covers))
  }

  // ---------------------------------------------------------------- deduplication

  lemma AboveIsFilter(rows: seq<Row>, covers: nat)
    ensures forall r :: r in Above(rows, covers) <==> r in rows && r.number > covers
  {
  }

  lemma AboveDropsAll(rows: seq<Row>, covers: nat)
    requires forall r :: r in rows ==> r.number <= covers
    ensures Above(rows, covers) == []
  {
  }

  lemma {:induction false} AboveAppend(a: seq<Row>, b: seq<Row>, covers: nat)
    ensures Above(a + b, covers) == Above(a, covers) + Above(b, covers)
  {
    if b == [] {
      assert a + b == a;
    } else {
      var front := b[..|b| - 1];
      assert (a + b)[..|a + b| - 1] == a + front;
      AboveAppend(a, front, covers);
    }
  }

  /** Filtering by an old boundary and then by a later one is filtering by the later one. */
  lemma {:induction false} AboveAbove(rows: seq<Row>, covers: nat, later: nat)
    requires covers <= later
    ensures Above(Above(rows, covers), later) == Above(rows, later)
  {
    if rows != [] {
      var front, last := rows[..|rows| - 1], rows[|rows| - 1];
      AboveAbove(front, covers, later);
      if last.number > covers {
        assert Above(rows, covers)[..|Above(rows, covers)| - 1] == Above(front, covers);
      }
    }
  }

  ghost predicate OneRowPerKey(rows: set<Row>) {
    forall r, q :: r in rows && q in rows && r.key == q.key ==> r == q
  }

  lemma LatestOfAKey(rows: set<Row>, stream: Stream)
    requires FromStream(rows, stream)
    ensures OneRowPerKey(Latest(rows))
  {
  }

  /** The view holds exactly one row for each key of the table it is taken over. */
  lemma {:induction false} LatestHoldsOneRowPerKey(rows: set<Row>, stream: Stream)
    requires FromStream(rows, stream)
    ensures OneRowPerKey(Latest(rows))
    ensures Condenses(Latest(rows), rows)
  {
    LatestOfAKey(rows, stream);
    hide OneRowPerKey;
    forall r | r in rows
      ensures Succeeded(r, Latest(rows))
    {
      var same := set q | q in rows && q.key == r.key;
      assert r in same;
      var q := Highest(same);
      assert q in Latest(rows);
    }
  }

  lemma {:induction false} Highest(rows: set<Row>) returns (top: Row)
    requires rows != {}
    ensures top in rows && forall q :: q in rows ==> q.number <= top.number
    decreases |rows|
  {
    var r :| r in rows;
    if rows == {r} {
      top := r;
    } else {
      var rest := rows - {r};
      var t := Highest(rest);
      top := if t.number < r.number then r else t;
      assert forall q :: q in rows ==> q == r || q in rest;
    }
  }

  /** Deduplicating a part first does not change the deduplication of the whole. */
  lemma DedupComposes(small: set<Row>, large: set<Row>, others: set<Row>, stream: Stream)
    requires Condenses(small, large) && FromStream(large + others, stream)
    ensures Latest(small + others) == Latest(large + others)
  {
    forall r | r in Latest(large + others)
      ensures r in Latest(small + others)
    {
      if r in large {
        assert Succeeded(r, small);
        var q :| q in small && q.key == r.key && r.number <= q.number;
        assert q in large + others;
      }
    }
    forall r | r in Latest(small + others)
      ensures r in Latest(large + others)
    {
      forall q | q in large + others && q.key == r.key
        ensures q.number <= r.number
      {
        if q in large {
          assert Succeeded(q, small);
          var t :| t in small && t.key == q.key && q.number <= t.number;
          assert t in small + others;
        } else {
          assert q in small + others;
        }
      }
    }
  }

  // ---------------------------------------------------------------- the archiver

  /** What the reader made of the messages `first..last`: how many there were, and the readable ones. */
  datatype Chunk = Chunk(first: nat, last: nat, messages: nat, rows: set<Row>)

  datatype ExitCode = Stopped | ReadingsLost

  function StartAt(covers: nat, firstSeq: nat): nat {
    if covers + 1 > firstSeq then covers + 1 else firstSeq
  }

  /** What a reader or consumer that starts at `start` has delivered when it reached `end`. */
  ghost function Range(stream: Stream, start: nat, end: nat): set<Row> {
    set n | n in stream && start <= n <= end :: stream[n]
  }

  /** An answer to a request for the messages after `pos`: it starts at the first one the stream still
      has, and holds every reading of its stretch unless messages are missing inside. */
  ghost predicate Fetched(c: Chunk, pos: nat, stream: Stream) {
    && pos < c.first <= c.last
    && (c.messages == c.last - c.first + 1 ==> c.rows == Range(stream, c.first, c.last))
  }

  function Reached(pos: nat, chunks: seq<Chunk>): nat {
    if chunks == [] then pos else chunks[|chunks| - 1].last
  }

  ghost predicate AllFetched(chunks: seq<Chunk>, pos: nat, stream: Stream) {
    forall i :: 0 <= i < |chunks| ==> Fetched(chunks[i], Reached(pos, chunks[..i]), stream)
  }

  predicate Whole(c: Chunk) {
    c.messages == c.last - c.first + 1
  }

  predicate Taken(c: Chunk, pos: nat, acceptLoss: bool) {
    (c.first == pos + 1 || acceptLoss) && Whole(c)
  }

  ghost predicate AllTaken(chunks: seq<Chunk>, pos: nat, acceptLoss: bool) {
    forall i :: 0 <= i < |chunks| ==> Taken(chunks[i], Reached(pos, chunks[..i]), acceptLoss)
  }

  /** One flush: the chunk as one deduplicated file, or no file when nothing in it could be decoded. */
  function Flush(m: Manifest, c: Chunk): Manifest {
    Manifest(c.last, if c.rows == {} then m.files else m.files + [Latest(c.rows)])
  }

  function Published(m: Manifest, chunks: seq<Chunk>): Manifest {
    if chunks == [] then m
    else Flush(Published(m, chunks[..|chunks| - 1]), chunks[|chunks| - 1])
  }

  function Rows(chunks: seq<Chunk>): set<Row> {
    if chunks == [] then {} else Rows(chunks[..|chunks| - 1]) + chunks[|chunks| - 1].rows
  }

  /** Deduplicating a chunk into a file loses nothing of the chunk, and leaves the other files alone. */
  lemma FlushCondenses(m: Manifest, c: Chunk, archived: set<Row>, stream: Stream)
    requires Condenses(Contents(m.files), archived) && FromStream(c.rows, stream)
    ensures Condenses(Contents(Flush(m, c).files), archived + c.rows)
    ensures c.rows == {} ==> Flush(m, c) == Manifest(c.last, m.files)
    ensures c.rows != {} ==>
      var files := Flush(m, c).files;
      && Flush(m, c).covers == c.last && |files| == |m.files| + 1 && files[..|m.files|] == m.files
      && OneRowPerKey(files[|m.files|]) && Condenses(files[|m.files|], c.rows)
  {
    var next := Flush(m, c);
    LatestHoldsOneRowPerKey(c.rows, stream);
    if c.rows != {} {
      assert next.files[|m.files|] == Latest(c.rows);
      assert forall f :: f in next.files <==> f in m.files || f == Latest(c.rows);
    }
    assert Contents(next.files) == Contents(m.files) + Latest(c.rows);
    forall r | r in archived + c.rows
      ensures Succeeded(r, Contents(next.files))
    {
      var part := if r in c.rows then Latest(c.rows) else Contents(m.files);
      assert Succeeded(r, part);
      var q :| q in part && q.key == r.key && r.number <= q.number;
      assert q in Contents(next.files);
    }
  }

  lemma FrontFetched(chunks: seq<Chunk>, pos: nat, acceptLoss: bool, stream: Stream)
    requires chunks != [] && AllFetched(chunks, pos, stream) && AllTaken(chunks, pos, acceptLoss)
    ensures AllFetched(chunks[..|chunks| - 1], pos, stream) && AllTaken(chunks[..|chunks| - 1], pos, acceptLoss)
    ensures Fetched(chunks[|chunks| - 1], Reached(pos, chunks[..|chunks| - 1]), stream)
    ensures Taken(chunks[|chunks| - 1], Reached(pos, chunks[..|chunks| - 1]), acceptLoss)
  {
    var front := chunks[..|chunks| - 1];
    forall i | 0 <= i < |front|
      ensures Fetched(front[i], Reached(pos, front[..i]), stream)
      ensures Taken(front[i], Reached(pos, front[..i]), acceptLoss)
    {
      assert front[..i] == chunks[..i] && front[i] == chunks[i];
    }
  }

  lemma {:induction false} PublishedCondenses(m: Manifest, pos: nat, chunks: seq<Chunk>, stream: Stream)
    requires Faithful(m, stream) && m.covers <= pos
    requires AllFetched(chunks, pos, stream) && AllTaken(chunks, pos, true)
    ensures Condenses(Contents(Published(m, chunks).files), UpTo(stream, m.covers) + Rows(chunks))
    ensures FromStream(Rows(chunks), stream) && pos <= Reached(pos, chunks)
    ensures forall r :: r in Rows(chunks) ==> pos < r.number <= Reached(pos, chunks)
    ensures chunks != [] ==> Published(m, chunks).covers == Reached(pos, chunks)
  {
    if chunks == [] {
      assert UpTo(stream, m.covers) + {} == UpTo(stream, m.covers);
    } else {
      var front, last := chunks[..|chunks| - 1], chunks[|chunks| - 1];
      FrontFetched(chunks, pos, true, stream);
      PublishedCondenses(m, pos, front, stream);
      FlushCondenses(Published(m, front), last, UpTo(stream, m.covers) + Rows(front), stream);
      assert UpTo(stream, m.covers) + Rows(chunks) == UpTo(stream, m.covers) + Rows(front) + last.rows;
    }
  }

  ghost predicate InAChunk(n: nat, chunks: seq<Chunk>) {
    exists c :: c in chunks && c.first <= n <= c.last
  }

  /** A reading passed over: above the old boundary and at most the new one, but in no chunk. */
  ghost predicate Skipped(n: nat, covers: nat, chunks: seq<Chunk>) {
    chunks != [] && covers < n <= chunks[|chunks| - 1].last && !InAChunk(n, chunks)
  }

  lemma {:induction false} ChunkIsInRows(c: Chunk, chunks: seq<Chunk>)
    requires c in chunks
    ensures c.rows <= Rows(chunks)
  {
    if c != chunks[|chunks| - 1] {
      assert c in chunks[..|chunks| - 1];
      ChunkIsInRows(c, chunks[..|chunks| - 1]);
    }
  }

  lemma ChunkHasItsReadings(n: nat, pos: nat, chunks: seq<Chunk>, stream: Stream)
    requires AllFetched(chunks, pos, stream) && AllTaken(chunks, pos, true)
    requires n in stream && InAChunk(n, chunks)
    ensures stream[n] in Rows(chunks)
  {
    var i :| 0 <= i < |chunks| && chunks[i].first <= n <= chunks[i].last;
    assert Fetched(chunks[i], Reached(pos, chunks[..i]), stream) && Taken(chunks[i], Reached(pos, chunks[..i]), true);
    ChunkIsInRows(chunks[i], chunks);
  }

  lemma SucceededTwice(r: Row, q: Row, rows: set<Row>)
    requires q.key == r.key && r.number <= q.number && Succeeded(q, rows)
    ensures Succeeded(r, rows)
  {
  }

  /** The published manifest holds the latest row of each key up to its boundary exactly when each
      reading that was passed over was sent again later and archived then. */
  lemma PublishedIsFaithfulExactlyWhen(m: Manifest, pos: nat, chunks: seq<Chunk>, stream: Stream)
    requires Faithful(m, stream) && m.covers <= pos
    requires AllFetched(chunks, pos, stream) && AllTaken(chunks, pos, true)
    ensures Faithful(Published(m, chunks), stream)
       <==> forall n :: n in stream && Skipped(n, m.covers, chunks) ==> Succeeded(stream[n], Rows(chunks))
  {
    if chunks != [] {
      var p := Published(m, chunks);
      PublishedCondenses(m, pos, chunks, stream);
      if Faithful(p, stream) {
        forall n | n in stream && Skipped(n, m.covers, chunks)
          ensures Succeeded(stream[n], Rows(chunks))
        {
          LaterRowIsNew(stream[n], m, p, Rows(chunks), stream);
        }
      }
      if forall n :: n in stream && Skipped(n, m.covers, chunks) ==> Succeeded(stream[n], Rows(chunks)) {
        forall r | r in UpTo(stream, p.covers)
          ensures Succeeded(r, Contents(p.files))
        {
          KeptOrSentAgain(r, m, pos, chunks, stream);
        }
      }
    }
  }

  lemma LaterRowIsNew(r: Row, m: Manifest, p: Manifest, rows: set<Row>, stream: Stream)
    requires Faithful(p, stream) && r in UpTo(stream, p.covers) && m.covers < r.number
    requires Contents(p.files) <= UpTo(stream, m.covers) + rows
    ensures Succeeded(r, rows)
  {
    assert Succeeded(r, Contents(p.files));
    var q :| q in Contents(p.files) && q.key == r.key && r.number <= q.number;
  }

  lemma KeptOrSentAgain(r: Row, m: Manifest, pos: nat, chunks: seq<Chunk>, stream: Stream)
    requires chunks != [] && r in UpTo(stream, chunks[|chunks| - 1].last)
    requires AllFetched(chunks, pos, stream) && AllTaken(chunks, pos, true)
    requires Condenses(Contents(Published(m, chunks).files), UpTo(stream, m.covers) + Rows(chunks))
    requires Skipped(r.number, m.covers, chunks) ==> Succeeded(r, Rows(chunks))
    ensures Succeeded(r, Contents(Published(m, chunks).files))
  {
    if m.covers < r.number {
      if !Skipped(r.number, m.covers, chunks) {
        ChunkHasItsReadings(r.number, pos, chunks, stream);
      }
      assert Succeeded(r, Rows(chunks));
      var q :| q in Rows(chunks) && q.key == r.key && r.number <= q.number;
      SucceededTwice(r, q, Contents(Published(m, chunks).files));
    }
  }

  /** Without permission to lose readings, the chunks follow each other from the start on. */
  lemma {:induction false} TakenInOneStretch(pos: nat, chunks: seq<Chunk>, stream: Stream)
    requires AllFetched(chunks, pos, stream) && AllTaken(chunks, pos, false)
    ensures Rows(chunks) == Range(stream, pos + 1, Reached(pos, chunks)) && pos <= Reached(pos, chunks)
    ensures forall n: nat :: pos < n <= Reached(pos, chunks) ==> InAChunk(n, chunks)
    ensures forall c :: c in chunks ==> pos < c.first
  {
    if chunks != [] {
      var front, last := chunks[..|chunks| - 1], chunks[|chunks| - 1];
      FrontFetched(chunks, pos, false, stream);
      TakenInOneStretch(pos, front, stream);
      forall n: nat | pos < n <= last.last
        ensures InAChunk(n, chunks)
      {
        if n <= Reached(pos, front) {
          assert InAChunk(n, front);
          var c :| c in front && c.first <= n <= c.last;
          assert c in chunks;
        } else {
          assert last in chunks;
        }
      }
    }
  }

  /** A tenant with an archive must not have lost readings since; one without is said to have nothing to lose. */
  predicate Refused(stored: Option<Manifest>, firstSeq: nat, acceptLoss: bool) {
    stored.Some? && firstSeq > stored.value.covers + 1 && !acceptLoss
  }

  function Loaded(stored: Option<Manifest>): Manifest {
    if stored.Some? then stored.value else Manifest(0, [])
  }

  /** One run of the archiver on a stream whose first sequence is `firstSeq`; `chunks` is what the
      reader answers, one request after the other. Without permission to lose readings the published
      manifest is faithful, but for a first run: there it is faithful exactly when each reading below
      the stream's first sequence was sent again later. */
  method Archive(stored: Option<Manifest>, firstSeq: nat, acceptLoss: bool, chunks: seq<Chunk>, ghost stream: Stream)
    returns (published: Option<Manifest>, code: ExitCode, taken: nat)
    requires AllFetched(chunks, StartAt(Loaded(stored).covers, firstSeq) - 1, stream)
    ensures taken <= |chunks|
    ensures published == if taken == 0 then stored else Some(Published(Loaded(stored), chunks[..taken]))
    ensures AllTaken(chunks[..taken], StartAt(Loaded(stored).covers, firstSeq) - 1, acceptLoss)
    ensures Refused(stored, firstSeq, acceptLoss) ==> taken == 0
    ensures code == Stopped <==> !Refused(stored, firstSeq, acceptLoss) && taken == |chunks|
    ensures !Refused(stored, firstSeq, acceptLoss) && taken < |chunks| ==>
      !Taken(chunks[taken], Reached(StartAt(Loaded(stored).covers, firstSeq) - 1, chunks[..taken]), acceptLoss)
    ensures published.Some? && (stored.Some? ==> Faithful(stored.value, stream)) && !acceptLoss ==>
      (Faithful(published.value, stream) <==>
        stored.Some? || forall n: nat :: n in stream && n < firstSeq ==>
          Succeeded(stream[n], Range(stream, firstSeq, published.value.covers)))
  {
    hide Published, Flush, Reached, AllFetched, AllTaken, Fetched, Faithful, Range, Succeeded, Contents, UpTo;
    var manifest := Loaded(stored);
    var pos := StartAt(manifest.covers, firstSeq) - 1;
    NoneTaken(chunks, manifest, pos, acceptLoss);
    published, code, taken := stored, Stopped, 0;
    if stored.Some? && firstSeq > manifest.covers + 1 && !acceptLoss {
      return stored, ReadingsLost, 0;
    }
    ghost var m0, pos0 := manifest, pos;
    while taken < |chunks|
      invariant taken <= |chunks| && pos == Reached(pos0, chunks[..taken])
      invariant manifest == Published(m0, chunks[..taken])
      invariant published == if taken == 0 then stored else Some(manifest)
      invariant AllTaken(chunks[..taken], pos0, acceptLoss)
    {
      var c := chunks[taken];
      if (c.first != pos + 1 && !acceptLoss) || c.messages != c.last - c.first + 1 {
        code := ReadingsLost;
        break;
      }
      TakenOneMore(chunks, taken, m0, pos0, acceptLoss);
      manifest := Flush(manifest, c);
      published := Some(manifest);
      pos := c.last;
      taken := taken + 1;
    }
    NothingIsFaithful(stream);
    if taken > 0 && Faithful(m0, stream) && !acceptLoss {
      FirstFetched(chunks, taken, pos0, stream);
      WithoutPermissionFaithfulExactlyWhen(stored, firstSeq, chunks[..taken], stream);
    }
  }

  lemma NothingIsFaithful(stream: Stream)
    ensures Faithful(Manifest(0, []), stream)
  {
    assert Contents([]) == {} && UpTo(stream, 0) == {};
  }

  lemma NoneTaken(chunks: seq<Chunk>, m: Manifest, pos: nat, acceptLoss: bool)
    ensures AllTaken(chunks[..0], pos, acceptLoss) && Reached(pos, chunks[..0]) == pos
    ensures Published(m, chunks[..0]) == m
  {
  }

  lemma TakenOneMore(chunks: seq<Chunk>, i: nat, m: Manifest, pos: nat, acceptLoss: bool)
    requires i < |chunks| && AllTaken(chunks[..i], pos, acceptLoss)
    requires Taken(chunks[i], Reached(pos, chunks[..i]), acceptLoss)
    ensures AllTaken(chunks[..i + 1], pos, acceptLoss)
    ensures Published(m, chunks[..i + 1]) == Flush(Published(m, chunks[..i]), chunks[i])
    ensures Reached(pos, chunks[..i + 1]) == chunks[i].last
  {
    assert chunks[..i + 1][..i] == chunks[..i];
    var more := chunks[..i + 1];
    forall j | 0 <= j < |more|
      ensures Taken(more[j], Reached(pos, more[..j]), acceptLoss)
    {
      assert j < i ==> chunks[..i][..j] == more[..j] && chunks[..i][j] == more[j];
      assert more[..i] == chunks[..i];
    }
  }

  lemma FirstFetched(chunks: seq<Chunk>, k: nat, pos: nat, stream: Stream)
    requires k <= |chunks| && AllFetched(chunks, pos, stream)
    ensures AllFetched(chunks[..k], pos, stream)
  {
    forall i | 0 <= i < k
      ensures Fetched(chunks[..k][i], Reached(pos, chunks[..k][..i]), stream)
    {
      assert chunks[..k][..i] == chunks[..i];
      assert Fetched(chunks[i], Reached(pos, chunks[..i]), stream);
    }
  }

  lemma WithoutPermissionFaithfulExactlyWhen(stored: Option<Manifest>, firstSeq: nat, chunks: seq<Chunk>,
                                             stream: Stream)
    requires chunks != [] && Faithful(Loaded(stored), stream) && !Refused(stored, firstSeq, false)
    requires AllFetched(chunks, StartAt(Loaded(stored).covers, firstSeq) - 1, stream)
    requires AllTaken(chunks, StartAt(Loaded(stored).covers, firstSeq) - 1, false)
    ensures Faithful(Published(Loaded(stored), chunks), stream)
       <==> stored.Some? || forall n: nat :: n in stream && n < firstSeq ==>
              Succeeded(stream[n], Range(stream, firstSeq, Published(Loaded(stored), chunks).covers))
  {
    var m := Loaded(stored);
    var pos := StartAt(m.covers, firstSeq) - 1;
    assert AllTaken(chunks, pos, true) by {
      forall i | 0 <= i < |chunks|
        ensures Taken(chunks[i], Reached(pos, chunks[..i]), true)
      {
        assert Taken(chunks[i], Reached(pos, chunks[..i]), false);
      }
    }
    PublishedCondenses(m, pos, chunks, stream);
    PublishedIsFaithfulExactlyWhen(m, pos, chunks, stream);
    TakenInOneStretch(pos, chunks, stream);
    forall n: nat | n in stream
      ensures Skipped(n, m.covers, chunks) <==> m.covers < n <= pos
    {
      assert Skipped(n, m.covers, chunks) ==> !InAChunk(n, chunks);
    }
  }

  /** The first run certifies what expired before it: with messages 1 and 2 in the stream's past and
      only 2 still there, the manifest says it covers both and holds one. A responder that had
      received both drops the first from its hot table when it moves to that manifest. */
  lemma FirstRunCertifiesWhatExpired(lost: Row, kept: Row)
    requires lost.number == 1 && kept.number == 2 && lost.key != kept.key
    ensures
      var stream := map[1 := lost, 2 := kept];
      var m := Published(Loaded(None), [Chunk(2, 2, 1, {kept})]);
      && AllFetched([Chunk(2, 2, 1, {kept})], StartAt(0, 2) - 1, stream)
      && !Refused(None, 2, false) && Taken(Chunk(2, 2, 1, {kept}), StartAt(0, 2) - 1, false)
      && m == Manifest(2, [{kept}]) && !Faithful(m, stream)
      && lost in View([], 0, [lost, kept]) && lost !in View(m.files, m.covers, Above([lost, kept], m.covers))
  {
    var stream: Stream := map[1 := lost, 2 := kept];
    var chunks := [Chunk(2, 2, 1, {kept})];
    var m := Published(Loaded(None), chunks);
    var none: seq<Chunk> := [];
    assert Published(Manifest(0, []), none) == Manifest(0, []);
    assert chunks[..|chunks| - 1] == none;
    assert m == Flush(Published(Manifest(0, []), none), chunks[0]);
    assert stream[2] in Range(stream, 2, 2);
    assert Latest({kept}) == {kept};
    var files: seq<File> := [{kept}];
    assert kept in {kept} && files == [] + [Latest({kept})] && m == Manifest(2, files);
    assert {kept} in files && Contents(files) == {kept};
    assert !Faithful(m, stream) by {
      assert stream[1] in UpTo(stream, 2) && !Succeeded(lost, {kept});
    }
    AboveDropsAll([lost, kept], 2);
    AboveIsFilter([lost, kept], 0);
    assert lost in [lost, kept] && kept in [lost, kept];
    assert Contents([]) == {};
  }

  // ---------------------------------------------------------------- the responder

  /** What a query sees: the files of the view and the part of the hot table above its boundary. */
  function View(files: seq<File>, covers: nat, hot: seq<Row>): set<Row> {
    Latest(Contents(files) + Elements(Above(hot, covers)))
  }

  function TotalRows(files: seq<File>): nat {
    if files == [] then 0 else TotalRows(files[..|files| - 1]) + |files[|files| - 1]|
  }

  /** The rows of all files are counted, each file's once. */
  lemma {:induction false} TotalRowsAdds(files: seq<File>, more: seq<File>)
    ensures TotalRows(files + more) == TotalRows(files) + TotalRows(more)
    ensures |files| == 1 ==> TotalRows(files) == |files[0]|
    ensures files == [] ==> TotalRows(files) == 0
  {
    if more == [] {
      assert files + more == files;
    } else {
      assert (files + more)[..|files + more| - 1] == files + more[..|more| - 1];
      TotalRowsAdds(files, more[..|more| - 1]);
    }
    if |files| == 1 {
      assert files[..0] == [];
    }
  }

  class Readings {
    var files: seq<File>
    var covers: nat
    var archived: nat
    var hot: seq<Row>
    // the view is a statement with the file list and the boundary written into it
    var viewFiles: seq<File>
    var viewCovers: nat

    ghost const stream: Stream
    ghost var added: set<Row>  // every row ever handed to Add

    ghost predicate Valid()
      reads this
    {
      && viewFiles == files && viewCovers == covers
      && Condenses(Contents(files), UpTo(stream, covers))
      && FromStream(added, stream)
      && (forall r :: r in hot ==> r in added)
      && (forall r :: r in added && r.number > covers ==> r in hot)
    }

    constructor (ghost stream: Stream)
      ensures Valid() && this.stream == stream
      ensures files == [] && covers == 0 && archived == 0 && hot == [] && added == {}
    {
      files, covers, archived, hot := [], 0, 0, [];
      viewFiles, viewCovers := [], 0;
      this.stream := stream;
      added := {};
    }

    method RedefineView()
      modifies this`viewFiles, this`viewCovers
      ensures viewFiles == files && viewCovers == covers
    {
      viewFiles, viewCovers := files, covers;
    }

    /** A newer manifest: its files join the view, the hot rows they cover leave the hot table. */
    method MoveTo(m: Manifest)
      requires Valid()
      requires Faithful(m, stream) && covers <= m.covers
      modifies this
      ensures Valid() && added == old(added)
      ensures files == m.files && covers == m.covers && archived == TotalRows(m.files)
      ensures hot == Above(old(hot), m.covers)
    {
      files, covers := m.files, m.covers;
      archived := TotalRows(m.files);
      AboveIsFilter(hot, covers);
      hot := Above(hot, covers);
      RedefineView();
    }

    /** Rows from the stream join the hot table, late ones at or below the boundary included. */
    method Add(rows: seq<Row>)
      requires Valid() && FromStream(Elements(rows), stream)
      modifies this`hot, this`added
      ensures Valid() && added == old(added) + Elements(rows)
      ensures hot == old(hot) + rows
    {
      hot := hot + rows;
      added := added + Elements(rows);
    }

    /** Archived up to the boundary, or added. */
    ghost predicate Known(r: Row)
      reads this
    {
      r in UpTo(stream, covers) || r in added
    }

    /** The answer: the latest row of each key over everything archived up to the boundary or added. */
    method Query() returns (rows: set<Row>)
      requires Valid()
      ensures rows == Latest(UpTo(stream, covers) + added)
      ensures OneRowPerKey(rows)
      ensures forall r :: r in rows <==> Known(r) && forall q :: Known(q) && q.key == r.key ==> q.number <= r.number
    {
      rows := View(viewFiles, viewCovers, hot);
      ghost var archive, tail := UpTo(stream, covers), Elements(Above(hot, covers));
      AboveIsFilter(hot, covers);
      DedupComposes(Contents(files), archive, tail, stream);
      assert archive + tail == archive + added;
      LatestHoldsOneRowPerKey(archive + added, stream);
    }
  }

  /** The forward-moving manifest is an assumption the code needs: after a manifest that moves the
      boundary back, a row that was added and archived is in neither the files nor the hot table. */
  lemma BackwardManifestLosesARow(first: Row, second: Row)
    requires first.number == 1 && second.number == 2 && first.key != second.key
    ensures
      var forward, backward := Manifest(2, [{first, second}]), Manifest(1, [{first}]);
      var hot := Above(Above([first, second], forward.covers), backward.covers);
      && Faithful(forward, map[1 := first, 2 := second])
      && Faithful(backward, map[1 := first, 2 := second])
      && second !in View(backward.files, backward.covers, hot)
      && second in Latest({first, second})
  {
    var stream: Stream := map[1 := first, 2 := second];
    AboveDropsAll([first, second], 2);
    var whole, part: seq<File> := [{first, second}], [{first}];
    assert {first, second} in whole && {first} in part;
    assert Contents(whole) == {first, second} && Contents(part) == {first};
    assert UpTo(stream, 2) == {first, second} by {
      assert stream[1] in UpTo(stream, 2) && stream[2] in UpTo(stream, 2);
    }
    assert UpTo(stream, 1) == {first} by { assert stream[1] in UpTo(stream, 1); }
  }

  // ---------------------------------------------------------------- following the stream

  const BATCH := 1000

  /** What the follower's loop meets between two awaits. */
  datatype Event =
    | Timeout
    | Message(row: Option<Row>)  // None: a payload that is not a reading
    | NewManifest(m: Manifest)   // the polling task moves the boundary

  function Decoded(e: Event): seq<Row> {
    if e.Message? && e.row.Some? then [e.row.value] else []
  }

  /** One of the events delivers this reading. */
  ghost predicate Brings(events: seq<Event>, row: Row) {
    exists i :: 0 <= i < |events| && events[i] == Message(Some(row))
  }

  /** No manifest came after this one. */
  ghost predicate LastManifest(events: seq<Event>, i: nat) {
    && i < |events| && events[i].NewManifest?
    && forall k :: i < k < |events| ==> !events[k].NewManifest?
  }

  /** The decodable readings the stream delivered, in order. */
  function Delivered(events: seq<Event>): seq<Row> {
    if events == [] then [] else Delivered(events[..|events| - 1]) + Decoded(events[|events| - 1])
  }

  ghost function Boundary(events: seq<Event>, covers: nat): nat {
    if events == [] then covers
    else if events[|events| - 1].NewManifest? then events[|events| - 1].m.covers
    else Boundary(events[..|events| - 1], covers)
  }

  /** Manifests are faithful and only move forward. */
  ghost predicate Forward(events: seq<Event>, covers: nat, stream: Stream) {
    forall i :: 0 <= i < |events| && events[i].NewManifest? ==>
      Faithful(events[i].m, stream) && Boundary(events[..i], covers) <= events[i].m.covers
  }

  /** Above the boundary, the hot table followed by the pending batch is exactly what was delivered. */
  ghost predicate Accounts(hot: seq<Row>, batch: seq<Row>, delivered: seq<Row>, covers: nat) {
    Above(hot, covers) + Above(batch, covers) == Above(delivered, covers)
  }

  /** What was handed to Add, with the pending batch, is what there was at first with what was delivered. */
  ghost predicate Gathered(added: set<Row>, batch: seq<Row>, start: set<Row>, delivered: seq<Row>) {
    added + Elements(batch) == start + Elements(delivered)
  }

  lemma AccountsGrow(hot: seq<Row>, batch: seq<Row>, seen: seq<Row>, more: seq<Row>, covers: nat)
    requires Accounts(hot, batch, seen, covers)
    ensures Accounts(hot, batch + more, seen + more, covers)
    ensures Accounts(hot + (batch + more), [], seen + more, covers)
  {
    AboveAppend(batch, more, covers);
    AboveAppend(seen, more, covers);
    AboveAppend(hot, batch + more, covers);
  }

  lemma AccountsMove(hot: seq<Row>, batch: seq<Row>, seen: seq<Row>, covers: nat, later: nat)
    requires covers <= later && Accounts(hot, batch, seen, covers)
    ensures Accounts(Above(hot, later), batch, seen, later)
  {
    AboveAbove(hot, covers, later);
    AboveAbove(hot, later, later);
    AboveAbove(batch, covers, later);
    AboveAbove(seen, covers, later);
    AboveAppend(Above(hot, covers), Above(batch, covers), later);
  }

  /** One turn of the follower, `seen` being what was delivered before it. */
  method React(r: Readings, pending: seq<Row>, e: Event, ghost seen: seq<Row>) returns (batch: seq<Row>)
    requires r.Valid() && |pending| < BATCH && FromStream(Elements(pending), r.stream)
    requires e.NewManifest? ==> Faithful(e.m, r.stream) && r.covers <= e.m.covers
    requires FromStream(Elements(Decoded(e)), r.stream)
    requires Accounts(r.hot, pending, seen, r.covers)
    modifies r
    ensures r.Valid() && |batch| < BATCH && FromStream(Elements(batch), r.stream)
    ensures r.covers == if e.NewManifest? then e.m.covers else old(r.covers)
    ensures Accounts(r.hot, batch, seen + Decoded(e), r.covers)
    ensures Gathered(r.added, batch, old(r.added) + Elements(pending), Decoded(e))
    ensures e == Timeout ==> batch == [] && r.hot == old(r.hot) + pending && r.added == old(r.added) + Elements(pending)
    ensures e == Message(None) ==> batch == pending && r.hot == old(r.hot) && r.added == old(r.added)
    ensures e.Message? && e.row.Some? ==>
      && (|pending| < 999 ==> batch == pending + [e.row.value] && r.hot == old(r.hot) && r.added == old(r.added))
      && (|pending| >= 999 ==> batch == [] && r.hot == old(r.hot) + pending + [e.row.value])
    ensures e.NewManifest? ==> batch == pending && r.hot == Above(old(r.hot), e.m.covers) && r.added == old(r.added)
  {
    hide Above, Condenses, UpTo, Contents;
    batch := pending;
    if e.Message? && e.row.Some? {
      batch := batch + [e.row.value];
    }
    assert batch == pending + Decoded(e);
    AccountsGrow(r.hot, pending, seen, Decoded(e), r.covers);
    if e.NewManifest? {
      assert batch == pending && seen + Decoded(e) == seen;
      AccountsMove(r.hot, pending, seen, r.covers, e.m.covers);
      r.MoveTo(e.m);
    } else if batch != [] && (e.Timeout? || |batch| >= BATCH) {
      r.Add(batch);
      batch := [];
    }
  }

  /** The follower over any sequence of deliveries, timeouts and manifest moves. Above the boundary,
      the hot table followed by the pending batch is exactly what the stream delivered, in order. */
  method Follow(r: Readings, events: seq<Event>) returns (batch: seq<Row>)
    requires r.Valid() && Above(r.hot, r.covers) == []
    requires Forward(events, r.covers, r.stream)
    requires FromStream(Elements(Delivered(events)), r.stream)
    modifies r
    ensures r.Valid() && |batch| < BATCH
    ensures r.covers == Boundary(events, old(r.covers))
    ensures Accounts(r.hot, batch, Delivered(events), r.covers)
    ensures Gathered(r.added, batch, old(r.added), Delivered(events))
    ensures events != [] && events[|events| - 1] == Timeout ==> batch == []
    // every reading of a message arrives, and nothing else does
    ensures forall row :: Brings(events, row) ==> row in r.added || row in batch
    ensures forall row :: Brings(events, row) && row.number > r.covers ==> row in r.hot || row in batch
    ensures forall row :: row in r.added || row in batch ==> row in old(r.added) || Brings(events, row)
    // the boundary is the last manifest's
    ensures forall i: nat :: LastManifest(events, i) ==> r.covers == events[i].m.covers
    ensures (forall i :: 0 <= i < |events| ==> !events[i].NewManifest?) ==> r.covers == old(r.covers)
  {
    FollowStarts(r.hot, r.added, events, r.covers, r.stream);
    hide *;
    batch := [];
    ghost var covers0, added0 := r.covers, r.added;
    for i := 0 to |events|
      invariant r.Valid() && |batch| < BATCH && FromStream(Elements(batch), r.stream)
      invariant r.covers == Boundary(events[..i], covers0)
      invariant Accounts(r.hot, batch, Delivered(events[..i]), r.covers)
      invariant Gathered(r.added, batch, added0, Delivered(events[..i]))
      invariant i > 0 && events[i - 1] == Timeout ==> batch == []
    {
      DeliveredStep(events, i, covers0);
      DecodedFromStream(events, i, r.stream);
      ForwardAt(events, i, covers0, r.stream);
      ghost var addedBefore, before := r.added, batch;
      batch := React(r, batch, events[i], Delivered(events[..i]));
      GatheredOnward(addedBefore, before, added0, Delivered(events[..i]), r.added, batch, Decoded(events[i]));
    }
    assert events[..|events|] == events;
    EverythingArrives(r.added, batch, added0, events);
    HotHoldsTheRest(r);
    BoundaryIsTheLastManifests(events, covers0);
  }

  lemma {:induction false} DeliveredIsBrought(events: seq<Event>, row: Row)
    ensures row in Delivered(events) <==> Brings(events, row)
  {
    if events != [] {
      var front, last := events[..|events| - 1], events[|events| - 1];
      DeliveredIsBrought(front, row);
      if Brings(front, row) {
        var i :| 0 <= i < |front| && front[i] == Message(Some(row));
        assert events[i] == Message(Some(row));
      }
      if Brings(events, row) {
        var i :| 0 <= i < |events| && events[i] == Message(Some(row));
        assert i < |front| ==> front[i] == Message(Some(row));
      }
    }
  }

  lemma EverythingArrives(added: set<Row>, batch: seq<Row>, start: set<Row>, events: seq<Event>)
    requires Gathered(added, batch, start, Delivered(events))
    ensures forall row :: Brings(events, row) ==> row in added || row in batch
    ensures forall row :: row in added || row in batch ==> row in start || Brings(events, row)
  {
    hide Delivered;
    forall row
      ensures row in Delivered(events) <==> Brings(events, row)
      ensures row in added || row in batch <==> row in start || row in Delivered(events)
    {
      DeliveredIsBrought(events, row);
      assert row in added || row in batch <==> row in added + Elements(batch);
    }
  }

  lemma HotHoldsTheRest(r: Readings)
    requires r.Valid()
    ensures forall row :: row in r.added && row.number > r.covers ==> row in r.hot
  {
  }

  lemma {:induction false} BoundaryIsTheLastManifests(events: seq<Event>, covers: nat)
    ensures forall i: nat :: LastManifest(events, i) ==> Boundary(events, covers) == events[i].m.covers
    ensures (forall i :: 0 <= i < |events| ==> !events[i].NewManifest?) ==> Boundary(events, covers) == covers
  {
    if events != [] && events[|events| - 1].NewManifest? {
      assert forall i: nat :: LastManifest(events, i) ==> i == |events| - 1;
    } else if events != [] {
      var front := events[..|events| - 1];
      BoundaryIsTheLastManifests(front, covers);
      forall i: nat | LastManifest(events, i)
        ensures LastManifest(front, i) && front[i] == events[i]
      {
      }
    }
  }

  lemma FollowStarts(hot: seq<Row>, added: set<Row>, events: seq<Event>, covers: nat, stream: Stream)
    requires Above(hot, covers) == []
    ensures Accounts(hot, [], Delivered(events[..0]), covers)
    ensures Boundary(events[..0], covers) == covers && Gathered(added, [], added, Delivered(events[..0]))
    ensures FromStream(Elements([]), stream)
    ensures BATCH > 0
  {
  }

  lemma ForwardAt(events: seq<Event>, i: nat, covers: nat, stream: Stream)
    requires Forward(events, covers, stream) && i < |events|
    ensures events[i].NewManifest? ==>
      Faithful(events[i].m, stream) && Boundary(events[..i], covers) <= events[i].m.covers
  {
  }

  lemma GatheredOnward(added: set<Row>, batch: seq<Row>, start: set<Row>, seen: seq<Row>,
                       later: set<Row>, laterBatch: seq<Row>, more: seq<Row>)
    requires Gathered(added, batch, start, seen) && Gathered(later, laterBatch, added + Elements(batch), more)
    ensures Gathered(later, laterBatch, start, seen + more)
  {
  }

  lemma DecodedFromStream(events: seq<Event>, i: nat, stream: Stream)
    requires i < |events| && FromStream(Elements(Delivered(events)), stream)
    ensures FromStream(Elements(Decoded(events[i])), stream)
  {
    DecodedIsDelivered(events, i);
  }

  lemma {:induction false} DeliveredStep(events: seq<Event>, i: nat, covers: nat)
    requires i < |events|
    ensures Delivered(events[..i + 1]) == Delivered(events[..i]) + Decoded(events[i])
    ensures Boundary(events[..i + 1], covers) ==
      if events[i].NewManifest? then events[i].m.covers else Boundary(events[..i], covers)
  {
    assert events[..i + 1][..i] == events[..i];
  }

  lemma {:induction false} DecodedIsDelivered(events: seq<Event>, i: nat)
    requires i < |events|
    ensures Elements(Decoded(events[i])) <= Elements(Delivered(events))
  {
    if i < |events| - 1 {
      DecodedIsDelivered(events[..|events| - 1], i);
    }
  }

  // ---------------------------------------------------------------- where to start

  /** An archive up to `covers` and a consumer that started after `covers0` have together everything up to
      the furthest point one of them reached. */
  ghost predicate Meets(stream: Stream, covers0: nat, firstSeq: nat, covers: nat, end: nat) {
    UpTo(stream, covers) + Range(stream, StartAt(covers0, firstSeq), end)
      == UpTo(stream, if covers < end then end else covers)
  }

  /** Nothing is missed between the archive and the stream exactly when no reading lies between the two;
      a stream that starts at or before the sequence after the boundary always meets that. */
  lemma NoHoleExactlyWhenNothingBetween(stream: Stream, covers: nat, firstSeq: nat, end: nat)
    requires StartAt(covers, firstSeq) <= end + 1
    ensures Meets(stream, covers, firstSeq, covers, end) <==> forall n :: n in stream ==> !(covers < n < firstSeq)
    ensures firstSeq <= covers + 1 ==> Meets(stream, covers, firstSeq, covers, end)
  {
    var top := if covers < end then end else covers;
    var start := StartAt(covers, firstSeq);
    var held := UpTo(stream, covers) + Range(stream, start, end);
    forall n | n in stream && n <= top
      ensures stream[n] in held <==> !(covers < n < firstSeq)
    {
      if stream[n] in UpTo(stream, covers) {
        var k :| k in stream && k <= covers && stream[k] == stream[n];
        assert stream[k].number == k;
      }
      if stream[n] in Range(stream, start, end) {
        var k :| k in stream && start <= k <= end && stream[k] == stream[n];
        assert stream[k].number == k;
      }
    }
    assert held <= UpTo(stream, top);
    if held == UpTo(stream, top) {
      forall n | n in stream
        ensures !(covers < n < firstSeq)
      {
        assert n <= top ==> stream[n] in UpTo(stream, top);
      }
    } else {
      var r :| r in UpTo(stream, top) && r !in held;
      var n :| n in stream && n <= top && stream[n] == r;
    }
  }

  /** A responder that starts from a faithful archive with no hole in front of the stream: once the
      pending batch is flushed, it answers from every reading up to the furthest point reached,
      whether the archive or the stream got there first. */
  method AnswerAfter(r: Readings, firstSeq: nat, events: seq<Event>, ghost end: nat) returns (rows: set<Row>)
    requires r.Valid() && r.hot == [] && r.added == {}
    requires firstSeq <= r.covers + 1 && StartAt(r.covers, firstSeq) <= end + 1
    requires Forward(events, r.covers, r.stream)
    requires forall row :: Brings(events, row) <==> row in Range(r.stream, StartAt(r.covers, firstSeq), end)
    requires events != [] && events[|events| - 1] == Timeout
    modifies r
    ensures rows == Latest(UpTo(r.stream, if r.covers < end then end else r.covers))
  {
    assert Above([], r.covers) == [];
    hide Gathered, UpTo, Range, Condenses, FromStream, Above, Latest, Brings, Delivered;
    ghost var covers0 := r.covers;
    BroughtIsDelivered(events, Range(r.stream, StartAt(r.covers, firstSeq), end));
    BoundaryMovesForward(events, r.covers, r.stream);
    RangeIsFromStream(r.stream, StartAt(covers0, firstSeq), end);
    var batch := Follow(r, events);
    AllGathered(r.added, Delivered(events));
    ArchiveAndTailMeet(r.stream, covers0, r.covers, firstSeq, end);
    rows := r.Query();
  }

  lemma BroughtIsDelivered(events: seq<Event>, rows: set<Row>)
    requires forall row :: Brings(events, row) <==> row in rows
    ensures Elements(Delivered(events)) == rows
  {
    hide Delivered, Brings;
    forall row
      ensures row in Delivered(events) <==> row in rows
    {
      DeliveredIsBrought(events, row);
    }
  }

  lemma RangeIsFromStream(stream: Stream, start: nat, end: nat)
    ensures FromStream(Range(stream, start, end), stream)
  {
  }

  lemma AllGathered(added: set<Row>, delivered: seq<Row>)
    requires Gathered(added, [], {}, delivered)
    ensures added == Elements(delivered)
  {
    assert Elements([]) == {};
  }

  lemma ArchiveAndTailMeet(stream: Stream, covers0: nat, covers: nat, firstSeq: nat, end: nat)
    requires covers0 <= covers && firstSeq <= covers0 + 1 && StartAt(covers0, firstSeq) <= end + 1
    ensures Meets(stream, covers0, firstSeq, covers, end)
  {
  }

  lemma BoundaryMovesForward(events: seq<Event>, covers: nat, stream: Stream)
    requires Forward(events, covers, stream)
    ensures covers <= Boundary(events, covers)
  {
    if events != [] {
      var rest := events[..|events| - 1];
      assert Forward(rest, covers, stream) by {
        forall i | 0 <= i < |rest| && rest[i].NewManifest?
          ensures Faithful(rest[i].m, stream) && Boundary(rest[..i], covers) <= rest[i].m.covers
        {
          assert rest[..i] == events[..i] && rest[i] == events[i];
        }
      }
      BoundaryMovesForward(rest, covers, stream);
    }
  }
}
