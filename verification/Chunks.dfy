/** Paste content in MySQL: written as rows of at most one megabyte, read back as one stream.
    The zstd encoder in front of the writer is any function from a content to the writes it makes. */
module Chunks {
  import opened Common
  import opened Streams

  const CHUNK := 0x10_0000  // mysqlChunkSize

  function Concat(rows: seq<Bytes>): Bytes {
    if rows == [] then [] else rows[0] + Concat(rows[1..])
  }

  lemma {:induction false} ConcatAppend(a: seq<Bytes>, b: seq<Bytes>)
    ensures Concat(a + b) == Concat(a) + Concat(b)
  {
    if a == [] {
      assert a + b == b;
    } else {
      assert (a + b)[1..] == a[1..] + b;
      ConcatAppend(a[1..], b);
      assert a[0] + (Concat(a[1..]) + Concat(b)) == a[0] + Concat(a[1..]) + Concat(b);
    }
  }

  lemma ConcatOne(r: Bytes)
    ensures Concat([r]) == r
  {
    assert [r][1..] == [];
  }

  // ---- The one way content is cut into rows ----

  function Split(content: Bytes): seq<Bytes>
    decreases |content|
  {
    if content == [] then []
    else if |content| <= CHUNK then [content]
    else [content[..CHUNK]] + Split(content[CHUNK..])
  }

  predicate AllFull(rows: seq<Bytes>) {
    forall i :: 0 <= i < |rows| ==> |rows[i]| == CHUNK
  }

  /** Full rows and then a last, shorter one are that way of cutting. */
  lemma {:induction false} FullRowsThenRest(rows: seq<Bytes>, last: Bytes)
    requires AllFull(rows) && |last| <= CHUNK
    ensures rows + (if last == [] then [] else [last]) == Split(Concat(rows) + last)
    decreases |rows|
  {
    if rows == [] {
      assert Concat(rows) + last == last;
    } else {
      var rest := Concat(rows[1..]) + last;
      FullRowsThenRest(rows[1..], last);
      assert Concat(rows) + last == rows[0] + rest;
      assert (rows[0] + rest)[..CHUNK] == rows[0] && (rows[0] + rest)[CHUNK..] == rest;
      if rest == [] {
        assert rows[1..] == [] && last == [];
        assert rows == [rows[0]];
      } else {
        assert rows == [rows[0]] + rows[1..];
        var end := if last == [] then [] else [last];
        assert [rows[0]] + (rows[1..] + end) == rows + end;
      }
    }
  }

  /** The rows of a content join to it; none is empty and all but the last are exactly full. */
  lemma {:induction false} SplitExact(content: Bytes)
    ensures Concat(Split(content)) == content
    ensures forall i :: 0 <= i < |Split(content)| ==> 1 <= |Split(content)[i]| <= 1_048_576
    ensures forall i :: 0 <= i < |Split(content)| - 1 ==> |Split(content)[i]| == 1_048_576
    decreases |content|
  {
    if content == [] {
    } else if |content| <= CHUNK {
      ConcatOne(content);
    } else {
      SplitExact(content[CHUNK..]);
      var tail := Split(content[CHUNK..]);
      ConcatAppend([content[..CHUNK]], tail);
      ConcatOne(content[..CHUNK]);
    }
  }

  // ---- Writing ----

  /** The rows of one paste, keyed by index. An insert fails on an index that is taken, or when
      the database says so. */
  class ChunkTable {
    var rows: map<nat, Bytes>
    var failures: seq<bool>

    constructor (failures: seq<bool>)
      ensures rows == map[] && this.failures == failures
    {
      rows := map[];
      this.failures := failures;
    }

    method Exec(index: nat, data: Bytes) returns (ok: bool)
      modifies this
      ensures rows == if ok then old(rows)[index := data] else old(rows)
      ensures index in old(rows) ==> !ok
      ensures old(failures) == [] && index !in old(rows) ==> ok && failures == []
    {
      ok := index !in rows && (failures == [] || !failures[0]);
      failures := if failures == [] then [] else failures[1..];
      if ok {
        rows := rows[index := data];
      }
    }
  }

  class ChunkWriter {
    const statement: ChunkTable
    var chunkIndex: nat
    var buf: Bytes
    var compressedSize: nat
    ghost var flushed: seq<Bytes>  // the rows in index order

    constructor (statement: ChunkTable)
      requires statement.rows == map[]
      ensures Valid() && this.statement == statement && flushed == [] && buf == []
    {
      this.statement := statement;
      chunkIndex, buf, compressedSize, flushed := 0, [], 0, [];
    }

    ghost predicate Valid()
      reads this, statement
    {
      && chunkIndex == |flushed|
      && |buf| <= CHUNK
      && statement.rows == (map i: nat | i < |flushed| :: flushed[i])
      && compressedSize == |Concat(flushed)|
    }

    /** Everything accepted so far, in rows or still buffered. */
    ghost function Accepted(): Bytes
      reads this
    {
      Concat(flushed) + buf
    }

    method Flush() returns (ok: bool)
      requires Valid()
      modifies this, statement
      ensures Valid() && Accepted() == old(Accepted())
      ensures ok ==> buf == [] && flushed == old(flushed) + if old(buf) == [] then [] else [old(buf)]
      ensures !ok ==> buf == old(buf) != [] && flushed == old(flushed)
      ensures old(statement.failures) == [] ==> ok && statement.failures == []
    {
      if buf == [] {
        return true;
      }
      assert chunkIndex !in statement.rows;
      ok := statement.Exec(chunkIndex, buf);
      if !ok {
        return;
      }
      compressedSize := compressedSize + |buf|;
      chunkIndex := chunkIndex + 1;
      ConcatAppend(flushed, [buf]);
      ConcatOne(buf);
      flushed := flushed + [buf];
      buf := [];
    }

    /** Rows are flushed only when exactly full. A failed flush leaves the buffer full and reports
        nothing written; what it had accepted is a prefix of `p`, and a later Write flushes it first. */
    method Write(p: Bytes) returns (n: nat, ok: bool)
      requires Valid()
      modifies this, statement
      ensures Valid() && old(flushed) <= flushed && AllFull(flushed[|old(flushed)|..])
      ensures ok ==> n == |p| && Accepted() == old(Accepted()) + p && (p != [] ==> |buf| < CHUNK)
      ensures !ok ==> n == 0 && |buf| == CHUNK && exists k :: 0 <= k <= |p| && Accepted() == old(Accepted()) + p[..k]
      ensures old(statement.failures) == [] ==> ok && statement.failures == []
    {
      var rest := p;
      ghost var before := Accepted();
      ghost var k := 0;
      while |rest| > 0
        invariant Valid() && old(flushed) <= flushed && AllFull(flushed[|old(flushed)|..])
        invariant 0 <= k <= |p| && rest == p[k..] && Accepted() == before + p[..k]
        invariant k > 0 ==> |buf| < CHUNK
        invariant old(statement.failures) == [] ==> statement.failures == []
        decreases |rest|, |buf|
      {
        var remaining := CHUNK - |buf|;
        if remaining > |rest| {
          remaining := |rest|;
        }
        ghost var had := buf;
        assert Concat(flushed) + (had + rest[..remaining]) == Concat(flushed) + had + rest[..remaining];
        assert before + (p[..k] + rest[..remaining]) == before + p[..k] + rest[..remaining];
        assert p[..k] + rest[..remaining] == p[..k + remaining];
        buf := buf + rest[..remaining];
        rest := rest[remaining..];
        k := k + remaining;
        if |buf| == CHUNK {
          ghost var rows := flushed;
          var flushOk := this.Flush();
          if !flushOk {
            return 0, false;
          }
          assert flushed[|old(flushed)|..] == rows[|old(flushed)|..] + [flushed[|rows|]];
        }
      }
      assert p[..k] == p;
      return |p|, true;
    }
  }

  /** A reader that counts what passes through it. */
  class CountingReader {
    const r: Source
    var n: nat

    constructor (r: Source)
      ensures this.r == r && n == 0
    {
      this.r := r;
      n := 0;
    }

    method Read(size: nat) returns (data: Bytes, status: Status)
      modifies this, r
      ensures n == old(n) + |data| && |data| <= size
      ensures status == More ==>
        data + Content(r.script) == Content(old(r.script)) && Ending(r.script) == Ending(old(r.script))
      ensures status != More ==> data == Content(old(r.script)) && status == Ending(old(r.script)) && r.script == []
      ensures size > 0 && status == More ==> Work(r.script) < Work(old(r.script))
    {
      data, status := r.Read(size);
      n := n + |data|;
    }
  }

  predicate Prefixes(taken: seq<Bytes>, writes: seq<Bytes>, oks: seq<bool>) {
    && |taken| == |writes| == |oks|
    && forall i :: 0 <= i < |writes| ==> taken[i] <= writes[i] && (oks[i] ==> taken[i] == writes[i])
  }

  /** Any sequence of Writes, going on after those that fail. Each takes in a prefix of what it is
      given, all of it if it succeeds, and only full rows are flushed. */
  method WriteMany(w: ChunkWriter, writes: seq<Bytes>) returns (oks: seq<bool>, ghost taken: seq<Bytes>)
    requires w.Valid() && AllFull(w.flushed)
    modifies w, w.statement
    ensures w.Valid() && AllFull(w.flushed) && Prefixes(taken, writes, oks)
    ensures w.Accepted() == old(w.Accepted()) + Concat(taken)
    ensures old(w.statement.failures) == [] ==> w.statement.failures == [] && forall i :: 0 <= i < |oks| ==> oks[i]
  {
    oks, taken := [], [];
    assert w.Accepted() + [] == w.Accepted();
    for i := 0 to |writes|
      invariant w.Valid() && AllFull(w.flushed) && Prefixes(taken, writes[..i], oks)
      invariant w.Accepted() == old(w.Accepted()) + Concat(taken)
      invariant old(w.statement.failures) == [] ==> w.statement.failures == [] && forall j :: 0 <= j < i ==> oks[j]
    {
      ghost var rows, had := w.flushed, w.Accepted();
      var n, ok := w.Write(writes[i]);
      assert w.flushed == rows + w.flushed[|rows|..];
      ghost var k :| 0 <= k <= |writes[i]| && w.Accepted() == had + writes[i][..k] && (ok ==> k == |writes[i]|) by {
        if ok { assert writes[i][..|writes[i]|] == writes[i]; }
      }
      TakenNext(old(w.Accepted()), taken, writes[i][..k]);
      oks, taken := oks + [ok], taken + [writes[i][..k]];
      assert ok ==> writes[i][..k] == writes[i];
      assert writes[..i + 1] == writes[..i] + [writes[i]];
    }
    assert writes[..|writes|] == writes;
  }

  lemma TakenNext(before: Bytes, taken: seq<Bytes>, piece: Bytes)
    ensures before + Concat(taken + [piece]) == before + Concat(taken) + piece
  {
    ConcatAppend(taken, [piece]);
    ConcatOne(piece);
    Regroup(before, Concat(taken), piece);
  }

  /** Any sequence of Writes and then a Flush: if the Flush succeeds the rows are the one cutting of
      everything taken in, however it was sliced and whatever failed before. */
  method WriteThenFlush(w: ChunkWriter, writes: seq<Bytes>)
    returns (oks: seq<bool>, flushOk: bool, ghost taken: seq<Bytes>)
    requires w.Valid() && w.flushed == [] && w.buf == []
    modifies w, w.statement
    ensures w.Valid() && Prefixes(taken, writes, oks)
    ensures flushOk ==> w.flushed == Split(Concat(taken)) && w.compressedSize == |Concat(taken)|
    ensures old(w.statement.failures) == [] ==> flushOk && taken == writes && forall i :: 0 <= i < |oks| ==> oks[i]
  {
    oks, taken := WriteMany(w, writes);
    ghost var rows, last := w.flushed, w.buf;
    flushOk := w.Flush();
    FullRowsThenRest(rows, last);
    assert w.buf == [] ==> w.Accepted() == Concat(w.flushed);
    assert [] + Concat(taken) == Concat(taken);
  }

  /** Concatenation of prefixes that are everything. */
  lemma AllTaken(taken: seq<Bytes>, writes: seq<Bytes>, oks: seq<bool>)
    requires Prefixes(taken, writes, oks) && forall i :: 0 <= i < |oks| ==> oks[i]
    ensures taken == writes
  {
  }

  const COPY_BUFFER := 32 * 1024

  /** The compression in front of the rows: the writes made for a content, and what undoes them. */
  datatype Encoder = Encoder(writes: Bytes -> seq<Bytes>, decode: Bytes -> Bytes) {
    ghost predicate Inverts() {
      forall content :: decode(Concat(writes(content))) == content
    }
  }

  /** Copy into the encoder, then flush: the content part of `createMySQLWithID`. On any error the
      transaction is rolled back by the caller, so what the encoder wrote until then is of no account;
      its writes are all made after the last read here. */
  method StoreContent(counter: CountingReader, chunks: ChunkWriter, encoder: Encoder) returns (ok: bool)
    requires chunks.Valid() && chunks.flushed == [] && chunks.buf == [] && counter.n == 0
    requires counter.r as object != chunks && counter.r as object != chunks.statement
    modifies counter, counter.r, chunks, chunks.statement
    ensures ok ==> Ending(old(counter.r.script)) == Eof
    ensures ok ==> var content := Content(old(counter.r.script)); var coded := Concat(encoder.writes(content));
      && chunks.Valid() && chunks.flushed == Split(coded)
      && chunks.compressedSize == |coded| && counter.n == |content|
    ensures Ending(old(counter.r.script)) == Eof && old(chunks.statement.failures) == [] ==> ok
  {
    ghost var whole := Content(counter.r.script);
    ghost var left := whole;
    var content: Bytes, status := [], More;
    while status == More
      invariant chunks.Valid() && chunks.flushed == [] && chunks.buf == []
      invariant chunks.statement.failures == old(chunks.statement.failures)
      invariant content + left == whole && counter.n == |content|
      invariant status == More ==>
        left == Content(counter.r.script) && Ending(counter.r.script) == Ending(old(counter.r.script))
      invariant status != More ==> left == [] && status == Ending(old(counter.r.script))
      decreases status == More, Work(counter.r.script)
    {
      var data, s := counter.Read(COPY_BUFFER);
      ghost var rest := if s == More then Content(counter.r.script) else [];
      assert left == data + rest;
      Regroup(content, data, rest);
      content, left, status := content + data, rest, s;
    }
    assert content == content + left;
    if status == Broken {
      return false;
    }
    var oks, flushOk, taken := WriteThenFlush(chunks, encoder.writes(content));
    if false in oks {
      return false;
    }
    AllTaken(taken, encoder.writes(content), oks);
    ok := flushOk;
  }

  // ---- Reading ----

  /** The result set of the content query: rows in index order, one of which may fail to scan,
      and an end that may be an error. */
  function Available(rows: seq<Option<Bytes>>): Bytes {
    if rows == [] || rows[0].None? then [] else rows[0].value + Available(rows[1..])
  }

  function EndsWell(rows: seq<Option<Bytes>>, broken: bool): bool {
    if rows == [] then !broken else rows[0].Some? && EndsWell(rows[1..], broken)
  }

  class ChunkReader {
    var rows: seq<Option<Bytes>>
    const broken: bool
    var current: Bytes
    var offset: nat
    var closed: bool

    constructor (rows: seq<Option<Bytes>>, broken: bool)
      ensures Valid() && !closed && Pending() == Available(rows) && this.rows == rows && this.broken == broken
    {
      this.rows, this.broken := rows, broken;
      current, offset, closed := [], 0, false;
      new;
      assert current[offset..] + Available(rows) == Available(rows);
    }

    ghost predicate Valid()
      reads this
    {
      offset <= |current|
    }

    /** What the reader will still deliver before it ends. */
    ghost function Pending(): Bytes
      requires Valid()
      reads this
    {
      current[offset..] + Available(rows)
    }

    /** Empty rows are skipped; a read with room delivers at least one byte until the end. */
    method Read(n: nat) returns (data: Bytes, status: Status)
      requires Valid()
      modifies this
      ensures Valid() && |data| <= n
      ensures old(closed) ==> data == [] && status == Eof
      ensures !old(closed) && status == More ==>
        && !closed && data + Pending() == old(Pending()) && (n > 0 ==> data != [])
        && EndsWell(rows, broken) == EndsWell(old(rows), broken)
      ensures !old(closed) && status != More ==>
        data == [] && old(Pending()) == [] && (status == Eof <==> EndsWell(old(rows), broken))
    {
      if closed {
        return [], Eof;
      }
      while |current| == offset
        invariant Valid() && !closed
        invariant Pending() == old(Pending()) && EndsWell(rows, broken) == EndsWell(old(rows), broken)
        decreases rows
      {
        assert current[offset..] == [];
        if rows == [] {
          closed := true;
          return [], if broken then Broken else Eof;
        }
        var row := rows[0];
        rows := rows[1..];
        if row.None? {
          return [], Broken;
        }
        current := row.value;
        offset := 0;
        assert current[offset..] == row.value;
      }
      var size := Min(n, |current| - offset);
      data := current[offset..][..size];
      assert data + current[offset + size..] == current[offset..];
      assert data + (current[offset + size..] + Available(rows)) == current[offset..] + Available(rows);
      offset := offset + size;
      status := More;
    }
  }

  /** Read to the end with buffers of any sizes that leave room. */
  method ReadToEnd(r: ChunkReader, sizes: nat -> nat) returns (data: Bytes, status: Status)
    requires r.Valid() && !r.closed && forall i :: sizes(i) > 0
    modifies r
    ensures data == old(r.Pending())
    ensures status == if EndsWell(old(r.rows), r.broken) then Eof else Broken
  {
    data, status := [], More;
    var i := 0;
    while status == More
      invariant r.Valid()
      invariant status == More ==> !r.closed && data + r.Pending() == old(r.Pending())
      invariant status == More ==> EndsWell(r.rows, r.broken) == EndsWell(old(r.rows), r.broken)
      invariant status != More ==>
        data == old(r.Pending()) && status == if EndsWell(old(r.rows), r.broken) then Eof else Broken
      decreases status == More, |r.Pending()|
    {
      ghost var had := data;
      var piece, s := r.Read(sizes(i));
      if s == More {
        assert had + (piece + r.Pending()) == had + piece + r.Pending();
      } else {
        assert had + [] == had;
      }
      data, status, i := data + piece, s, i + 1;
    }
  }

  function Fetched(rows: seq<Bytes>): seq<Option<Bytes>> {
    if rows == [] then [] else [Some(rows[0])] + Fetched(rows[1..])
  }

  /** A result set delivers the rows before the first that fails to scan, and ends well if none does and
      the query ends well. */
  lemma {:induction false} AvailableUpTo(good: seq<Bytes>, rest: seq<Option<Bytes>>, broken: bool)
    requires rest == [] || rest[0].None?
    ensures Available(Fetched(good) + rest) == Concat(good)
    ensures EndsWell(Fetched(good) + rest, broken) <==> rest == [] && !broken
  {
    if good == [] {
      assert Fetched(good) + rest == rest;
    } else {
      var rows := Fetched(good) + rest;
      assert rows[0] == Some(good[0]) && rows[1..] == Fetched(good[1..]) + rest;
      AvailableUpTo(good[1..], rest, broken);
    }
  }

  /** The round trip: whatever a stream delivers, in whatever pieces, however the encoder slices its
      output, once stored without error it reads back as that output and then EOF, with buffers of
      any sizes; so a decoder that undoes the encoder gives the content. */
  method RoundTrip(source: Source, failures: seq<bool>, encoder: Encoder, sizes: nat -> nat)
    returns (stored: bool, back: Bytes, status: Status)
    requires forall i :: sizes(i) > 0
    modifies source
    ensures stored ==> status == Eof && back == Concat(encoder.writes(Content(old(source.script))))
    ensures stored && encoder.Inverts() ==> encoder.decode(back) == Content(old(source.script))
    ensures Ending(old(source.script)) == Eof && failures == [] ==> stored
  {
    ghost var content := Content(source.script);
    var table := new ChunkTable(failures);
    var writer := new ChunkWriter(table);
    var counter := new CountingReader(source);
    stored := StoreContent(counter, writer, encoder);
    back, status := [], Broken;
    if stored {
      ghost var rows := writer.flushed;
      var fetched := seq(writer.chunkIndex,
        i requires 0 <= i < writer.chunkIndex && i in table.rows reads writer, table => Some(table.rows[i]));
      FetchedAt(rows);
      assert fetched == Fetched(rows);
      AvailableUpTo(rows, [], false);
      assert Fetched(rows) + [] == Fetched(rows);
      SplitExact(Concat(encoder.writes(content)));
      var reader := new ChunkReader(fetched, false);
      back, status := ReadToEnd(reader, sizes);
    }
  }

  lemma {:induction false} FetchedAt(rows: seq<Bytes>)
    ensures |Fetched(rows)| == |rows| && forall i :: 0 <= i < |rows| ==> Fetched(rows)[i] == Some(rows[i])
  {
    if rows != [] {
      FetchedAt(rows[1..]);
    }
  }
}
