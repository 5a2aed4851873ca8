/** Files in fixed-size chunks: streaming an upload in, and reading it back with one chunk cached. */
module Chunks {
  import opened Common

  type Bytes = seq<bv8>

  /** How many chunks of c bytes n bytes take. */
  function Count(n: nat, c: nat): nat
    requires c > 0
  {
    (n + c - 1) / c
  }

  function Chunk(file: Bytes, c: nat, i: nat): Bytes
    requires c > 0 && i < Count(|file|, c)
  {
    InRange(|file|, c, i);
    file[i * c..Min(i * c + c, |file|)]
  }

  lemma InRange(n: nat, c: nat, i: nat)
    requires c > 0
    ensures i < Count(n, c) <==> i * c < n
  {
    var q := Count(n, c);
    Quotient(n + c - 1, c, q);
    if i < q { Monotone(i + 1, q, c); } else { Monotone(q, i, c); }
  }

  lemma Quotient(n: nat, c: nat, q: nat)
    requires c > 0 && q == n / c
    ensures q * c <= n < q * c + c
  {
  }

  lemma Monotone(i: nat, j: nat, c: nat)
    requires i <= j
    ensures i * c <= j * c
    ensures (i + 1) * c == i * c + c
  {
  }

  /** The rows are the file's slices. */
  ghost predicate Stored(rows: seq<Bytes>, file: Bytes, c: nat)
    requires c > 0
  {
    |rows| == Count(|file|, c) && forall i :: 0 <= i < |rows| ==> rows[i] == Chunk(file, c, i)
  }

  function Joined(rows: seq<Bytes>): Bytes {
    if rows == [] then [] else Joined(rows[..|rows| - 1]) + rows[|rows| - 1]
  }

  /** The first k slices are the first k * c bytes. */
  lemma {:induction false} JoinedPrefix(rows: seq<Bytes>, file: Bytes, c: nat, k: nat)
    requires c > 0 && Stored(rows, file, c) && k <= |rows|
    ensures k * c - c < |file| || k == 0
    ensures Joined(rows[..k]) == file[..Min(k * c, |file|)]
    decreases k
  {
    if k > 0 {
      var prev := (k - 1) * c;
      JoinedPrefix(rows, file, c, k - 1);
      InRange(|file|, c, k - 1);
      Monotone(k - 1, k, c);
      assert rows[..k][..k - 1] == rows[..k - 1];
      JoinNext(file, prev, c, rows[k - 1]);
    }
  }

  lemma JoinNext(file: Bytes, prev: nat, c: nat, next: Bytes)
    requires prev <= |file| && next == file[prev..Min(prev + c, |file|)]
    ensures file[..prev] + next == file[..Min(prev + c, |file|)]
  {
  }

  lemma JoinedIsFile(rows: seq<Bytes>, file: Bytes, c: nat)
    requires c > 0 && Stored(rows, file, c)
    ensures Joined(rows) == file
  {
    JoinedPrefix(rows, file, c, |rows|);
    InRange(|file|, c, |rows|);
    assert rows[..|rows|] == rows;
  }

  // ---- upload ---------------------------------------------------------------------------------

  /** A request body: its bytes, and whether it ends in an error instead of an end of file. */
  datatype Body = Body(data: Bytes, breaks: bool)

  datatype Result = Accepted | WrongLength | BodyError | StorageError

  datatype ReadEnd = More | EndOfFile | Broken

  /** A full read of up to c bytes from a body limited to limit bytes. */
  method ReadFull(body: Body, limit: nat, off: nat, c: nat) returns (chunk: Bytes, end: ReadEnd)
    requires c > 0 && off <= Min(|body.data|, limit)
    ensures chunk == body.data[off..Min(off + c, Min(|body.data|, limit))]
    ensures end.More? <==> |chunk| == c
    ensures end.Broken? <==> |chunk| < c && |body.data| < limit && body.breaks
  {
    var stop := Min(off + c, Min(|body.data|, limit));
    chunk := body.data[off..stop];
    if stop == off + c { end := More; }
    else if stop < limit && body.breaks { end := Broken; }
    else { end := EndOfFile; }
  }

  /** What becomes of a body, if inserting chunk number failAt fails. */
  function Verdict(body: Body, declared: nat, c: nat, failAt: nat): Result
    requires c > 0
  {
    var n := |body.data|;
    if failAt < (if n > declared then declared / c else Count(n, c)) then StorageError
    else if n > declared then WrongLength
    else if body.breaks then BodyError
    else if n < declared then WrongLength
    else Accepted
  }

  /** A body is accepted exactly if it is as long as declared, ends properly and all its chunks are stored;
      each refusal has its reason, and one of the wrong length is found out if nothing else goes wrong. */
  lemma AcceptedExactly(body: Body, declared: nat, c: nat, failAt: nat)
    requires c > 0
    ensures var r := Verdict(body, declared, c, failAt);
      && (r.Accepted? <==> |body.data| == declared && !body.breaks && failAt >= Count(declared, c))
      && (r.WrongLength? ==> |body.data| != declared) && (r.BodyError? ==> body.breaks && |body.data| <= declared)
      && (r.StorageError? ==> failAt < Count(|body.data|, c))
      && (|body.data| != declared && !body.breaks && failAt >= Count(|body.data|, c) ==> r.WrongLength?)
  {
    Quotient(declared, c, declared / c);
    if |body.data| > declared { InRange(|body.data|, c, declared / c); }
  }

  /** Streams a body into chunk rows with one buffer; a body is accepted exactly when it is as long as
      declared, ends properly and every chunk is stored, and then the rows are its slices. */
  method StreamIn(body: Body, declared: nat, c: nat, failAt: nat) returns (r: Result, rows: seq<Bytes>)
    requires c > 0
    ensures r == Verdict(body, declared, c, failAt)
    ensures r.Accepted? ==> Stored(rows, body.data, c)
  {
    rows := [];
    var total, idx := 0, 0;
    ghost var limited := Min(|body.data|, declared + 1);
    while true
      invariant |rows| == idx && total == idx * c <= Min(|body.data|, declared) && idx <= failAt
      invariant forall i :: 0 <= i < idx ==> i < Count(|body.data|, c) && rows[i] == Chunk(body.data, c, i)
      decreases limited - total
    {
      var chunk, end := ReadFull(body, declared + 1, total, c);
      ghost var n := |chunk|;
      Monotone(idx, idx + 1, c);
      Position(total + n, |body.data|, declared, idx, total, c);
      if |chunk| > 0 {
        total := total + |chunk|;
        if total > declared { return WrongLength, rows; }
        if idx == failAt { return StorageError, rows; }
        rows := rows + [chunk];
      }
      if end.EndOfFile? { break; }
      if end.Broken? { return BodyError, rows; }
      idx := idx + 1;
    }
    if total != declared { return WrongLength, rows; }
    r := Accepted;
  }

  /** Where a read that starts at base = idx * c and ends at stop leaves the stream. */
  lemma Position(stop: nat, n: nat, declared: nat, idx: nat, base: nat, c: nat)
    requires c > 0 && base == idx * c && base <= n && base <= declared && stop == Min(base + c, Min(n, declared + 1))
    ensures stop > declared ==> declared / c == idx
    ensures stop <= declared ==> (idx < (if n > declared then declared / c else Count(n, c)) <==> stop > base)
    ensures stop <= declared && stop < base + c ==> n <= declared && Count(n, c) == if stop > base then idx + 1 else idx
    ensures stop > base ==> idx < Count(n, c)
  {
    InRange(n, c, idx);
    InRange(n, c, idx + 1);
    Monotone(idx, idx + 1, c);
    Between(declared, c, idx, base);
    if stop == base && idx > 0 {
      Monotone(idx - 1, idx, c);
      InRange(n, c, idx - 1);
    }
  }

  lemma Between(n: nat, c: nat, idx: nat, base: nat)
    requires c > 0 && base == idx * c
    ensures idx <= n / c <==> base <= n
    ensures idx == n / c <==> base <= n < base + c
  {
    var q := n / c;
    Quotient(n, c, q);
    if q < idx { Monotone(q + 1, idx, c); Monotone(q, q, c); }
    if q > idx { Monotone(idx + 1, q, c); Monotone(idx, idx, c); }
  }

  /** The round trip: what was accepted is what the chunks hold. */
  lemma AcceptedRoundTrip(body: Body, declared: nat, c: nat, failAt: nat, rows: seq<Bytes>)
    requires c > 0 && Verdict(body, declared, c, failAt).Accepted? && Stored(rows, body.data, c)
    ensures |body.data| == declared && !body.breaks && |rows| == Count(declared, c) && Joined(rows) == body.data
  {
    JoinedIsFile(rows, body.data, c);
  }

  // ---- reading --------------------------------------------------------------------------------

  datatype Whence = FromStart | FromCurrent | FromEnd | Unknown

  datatype ReadError = NoError | Eof | MissingChunk | InvalidWhence | NegativePosition

  /** How many bytes one read gives: never past the end of the chunk it starts in. */
  function ReadLength(size: nat, c: nat, off: nat, want: nat): (n: nat)
    requires c > 0 && off < size
    ensures n <= size - off && n <= want && (want > 0 ==> n > 0)
  {
    var i := off / c;
    ChunkAround(size, c, off, i);
    Min(want, Min(i * c + c, size) - off)
  }

  /** A read gives what was asked for, or stops at the end of the file or of the chunk it starts in. */
  lemma ReadStops(size: nat, c: nat, off: nat, want: nat)
    requires c > 0 && off < size
    ensures var stop := off + ReadLength(size, c, off, want);
      && (stop == off + want || stop == size || stop == (off / c + 1) * c)
      && stop <= (off / c + 1) * c
  {
    Quotient(off, c, off / c);
    Monotone(off / c, off / c, c);
  }

  lemma ChunkAround(size: nat, c: nat, off: nat, i: nat)
    requires c > 0 && off < size && i == off / c
    ensures i < Count(size, c) && i * c <= off < Min(i * c + c, size)
  {
    Quotient(off, c, i);
    InRange(size, c, i);
  }

  /** From an offset inside a chunk to the chunk's end. */
  lemma RestOfChunk(file: Bytes, c: nat, off: nat, i: nat, start: nat)
    requires c > 0 && off < |file| && i == off / c && i < Count(|file|, c) && start == off - i * c
    ensures 0 <= start < |Chunk(file, c, i)| && start + i * c == off
    ensures Chunk(file, c, i)[start..] == file[off..Min(i * c + c, |file|)] && off <= Min(i * c + c, |file|)
  {
    ChunkAround(|file|, c, off, i);
  }

  /** The bytes a read takes of the rest of its chunk. */
  lemma ReadBytes(file: Bytes, c: nat, off: nat, want: nat, rest: Bytes)
    requires c > 0 && off < |file| && rest == file[off..Min(off / c * c + c, |file|)]
    requires off <= Min(off / c * c + c, |file|)
    ensures Min(want, |rest|) == ReadLength(|file|, c, off, want)
    ensures rest[..Min(want, |rest|)] == file[off..off + Min(want, |rest|)]
  {
  }

  /** Go's copy: as many bytes as fit. */
  method Copy(p: array<bv8>, src: Bytes) returns (n: nat)
    modifies p
    ensures n == Min(p.Length, |src|) && p[..n] == src[..n] && p[n..] == old(p[n..])
  {
    n := Min(p.Length, |src|);
    for i := 0 to n
      invariant p[..i] == src[..i]
      invariant p[n..] == old(p[n..])
    {
      p[i] := src[i];
    }
  }

  class Reader {
    const size: nat
    const chunk: nat
    var off: nat
    var cur: Bytes
    var curIdx: int

    /** The cached chunk is the file's. */
    ghost predicate Valid(file: Bytes)
      reads this
    {
      && chunk > 0 && size == |file|
      && (curIdx == -1 || (0 <= curIdx < Count(size, chunk) && cur == Chunk(file, chunk, curIdx)))
    }

    constructor (size: nat, chunk: nat, ghost file: Bytes)
      requires chunk > 0 && size == |file|
      ensures Valid(file) && off == 0 && this.size == size && this.chunk == chunk
    {
      this.size, this.chunk := size, chunk;
      off, cur, curIdx := 0, [], -1;
    }

    /** Makes the chunk around the offset the cached one. */
    method Fetch(idx: nat, rows: map<nat, Bytes>, ghost file: Bytes) returns (ok: bool)
      requires Valid(file) && off < size && idx == off / chunk
      requires forall i :: i in rows && i < Count(|file|, chunk) ==> rows[i] == Chunk(file, chunk, i)
      modifies this`cur, this`curIdx
      ensures Valid(file) && idx < Count(|file|, chunk)
      ensures !ok ==> idx !in rows && cur == old(cur) && curIdx == old(curIdx)
      ensures ok ==> cur == Chunk(file, chunk, idx) && curIdx == idx
    {
      ChunkAround(size, chunk, off, idx);
      ok := true;
      if idx != curIdx {
        if idx !in rows { return false; }
        cur, curIdx := rows[idx], idx;
      }
    }

    /** A read gives the file's bytes at the offset, from the cache or from storage. A row may be gone
        when the file was deleted meanwhile; then nothing changes. */
    method Read(p: array<bv8>, rows: map<nat, Bytes>, ghost file: Bytes) returns (n: nat, err: ReadError)
      requires Valid(file)
      requires forall i :: i in rows && i < Count(|file|, chunk) ==> rows[i] == Chunk(file, chunk, i)
      modifies this, p
      ensures Valid(file)
      ensures err.Eof? <==> old(off) >= size
      ensures err.MissingChunk? ==> old(off) < size && old(off) / chunk !in rows
      ensures err.NoError? || err.Eof? || err.MissingChunk?
      ensures err.NoError? ==> n == ReadLength(size, chunk, old(off), p.Length) && (p.Length > 0 ==> n > 0)
      ensures err.NoError? ==> old(off) + n <= size && p[..n] == file[old(off)..old(off) + n]
      ensures !err.NoError? ==> n == 0
      ensures off == old(off) + n && p[n..] == old(p[n..])
    {
      if off >= size { return 0, Eof; }
      var idx := off / chunk;
      var ok := Fetch(idx, rows, file);
      if !ok { return 0, MissingChunk; }
      var start := off - idx * chunk;
      RestOfChunk(file, chunk, off, idx, start);
      ReadBytes(file, chunk, off, p.Length, cur[start..]);
      n := Copy(p, cur[start..]);
      off := off + n;
      err := NoError;
    }

    /** Moves the offset, also past the end, and never reads. */
    method Seek(offset: int, whence: Whence) returns (pos: int, err: ReadError)
      modifies this`off
      ensures
        var target := match whence
          case FromStart => offset
          case FromCurrent => old(off) + offset
          case _ => size + offset;
        && (err.InvalidWhence? <==> whence.Unknown?)
        && (err.NegativePosition? <==> !whence.Unknown? && target < 0)
        && (!whence.Unknown? && target >= 0 ==> err.NoError? && off == pos == target)
      ensures !err.NoError? ==> off == old(off) && pos == 0
    {
      var abs: int;
      match whence {
        case FromStart => abs := offset;
        case FromCurrent => abs := off + offset;
        case FromEnd => abs := size + offset;
        case Unknown => return 0, InvalidWhence;
      }
      if abs < 0 { return 0, NegativePosition; }
      off := abs;
      return abs, NoError;
    }
  }

  // ---- any sequence of reads and seeks --------------------------------------------------------

  datatype Op = DoRead(want: nat) | DoSeek(offset: int, whence: Whence)

  datatype Answer = Answer(data: Bytes, pos: int, err: ReadError)

  function FlatRead(file: Bytes, c: nat, off: nat, want: nat): (Answer, nat)
    requires c > 0
  {
    if off >= |file| then (Answer([], off, Eof), off)
    else
      var n := ReadLength(|file|, c, off, want);
      (Answer(file[off..off + n], off + n, NoError), off + n)
  }

  /** One operation on the flat file, and the offset after it. */
  function Flat(file: Bytes, c: nat, off: nat, op: Op): (Answer, nat)
    requires c > 0
  {
    match op
    case DoRead(want) => FlatRead(file, c, off, want)
    case DoSeek(offset, whence) =>
      var target := match whence case FromStart => offset case FromCurrent => off + offset case _ => |file| + offset;
      if whence.Unknown? then (Answer([], 0, InvalidWhence), off)
      else if target < 0 then (Answer([], 0, NegativePosition), off)
      else (Answer([], target, NoError), target)
  }

  function FlatRun(file: Bytes, c: nat, off: nat, ops: seq<Op>): seq<Answer>
    requires c > 0
    decreases |ops|
  {
    if ops == [] then [] else [Flat(file, c, off, ops[0]).0] + FlatRun(file, c, Flat(file, c, off, ops[0]).1, ops[1..])
  }

  /** The rows of a complete file. */
  ghost predicate Whole(rows: map<nat, Bytes>, file: Bytes, c: nat)
    requires c > 0
  {
    forall i :: 0 <= i < Count(|file|, c) ==> i in rows && rows[i] == Chunk(file, c, i)
  }

  lemma HasChunk(rows: map<nat, Bytes>, file: Bytes, c: nat, off: nat)
    requires c > 0 && Whole(rows, file, c) && off < |file|
    ensures off / c in rows
  {
    ChunkAround(|file|, c, off, off / c);
  }

  method PerformRead(r: Reader, rows: map<nat, Bytes>, want: nat, ghost file: Bytes) returns (a: Answer)
    requires r.Valid(file) && Whole(rows, file, r.chunk)
    modifies r
    ensures r.Valid(file) && (a, r.off) == FlatRead(file, r.chunk, old(r.off), want)
  {
    var p := new bv8[want];
    if r.off < r.size { HasChunk(rows, file, r.chunk, r.off); }
    var n, err := r.Read(p, rows, file);
    a := Answer(p[..n], r.off, err);
  }

  method Perform(r: Reader, rows: map<nat, Bytes>, op: Op, ghost file: Bytes) returns (a: Answer)
    requires r.Valid(file) && Whole(rows, file, r.chunk)
    modifies r
    ensures r.Valid(file) && (a, r.off) == Flat(file, r.chunk, old(r.off), op)
  {
    match op {
      case DoRead(want) => a := PerformRead(r, rows, want, file);
      case DoSeek(offset, whence) =>
        var pos, err := r.Seek(offset, whence);
        a := Answer([], pos, err);
    }
  }

  /** Whatever the operations, the reader answers as the flat file does. */
  method Answers(r: Reader, rows: map<nat, Bytes>, ops: seq<Op>, ghost file: Bytes) returns (answers: seq<Answer>)
    requires r.Valid(file) && Whole(rows, file, r.chunk)
    modifies r
    ensures r.Valid(file) && answers == FlatRun(file, r.chunk, old(r.off), ops)
  {
    answers := [];
    for k := 0 to |ops|
      invariant r.Valid(file)
      invariant answers + FlatRun(file, r.chunk, r.off, ops[k..]) == FlatRun(file, r.chunk, old(r.off), ops)
    {
      var a := Perform(r, rows, ops[k], file);
      assert ops[k..][1..] == ops[k + 1..];
      answers := answers + [a];
    }
  }

  /** Reading on with any buffer gives the rest of the file. */
  method ReadAll(r: Reader, rows: map<nat, Bytes>, want: nat, ghost file: Bytes) returns (data: Bytes)
    requires r.Valid(file) && Whole(rows, file, r.chunk) && want > 0 && r.off <= r.size
    modifies r
    ensures r.Valid(file) && data == file[old(r.off)..]
  {
    data := [];
    var p := new bv8[want];
    while true
      invariant r.Valid(file) && old(r.off) <= r.off <= r.size && data == file[old(r.off)..r.off]
      decreases r.size - r.off
    {
      if r.off < r.size { HasChunk(rows, file, r.chunk, r.off); }
      var n, err := r.Read(p, rows, file);
      if err != NoError { break; }
      data := data + p[..n];
    }
  }
}
