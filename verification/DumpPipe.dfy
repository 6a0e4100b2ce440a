/** The pipe inside RunBackup: a goroutine dumps through gzip into the write end while the storage
    adapter reads the other end. One turn is one step of one of the two; turns interleave freely. */
module DumpPipe {
  import opened GoText

  /** gzip as a parameter: the bytes it has put out after some writes, the whole output once it is
      closed, and decompression. */
  datatype Codec = Codec(emit: seq<Text> -> Text, finish: seq<Text> -> Text, gunzip: Text -> Option<Text>)

  ghost predicate Lawful(c: Codec) {
    c.emit([]) == []
    && (forall cs, ch :: c.emit(cs) <= c.emit(cs + [ch]))
    && (forall cs :: c.emit(cs) <= c.finish(cs))
    && (forall cs :: c.gunzip(c.finish(cs)) == Some(Flatten(cs)))
  }

  function Flatten(cs: seq<Text>): Text {
    if cs == [] then [] else Flatten(cs[..|cs| - 1]) + cs[|cs| - 1]
  }

  /** How far the goroutine is: dumping, dump returned, gzip closed, pipe closed. */
  datatype Phase = Dumping | Dumped | Flushed | Closed
  datatype Saving = Reading | SaveOk | SaveFailed

  /** `pending` is what a blocked Write of the pipe still has to hand over. */
  datatype Pipe = Pipe(
    phase: Phase, chunks: seq<Text>, dumpErr: Option<Text>, pending: Text, stored: Text, saving: Saving)

  const START := Pipe(Dumping, [], None, [], [], Reading)

  datatype Turn =
    | Write(chunk: Text)
    | DumpReturns(err: Option<Text>)
    | CloseGzip
    | ClosePipe
    | Read(n: nat)
    | Eof
    | FailSave

  /** io.Pipe hands bytes over: the writer waits until all are read. Nothing closes the read end. */
  predicate Can(p: Pipe, t: Turn) {
    match t
    case Write(_) => p.phase.Dumping? && p.pending == []
    case DumpReturns(_) => p.phase.Dumping? && p.pending == []
    case CloseGzip => p.phase.Dumped? && p.pending == []
    case ClosePipe => p.phase.Flushed? && p.pending == []
    case Read(n) => p.saving.Reading? && 0 < n <= |p.pending|
    case Eof => p.saving.Reading? && p.phase.Closed? && p.pending == []
    case FailSave => p.saving.Reading?
  }

  function NewBytes(before: Text, after: Text): Text {
    if before <= after then after[|before|..] else []
  }

  function Do(c: Codec, p: Pipe, t: Turn): Pipe
    requires Can(p, t)
  {
    match t
    case Write(ch) => p.(chunks := p.chunks + [ch], pending := NewBytes(c.emit(p.chunks), c.emit(p.chunks + [ch])))
    case DumpReturns(err) => p.(phase := Dumped, dumpErr := err)
    case CloseGzip => p.(phase := Flushed, pending := NewBytes(c.emit(p.chunks), c.finish(p.chunks)))
    case ClosePipe => p.(phase := Closed)
    case Read(n) => p.(stored := p.stored + p.pending[..n], pending := p.pending[n..])
    case Eof => p.(saving := SaveOk)
    case FailSave => p.(saving := SaveFailed)
  }

  ghost predicate Executes(c: Codec, p: Pipe, turns: seq<Turn>, q: Pipe)
    decreases |turns|
  {
    if turns == [] then p == q
    else Can(p, turns[0]) && Executes(c, Do(c, p, turns[0]), turns[1..], q)
  }

  /** Everything sent so far is the compressor's output so far, and a successful Save has seen the end. */
  ghost predicate Coherent(c: Codec, p: Pipe) {
    && p.stored + p.pending == (if p.phase.Dumping? || p.phase.Dumped? then c.emit(p.chunks) else c.finish(p.chunks))
    && (p.phase.Closed? ==> p.pending == [])
    && (p.saving.SaveOk? ==> p.phase.Closed?)
    && (p.phase.Dumping? ==> p.dumpErr == None)
  }

  lemma CoherentKept(c: Codec, p: Pipe, t: Turn)
    requires Lawful(c) && Coherent(c, p) && Can(p, t)
    ensures Coherent(c, Do(c, p, t))
  {
  }

  lemma {:induction false} CoherentReached(c: Codec, p: Pipe, turns: seq<Turn>, q: Pipe)
    requires Lawful(c) && Coherent(c, p) && Executes(c, p, turns, q)
    ensures Coherent(c, q)
    decreases |turns|
  {
    if turns != [] {
      CoherentKept(c, p, turns[0]);
      CoherentReached(c, Do(c, p, turns[0]), turns[1..], q);
    }
  }

  /** What the dump wrote and how it returned, read off an execution. */
  function Written(turns: seq<Turn>): seq<Text> {
    if turns == [] then []
    else (if turns[0].Write? then [turns[0].chunk] else []) + Written(turns[1..])
  }

  function Returned(turns: seq<Turn>): seq<Option<Text>> {
    if turns == [] then []
    else (if turns[0].DumpReturns? then [turns[0].err] else []) + Returned(turns[1..])
  }

  lemma {:induction false} ChunksWritten(c: Codec, p: Pipe, turns: seq<Turn>, q: Pipe)
    requires Executes(c, p, turns, q)
    ensures q.chunks == p.chunks + Written(turns)
    decreases |turns|
  {
    if turns == [] {
      assert p.chunks + [] == p.chunks;
    } else {
      var t, m := turns[0], Do(c, p, turns[0]);
      ChunksWritten(c, m, turns[1..], q);
      var one := if t.Write? then [t.chunk] else [];
      assert m.chunks == p.chunks + one;
      assert p.chunks + (one + Written(turns[1..])) == p.chunks + one + Written(turns[1..]);
    }
  }

  /** The goroutine leaves the dump once, with the error that the variable holds from then on. */
  lemma {:induction false} ReturnsOnce(c: Codec, p: Pipe, turns: seq<Turn>, q: Pipe)
    requires Executes(c, p, turns, q)
    ensures Returned(turns) == if p.phase.Dumping? && !q.phase.Dumping? then [q.dumpErr] else []
    ensures !p.phase.Dumping? ==> !q.phase.Dumping? && q.dumpErr == p.dumpErr
    decreases |turns|
  {
    if turns != [] {
      var t, m := turns[0], Do(c, p, turns[0]);
      ReturnsOnce(c, m, turns[1..], q);
      if t.DumpReturns? {
        assert Returned(turns) == [t.err] + Returned(turns[1..]);
      } else {
        assert Returned(turns) == Returned(turns[1..]);
      }
    }
  }

  lemma AtSaveOk(c: Codec, q: Pipe)
    requires Lawful(c) && Coherent(c, q) && q.saving.SaveOk?
    ensures q.stored == c.finish(q.chunks) && c.gunzip(q.stored) == Some(Flatten(q.chunks))
    ensures forall t :: !Can(q, t)
  {
  }

  // ---- main results ----

  /** In every interleaving, a Save that succeeds has stored the compression of every chunk of a
      dump that has already returned, and the error RunBackup then reads is the one it returned. */
  lemma SavedIsComplete(c: Codec, turns: seq<Turn>, q: Pipe)
    requires Lawful(c) && Executes(c, START, turns, q) && q.saving.SaveOk?
    ensures q.stored == c.finish(Written(turns))
    ensures c.gunzip(q.stored) == Some(Flatten(Written(turns)))
    ensures Returned(turns) == [q.dumpErr]
    ensures forall t :: !Can(q, t)
  {
    CoherentReached(c, START, turns, q);
    AtSaveOk(c, q);
    ReturnsOnce(c, START, turns, q);
    WrittenAtEnd(c, turns, q);
  }

  /** Until Save returns, one of the two sides can always move: the pipe does not deadlock. */
  lemma NoDeadlock(q: Pipe) returns (t: Turn)
    requires q.saving.Reading?
    ensures Can(q, t) && !t.FailSave?
  {
    t := if q.pending != [] then Read(1)
         else match q.phase
              case Dumping => DumpReturns(None)
              case Dumped => CloseGzip
              case Flushed => ClosePipe
              case Closed => Eof;
  }

  /** gzip always writes a trailer, so closing it puts out at least one byte. */
  ghost predicate HasTrailer(c: Codec) { forall cs :: c.emit(cs) != c.finish(cs) }

  /** From here some continuation lets the goroutine close the pipe and end. */
  ghost predicate CanEnd(c: Codec, q: Pipe) {
    exists more, r :: Executes(c, q, more, r) && r.phase.Closed?
  }

  /** Nobody reads any more and the goroutine has not handed over the trailer. */
  predicate Stranded(q: Pipe) {
    q.saving.SaveFailed? && !q.phase.Closed? && (q.phase.Flushed? ==> q.pending != [])
  }

  lemma {:induction false} StaysStranded(c: Codec, q: Pipe, more: seq<Turn>, r: Pipe)
    requires Lawful(c) && HasTrailer(c) && Stranded(q) && Executes(c, q, more, r)
    ensures Stranded(r)
    decreases |more|
  {
    if more != [] {
      assert c.emit(q.chunks) <= c.finish(q.chunks) && c.emit(q.chunks) != c.finish(q.chunks);
      StaysStranded(c, Do(c, q, more[0]), more[1..], r);
    }
  }

  lemma OneTurnEnds(c: Codec, q: Pipe)
    requires q.phase.Flushed? && q.pending == []
    ensures CanEnd(c, q)
  {
    var r := Do(c, q, ClosePipe);
    assert Executes(c, r, [ClosePipe][1..], r);
    assert Executes(c, q, [ClosePipe], r);
  }

  /** RunBackup never closes the read end. After a Save that failed, however early, the goroutine can
      still end exactly if that Save had taken the whole compressed stream, trailer included. In any
      other case no continuation ends it: it stays blocked in Write, or in the dump or the close of
      gzip that will write next. */
  lemma FailedSaveStrandsDump(c: Codec, turns: seq<Turn>, q: Pipe)
    requires Lawful(c) && HasTrailer(c) && Executes(c, START, turns, q) && q.saving.SaveFailed?
    ensures CanEnd(c, q) <==> q.phase.Closed? || (q.phase.Flushed? && q.pending == [])
    ensures CanEnd(c, q) <==> q.stored == c.finish(Written(turns))
  {
    CoherentReached(c, START, turns, q);
    WrittenAtEnd(c, turns, q);
    if Stranded(q) {
      forall more, r | Executes(c, q, more, r) ensures !r.phase.Closed? { StaysStranded(c, q, more, r); }
    } else if q.phase.Closed? {
      assert Executes(c, q, [], q);
    } else {
      OneTurnEnds(c, q);
    }
    TakenWhole(c, q);
  }

  lemma WrittenAtEnd(c: Codec, turns: seq<Turn>, q: Pipe)
    requires Executes(c, START, turns, q)
    ensures q.chunks == Written(turns)
  {
    ChunksWritten(c, START, turns, q);
    assert START.chunks + Written(turns) == Written(turns);
  }

  lemma TakenWhole(c: Codec, q: Pipe)
    requires Lawful(c) && HasTrailer(c) && Coherent(c, q)
    ensures q.stored == c.finish(q.chunks) <==> q.phase.Closed? || (q.phase.Flushed? && q.pending == [])
  {
  }
}
