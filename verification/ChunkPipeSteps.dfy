/** The connection shared by one reader and one writer per direction, closers and deadline setters, as a
    state machine over its lock regions and channel operations: no byte is lost, duplicated or reordered,
    and no wake-up is lost. */
module ChunkPipeSteps {

  import opened Common
  import opened ChunkPipe

  datatype Reader =
    | Away                        // not inside Read
    | Looking(len: nat)           // at the head of Read's loop
    | Parked(len: nat)            // waiting for a token

  datatype Writer =
    | Absent
    | Pushing(rest: Bytes)        // at the head of Write's loop
    | Stalled(rest: Bytes)        // waiting for a token

  /** One direction. Owed counts the signal calls that have not reached this channel yet. */
  datatype Dir = Dir(
    q: Queue, reader: Reader, writer: Writer,
    dataToken: bool, spaceToken: bool, dataOwed: nat, spaceOwed: nat,
    written: Bytes,               // history: every byte accepted from the writer
    got: Bytes,                   // history: every byte handed to the reader
    sawEOF: bool)                 // history: some Read reported the end

  datatype Pipe = Pipe(down: Dir, up: Dir, closed: bool)

  const FRESH := Dir(Queue([], 0), Away, Absent, false, false, 0, 0, [], [], false)

  const INITIAL := Pipe(FRESH, FRESH, false)

  /** A signal call has begun: it will try to leave a token in every channel. */
  function Owing(d: Dir): Dir { d.(dataOwed := d.dataOwed + 1, spaceOwed := d.spaceOwed + 1) }

  function Signalled(p: Pipe): Pipe { p.(down := Owing(p.down), up := Owing(p.up)) }

  // ---- steps within one direction ----

  datatype Step =
    | BeginRead(len: nat)
    | Take                        // some queued bytes are handed over; signals
    | EndOfFile
    | ReadExpired
    | Park
    | ReadWoken
    | BeginWrite(b: Bytes)
    | Push                        // signals
    | WriteReturns                // everything written, closed, or deadline passed
    | Stall
    | WriteWoken
    | LeaveData                   // a signal call reaches the data channel
    | LeaveSpace

  predicate Enabled(d: Dir, closed: bool, t: Step) {
    match t
    case BeginRead(len) => d.reader == Away && len > 0
    case Take => d.reader.Looking? && d.q.chunks != []
    case EndOfFile => d.reader.Looking? && d.q.chunks == [] && closed
    case ReadExpired => (d.reader.Looking? && d.q.chunks == [] && !closed) || d.reader.Parked?
    case Park => d.reader.Looking? && d.q.chunks == [] && !closed
    case ReadWoken => d.reader.Parked? && d.dataToken
    case BeginWrite(b) => d.writer == Absent
    case Push => d.writer.Pushing? && d.writer.rest != [] && !closed && d.q.bytes < BUFFER
    case WriteReturns => d.writer.Pushing? || d.writer.Stalled?
    case Stall => d.writer.Pushing? && d.writer.rest != [] && !closed && d.q.bytes >= BUFFER
    case WriteWoken => d.writer.Stalled? && d.spaceToken
    case LeaveData => d.dataOwed > 0
    case LeaveSpace => d.spaceOwed > 0
  }

  predicate Signals(t: Step) { t.Take? || t.Push? }

  function TakeCount(d: Dir): nat
    requires d.reader.Looking?
  {
    Min(d.reader.len, |Flatten(d.q.chunks)|)
  }

  function Do(d: Dir, closed: bool, t: Step): Dir
    requires Enabled(d, closed, t)
  {
    match t
    case BeginRead(len) => d.(reader := Looking(len))
    case Take =>
      var n := TakeCount(d);
      d.(q := Queue(Taken(d.q.chunks, n), d.q.bytes - n), reader := Away, got := d.got + Flatten(d.q.chunks)[..n])
    case EndOfFile => d.(reader := Away, sawEOF := true)
    case ReadExpired => d.(reader := Away)
    case Park => d.(reader := Parked(d.reader.len))
    case ReadWoken => d.(reader := Looking(d.reader.len), dataToken := false)
    case BeginWrite(b) => d.(writer := Pushing(b))
    case Push =>
      var n := Min(CHUNK, |d.writer.rest|);
      d.(q := Pushed(d.q, d.writer.rest), writer := Pushing(d.writer.rest[n..]), written := d.written + d.writer.rest[..n])
    case WriteReturns => d.(writer := Absent)
    case Stall => d.(writer := Stalled(d.writer.rest))
    case WriteWoken => d.(writer := Pushing(d.writer.rest), spaceToken := false)
    case LeaveData => d.(dataToken := true, dataOwed := d.dataOwed - 1)
    case LeaveSpace => d.(spaceToken := true, spaceOwed := d.spaceOwed - 1)
  }

  // ---- steps of the pipe ----

  datatype Action =
    | Down(step: Step)
    | Up(step: Step)
    | Close                       // by either end; signals the first time
    | Nudge                       // a deadline was set; signals

  predicate Can(p: Pipe, a: Action) {
    match a
    case Down(t) => Enabled(p.down, p.closed, t)
    case Up(t) => Enabled(p.up, p.closed, t)
    case Close => true
    case Nudge => true
  }

  function Next(p: Pipe, a: Action): Pipe
    requires Can(p, a)
  {
    match a
    case Down(t) =>
      var p' := p.(down := Do(p.down, p.closed, t));
      if Signals(t) then Signalled(p') else p'
    case Up(t) =>
      var p' := p.(up := Do(p.up, p.closed, t));
      if Signals(t) then Signalled(p') else p'
    case Close => if p.closed then p else Signalled(p.(closed := true))
    case Nudge => Signalled(p)
  }

  // ---- invariant ----

  predicate Conserves(d: Dir) {
    d.got + Flatten(d.q.chunks) == d.written
  }

  /** A parked reader with something to see has a token waiting or a signal on its way. */
  predicate ReaderWakes(d: Dir, closed: bool) {
    d.reader.Parked? && (d.q.chunks != [] || closed) ==> d.dataToken || d.dataOwed > 0
  }

  predicate WriterWakes(d: Dir, closed: bool) {
    d.writer.Stalled? && (d.q.bytes < BUFFER || closed) ==> d.spaceToken || d.spaceOwed > 0
  }

  predicate DirInv(d: Dir, closed: bool) {
    && Sound(d.q)
    && Conserves(d)
    && ReaderWakes(d, closed)
    && WriterWakes(d, closed)
    && (d.sawEOF ==> closed && d.got == d.written)
  }

  predicate Inv(p: Pipe) { DirInv(p.down, p.closed) && DirInv(p.up, p.closed) }

  lemma TakeKeeps(d: Dir, closed: bool)
    requires DirInv(d, closed) && Enabled(d, closed, Take)
    ensures DirInv(Owing(Do(d, closed, Take)), closed)
  {
    var n, all := TakeCount(d), Flatten(d.q.chunks);
    TakenBytes(d.q.chunks, n);
    calc {
      (d.got + all[..n]) + all[n..];
      d.got + (all[..n] + all[n..]);
      { assert all[..n] + all[n..] == all; }
      d.got + all;
    }
  }

  lemma PushKeeps(d: Dir, closed: bool)
    requires DirInv(d, closed) && Enabled(d, closed, Push)
    ensures DirInv(Owing(Do(d, closed, Push)), closed)
  {
    PushedSound(d.q, d.writer.rest);
  }

  lemma DirKeeps(d: Dir, closed: bool, t: Step)
    requires DirInv(d, closed) && Enabled(d, closed, t)
    ensures DirInv(if Signals(t) then Owing(Do(d, closed, t)) else Do(d, closed, t), closed)
  {
    match t
    case Take => TakeKeeps(d, closed);
    case Push => PushKeeps(d, closed);
    case EndOfFile =>
      assert Flatten(d.q.chunks) == [];
    case _ =>
  }

  lemma StepKeeps(p: Pipe, a: Action)
    requires Inv(p) && Can(p, a)
    ensures Inv(Next(p, a))
  {
    match a
    case Down(t) => DirKeeps(p.down, p.closed, t);
    case Up(t) => DirKeeps(p.up, p.closed, t);
    case Close =>
    case Nudge =>
  }

  // ---- every interleaving ----

  ghost predicate IsRun(states: seq<Pipe>, acts: seq<Action>) {
    && |states| == |acts| + 1 && states[0] == INITIAL
    && forall i | 0 <= i < |acts| :: Can(states[i], acts[i]) && states[i + 1] == Next(states[i], acts[i])
  }

  lemma {:induction false} RunInv(states: seq<Pipe>, acts: seq<Action>, k: nat)
    requires IsRun(states, acts) && k < |states|
    ensures Inv(states[k])
  {
    if k == 0 {
    } else {
      RunInv(states, acts, k - 1);
      StepKeeps(states[k - 1], acts[k - 1]);
    }
  }

  /** In every interleaving, in both directions and also after close: bytes read followed by bytes queued
      are the bytes written; the queue holds less than 320 KiB; and an end of file is reported only when
      everything written has been read. */
  lemma PipeConserves(states: seq<Pipe>, acts: seq<Action>, k: nat)
    requires IsRun(states, acts) && k < |states|
    ensures var p := states[k];
            && p.down.got + Flatten(p.down.q.chunks) == p.down.written
            && p.up.got + Flatten(p.up.q.chunks) == p.up.written
            && 0 <= p.down.q.bytes == |p.down.written| - |p.down.got| < 320 * 1024
            && 0 <= p.up.q.bytes == |p.up.written| - |p.up.got| < 320 * 1024
            && (p.down.sawEOF ==> p.down.got == p.down.written)
            && (p.up.sawEOF ==> p.up.got == p.up.written)
  {
    RunInv(states, acts, k);
  }

  /** No wake-up is lost: a parked reader with data or a close to see is runnable now, or as soon as a signal
      call already under way takes its next step; likewise a stalled writer with space or a close to see. */
  lemma NoLostWakeup(states: seq<Pipe>, acts: seq<Action>, k: nat, app: bool)
    requires IsRun(states, acts) && k < |states|
    ensures var p := states[k];
            var d := if app then p.down else p.up;
            && (d.reader.Parked? && (d.q.chunks != [] || p.closed) ==>
                  Enabled(d, p.closed, ReadWoken)
                  || (Enabled(d, p.closed, LeaveData) && Enabled(Do(d, p.closed, LeaveData), p.closed, ReadWoken)))
            && (d.writer.Stalled? && (d.q.bytes < BUFFER || p.closed) ==>
                  Enabled(d, p.closed, WriteWoken)
                  || (Enabled(d, p.closed, LeaveSpace) && Enabled(Do(d, p.closed, LeaveSpace), p.closed, WriteWoken)))
  {
    RunInv(states, acts, k);
  }
}
