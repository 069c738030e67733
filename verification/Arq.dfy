/** One direction of a recovery session as a state machine, one step per lock region: the sending pump,
    the sender's half, the transmit queue, a network that loses, duplicates, delays and reorders, the
    replay filter with rollback, the ordered delivery and its writer, and the feedback stream back.

    Records are authenticated, so only records that were sealed can arrive, and a packet number fixes
    its record. The network is the set of records ever put on the wire: a record may arrive any number
    of times, at any later moment, or never. Both ends agreed on the window width `wide`. */
module Arq {

  import opened Common
  import opened SendFlow
  import opened Outstanding
  import Rtt = RttEstimator
  import Sack
  import Bits
  import Delivery
  import Replay

  const QUEUE: nat := 64

  /** Where the pump is inside localToRemote, sendData and sendRecord, and the bytes it holds. */
  datatype Pump =
    | Reading(acc: Bytes)                              // gathering a record
    | Flushing(rest: Bytes)                            // head of the sendData loop
    | Blocked(chunk: Bytes, rest: Bytes)               // waiting for the send window
    | Admitted(chunk: Bytes, rest: Bytes)              // past the window check
    | Numbered(n: nat, chunk: Bytes, rest: Bytes)      // sequence number allocated
    | Sealed(wire: Record, rest: Bytes)                // packet number allocated
    | Filed(wire: Record, rest: Bytes)                 // retained in the unacknowledged map
    | Halted(tail: Bytes)                              // gave up; the tail was never sent

  /** Where the delivery loop is between its two lock regions. */
  datatype Writer =
    | Idle
    | Writing(n: nat, payload: Bytes)
    | Written(n: nat)
    | Failed(partial: Bytes)

  /** A feedback payload whose packet number is not assigned yet. */
  datatype Draft = Draft(ack: nat, data: Bytes)

  datatype Sys = Sys(
    wide: bool,
    // sending end
    taken: Bytes,                 // history: every byte read from the local application
    pump: Pump,
    sendSeq: nat,                 // next sequence number
    sent: seq<Bytes>,             // history: sent[i] was filed under sequence i+1
    base: nat,                    // history: the highest cumulative acknowledgement applied
    half: Half,
    nextNo: nat,                  // next packet number
    sealed: map<nat, Record>,     // history: packet number to record
    txq: seq<Record>,             // transmit queue
    batch: seq<Record>,           // written to the socket, not yet marked transmitted
    // network
    net: set<Record>,
    acks: set<nat>,               // cumulative acknowledgements carried by records on the way back
    back: set<Feedback>,
    // receiving end
    filter: Replay.Plain,
    busy: set<Record>,            // past the replay filter, not yet offered
    refused: set<Record>,         // refused, not yet rolled back
    inbox: Delivery.Inbox,
    writer: Writer,
    out: Bytes,                   // history: every byte written to the application
    writes: seq<Bytes>,           // history: the payload of every write that succeeded
    drafts: set<Draft>,
    backNo: nat)

  function MaxWords(wide: bool): nat { if wide then Sack.WORDS_WIDE else Sack.WORDS_NARROW }

  ghost predicate Init(s: Sys) {
    && s.taken == [] && s.pump == Reading([]) && s.sendSeq == 1 && s.sent == [] && s.base == 0
    && (exists maximum, automatic, westwood :: s.half == Half(map[], 0, NewFlow(maximum, automatic, westwood, s.wide), Rtt.INITIAL))
    && s.nextNo == 1 && s.sealed == map[] && s.txq == [] && s.batch == []
    && s.net == {} && s.acks == {} && s.back == {}
    && s.filter == Replay.EMPTY && s.busy == {} && s.refused == {}
    && s.inbox == Delivery.Inbox(Ceiling(s.wide), map[], 0, false)
    && s.writer == Idle && s.out == [] && s.writes == [] && s.drafts == {} && s.backNo == 1
  }

  // ---- steps ----

  datatype Action =
    // sending end
    | Read(bytes: Bytes)
    | Flush
    | Rest
    | Chunk(cap: nat)
    | Admit
    | Number
    | Seal
    | File(now: int)
    | Submit
    | Halt
    | Requeue(wire: Record)
    | Transmit(k: nat)
    | MarkSent(now: int)
    | SealOther
    | ApplyAck(ack: nat, now: int)
    | ApplySack(fb: Feedback, rtt: int, now: int)
    | Timeout(now: int, rtt: int, bdp: nat)
    // receiving end
    | Arrive(wire: Record)
    | RefusePath(wire: Record)
    | OfferData(wire: Record)
    | Rollback(wire: Record)
    | OfferRecovered(n: nat)
    | WriteBegin
    | WriteDone
    | WriteFail(k: nat)
    | Complete
    | Close
    | EmitAck
    | Snapshot(words: seq<Bits.Word>, credit: nat)
    | NumberDraft(draft: Draft)

  ghost predicate Enabled(s: Sys, a: Action) {
    match a
    case Read(bytes) => s.pump.Reading? && bytes != []
    case Flush => s.pump.Reading?
    case Rest => s.pump == Flushing([])
    case Chunk(cap) => s.pump.Flushing? && s.pump.rest != [] && cap > 0
    case Admit => s.pump.Blocked? && |s.half.unacked| < Window(s.half.flow)
    case Number => s.pump.Admitted?
    case Seal => s.pump.Numbered?
    case File(_) => s.pump.Sealed? && s.pump.wire.Data?
    case Submit => s.pump.Filed? && |s.txq| < QUEUE
    case Halt => true
    case Requeue(wire) => |s.txq| < QUEUE && wire.Data? && Released(wire, s.sealed, s.sent)
    case Transmit(k) => s.batch == [] && 0 < k <= |s.txq|
    case MarkSent(_) => s.batch != []
    case SealOther => true
    case ApplyAck(ack, _) => ack in s.acks || exists fb | fb in s.back :: fb.ack == ack
    case ApplySack(fb, _, _) => fb in s.back && s.sendSeq > 0
    case Timeout(_, _, _) => true
    case Arrive(wire) => wire in s.net
    case RefusePath(wire) => wire in s.busy
    case OfferData(wire) => wire in s.busy && wire.Data?
    case Rollback(wire) => wire in s.refused
    case OfferRecovered(n) => 0 < n <= |s.sent|
    case WriteBegin => s.writer == Idle && Delivery.NextPayload(s.inbox).Some?
    case WriteDone => s.writer.Writing?
    case WriteFail(k) => s.writer.Writing? && k <= |s.writer.payload|
    case Complete => s.writer.Written?
    case Close => true
    case EmitAck => true
    case Snapshot(words, credit) =>
      credit < 65536 && |words| == 64 && Delivery.Snapshots(s.inbox, words, credit)
    case NumberDraft(draft) => draft in s.drafts
  }

  /** A record some sending step let out: it is the one its packet number stands for, and if it carries
      data, it carries the payload filed under its sequence. */
  predicate Released(r: Record, sealed: map<nat, Record>, sent: seq<Bytes>) {
    && r.packetNo in sealed && sealed[r.packetNo] == r
    && (r.Data? ==> 0 < r.seqNo <= |sent| && r.payload == sent[r.seqNo - 1])
  }

  /** The bytes the pump has read but not filed. */
  function Hand(p: Pump): Bytes {
    match p
    case Reading(acc) => acc
    case Flushing(rest) => rest
    case Blocked(chunk, rest) => chunk + rest
    case Admitted(chunk, rest) => chunk + rest
    case Numbered(_, chunk, rest) => chunk + rest
    case Sealed(wire, rest) => (if wire.Data? then wire.payload else []) + rest
    case Filed(_, rest) => rest
    case Halted(tail) => tail
  }

  // -- sending end --

  function DoRead(s: Sys, bytes: Bytes): Sys
    requires s.pump.Reading?
  {
    s.(taken := s.taken + bytes, pump := Reading(s.pump.acc + bytes))
  }

  function DoFlush(s: Sys): Sys
    requires s.pump.Reading?
  {
    s.(pump := Flushing(s.pump.acc))
  }

  function DoRest(s: Sys): Sys { s.(pump := Reading([])) }

  /** sendData cuts the next record at the cap of the moment. */
  function DoChunk(s: Sys, cap: nat): Sys
    requires s.pump.Flushing?
  {
    var end := Min(cap, |s.pump.rest|);
    s.(pump := Blocked(s.pump.rest[..end], s.pump.rest[end..]))
  }

  function DoAdmit(s: Sys): Sys
    requires s.pump.Blocked?
  {
    s.(pump := Admitted(s.pump.chunk, s.pump.rest))
  }

  function DoNumber(s: Sys): Sys
    requires s.pump.Admitted?
  {
    s.(pump := Numbered(s.sendSeq, s.pump.chunk, s.pump.rest), sendSeq := s.sendSeq + 1)
  }

  function DoSeal(s: Sys): Sys
    requires s.pump.Numbered?
  {
    var wire := Data(s.nextNo, s.pump.n, s.pump.chunk);
    s.(pump := Sealed(wire, s.pump.rest), sealed := s.sealed[s.nextNo := wire], nextNo := s.nextNo + 1)
  }

  /** sendRecord's second lock region: the frame is retained before it is sent. */
  function DoFile(s: Sys, now: int): Sys
    requires s.pump.Sealed? && s.pump.wire.Data?
  {
    var wire := s.pump.wire;
    s.(pump := Filed(wire, s.pump.rest), sent := s.sent + [wire.payload],
       half := Outstanding.File(s.half, wire.seqNo, wire, now))
  }

  function DoSubmit(s: Sys): Sys
    requires s.pump.Filed?
  {
    s.(pump := Flushing(s.pump.rest), txq := s.txq + [s.pump.wire])
  }

  function DoHalt(s: Sys): Sys { s.(pump := Halted(Hand(s.pump))) }

  function DoRequeue(s: Sys, wire: Record): Sys { s.(txq := s.txq + [wire]) }

  function DoTransmit(s: Sys, k: nat): Sys
    requires k <= |s.txq|
  {
    s.(net := s.net + (set r | r in s.txq[..k]), batch := s.txq[..k], txq := s.txq[k..])
  }

  function DoMarkSent(s: Sys, now: int): Sys {
    s.(half := s.half.(unacked := MarkTransmitted(s.half.unacked, s.batch, now)), batch := [])
  }

  /** Control and parity records draw from the same packet numbers. */
  function DoSealOther(s: Sys): Sys {
    var wire := Other(s.nextNo);
    s.(sealed := s.sealed[s.nextNo := wire], nextNo := s.nextNo + 1, net := s.net + {wire})
  }

  ghost function DoApplyAck(s: Sys, ack: nat, now: int): Sys {
    s.(half := AfterAck(s.half, s.sendSeq, ack, now),
       base := if Ignored(s.half, s.sendSeq, ack) then s.base else ack)
  }

  ghost function DoApplySack(s: Sys, fb: Feedback, rtt: int, now: int): Sys
    requires s.sendSeq > 0
  {
    s.(half := AfterSack(s.half, fb, s.sendSeq - 1, rtt, now))
  }

  ghost function DoTimeout(s: Sys, now: int, rtt: int, bdp: nat): Sys {
    if Abandons(s.half.unacked, now) then DoHalt(s)
    else s.(half := AfterRetry(s.half, now, rtt, bdp))
  }

  // -- receiving end --

  function DoArrive(s: Sys, wire: Record): Sys {
    if !Replay.Fresh(s.filter, wire.packetNo) then s
    else s.(filter := Replay.AcceptPlain(s.filter, wire.packetNo),
            busy := if wire.Data? then s.busy + {wire} else s.busy)
  }

  /** A record from a path still being validated is refused unseen. */
  function DoRefusePath(s: Sys, wire: Record): Sys {
    s.(busy := s.busy - {wire}, refused := s.refused + {wire})
  }

  function DoOffer(s: Sys, wire: Record): Sys
    requires wire.Data?
  {
    var o := Delivery.Offer(s.inbox, wire.seqNo, wire.payload);
    s.(inbox := o.inbox, busy := s.busy - {wire},
       refused := if o.ok then s.refused else s.refused + {wire})
  }

  function DoRollback(s: Sys, wire: Record): Sys {
    s.(filter := Replay.RemovePlain(s.filter, wire.packetNo), refused := s.refused - {wire})
  }

  /** A payload rebuilt by forward error correction is offered like a received one, without a packet
      number; that it is the filed payload is the correctness of that component. */
  function DoOfferRecovered(s: Sys, n: nat): Sys
    requires 0 < n <= |s.sent|
  {
    s.(inbox := Delivery.Offer(s.inbox, n, s.sent[n - 1]).inbox)
  }

  function DoWriteBegin(s: Sys): Sys
    requires Delivery.NextPayload(s.inbox).Some?
  {
    s.(writer := Writing(s.inbox.delivered + 1, Delivery.NextPayload(s.inbox).value))
  }

  function DoWriteDone(s: Sys): Sys
    requires s.writer.Writing?
  {
    s.(writer := Written(s.writer.n), out := s.out + s.writer.payload, writes := s.writes + [s.writer.payload])
  }

  function DoWriteFail(s: Sys, k: nat): Sys
    requires s.writer.Writing? && k <= |s.writer.payload|
  {
    s.(writer := Failed(s.writer.payload[..k]), out := s.out + s.writer.payload[..k])
  }

  function DoComplete(s: Sys): Sys
    requires s.writer.Written?
  {
    s.(writer := Idle, inbox := Delivery.Complete(s.inbox, s.writer.n))
  }

  function DoClose(s: Sys): Sys { s.(inbox := Delivery.Close(s.inbox)) }

  function DoEmitAck(s: Sys): Sys {
    s.(acks := s.acks + {s.inbox.delivered}, backNo := s.backNo + 1)
  }

  function DoSnapshot(s: Sys, words: seq<Bits.Word>, credit: nat): Sys
    requires credit < 65536 && |words| == 64
  {
    s.(drafts := s.drafts + {Draft(s.inbox.delivered, Sack.Encode(credit, words, MaxWords(s.wide)))})
  }

  function DoNumberDraft(s: Sys, draft: Draft): Sys {
    s.(back := s.back + {Feedback(s.backNo, draft.ack, draft.data)}, backNo := s.backNo + 1)
  }

  ghost function Do(s: Sys, a: Action): Sys
    requires Enabled(s, a)
  {
    match a
    case Read(bytes) => DoRead(s, bytes)
    case Flush => DoFlush(s)
    case Rest => DoRest(s)
    case Chunk(cap) => DoChunk(s, cap)
    case Admit => DoAdmit(s)
    case Number => DoNumber(s)
    case Seal => DoSeal(s)
    case File(now) => DoFile(s, now)
    case Submit => DoSubmit(s)
    case Halt => DoHalt(s)
    case Requeue(wire) => DoRequeue(s, wire)
    case Transmit(k) => DoTransmit(s, k)
    case MarkSent(now) => DoMarkSent(s, now)
    case SealOther => DoSealOther(s)
    case ApplyAck(ack, now) => DoApplyAck(s, ack, now)
    case ApplySack(fb, rtt, now) => DoApplySack(s, fb, rtt, now)
    case Timeout(now, rtt, bdp) => DoTimeout(s, now, rtt, bdp)
    case Arrive(wire) => DoArrive(s, wire)
    case RefusePath(wire) => DoRefusePath(s, wire)
    case OfferData(wire) => DoOffer(s, wire)
    case Rollback(wire) => DoRollback(s, wire)
    case OfferRecovered(n) => DoOfferRecovered(s, n)
    case WriteBegin => DoWriteBegin(s)
    case WriteDone => DoWriteDone(s)
    case WriteFail(k) => DoWriteFail(s, k)
    case Complete => DoComplete(s)
    case Close => DoClose(s)
    case EmitAck => DoEmitAck(s)
    case Snapshot(words, credit) => DoSnapshot(s, words, credit)
    case NumberDraft(draft) => DoNumberDraft(s, draft)
  }
}
