/** One GuestPodPlane session: the handshake, then a heartbeat sender and a request loop running
    concurrently over one stream and reporting through a channel of capacity two. Each Send is atomic;
    what the stream and the callbacks answer are inputs. */
module GuestPlane {
  import opened Options

  // ----- dispatchControl -----

  datatype Op = StopPod(grace: nat) | Kill(container: string, signal: string) | Exec(exec: string)
              | Update(update: string) | Unknown(tag: string)

  datatype Request = Request(callId: nat, op: Op)

  datatype Response = Response(callId: nat, error: string)

  /** Which callbacks are there; None when there is no dispatcher at all. */
  datatype Wiring = Wiring(stopPod: bool, kill: bool, exec: bool, update: bool)

  datatype Call = CallStopPod(grace: nat) | CallKill(container: string, signal: string) | CallExec(exec: string)
                | CallUpdate(update: string)

  const Unwired: string := "guestplane: control dispatch not yet routed to in-guest reconciler"

  predicate Wired(w: Option<Wiring>, op: Op) {
    w.Some? &&
    match op
    case StopPod(_) => w.value.stopPod
    case Kill(_, _) => w.value.kill
    case Exec(_) => w.value.exec
    case Update(_) => w.value.update
    case Unknown(_) => false
  }

  /** The callback an operation leads to, with its arguments; the signal defaults to SIGTERM. */
  function CallFor(w: Option<Wiring>, op: Op): Option<Call> {
    if !Wired(w, op) then None
    else
      match op
      case StopPod(g) => Some(CallStopPod(g))
      case Kill(c, s) => Some(CallKill(c, if s == "" then "SIGTERM" else s))
      case Exec(e) => Some(CallExec(e))
      case Update(u) => Some(CallUpdate(u))
      case Unknown(_) => None
  }

  /** What the callbacks answer to each call: nil, or an error message. */
  type Callbacks = Call -> Option<string>

  function Dispatch(r: Request, w: Option<Wiring>, callbacks: Callbacks): Response {
    if w.None? then Response(r.callId, Unwired)
    else if r.op.Unknown? then Response(r.callId, "guestplane: unknown ControlRequest op " + r.op.tag)
    else
      match CallFor(w, r.op)
      case None => Response(r.callId, Unwired)
      case Some(c) => Response(r.callId, if callbacks(c).Some? then callbacks(c).value else "")
  }

  /** The host always gets its own call id back, and reads success exactly when the callback was there and
      returned nil, or an error with an empty message. */
  lemma DispatchAcks(r: Request, w: Option<Wiring>, callbacks: Callbacks)
    ensures Dispatch(r, w, callbacks).callId == r.callId
    ensures Dispatch(r, w, callbacks).error == "" <==>
            exists c :: Asks(r.op, c) && Wired(w, r.op) && callbacks(c) in {None, Some("")}
  {
    if CallFor(w, r.op).Some? { assert Asks(r.op, CallFor(w, r.op).value); }
  }

  /** An error without a message reads as success. */
  lemma SilentError(callId: nat, grace: nat)
    ensures var w := Some(Wiring(true, true, true, true));
            Dispatch(Request(callId, StopPod(grace)), w, _ => Some("")) == Response(callId, "")
  {
  }

  /** The call an operation stands for, said without the wiring: the same kind with the same arguments,
      where a kill without a signal means SIGTERM. */
  predicate Asks(op: Op, c: Call) {
    match c
    case CallStopPod(g) => op == StopPod(g)
    case CallKill(k, sig) => sig != "" && (op == Kill(k, sig) || (op == Kill(k, "") && sig == "SIGTERM"))
    case CallExec(e) => op == Exec(e)
    case CallUpdate(u) => op == Update(u)
  }

  /** Callbacks that answer one call with this message and every other with nil. */
  function Only(c: Call, message: string): Callbacks {
    x => if x == c then Some(message) else None
  }

  /** The response to a wired operation carries the answer to exactly the call it asks for: it depends on
      that answer and on no other, and the answer can be read off it. Without wiring no answer matters,
      and the host reads an error. */
  lemma DispatchCalls(r: Request, w: Option<Wiring>, a: Callbacks, b: Callbacks, c: Call, message: string)
    requires Asks(r.op, c)
    ensures Wired(w, r.op) && a(c) == b(c) ==> Dispatch(r, w, a) == Dispatch(r, w, b)
    ensures Wired(w, r.op) ==> Dispatch(r, w, Only(c, message)) == Response(r.callId, message)
    ensures !Wired(w, r.op) ==> Dispatch(r, w, a) == Dispatch(r, w, b) && Dispatch(r, w, a).error != ""
  {
  }

  // ----- the session -----

  datatype Frame = Hello | PodStatus(uptime: nat) | ControlResp(resp: Response)

  datatype Main = Dialed | HelloSent | Attached | Returned

  datatype Beat = NotBeating | Beating | BeatEnded(reported: bool)

  datatype Reader = NotReading | Reading | Answering(resp: Response) | ReaderEnded

  /** `asked` are the responses due to the requests received, in order; `errors` the values now in the
      error channel and `reports` all those ever sent to it. */
  datatype State = State(main: Main, beat: Beat, reader: Reader, cancelled: bool,
                         sent: seq<Frame>, asked: seq<Response>, errors: nat, reports: nat)

  const Start: State := State(Dialed, NotBeating, NotReading, false, [], [], 0, 0)

  const CAPACITY: nat := 2

  datatype Incoming = Ack | Control(req: Request, callbacks: Callbacks) | OtherFrame | Failure

  datatype Event =
    | SendHello(ok: bool)
    | FirstFrame(frame: Incoming)
    | Tick(uptime: nat, ok: bool)
    | BeatStops
    | NextFrame(frame: Incoming)
    | SendResponse(ok: bool)
    | MainTakesError
    | MainSeesCancel
    | Cancel

  predicate Enabled(s: State, e: Event) {
    match e
    case SendHello(_) => s.main.Dialed?
    case FirstFrame(_) => s.main.HelloSent?
    case Tick(_, _) => s.beat.Beating?
    case BeatStops => s.beat.Beating? && (s.cancelled || s.main.Returned?)
    case NextFrame(_) => s.reader.Reading?
    case SendResponse(_) => s.reader.Answering?
    case MainTakesError => s.main.Attached? && s.errors > 0
    case MainSeesCancel => s.main.Attached? && s.cancelled
    case Cancel => true
  }

  /** The event sends on the error channel. */
  predicate Reports(e: Event) {
    match e
    case Tick(_, ok) => !ok
    case NextFrame(f) => f.Failure?
    case SendResponse(ok) => !ok
    case _ => false
  }

  function Report(s: State): State {
    s.(errors := s.errors + 1, reports := s.reports + 1)
  }

  function Next(s: State, e: Event, heartbeats: bool, w: Option<Wiring>): State {
    match e
    case SendHello(ok) => if ok then s.(sent := s.sent + [Hello], main := HelloSent) else s.(main := Returned)
    case FirstFrame(f) =>
      if f.Ack? then s.(main := Attached, reader := Reading, beat := if heartbeats then Beating else NotBeating)
      else s.(main := Returned)
    case Tick(uptime, ok) =>
      if ok then s.(sent := s.sent + [PodStatus(uptime)]) else Report(s.(beat := BeatEnded(true)))
    case BeatStops => s.(beat := BeatEnded(false))
    case NextFrame(f) =>
      (match f
       case Failure => Report(s.(reader := ReaderEnded))
       case Control(req, callbacks) =>
         var resp := Dispatch(req, w, callbacks);
         s.(reader := Answering(resp), asked := s.asked + [resp])
       case _ => s)
    case SendResponse(ok) =>
      if s.reader.Answering? && ok then s.(sent := s.sent + [ControlResp(s.reader.resp)], reader := Reading)
      else Report(s.(reader := ReaderEnded))
    case MainTakesError => s.(errors := if s.errors > 0 then s.errors - 1 else 0, main := Returned)
    case MainSeesCancel => s.(main := Returned)
    case Cancel => s.(cancelled := true)
  }

  /** Any sequence of events is an interleaving; one that cannot happen yet does nothing. */
  function After(es: seq<Event>, heartbeats: bool, w: Option<Wiring>): State {
    if es == [] then Start
    else
      var s := After(es[..|es| - 1], heartbeats, w);
      if Enabled(s, es[|es| - 1]) then Next(s, es[|es| - 1], heartbeats, w) else s
  }

  // ----- what every interleaving keeps -----

  function Answered(sent: seq<Frame>): seq<Response> {
    if sent == [] then []
    else
      var n := |sent| - 1;
      Answered(sent[..n]) + if sent[n].ControlResp? then [sent[n].resp] else []
  }

  predicate BeforeAck(s: State) { s.main.Dialed? || s.main.HelloSent? }

  function Count(b: bool): nat { if b then 1 else 0 }

  /** Hello first and only once; before the acknowledgement nothing else and no goroutine; responses
      answer the requests in order, at most the last one outstanding; one report per ended goroutine. */
  ghost predicate Orderly(s: State) {
    && (s.main.Dialed? ==> s.sent == [])
    && (s.main.HelloSent? ==> s.sent == [Hello])
    && (s.main.Attached? ==> s.sent != [])
    && (s.sent != [] ==> s.sent[0] == Hello)
    && (forall i :: 0 < i < |s.sent| ==> s.sent[i] != Hello)
    && (BeforeAck(s) || s.sent == [] ==> s.beat == NotBeating && s.reader == NotReading && s.asked == [])
    && Answered(s.sent) <= s.asked
    && |s.asked| - |Answered(s.sent)| <= (if s.reader.Answering? || s.reader.ReaderEnded? then 1 else 0)
    && (s.reader.Answering? ==> s.asked == Answered(s.sent) + [s.reader.resp])
    && s.errors <= s.reports == Count(s.reader.ReaderEnded?) + Count(s.beat == BeatEnded(true))
    && (s.main.Attached? ==> s.errors == s.reports)
  }

  lemma HelloStep(s: State, ok: bool, heartbeats: bool, w: Option<Wiring>)
    requires Orderly(s) && s.main.Dialed?
    ensures Orderly(Next(s, SendHello(ok), heartbeats, w))
  {
  }

  lemma TickStep(s: State, uptime: nat, ok: bool, heartbeats: bool, w: Option<Wiring>)
    requires Orderly(s) && s.beat.Beating?
    ensures Orderly(Next(s, Tick(uptime, ok), heartbeats, w))
  {
  }

  lemma FrameStep(s: State, f: Incoming, heartbeats: bool, w: Option<Wiring>)
    requires Orderly(s) && s.reader.Reading?
    ensures Orderly(Next(s, NextFrame(f), heartbeats, w))
  {
  }

  lemma ResponseStep(s: State, ok: bool, heartbeats: bool, w: Option<Wiring>)
    requires Orderly(s) && s.reader.Answering?
    ensures Orderly(Next(s, SendResponse(ok), heartbeats, w))
  {
  }

  lemma OrderlyStep(s: State, e: Event, heartbeats: bool, w: Option<Wiring>)
    requires Orderly(s) && Enabled(s, e)
    ensures Orderly(Next(s, e, heartbeats, w))
  {
    match e
    case SendHello(ok) => HelloStep(s, ok, heartbeats, w);
    case Tick(uptime, ok) => TickStep(s, uptime, ok, heartbeats, w);
    case NextFrame(f) => FrameStep(s, f, heartbeats, w);
    case SendResponse(ok) => ResponseStep(s, ok, heartbeats, w);
    case _ =>
  }

  lemma {:induction false} EveryInterleaving(es: seq<Event>, heartbeats: bool, w: Option<Wiring>)
    ensures Orderly(After(es, heartbeats, w))
  {
    if es != [] {
      var s := After(es[..|es| - 1], heartbeats, w);
      EveryInterleaving(es[..|es| - 1], heartbeats, w);
      if Enabled(s, es[|es| - 1]) { OrderlyStep(s, es[|es| - 1], heartbeats, w); }
    }
  }

  /** Until the acknowledgement arrives, and for ever if it never does, nothing but the Hello is sent
      and neither goroutine runs. */
  lemma {:induction false} SilentUnlessAcked(es: seq<Event>, heartbeats: bool, w: Option<Wiring>)
    requires FirstFrame(Ack) !in es
    ensures var s := After(es, heartbeats, w);
            s.sent <= [Hello] && s.beat == NotBeating && s.reader == NotReading && !s.main.Attached?
            && (s.main.Dialed? ==> s.sent == [])
  {
    if es != [] { SilentUnlessAcked(es[..|es| - 1], heartbeats, w); }
  }

  /** Nothing but the Hello is sent before the acknowledgement, and it always comes first. */
  lemma {:induction false} HelloFirst(es: seq<Event>, heartbeats: bool, w: Option<Wiring>)
    ensures var s := After(es, heartbeats, w);
            && (BeforeAck(s) || FirstFrame(Ack) !in es ==> s.sent <= [Hello])
            && (s.sent != [] ==> s.sent[0] == Hello && forall i :: 0 < i < |s.sent| ==> s.sent[i] != Hello)
  {
    EveryInterleaving(es, heartbeats, w);
    if FirstFrame(Ack) !in es { SilentUnlessAcked(es, heartbeats, w); }
  }

  /** The responses sent are exactly those due to the requests received, in order, but for at most the
      last, however heartbeats are woven in. */
  lemma {:induction false} ResponsesInOrder(es: seq<Event>, heartbeats: bool, w: Option<Wiring>)
    ensures var s := After(es, heartbeats, w);
            Answered(s.sent) <= s.asked && |s.asked| <= |Answered(s.sent)| + 1
            && (s.reader.Reading? ==> Answered(s.sent) == s.asked)
  {
    EveryInterleaving(es, heartbeats, w);
  }

  /** At most two values are ever sent to the error channel, so no send on it can block. */
  lemma {:induction false} NoReportBlocks(es: seq<Event>, heartbeats: bool, w: Option<Wiring>, e: Event)
    ensures After(es, heartbeats, w).reports <= CAPACITY
    ensures Enabled(After(es, heartbeats, w), e) && Reports(e) ==> After(es, heartbeats, w).errors < CAPACITY
  {
    EveryInterleaving(es, heartbeats, w);
  }

  /** A dead stream always tears the session down: while the session is attached, a goroutine that gave
      up has left a report for it to take. */
  lemma {:induction false} FailureIsNoticed(es: seq<Event>, heartbeats: bool, w: Option<Wiring>)
    requires var s := After(es, heartbeats, w); s.main.Attached? && (s.reader.ReaderEnded? || s.beat == BeatEnded(true))
    ensures Enabled(After(es, heartbeats, w), MainTakesError)
  {
    EveryInterleaving(es, heartbeats, w);
  }
}
