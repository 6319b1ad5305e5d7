/**
 Ownership of SpaceWire transfer operations and the shutdown handshake (spw.c and the order of
 calls at the end of main), as a step system.  Polling threads, senders and the main thread
 share one receive and one transmit slot per channel; whatever happens under the operation lock
 is one step.  Operations of the foreign API are tokens that are live, finished or cancelled.
 Steps that end the process (failed submissions, transmissions that are not complete) are left
 out: nothing runs after them.
 */
module SpwOps {

  datatype Option<T> = None | Some(value: T)

  datatype Status = Live | Done | Cancelled

  datatype Thread = Poller(chan: nat) | Network(index: nat)

  /** What an operation was created for. */
  datatype Home = Rx(chan: nat) | Tx(owner: Thread, chan: nat)

  datatype Op = Op(home: Home, status: Status, disposals: nat)

  /** Where a thread is within spw_send_packet_chan().  Gone is a cancelled network thread, with
      the operation it held and whether it had registered it and not yet deregistered it. */
  datatype Sender =
    | Idle
    | Created(op: nat)
    | Linked(op: nat)
    | Waited(op: nat)
    | Finished(op: nat)
    | Unlinked(op: nat)
    | Gone(held: Option<nat>, registered: bool)

  /** Where a polling thread is within poll_spw(). */
  datatype Poll =
    | Top
    | Fresh(op: nat)
    | Registered(op: nat)
    | Waiting(op: nat)
    | Woken(op: nat)
    | Sending(op: nat, sender: Sender)
    | Exited

  /** Where the main thread is on its way out. */
  datatype Main = Running | Requested | NetCancelled | NetJoined | Woke | PollsJoined | Torn

  /** `txDone` says that the transmission status, one variable shared by all senders without a
      lock, reads "complete". */
  datatype State = State(shutdown: bool, rx: seq<Option<nat>>, tx: seq<Option<nat>>, ops: seq<Op>,
                         txDone: bool, polls: seq<Poll>, senders: seq<Sender>, main: Main)

  /** One channel, or two in monitor mode; the number of network threads; and whether cancelling
      an operation that has already finished turns it into a cancelled (freed) one, which the
      API does not say. */
  datatype Config = Config(nchans: nat, nsenders: nat, cancelsFinished: bool)

  ghost predicate ValidConfig(k: Config) {
    k.nchans == 1 || k.nchans == 2
  }

  datatype Step =
    | Complete(o: nat)
    | PollTop(c: nat)
    | PollRegister(c: nat)
    | PollCheck(c: nat)
    | PollWake(c: nat)
    | PollHandle(c: nat, forward: bool)
    | PollSend(c: nat)
    | NetSend(i: nat)
    | NetDie(i: nat)
    | Request
    | CancelNet
    | JoinNet
    | WakePolls
    | JoinPolls
    | DisposeAll

  // ---- the steps ------------------------------------------------------------------------------

  function Dispose(ops: seq<Op>, o: nat): (r: seq<Op>)
    ensures |r| == |ops|
  {
    if o < |ops| then ops[o := ops[o].(disposals := ops[o].disposals + 1)] else ops
  }

  function DisposeSlot(ops: seq<Op>, slot: Option<nat>): (r: seq<Op>)
    ensures |r| == |ops|
  {
    if slot.Some? then Dispose(ops, slot.value) else ops
  }

  /** STAR_cancelTransferOperationWaits() on a slot */
  function CancelSlot(k: Config, ops: seq<Op>, slot: Option<nat>): (r: seq<Op>)
    ensures |r| == |ops|
  {
    if slot.Some? && slot.value < |ops| && (ops[slot.value].status == Live || k.cancelsFinished)
    then ops[slot.value := ops[slot.value].(status := Cancelled)]
    else ops
  }

  /** The disposal of the final teardown: not for cancelled operations. */
  function DisposeUncancelled(ops: seq<Op>, slot: Option<nat>): (r: seq<Op>)
    ensures |r| == |ops|
  {
    if slot.Some? && slot.value < |ops| && ops[slot.value].status != Cancelled
    then Dispose(ops, slot.value)
    else ops
  }

  datatype Sent = Sent(sender: Sender, tx: seq<Option<nat>>, ops: seq<Op>, txDone: bool)

  /** The wait for a transmission returns when it is complete or when its time is up; a sender
      that then reads another status than "complete" ends the process. */
  predicate SendEnabled(sender: Sender, txDone: bool) {
    match sender
    case Idle => true
    case Created(_) => true
    case Linked(_) => true
    case Waited(_) => txDone
    case Finished(_) => true
    case Unlinked(_) => true
    case Gone(_, _) => false
  }

  /** One step of spw_send_packet_chan() by thread t on channel c. */
  function SendStep(t: Thread, c: nat, sender: Sender, tx: seq<Option<nat>>, ops: seq<Op>, txDone: bool): (r: Sent)
    requires c < |tx|
    ensures |r.tx| == |tx|
  {
    match sender
    case Idle => Sent(Created(|ops|), tx, ops + [Op(Tx(t, c), Live, 0)], txDone)
    case Created(o) => Sent(Linked(o), tx[c := Some(o)], ops, txDone)
    case Linked(o) => Sent(Waited(o), tx, ops, o < |ops| && ops[o].status == Done)
    case Waited(o) => Sent(Finished(o), tx, ops, txDone)
    case Finished(o) => Sent(Unlinked(o), if tx[c] == Some(o) then tx[c := None] else tx, ops, txDone)
    case Unlinked(o) => Sent(Idle, tx, Dispose(ops, o), txDone)
    case Gone(_, _) => Sent(sender, tx, ops, txDone)
  }

  /** A network thread cancelled where it is. */
  function Killed(sender: Sender): Sender {
    match sender
    case Idle => Gone(None, false)
    case Created(o) => Gone(Some(o), false)
    case Linked(o) => Gone(Some(o), true)
    case Waited(o) => Gone(Some(o), true)
    case Finished(o) => Gone(Some(o), true)
    case Unlinked(o) => Gone(Some(o), false)
    case Gone(_, _) => sender
  }

  predicate Enabled(k: Config, s: State, step: Step)
    requires Shaped(k, s)
  {
    match step
    case Complete(o) => o < |s.ops| && s.ops[o].status == Live
    case PollTop(c) => c < k.nchans && s.polls[c] == Top
    case PollRegister(c) => c < k.nchans && s.polls[c].Fresh?
    case PollCheck(c) => c < k.nchans && s.polls[c].Registered?
    case PollWake(c) =>
      c < k.nchans && s.polls[c].Waiting? && s.polls[c].op < |s.ops| && s.ops[s.polls[c].op].status != Live
    case PollHandle(c, forward) => c < k.nchans && s.polls[c].Woken? && (forward ==> k.nchans == 2)
    case PollSend(c) =>
      c < k.nchans && k.nchans == 2 && s.polls[c].Sending? && SendEnabled(s.polls[c].sender, s.txDone)
    case NetSend(i) => i < k.nsenders && SendEnabled(s.senders[i], s.txDone)
    case NetDie(i) => i < k.nsenders && s.main == NetCancelled
    case Request => s.main == Running
    case CancelNet => s.main == Requested
    case JoinNet => s.main == NetCancelled && forall i :: 0 <= i < k.nsenders ==> s.senders[i].Gone?
    case WakePolls => s.main == NetJoined
    case JoinPolls => s.main == Woke && forall c :: 0 <= c < k.nchans ==> s.polls[c] == Exited
    case DisposeAll => s.main == PollsJoined
  }

  predicate Shaped(k: Config, s: State) {
    |s.rx| == |s.tx| == |s.polls| == k.nchans && |s.senders| == k.nsenders
  }

  function Apply(k: Config, s: State, step: Step): State
    requires Shaped(k, s) && Enabled(k, s, step) && (k.nchans == 1 || k.nchans == 2)
  {
    match step
    case Complete(o) => s.(ops := s.ops[o := s.ops[o].(status := Done)])
    case PollTop(c) =>
      if s.shutdown then s.(polls := s.polls[c := Exited])
      else s.(polls := s.polls[c := Fresh(|s.ops|)], ops := s.ops + [Op(Rx(c), Live, 0)])
    case PollRegister(c) =>
      s.(ops := DisposeSlot(s.ops, s.rx[c]), rx := s.rx[c := Some(s.polls[c].op)],
         polls := s.polls[c := Registered(s.polls[c].op)])
    case PollCheck(c) =>
      s.(polls := s.polls[c := if s.shutdown then Exited else Waiting(s.polls[c].op)])
    case PollWake(c) =>
      s.(polls := s.polls[c := if s.ops[s.polls[c].op].status == Cancelled then Exited
                               else Woken(s.polls[c].op)])
    case PollHandle(c, forward) =>
      s.(polls := s.polls[c := if s.shutdown then Exited
                               else if forward then Sending(s.polls[c].op, Idle) else Top])
    case PollSend(c) =>
      var r := SendStep(Poller(c), 1 - c, s.polls[c].sender, s.tx, s.ops, s.txDone);
      s.(tx := r.tx, ops := r.ops, txDone := r.txDone,
         polls := s.polls[c := if r.sender == Idle then Top else Sending(s.polls[c].op, r.sender)])
    case NetSend(i) =>
      var r := SendStep(Network(i), 0, s.senders[i], s.tx, s.ops, s.txDone);
      s.(tx := r.tx, ops := r.ops, txDone := r.txDone, senders := s.senders[i := r.sender])
    case NetDie(i) => s.(senders := s.senders[i := Killed(s.senders[i])])
    case Request => s.(shutdown := true, main := Requested)
    case CancelNet => s.(main := NetCancelled)
    case JoinNet => s.(main := NetJoined)
    case WakePolls => s.(shutdown := true, main := Woke, ops := CancelSlots(k, s.ops, s.rx))
    case JoinPolls => s.(main := PollsJoined)
    case DisposeAll => s.(main := Torn, ops := DisposeSlots(s.ops, s.rx, s.tx))
  }

  function CancelSlots(k: Config, ops: seq<Op>, rx: seq<Option<nat>>): (r: seq<Op>)
    requires |rx| == 1 || |rx| == 2
    ensures |r| == |ops|
  {
    var a := CancelSlot(k, ops, rx[0]);
    if |rx| == 2 then CancelSlot(k, a, rx[1]) else a
  }

  function DisposeSlots(ops: seq<Op>, rx: seq<Option<nat>>, tx: seq<Option<nat>>): (r: seq<Op>)
    requires |rx| == |tx| && (|rx| == 1 || |rx| == 2)
    ensures |r| == |ops|
  {
    var a := DisposeUncancelled(DisposeUncancelled(ops, rx[0]), tx[0]);
    if |rx| == 2 then DisposeUncancelled(DisposeUncancelled(a, rx[1]), tx[1]) else a
  }

  /** All threads at their start, empty slots. */
  function Start(k: Config): State {
    State(false, seq(k.nchans, _ => None), seq(k.nchans, _ => None), [], false, seq(k.nchans, _ => Top),
          seq(k.nsenders, _ => Idle), Running)
  }

  /** The state after `steps`, if each of them can be taken in its turn. */
  ghost function Exec(k: Config, steps: seq<Step>): (r: Option<State>)
    requires ValidConfig(k)
    decreases |steps|
  {
    if steps == [] then Some(Start(k))
    else match Exec(k, steps[..|steps| - 1])
      case None => None
      case Some(s) => After(k, s, steps[|steps| - 1])
  }

  ghost function After(k: Config, s: State, step: Step): Option<State>
    requires ValidConfig(k)
  {
    if Shaped(k, s) && Enabled(k, s, step) then Some(Apply(k, s, step)) else None
  }

  /** The states of all runs: any interleaving, any length. */
  ghost predicate Reachable(k: Config, s: State)
    requires ValidConfig(k)
  {
    exists steps :: Exec(k, steps) == Some(s)
  }

  // ---- the invariant ----------------------------------------------------------------------------

  predicate Kept(ops: seq<Op>, o: nat, home: Home) {
    o < |ops| && ops[o].home == home && ops[o].disposals == 0
  }

  /** What a thread within spw_send_packet_chan() relies on. */
  predicate SenderOk(t: Thread, c: nat, sender: Sender, tx: seq<Option<nat>>, ops: seq<Op>)
    requires c < |tx|
  {
    match sender
    case Idle => true
    case Created(o) => Kept(ops, o, Tx(t, c)) && tx[c] != Some(o)
    case Linked(o) => Kept(ops, o, Tx(t, c))
    case Waited(o) => Kept(ops, o, Tx(t, c))
    case Finished(o) => Kept(ops, o, Tx(t, c))
    case Unlinked(o) => Kept(ops, o, Tx(t, c)) && tx[c] != Some(o)
    case Gone(_, _) => true
  }

  predicate PollOk(k: Config, s: State, c: nat)
    requires Shaped(k, s) && c < k.nchans
  {
    match s.polls[c]
    case Top => true
    case Fresh(o) => Kept(s.ops, o, Rx(c)) && s.rx[c] != Some(o)
    case Registered(o) => s.rx[c] == Some(o)
    case Waiting(o) => s.rx[c] == Some(o)
    case Woken(o) => s.rx[c] == Some(o)
    case Sending(o, sender) => s.rx[c] == Some(o) && !sender.Gone? && k.nchans == 2
                               && SenderOk(Poller(c), 1 - c, sender, s.tx, s.ops)
    case Exited => true
  }

  predicate KeptTx(ops: seq<Op>, o: nat, c: nat) {
    o < |ops| && ops[o].home.Tx? && ops[o].home.chan == c && ops[o].disposals == 0
  }

  /** No slot names a disposed operation, and each names one of its own kind. */
  ghost predicate SlotsOk(k: Config, s: State)
    requires Shaped(k, s)
  {
    && (forall c: nat :: c < k.nchans && s.rx[c].Some? ==> Kept(s.ops, s.rx[c].value, Rx(c)))
    && (forall c: nat :: c < k.nchans && s.tx[c].Some? ==> KeptTx(s.ops, s.tx[c].value, c))
  }

  ghost predicate OpsOk(s: State) {
    && (forall o: nat :: o < |s.ops| ==> s.ops[o].disposals <= 1)
    && (forall o: nat :: o < |s.ops| && s.ops[o].home.Tx? ==> s.ops[o].status != Cancelled)
  }

  predicate SendersJoined(m: Main) {
    m == NetJoined || m == Woke || m == PollsJoined || m == Torn
  }

  predicate PollsWoken(m: Main) {
    m == Woke || m == PollsJoined || m == Torn
  }

  predicate AllPollsJoined(m: Main) {
    m == PollsJoined || m == Torn
  }

  ghost predicate MainOk(k: Config, s: State)
    requires Shaped(k, s)
  {
    && (s.main != Running ==> s.shutdown)
    && (SendersJoined(s.main) ==> forall i: nat :: i < k.nsenders ==> s.senders[i].Gone?)
    && (AllPollsJoined(s.main) ==> forall c: nat :: c < k.nchans ==> s.polls[c] == Exited)
  }

  /** Ownership. */
  ghost predicate Owned(k: Config, s: State) {
    && ValidConfig(k)
    && Shaped(k, s)
    && OpsOk(s)
    && MainOk(k, s)
    && (s.main != Torn ==> SlotsOk(k, s))
    && (forall c: nat :: c < k.nchans ==> PollOk(k, s, c))
    && (forall i: nat :: i < k.nsenders ==> SenderOk(Network(i), 0, s.senders[i], s.tx, s.ops))
  }

  lemma StartOwned(k: Config)
    requires ValidConfig(k)
    ensures Owned(k, Start(k))
  {
  }

  lemma CompleteKeepsOwned(k: Config, s: State, o: nat)
    requires Owned(k, s) && Enabled(k, s, Complete(o))
    ensures Owned(k, Apply(k, s, Complete(o)))
  {
    var n := Apply(k, s, Complete(o));
    forall d: nat | d < k.nchans ensures PollOk(k, n, d) {
      assert PollOk(k, s, d);
    }
    forall j: nat | j < k.nsenders ensures SenderOk(Network(j), 0, n.senders[j], n.tx, n.ops) {
      assert SenderOk(Network(j), 0, s.senders[j], s.tx, s.ops);
    }
  }

  lemma PollTopKeepsOwned(k: Config, s: State, c: nat)
    requires Owned(k, s) && Enabled(k, s, PollTop(c))
    ensures Owned(k, Apply(k, s, PollTop(c)))
  {
    var n := Apply(k, s, PollTop(c));
    forall d: nat | d < k.nchans ensures PollOk(k, n, d) {
      assert PollOk(k, s, d);
    }
    forall j: nat | j < k.nsenders ensures SenderOk(Network(j), 0, n.senders[j], n.tx, n.ops) {
      assert SenderOk(Network(j), 0, s.senders[j], s.tx, s.ops);
    }
  }

  lemma PollRegisterKeepsOwned(k: Config, s: State, c: nat)
    requires Owned(k, s) && Enabled(k, s, PollRegister(c))
    ensures Owned(k, Apply(k, s, PollRegister(c)))
  {
    var n := Apply(k, s, PollRegister(c));
    assert PollOk(k, s, c);
    forall d: nat | d < k.nchans ensures PollOk(k, n, d) {
      assert PollOk(k, s, d);
    }
    forall j: nat | j < k.nsenders ensures SenderOk(Network(j), 0, n.senders[j], n.tx, n.ops) {
      assert SenderOk(Network(j), 0, s.senders[j], s.tx, s.ops);
    }
  }

  lemma PollLocalKeepsOwned(k: Config, s: State, step: Step)
    requires Owned(k, s) && Enabled(k, s, step) && (step.PollCheck? || step.PollWake? || step.PollHandle?)
    ensures Owned(k, Apply(k, s, step))
  {
    var n := Apply(k, s, step);
    forall d: nat | d < k.nchans ensures PollOk(k, n, d) {
      assert PollOk(k, s, d);
    }
    forall j: nat | j < k.nsenders ensures SenderOk(Network(j), 0, n.senders[j], n.tx, n.ops) {
      assert SenderOk(Network(j), 0, s.senders[j], s.tx, s.ops);
    }
  }

  /** Operations of threads other than t are as before, and not newly linked. */
  ghost predicate Undisturbed(t: Thread, tx: seq<Option<nat>>, ops: seq<Op>, tx': seq<Option<nat>>, ops': seq<Op>)
    requires |tx'| == |tx| && |ops'| >= |ops|
  {
    forall o: nat :: o < |ops| && (ops[o].home.Rx? || ops[o].home.owner != t) ==>
      ops'[o] == ops[o] && forall d: nat :: d < |tx| && tx'[d] == Some(o) ==> tx[d] == Some(o)
  }

  lemma OtherSenderOk(t: Thread, c: nat, sender: Sender, u: Thread, tx: seq<Option<nat>>, ops: seq<Op>,
                      tx': seq<Option<nat>>, ops': seq<Op>)
    requires c < |tx| == |tx'| && |ops'| >= |ops| && Undisturbed(t, tx, ops, tx', ops')
    requires u != t && SenderOk(u, c, sender, tx, ops)
    ensures SenderOk(u, c, sender, tx', ops')
  {
  }

  lemma ReceiverKept(t: Thread, o: nat, c: nat, tx: seq<Option<nat>>, ops: seq<Op>,
                     tx': seq<Option<nat>>, ops': seq<Op>)
    requires |tx| == |tx'| && |ops'| >= |ops| && Undisturbed(t, tx, ops, tx', ops')
    requires Kept(ops, o, Rx(c))
    ensures Kept(ops', o, Rx(c))
  {
  }

  /** A step of one sender leaves the operations of everybody else alone, and the transmit slots
      sound. */
  lemma SendKeepsOthers(t: Thread, c: nat, sender: Sender, tx: seq<Option<nat>>, ops: seq<Op>, txDone: bool)
    requires c < |tx| && SenderOk(t, c, sender, tx, ops)
    requires forall d: nat :: d < |tx| && tx[d].Some? ==> KeptTx(ops, tx[d].value, d)
    ensures var r := SendStep(t, c, sender, tx, ops, txDone);
            && SenderOk(t, c, r.sender, r.tx, r.ops)
            && |r.ops| >= |ops|
            && (forall d: nat :: d < |tx| && r.tx[d].Some? ==> KeptTx(r.ops, r.tx[d].value, d))
            && Undisturbed(t, tx, ops, r.tx, r.ops)
            && (forall o: nat :: o < |r.ops| ==>
                  if o < |ops| then r.ops[o].home == ops[o].home && r.ops[o].status == ops[o].status
                                    && (r.ops[o].disposals == ops[o].disposals || (ops[o].disposals == 0 && r.ops[o].disposals == 1))
                  else r.ops[o] == Op(Tx(t, c), Live, 0))
  {
  }

  lemma PollSendKeepsSelf(k: Config, s: State, c: nat)
    requires Owned(k, s) && Enabled(k, s, PollSend(c))
    ensures Shaped(k, Apply(k, s, PollSend(c))) && PollOk(k, Apply(k, s, PollSend(c)), c)
  {
    assert PollOk(k, s, c);
    SendKeepsOthers(Poller(c), 1 - c, s.polls[c].sender, s.tx, s.ops, s.txDone);
    hide SendStep, SenderOk, SlotsOk, OpsOk, MainOk;
  }

  lemma PollOkUndisturbed(k: Config, s: State, n: State, t: Thread, d: nat)
    requires ValidConfig(k) && Shaped(k, s) && Shaped(k, n) && d < k.nchans && t != Poller(d)
    requires n.polls[d] == s.polls[d] && n.rx == s.rx && |n.ops| >= |s.ops|
    requires Undisturbed(t, s.tx, s.ops, n.tx, n.ops) && PollOk(k, s, d)
    ensures PollOk(k, n, d)
  {
    hide Undisturbed, SenderOk, Kept;
    match s.polls[d]
    case Fresh(o) => ReceiverKept(t, o, d, s.tx, s.ops, n.tx, n.ops);
    case Sending(_, sender) => OtherSenderOk(t, 1 - d, sender, Poller(d), s.tx, s.ops, n.tx, n.ops);
    case _ =>
  }

  lemma PollSendUndisturbed(k: Config, s: State, c: nat)
    requires Owned(k, s) && Enabled(k, s, PollSend(c))
    ensures var n := Apply(k, s, PollSend(c));
            && Shaped(k, n) && n.rx == s.rx && n.senders == s.senders && |n.ops| >= |s.ops|
            && Undisturbed(Poller(c), s.tx, s.ops, n.tx, n.ops)
            && forall d: nat :: d < k.nchans && d != c ==> n.polls[d] == s.polls[d]
  {
    assert PollOk(k, s, c);
    SendKeepsOthers(Poller(c), 1 - c, s.polls[c].sender, s.tx, s.ops, s.txDone);
    hide SendStep, SenderOk, Undisturbed;
  }

  lemma NetSendUndisturbed(k: Config, s: State, i: nat)
    requires Owned(k, s) && Enabled(k, s, NetSend(i))
    ensures var n := Apply(k, s, NetSend(i));
            && Shaped(k, n) && n.rx == s.rx && n.polls == s.polls && |n.ops| >= |s.ops|
            && Undisturbed(Network(i), s.tx, s.ops, n.tx, n.ops)
  {
    assert SenderOk(Network(i), 0, s.senders[i], s.tx, s.ops);
    SendKeepsOthers(Network(i), 0, s.senders[i], s.tx, s.ops, s.txDone);
    hide SendStep, SenderOk, Undisturbed;
  }

  lemma PollSendKeepsPolls(k: Config, s: State, c: nat)
    requires Owned(k, s) && Enabled(k, s, PollSend(c))
    ensures Shaped(k, Apply(k, s, PollSend(c)))
    ensures forall d: nat :: d < k.nchans ==> PollOk(k, Apply(k, s, PollSend(c)), d)
  {
    PollSendKeepsSelf(k, s, c);
    PollSendUndisturbed(k, s, c);
    hide Apply, Enabled, Undisturbed, PollOk;
    var n := Apply(k, s, PollSend(c));
    forall d: nat | d < k.nchans && d != c ensures PollOk(k, n, d) {
      PollOkUndisturbed(k, s, n, Poller(c), d);
    }
  }

  lemma PollSendKeepsSenders(k: Config, s: State, c: nat)
    requires Owned(k, s) && Enabled(k, s, PollSend(c))
    ensures var n := Apply(k, s, PollSend(c));
            Shaped(k, n)
            && forall j: nat :: j < k.nsenders ==> SenderOk(Network(j), 0, n.senders[j], n.tx, n.ops)
  {
    PollSendUndisturbed(k, s, c);
    hide Apply, Enabled, Undisturbed, SenderOk;
    var n := Apply(k, s, PollSend(c));
    forall j: nat | j < k.nsenders ensures SenderOk(Network(j), 0, n.senders[j], n.tx, n.ops) {
      OtherSenderOk(Poller(c), 0, s.senders[j], Network(j), s.tx, s.ops, n.tx, n.ops);
    }
  }

  lemma PollSendKeepsOwned(k: Config, s: State, c: nat)
    requires Owned(k, s) && Enabled(k, s, PollSend(c))
    ensures Owned(k, Apply(k, s, PollSend(c)))
  {
    hide PollOk, SenderOk, SlotsOk, OpsOk, SendStep, SendEnabled;
    PollSendKeepsPolls(k, s, c);
    PollSendKeepsSenders(k, s, c);
    PollSendKeepsSlots(k, s, c);
  }

  lemma PollSendKeepsSlots(k: Config, s: State, c: nat)
    requires Owned(k, s) && Enabled(k, s, PollSend(c))
    ensures var n := Apply(k, s, PollSend(c));
            Shaped(k, n) && OpsOk(n) && (s.main != Torn ==> SlotsOk(k, n))
  {
    assert PollOk(k, s, c);
    SendKeepsOthers(Poller(c), 1 - c, s.polls[c].sender, s.tx, s.ops, s.txDone);
    hide SendStep, PollOk, SenderOk;
  }

  lemma NetSendKeepsPolls(k: Config, s: State, i: nat)
    requires Owned(k, s) && Enabled(k, s, NetSend(i))
    ensures Shaped(k, Apply(k, s, NetSend(i)))
    ensures forall d: nat :: d < k.nchans ==> PollOk(k, Apply(k, s, NetSend(i)), d)
  {
    NetSendUndisturbed(k, s, i);
    hide Apply, Enabled, Undisturbed, PollOk;
    var n := Apply(k, s, NetSend(i));
    forall d: nat | d < k.nchans ensures PollOk(k, n, d) {
      PollOkUndisturbed(k, s, n, Network(i), d);
    }
  }

  lemma NetSendKeepsOwned(k: Config, s: State, i: nat)
    requires Owned(k, s) && Enabled(k, s, NetSend(i))
    ensures Owned(k, Apply(k, s, NetSend(i)))
  {
    var n := Apply(k, s, NetSend(i));
    NetSendKeepsPolls(k, s, i);
    assert SenderOk(Network(i), 0, s.senders[i], s.tx, s.ops);
    SendKeepsOthers(Network(i), 0, s.senders[i], s.tx, s.ops, s.txDone);
    hide SendStep, PollOk;
    forall j: nat | j < k.nsenders ensures SenderOk(Network(j), 0, n.senders[j], n.tx, n.ops) {
      assert SenderOk(Network(j), 0, s.senders[j], s.tx, s.ops);
    }
  }

  lemma MainKeepsOwned(k: Config, s: State, step: Step)
    requires Owned(k, s) && Enabled(k, s, step)
    requires step.NetDie? || step.Request? || step.CancelNet? || step.JoinNet? || step.JoinPolls?
    ensures Owned(k, Apply(k, s, step))
  {
    var n := Apply(k, s, step);
    forall d: nat | d < k.nchans ensures PollOk(k, n, d) {
      assert PollOk(k, s, d);
    }
    forall j: nat | j < k.nsenders ensures SenderOk(Network(j), 0, n.senders[j], n.tx, n.ops) {
      assert SenderOk(Network(j), 0, s.senders[j], s.tx, s.ops);
    }
  }

  lemma WakeKeepsOwned(k: Config, s: State)
    requires Owned(k, s) && Enabled(k, s, WakePolls)
    ensures Owned(k, Apply(k, s, WakePolls))
  {
    var n := Apply(k, s, WakePolls);
    forall d: nat | d < k.nchans ensures PollOk(k, n, d) {
      assert PollOk(k, s, d);
    }
    forall j: nat | j < k.nsenders ensures SenderOk(Network(j), 0, n.senders[j], n.tx, n.ops) {
      assert SenderOk(Network(j), 0, s.senders[j], s.tx, s.ops);
    }
  }

  predicate InSlots(o: nat, rx: seq<Option<nat>>, tx: seq<Option<nat>>) {
    Some(o) in rx || Some(o) in tx
  }

  /** The final teardown disposes once of each operation in a slot, unless it is cancelled. */
  lemma TeardownEffect(k: Config, s: State)
    requires ValidConfig(k) && Shaped(k, s) && SlotsOk(k, s)
    ensures var r := DisposeSlots(s.ops, s.rx, s.tx);
            forall o: nat :: o < |s.ops| ==>
              r[o] == s.ops[o].(disposals := s.ops[o].disposals
                + if InSlots(o, s.rx, s.tx) && s.ops[o].status != Cancelled then 1 else 0)
  {
    hide DisposeUncancelled;
    var a := DisposeUncancelled(s.ops, s.rx[0]);
    var b := DisposeUncancelled(a, s.tx[0]);
    SlotEffect(s.ops, s.rx[0]);
    SlotEffect(a, s.tx[0]);
    if k.nchans == 2 {
      SlotEffect(b, s.rx[1]);
      SlotEffect(DisposeUncancelled(b, s.rx[1]), s.tx[1]);
      assert s.rx == [s.rx[0], s.rx[1]] && s.tx == [s.tx[0], s.tx[1]];
    } else {
      assert s.rx == [s.rx[0]] && s.tx == [s.tx[0]];
    }
  }

  lemma SlotEffect(ops: seq<Op>, slot: Option<nat>)
    ensures var r := DisposeUncancelled(ops, slot);
            forall o: nat :: o < |ops| ==>
              r[o] == ops[o].(disposals := ops[o].disposals
                + if slot == Some(o) && ops[o].status != Cancelled then 1 else 0)
  {
  }

  lemma DisposeKeepsOwned(k: Config, s: State)
    requires Owned(k, s) && Enabled(k, s, DisposeAll)
    ensures Owned(k, Apply(k, s, DisposeAll))
  {
    TeardownEffect(k, s);
    hide DisposeSlots;
    var n := Apply(k, s, DisposeAll);
    forall d: nat | d < k.nchans ensures PollOk(k, n, d) {
      assert PollOk(k, s, d);
    }
    forall j: nat | j < k.nsenders ensures SenderOk(Network(j), 0, n.senders[j], n.tx, n.ops) {
      assert SenderOk(Network(j), 0, s.senders[j], s.tx, s.ops);
    }
  }

  lemma StepKeepsOwned(k: Config, s: State, step: Step)
    requires Owned(k, s) && Enabled(k, s, step)
    ensures Owned(k, Apply(k, s, step))
  {
    hide Owned, Enabled, Apply;
    match step
    case Complete(o) => CompleteKeepsOwned(k, s, o);
    case PollTop(c) => PollTopKeepsOwned(k, s, c);
    case PollRegister(c) => PollRegisterKeepsOwned(k, s, c);
    case PollCheck(_) => PollLocalKeepsOwned(k, s, step);
    case PollWake(_) => PollLocalKeepsOwned(k, s, step);
    case PollHandle(_, _) => PollLocalKeepsOwned(k, s, step);
    case PollSend(c) => PollSendKeepsOwned(k, s, c);
    case NetSend(i) => NetSendKeepsOwned(k, s, i);
    case WakePolls => WakeKeepsOwned(k, s);
    case DisposeAll => DisposeKeepsOwned(k, s);
    case _ => MainKeepsOwned(k, s, step);
  }

  // ---- no lost wakeup -----------------------------------------------------------------------------

  /** Once the cancel loop has run, nobody waits on a live operation. */
  ghost predicate NobodyStuck(k: Config, s: State)
    requires Shaped(k, s)
  {
    PollsWoken(s.main) ==> forall c: nat :: c < k.nchans && s.polls[c].Waiting? ==>
      s.polls[c].op < |s.ops| && s.ops[s.polls[c].op].status != Live
  }

  lemma StepKeepsNobodyStuck(k: Config, s: State, step: Step)
    requires Owned(k, s) && NobodyStuck(k, s) && Enabled(k, s, step)
    ensures Shaped(k, Apply(k, s, step)) && NobodyStuck(k, Apply(k, s, step))
  {
    match step
    case WakePolls => WakeFreesWaiters(k, s);
    case PollSend(_) => SendIsQuiet(k, s, step);
    case NetSend(_) => SendIsQuiet(k, s, step);
    case _ =>
  }

  /** A step within spw_send_packet_chan() does not touch receive slots and operations, and
      changes no status. */
  lemma SendIsQuiet(k: Config, s: State, step: Step)
    requires Owned(k, s) && Enabled(k, s, step) && (step.PollSend? || step.NetSend?)
    ensures var n := Apply(k, s, step);
            && Shaped(k, n) && n.main == s.main && n.rx == s.rx && |n.ops| >= |s.ops|
            && (forall o: nat :: o < |s.ops| ==> n.ops[o].status == s.ops[o].status && n.ops[o].home == s.ops[o].home)
            && (forall o: nat :: o < |s.ops| && s.ops[o].home.Rx? ==> n.ops[o] == s.ops[o])
            && (forall o: nat :: |s.ops| <= o < |n.ops| ==>
                  n.ops[o].home.Tx? && n.ops[o].status == Live && n.ops[o].disposals == 0)
            && (forall c: nat :: c < k.nchans ==>
                  (n.polls[c] == s.polls[c]
                   || (s.polls[c].Sending? && (n.polls[c].Top? || n.polls[c].Sending?))))
  {
    if step.PollSend? {
      assert PollOk(k, s, step.c);
      SendKeepsOthers(Poller(step.c), 1 - step.c, s.polls[step.c].sender, s.tx, s.ops, s.txDone);
    } else {
      assert SenderOk(Network(step.i), 0, s.senders[step.i], s.tx, s.ops);
      SendKeepsOthers(Network(step.i), 0, s.senders[step.i], s.tx, s.ops, s.txDone);
    }
    hide SendStep;
  }

  lemma WakeFreesWaiters(k: Config, s: State)
    requires Owned(k, s) && Enabled(k, s, WakePolls)
    ensures Shaped(k, Apply(k, s, WakePolls)) && NobodyStuck(k, Apply(k, s, WakePolls))
  {
    var n := Apply(k, s, WakePolls);
    forall d: nat | d < k.nchans && s.polls[d].Waiting?
      ensures s.polls[d].op < |n.ops| && n.ops[s.polls[d].op].status != Live
    {
      assert PollOk(k, s, d);
    }
  }

  // ---- cancelled operations and disposal ---------------------------------------------------------------

  predicate BetweenWaits(p: Poll) {
    p.Top? || p.Fresh? || p.Woken? || p.Sending?
  }

  /** The operation a polling thread has left behind in its slot has finished. */
  ghost predicate LeftBehindDone(k: Config, s: State)
    requires Shaped(k, s)
  {
    forall c: nat :: c < k.nchans && s.rx[c].Some? && BetweenWaits(s.polls[c]) ==>
      s.rx[c].value < |s.ops| && s.ops[s.rx[c].value].status == Done
  }

  /** A cancelled operation, freed by the API, has not been disposed of. */
  ghost predicate CancelledIntact(s: State) {
    forall o: nat :: o < |s.ops| && s.ops[o].status == Cancelled ==> s.ops[o].disposals == 0
  }

  lemma SendKeepsIntact(k: Config, s: State, step: Step)
    requires !k.cancelsFinished
    requires Owned(k, s) && LeftBehindDone(k, s) && CancelledIntact(s) && Enabled(k, s, step)
    requires step.PollSend? || step.NetSend?
    ensures Shaped(k, Apply(k, s, step)) && LeftBehindDone(k, Apply(k, s, step)) && CancelledIntact(Apply(k, s, step))
  {
    hide Apply;
    SendIsQuiet(k, s, step);
  }

  lemma RegisterKeepsIntact(k: Config, s: State, c: nat)
    requires !k.cancelsFinished
    requires Owned(k, s) && LeftBehindDone(k, s) && CancelledIntact(s) && Enabled(k, s, PollRegister(c))
    ensures Shaped(k, Apply(k, s, PollRegister(c))) && LeftBehindDone(k, Apply(k, s, PollRegister(c))) && CancelledIntact(Apply(k, s, PollRegister(c)))
  {
    assert PollOk(k, s, c);
  }

  lemma WakeKeepsIntact(k: Config, s: State)
    requires !k.cancelsFinished
    requires Owned(k, s) && LeftBehindDone(k, s) && CancelledIntact(s) && Enabled(k, s, WakePolls)
    ensures Shaped(k, Apply(k, s, WakePolls)) && LeftBehindDone(k, Apply(k, s, WakePolls)) && CancelledIntact(Apply(k, s, WakePolls))
  {
  }

  lemma DisposeKeepsIntact(k: Config, s: State)
    requires !k.cancelsFinished
    requires Owned(k, s) && LeftBehindDone(k, s) && CancelledIntact(s) && Enabled(k, s, DisposeAll)
    ensures Shaped(k, Apply(k, s, DisposeAll)) && LeftBehindDone(k, Apply(k, s, DisposeAll)) && CancelledIntact(Apply(k, s, DisposeAll))
  {
    TeardownEffect(k, s);
    hide DisposeSlots;
  }

  lemma OthersKeepIntact(k: Config, s: State, step: Step)
    requires !k.cancelsFinished
    requires Owned(k, s) && LeftBehindDone(k, s) && CancelledIntact(s) && Enabled(k, s, step)
    requires !step.PollSend? && !step.NetSend? && !step.PollRegister? && !step.WakePolls? && !step.DisposeAll?
    ensures Shaped(k, Apply(k, s, step)) && LeftBehindDone(k, Apply(k, s, step)) && CancelledIntact(Apply(k, s, step))
  {
    if step.PollTop? || step.PollWake? {
      assert PollOk(k, s, step.c);
    }
  }

  lemma StepKeepsIntact(k: Config, s: State, step: Step)
    requires !k.cancelsFinished
    requires Owned(k, s) && LeftBehindDone(k, s) && CancelledIntact(s) && Enabled(k, s, step)
    ensures Shaped(k, Apply(k, s, step)) && LeftBehindDone(k, Apply(k, s, step)) && CancelledIntact(Apply(k, s, step))
  {
    hide Apply, Owned, LeftBehindDone, CancelledIntact;
    match step
    case PollSend(_) => SendKeepsIntact(k, s, step);
    case NetSend(_) => SendKeepsIntact(k, s, step);
    case PollRegister(c) => RegisterKeepsIntact(k, s, c);
    case WakePolls => WakeKeepsIntact(k, s);
    case DisposeAll => DisposeKeepsIntact(k, s);
    case _ => OthersKeepIntact(k, s, step);
  }

  // ---- nothing leaks ----------------------------------------------------------------------------------

  /** Every receive operation has been disposed of, is in its slot, or is about to be. */
  ghost predicate Accounted(k: Config, s: State)
    requires Shaped(k, s)
  {
    forall o: nat :: o < |s.ops| && s.ops[o].home.Rx? ==>
      var c := s.ops[o].home.chan;
      c < k.nchans && (s.ops[o].disposals == 1
        || (if s.main == Torn then s.ops[o].status == Cancelled else s.rx[c] == Some(o) || s.polls[c] == Fresh(o)))
  }

  lemma SendKeepsAccounted(k: Config, s: State, step: Step)
    requires Owned(k, s) && Accounted(k, s) && Enabled(k, s, step)
    requires step.PollSend? || step.NetSend?
    ensures Shaped(k, Apply(k, s, step)) && Accounted(k, Apply(k, s, step))
  {
    hide Apply;
    SendIsQuiet(k, s, step);
  }

  lemma RegisterKeepsAccounted(k: Config, s: State, c: nat)
    requires Owned(k, s) && Accounted(k, s) && Enabled(k, s, PollRegister(c))
    ensures Shaped(k, Apply(k, s, PollRegister(c))) && Accounted(k, Apply(k, s, PollRegister(c)))
  {
    assert PollOk(k, s, c);
  }

  lemma WakeKeepsAccounted(k: Config, s: State)
    requires Owned(k, s) && Accounted(k, s) && Enabled(k, s, WakePolls)
    ensures Shaped(k, Apply(k, s, WakePolls)) && Accounted(k, Apply(k, s, WakePolls))
  {
  }

  lemma DisposeKeepsAccounted(k: Config, s: State)
    requires Owned(k, s) && Accounted(k, s) && Enabled(k, s, DisposeAll)
    ensures Shaped(k, Apply(k, s, DisposeAll)) && Accounted(k, Apply(k, s, DisposeAll))
  {
    TeardownEffect(k, s);
    hide DisposeSlots;
  }

  lemma OthersKeepAccounted(k: Config, s: State, step: Step)
    requires Owned(k, s) && Accounted(k, s) && Enabled(k, s, step)
    requires !step.PollSend? && !step.NetSend? && !step.PollRegister? && !step.WakePolls? && !step.DisposeAll?
    ensures Shaped(k, Apply(k, s, step)) && Accounted(k, Apply(k, s, step))
  {
    if step.PollTop? || step.PollWake? {
      assert PollOk(k, s, step.c);
    }
  }

  lemma StepKeepsAccounted(k: Config, s: State, step: Step)
    requires Owned(k, s) && Accounted(k, s) && Enabled(k, s, step)
    ensures Shaped(k, Apply(k, s, step)) && Accounted(k, Apply(k, s, step))
  {
    hide Apply, Owned, Accounted;
    match step
    case PollSend(_) => SendKeepsAccounted(k, s, step);
    case NetSend(_) => SendKeepsAccounted(k, s, step);
    case PollRegister(c) => RegisterKeepsAccounted(k, s, c);
    case WakePolls => WakeKeepsAccounted(k, s);
    case DisposeAll => DisposeKeepsAccounted(k, s);
    case _ => OthersKeepAccounted(k, s, step);
  }

  // ---- the slots after the teardown ------------------------------------------------------------------

  /** The teardown has disposed of what the slots name, cancelled operations apart. */
  ghost predicate SlotsTorn(k: Config, s: State)
    requires Shaped(k, s)
  {
    s.main == Torn ==> forall c: nat :: c < k.nchans ==>
      && (s.rx[c].Some? ==> DisposedOnce(s, s.rx[c].value))
      && (s.tx[c].Some? ==> DisposedOnce(s, s.tx[c].value) && s.ops[s.tx[c].value].status != Cancelled)
  }

  predicate DisposedOnce(s: State, o: nat) {
    o < |s.ops| && s.ops[o].disposals == if s.ops[o].status == Cancelled then 0 else 1
  }

  lemma TeardownDisposesSlots(k: Config, s: State)
    requires Owned(k, s) && Enabled(k, s, DisposeAll)
    ensures Shaped(k, Apply(k, s, DisposeAll)) && SlotsTorn(k, Apply(k, s, DisposeAll))
  {
    TeardownEffect(k, s);
    hide DisposeSlots;
    hide PollOk, SenderOk;
    var n := Apply(k, s, DisposeAll);
    forall c: nat | c < k.nchans && n.rx[c].Some? ensures DisposedOnce(n, n.rx[c].value) {
      assert s.rx[c] in s.rx;
    }
    forall c: nat | c < k.nchans && n.tx[c].Some?
      ensures DisposedOnce(n, n.tx[c].value) && n.ops[n.tx[c].value].status != Cancelled
    {
      assert s.tx[c] in s.tx;
    }
  }

  lemma StepKeepsSlotsTorn(k: Config, s: State, step: Step)
    requires Owned(k, s) && SlotsTorn(k, s) && Enabled(k, s, step)
    ensures Shaped(k, Apply(k, s, step)) && SlotsTorn(k, Apply(k, s, step))
  {
    match step
    case DisposeAll => TeardownDisposesSlots(k, s);
    case PollSend(_) => SendIsQuiet(k, s, step);
    case NetSend(_) => SendIsQuiet(k, s, step);
    case _ =>
  }

  // ---- the shared transmission status -------------------------------------------------------------------

  /** The sender has read "complete", and its own operation is. */
  predicate OwnComplete(sender: Sender, ops: seq<Op>) {
    sender.Finished? || sender.Unlinked? ==> sender.op < |ops| && ops[sender.op].status == Done
  }

  ghost predicate AllOwnComplete(k: Config, s: State)
    requires Shaped(k, s)
  {
    && (forall i: nat :: i < k.nsenders ==> OwnComplete(s.senders[i], s.ops))
    && (forall c: nat :: c < k.nchans && s.polls[c].Sending? ==> OwnComplete(s.polls[c].sender, s.ops))
  }

  /** At most one thread ever transmits. */
  predicate OneSender(k: Config) {
    k.nchans == 1 && k.nsenders <= 1
  }

  /** With one sender the shared status is its own. */
  ghost predicate StatusIsOwn(k: Config, s: State)
    requires Shaped(k, s)
  {
    forall i: nat :: i < k.nsenders ==>
      && OwnComplete(s.senders[i], s.ops)
      && (s.senders[i].Waited? && s.txDone ==>
            s.senders[i].op < |s.ops| && s.ops[s.senders[i].op].status == Done)
  }

  /** Transmit operations keep their status in every step other than their completion. */
  lemma StepKeepsStatusIsOwn(k: Config, s: State, step: Step)
    requires OneSender(k) && Owned(k, s) && StatusIsOwn(k, s) && Enabled(k, s, step)
    ensures Shaped(k, Apply(k, s, step)) && StatusIsOwn(k, Apply(k, s, step))
  {
    match step
    case NetSend(i) => SenderKeepsStatusIsOwn(k, s, i);
    case WakePolls => WakeKeepsTransmissions(k, s);
    case DisposeAll => TeardownKeepsStatus(k, s);
    case _ =>
  }

  lemma SenderKeepsStatusIsOwn(k: Config, s: State, i: nat)
    requires OneSender(k) && Owned(k, s) && StatusIsOwn(k, s) && Enabled(k, s, NetSend(i))
    ensures Shaped(k, Apply(k, s, NetSend(i))) && StatusIsOwn(k, Apply(k, s, NetSend(i)))
  {
    assert i == 0;
    assert SenderOk(Network(0), 0, s.senders[0], s.tx, s.ops);
  }

  lemma TeardownKeepsStatus(k: Config, s: State)
    requires Owned(k, s) && Enabled(k, s, DisposeAll)
    ensures var n := Apply(k, s, DisposeAll);
            |n.ops| == |s.ops| && forall o: nat :: o < |s.ops| ==> n.ops[o].status == s.ops[o].status
  {
    TeardownEffect(k, s);
    hide DisposeSlots;
  }

  lemma WakeKeepsTransmissions(k: Config, s: State)
    requires Owned(k, s) && Enabled(k, s, WakePolls)
    ensures var n := Apply(k, s, WakePolls);
            |n.ops| == |s.ops| && forall o: nat :: o < |s.ops| && s.ops[o].home.Tx? ==> n.ops[o] == s.ops[o]
  {
  }

  // ---- transmit operations -----------------------------------------------------------------------------

  predicate HeldBy(sender: Sender, o: nat) {
    match sender
    case Idle => false
    case Created(p) => p == o
    case Linked(p) => p == o
    case Waited(p) => p == o
    case Finished(p) => p == o
    case Unlinked(p) => p == o
    case Gone(h, _) => h == Some(o)
  }

  /** Thread t is transmitting with o, or was when it was cancelled. */
  predicate Holds(k: Config, s: State, t: Thread, o: nat)
    requires Shaped(k, s)
  {
    match t
    case Network(i) => i < k.nsenders && HeldBy(s.senders[i], o)
    case Poller(c) => c < k.nchans && s.polls[c].Sending? && HeldBy(s.polls[c].sender, o)
  }

  predicate Transmitter(k: Config, t: Thread, c: nat) {
    match t
    case Network(i) => i < k.nsenders && c == 0
    case Poller(d) => k.nchans == 2 && d < 2 && c == 1 - d
  }

  /** Every transmit operation is held by its owner and not disposed of, or disposed of exactly
      once; of those that died with their owner, the teardown takes the ones still in a slot. */
  ghost predicate TxAccounted(k: Config, s: State)
    requires Shaped(k, s)
  {
    forall o: nat :: o < |s.ops| && s.ops[o].home.Tx? ==> TxSettled(k, s, o)
  }

  predicate TxSettled(k: Config, s: State, o: nat)
    requires Shaped(k, s) && o < |s.ops| && s.ops[o].home.Tx?
  {
    var t, c := s.ops[o].home.owner, s.ops[o].home.chan;
    && Transmitter(k, t, c) && c < k.nchans
    && s.ops[o].disposals == if Holds(k, s, t, o) && (s.main != Torn || s.tx[c] != Some(o)) then 0 else 1
  }

  /** With one transmitting thread, the slot names its operation from registration to
      deregistration, also if it is cancelled in between. */
  ghost predicate TxLinked(k: Config, s: State)
    requires Shaped(k, s)
  {
    forall i: nat :: i < k.nsenders && k.nchans > 0 ==>
      match s.senders[i]
      case Linked(o) => s.tx[0] == Some(o)
      case Waited(o) => s.tx[0] == Some(o)
      case Finished(o) => s.tx[0] == Some(o)
      case Gone(h, registered) => h.Some? ==> (registered <==> s.tx[0] == h)
      case _ => true
  }

  lemma NetSendKeepsTx(k: Config, s: State, i: nat)
    requires Owned(k, s) && TxAccounted(k, s) && Enabled(k, s, NetSend(i))
    ensures Shaped(k, Apply(k, s, NetSend(i))) && TxAccounted(k, Apply(k, s, NetSend(i)))
  {
    assert SenderOk(Network(i), 0, s.senders[i], s.tx, s.ops);
    hide SlotsOk, OpsOk, PollOk, MainOk;
  }

  lemma PollSendKeepsOthersTx(k: Config, s: State, c: nat, o: nat)
    requires Owned(k, s) && TxAccounted(k, s) && Enabled(k, s, PollSend(c))
    requires o < |s.ops| && s.ops[o].home.Tx? && s.ops[o].home.owner != Poller(c)
    ensures var n := Apply(k, s, PollSend(c));
            Shaped(k, n) && o < |n.ops| && n.ops[o] == s.ops[o] && TxSettled(k, n, o)
  {
    assert TxSettled(k, s, o);
    PollSendUndisturbed(k, s, c);
    hide SlotsOk, OpsOk, PollOk, SenderOk, SendStep;
  }

  lemma PollSendKeepsOwnTx(k: Config, s: State, c: nat, o: nat)
    requires Owned(k, s) && TxAccounted(k, s) && Enabled(k, s, PollSend(c))
    requires o < |Apply(k, s, PollSend(c)).ops|
    requires o < |s.ops| ==> s.ops[o].home.Tx? && s.ops[o].home.owner == Poller(c)
    ensures var n := Apply(k, s, PollSend(c));
            Shaped(k, n) && n.ops[o].home.Tx? && n.ops[o].home.owner == Poller(c) && TxSettled(k, n, o)
  {
    assert PollOk(k, s, c);
    assert o < |s.ops| ==> TxSettled(k, s, o);
    hide SlotsOk, OpsOk, TxAccounted;
  }

  lemma PollSendKeepsTx(k: Config, s: State, c: nat)
    requires Owned(k, s) && TxAccounted(k, s) && Enabled(k, s, PollSend(c))
    ensures Shaped(k, Apply(k, s, PollSend(c))) && TxAccounted(k, Apply(k, s, PollSend(c)))
  {
    PollSendUndisturbed(k, s, c);
    SendIsQuiet(k, s, PollSend(c));
    hide Apply, Enabled, Owned, TxSettled, Undisturbed;
    var n := Apply(k, s, PollSend(c));
    forall o: nat | o < |n.ops| && n.ops[o].home.Tx? ensures TxSettled(k, n, o) {
      if o < |s.ops| && s.ops[o].home.owner != Poller(c) {
        PollSendKeepsOthersTx(k, s, c, o);
      } else {
        PollSendKeepsOwnTx(k, s, c, o);
      }
    }
  }

  lemma DieKeepsTx(k: Config, s: State, i: nat)
    requires Owned(k, s) && TxAccounted(k, s) && Enabled(k, s, NetDie(i))
    ensures Shaped(k, Apply(k, s, NetDie(i))) && TxAccounted(k, Apply(k, s, NetDie(i)))
  {
    hide SlotsOk, OpsOk, PollOk, MainOk, SenderOk;
  }

  lemma TeardownKeepsTx(k: Config, s: State)
    requires Owned(k, s) && TxAccounted(k, s) && Enabled(k, s, DisposeAll)
    ensures Shaped(k, Apply(k, s, DisposeAll)) && TxAccounted(k, Apply(k, s, DisposeAll))
  {
    TeardownEffect(k, s);
    hide DisposeSlots, PollOk, SenderOk;
  }

  lemma WakeKeepsTx(k: Config, s: State)
    requires Owned(k, s) && TxAccounted(k, s) && Enabled(k, s, WakePolls)
    ensures Shaped(k, Apply(k, s, WakePolls)) && TxAccounted(k, Apply(k, s, WakePolls))
  {
    WakeKeepsTransmissions(k, s);
    hide CancelSlots, PollOk, SenderOk;
    var n := Apply(k, s, WakePolls);
    forall o: nat | o < |n.ops| && n.ops[o].home.Tx? ensures TxSettled(k, n, o) {
      assert s.ops[o].home == n.ops[o].home && TxSettled(k, s, o);
    }
  }

  lemma OthersKeepTx(k: Config, s: State, step: Step)
    requires Owned(k, s) && TxAccounted(k, s) && Enabled(k, s, step)
    requires !step.NetSend? && !step.PollSend? && !step.NetDie? && !step.DisposeAll? && !step.WakePolls?
    ensures Shaped(k, Apply(k, s, step)) && TxAccounted(k, Apply(k, s, step))
  {
    hide SenderOk, PollOk, OpsOk;
    var n := Apply(k, s, step);
    forall o: nat | o < |n.ops| && n.ops[o].home.Tx? ensures TxSettled(k, n, o) {
      assert o < |s.ops| && TxSettled(k, s, o);
    }
  }

  lemma StepKeepsTx(k: Config, s: State, step: Step)
    requires Owned(k, s) && TxAccounted(k, s) && Enabled(k, s, step)
    ensures Shaped(k, Apply(k, s, step)) && TxAccounted(k, Apply(k, s, step))
  {
    hide Apply, Owned, TxAccounted;
    match step
    case NetSend(i) => NetSendKeepsTx(k, s, i);
    case PollSend(c) => PollSendKeepsTx(k, s, c);
    case NetDie(i) => DieKeepsTx(k, s, i);
    case DisposeAll => TeardownKeepsTx(k, s);
    case WakePolls => WakeKeepsTx(k, s);
    case _ => OthersKeepTx(k, s, step);
  }

  lemma StepKeepsTxLinked(k: Config, s: State, step: Step)
    requires OneSender(k) && Owned(k, s) && TxLinked(k, s) && Enabled(k, s, step)
    ensures Shaped(k, Apply(k, s, step)) && TxLinked(k, Apply(k, s, step))
  {
    assert k.nsenders > 0 ==> SenderOk(Network(0), 0, s.senders[0], s.tx, s.ops);
  }

  // ---- over all runs --------------------------------------------------------------------------------

  ghost predicate Safe(k: Config, s: State) {
    && Owned(k, s)
    && NobodyStuck(k, s)
    && Accounted(k, s)
    && SlotsTorn(k, s)
    && TxAccounted(k, s)
    && (OneSender(k) ==> StatusIsOwn(k, s) && TxLinked(k, s))
    && (!k.cancelsFinished ==> LeftBehindDone(k, s) && CancelledIntact(s))
  }

  lemma StartSafe(k: Config)
    requires ValidConfig(k)
    ensures Safe(k, Start(k))
  {
    StartOwned(k);
  }

  lemma StepKeepsSafe(k: Config, s: State, step: Step)
    requires Safe(k, s) && Enabled(k, s, step)
    ensures Safe(k, Apply(k, s, step))
  {
    hide Owned, NobodyStuck, Accounted, SlotsTorn, TxAccounted, TxLinked, StatusIsOwn, OneSender, LeftBehindDone, CancelledIntact, Enabled, Apply;
    StepKeepsOwned(k, s, step);
    StepKeepsNobodyStuck(k, s, step);
    StepKeepsAccounted(k, s, step);
    StepKeepsSlotsTorn(k, s, step);
    StepKeepsTx(k, s, step);
    if OneSender(k) {
      StepKeepsStatusIsOwn(k, s, step);
      StepKeepsTxLinked(k, s, step);
    }
    if !k.cancelsFinished {
      StepKeepsIntact(k, s, step);
    }
  }

  lemma {:induction false} RunSafe(k: Config, steps: seq<Step>)
    requires ValidConfig(k)
    ensures Exec(k, steps).Some? ==> Safe(k, Exec(k, steps).value)
    decreases |steps|
  {
    hide Safe, Enabled, Apply, Start;
    if steps == [] {
      StartSafe(k);
    } else {
      var before := steps[..|steps| - 1];
      RunSafe(k, before);
      if Exec(k, steps).Some? {
        StepKeepsSafe(k, Exec(k, before).value, steps[|steps| - 1]);
      }
    }
  }

  lemma ReachableSafe(k: Config, s: State)
    requires ValidConfig(k) && Reachable(k, s)
    ensures Safe(k, s)
  {
    var steps :| Exec(k, steps) == Some(s);
    RunSafe(k, steps);
  }

  /** No thread ever holds a disposed operation, and until the final teardown no slot names one. */
  lemma NoDisposedOperationInUse(k: Config, s: State)
    requires ValidConfig(k) && Reachable(k, s)
    ensures Shaped(k, s)
    ensures s.main != Torn ==> forall c: nat :: c < k.nchans ==>
              SlotUndisposed(s, s.rx[c]) && SlotUndisposed(s, s.tx[c])
    ensures forall c: nat :: c < k.nchans && !s.polls[c].Top? && !s.polls[c].Exited? ==> Undisposed(s, s.polls[c].op)
    ensures forall i: nat :: i < k.nsenders && !s.senders[i].Idle? && !s.senders[i].Gone? ==>
              Undisposed(s, s.senders[i].op)
  {
    ReachableSafe(k, s);
    forall c: nat | c < k.nchans && !s.polls[c].Top? && !s.polls[c].Exited? ensures Undisposed(s, s.polls[c].op) {
      assert PollOk(k, s, c);
    }
    forall i: nat | i < k.nsenders && !s.senders[i].Idle? && !s.senders[i].Gone?
      ensures Undisposed(s, s.senders[i].op)
    {
      assert SenderOk(Network(i), 0, s.senders[i], s.tx, s.ops);
    }
  }

  predicate Undisposed(s: State, o: nat) {
    o < |s.ops| && s.ops[o].disposals == 0
  }

  predicate SlotUndisposed(s: State, slot: Option<nat>) {
    slot.Some? ==> Undisposed(s, slot.value)
  }

  /** Which slots name a disposed operation, in any state of any run: after the teardown, those
      that are not empty and do not name a cancelled operation; a transmit operation is never
      cancelled. */
  lemma SlotUndisposedIff(k: Config, s: State, c: nat)
    requires ValidConfig(k) && Reachable(k, s) && c < k.nchans
    ensures Shaped(k, s) && (s.rx[c].Some? ==> s.rx[c].value < |s.ops|)
    ensures SlotUndisposed(s, s.rx[c]) <==>
              s.main != Torn || s.rx[c].None? || s.ops[s.rx[c].value].status == Cancelled
    ensures SlotUndisposed(s, s.tx[c]) <==> s.main != Torn || s.tx[c].None?
  {
    ReachableSafe(k, s);
  }

  /** No operation is ever disposed of twice, the teardown included. */
  lemma DisposedAtMostOnce(k: Config, s: State, o: nat)
    requires ValidConfig(k) && Reachable(k, s) && o < |s.ops|
    ensures s.ops[o].disposals <= 1
  {
    ReachableSafe(k, s);
  }

  /** No lost wakeup: once the cancel loop has run, a polling thread that waits does so on an
      operation that is cancelled or finished, now and in every later state. */
  lemma NoLostWakeup(k: Config, s: State, c: nat)
    requires ValidConfig(k) && Reachable(k, s) && PollsWoken(s.main) && c < k.nchans
    ensures Shaped(k, s)
    ensures s.polls[c].Waiting? ==> s.polls[c].op < |s.ops| && s.ops[s.polls[c].op].status != Live
  {
    ReachableSafe(k, s);
  }

  /** Number of own steps a polling thread takes at most once `shutdown` is set. */
  function StepsLeft(p: Poll): nat {
    match p
    case Exited => 0
    case Top => 1
    case Woken(_) => 1
    case Registered(_) => 1
    case Fresh(_) => 2
    case Waiting(_) => 2
    case Sending(_, sender) =>
      match sender
      case Unlinked(_) => 2
      case Finished(_) => 3
      case Waited(_) => 4
      case Linked(_) => 5
      case Created(_) => 6
      case Idle => 7
      case Gone(_, _) => 0
  }

  predicate OfPoller(step: Step, c: nat) {
    match step
    case PollTop(d) => d == c
    case PollRegister(d) => d == c
    case PollCheck(d) => d == c
    case PollWake(d) => d == c
    case PollHandle(d, _) => d == c
    case PollSend(d) => d == c
    case _ => false
  }

  /** After the cancel loop every step of a polling thread brings it closer to its end, and no
      other step sets it back. */
  lemma PollersWindDown(k: Config, s: State, c: nat, step: Step)
    requires ValidConfig(k) && Reachable(k, s) && PollsWoken(s.main) && c < k.nchans
    requires Shaped(k, s) && Enabled(k, s, step)
    ensures var n := Apply(k, s, step);
            && |n.polls| == k.nchans
            && if OfPoller(step, c) then StepsLeft(n.polls[c]) < StepsLeft(s.polls[c]) else n.polls[c] == s.polls[c]
  {
    ReachableSafe(k, s);
    hide Safe;
    assert Shaped(k, s) && PollOk(k, s, c) && s.shutdown by {
      PiecesOfSafe(k, s, c);
    }
    if OfPoller(step, c) {
      OwnStepsRunOut(k, s, c, step);
    }
  }

  lemma OwnStepsRunOut(k: Config, s: State, c: nat, step: Step)
    requires ValidConfig(k) && c < k.nchans && Shaped(k, s) && PollOk(k, s, c) && s.shutdown
    requires OfPoller(step, c) && Enabled(k, s, step)
    ensures StepsLeft(Apply(k, s, step).polls[c]) < StepsLeft(s.polls[c])
  {
    hide SenderOk;
  }

  /** And there is such a step for it, unless it has ended or ends the process because of a
      transmission status other than "complete": together, the join in spw_stop_poll() returns. */
  lemma PollersNotBlocked(k: Config, s: State, c: nat)
    requires ValidConfig(k) && Reachable(k, s) && PollsWoken(s.main) && c < k.nchans
    ensures Shaped(k, s)
    ensures s.polls[c] == Exited
         || (exists step :: OfPoller(step, c) && Enabled(k, s, step))
         || (s.polls[c].Sending? && s.polls[c].sender.Waited? && !s.txDone)
  {
    ReachableSafe(k, s);
    hide Safe, Apply;
    assert Shaped(k, s) && PollOk(k, s, c) && NobodyStuck(k, s) && OpsOk(s) by {
      PiecesOfSafe(k, s, c);
    }
    match s.polls[c]
    case Top => assert Enabled(k, s, PollTop(c)) && OfPoller(PollTop(c), c);
    case Fresh(_) => assert Enabled(k, s, PollRegister(c)) && OfPoller(PollRegister(c), c);
    case Registered(_) => assert Enabled(k, s, PollCheck(c)) && OfPoller(PollCheck(c), c);
    case Waiting(_) => assert Enabled(k, s, PollWake(c)) && OfPoller(PollWake(c), c);
    case Woken(_) => assert Enabled(k, s, PollHandle(c, false)) && OfPoller(PollHandle(c, false), c);
    case Sending(_, sender) =>
      if SendEnabled(sender, s.txDone) {
        assert Enabled(k, s, PollSend(c)) && OfPoller(PollSend(c), c);
      }
    case Exited =>
  }

  lemma PiecesOfSafe(k: Config, s: State, c: nat)
    requires Safe(k, s) && c < k.nchans
    ensures Shaped(k, s) && PollOk(k, s, c) && NobodyStuck(k, s) && OpsOk(s)
    ensures s.main != Running ==> s.shutdown
  {
  }

  /** When everything is torn down, every receive operation has been disposed of exactly once,
      or it was cancelled, and then never: nothing leaks and nothing is freed twice.  In
      particular the slots then do name disposed operations: they are not reset. */
  lemma ReceiveOperationsSettled(k: Config, s: State, o: nat)
    requires ValidConfig(k) && Reachable(k, s) && s.main == Torn && !k.cancelsFinished
    requires o < |s.ops| && s.ops[o].home.Rx?
    ensures s.ops[o].disposals == if s.ops[o].status == Cancelled then 0 else 1
  {
    ReachableSafe(k, s);
  }

  /** The same for transmit operations: the teardown leaves undisposed exactly those whose thread
      was cancelled while it held them and that no slot names any more, or yet. */
  lemma TransmitOperationsSettled(k: Config, s: State, o: nat)
    requires ValidConfig(k) && Reachable(k, s) && s.main == Torn
    requires o < |s.ops| && s.ops[o].home.Tx?
    ensures Shaped(k, s) && Transmitter(k, s.ops[o].home.owner, s.ops[o].home.chan)
    ensures s.ops[o].disposals == 0 <==>
              && s.ops[o].home.owner.Network?
              && s.senders[s.ops[o].home.owner.index].Gone?
              && s.senders[s.ops[o].home.owner.index].held == Some(o)
              && s.tx[0] != Some(o)
    ensures s.ops[o].disposals <= 1
  {
    ReachableSafe(k, s);
    hide Reachable;
    assert TxSettled(k, s, o);
    var t := s.ops[o].home.owner;
    if t.Network? {
      assert s.senders[t.index].Gone?;
    } else {
      assert s.polls[t.chan] == Exited;
    }
  }

  /** With one transmitting thread: those whose thread was cancelled between creating and
      registering, or between deregistering and disposing.  A transmission cancelled in between
      is disposed of by the teardown. */
  lemma TransmissionLeakedIff(k: Config, s: State, o: nat)
    requires ValidConfig(k) && OneSender(k) && Reachable(k, s) && s.main == Torn
    requires o < |s.ops| && s.ops[o].home.Tx?
    ensures Shaped(k, s) && k.nsenders == 1
    ensures s.ops[o].disposals == 0 <==> s.senders[0] == Gone(Some(o), false)
  {
    TransmitOperationsSettled(k, s, o);
    LinkedWithOneSender(k, s);
    hide Reachable;
  }

  lemma LinkedWithOneSender(k: Config, s: State)
    requires ValidConfig(k) && OneSender(k) && Reachable(k, s)
    ensures Shaped(k, s) && TxLinked(k, s)
    ensures s.main == Torn ==> forall i: nat :: i < k.nsenders ==> s.senders[i].Gone?
  {
    ReachableSafe(k, s);
    hide Reachable;
  }

  /** While one thread transmits, the slot names its operation. */
  lemma TransmitSlotNamesOperation(k: Config, s: State)
    requires ValidConfig(k) && OneSender(k) && k.nsenders == 1 && Reachable(k, s)
    ensures Shaped(k, s)
    ensures s.senders[0].Linked? || s.senders[0].Waited? || s.senders[0].Finished? ==>
              s.tx[0] == Some(s.senders[0].op)
  {
    ReachableSafe(k, s);
    hide Reachable;
  }

  /** In every configuration and state: registering puts the operation into the slot of its channel,
      deregistering empties a slot that still names it, and nothing else changes a slot. */
  lemma SlotChanges(k: Config, s: State, step: Step)
    requires ValidConfig(k) && Shaped(k, s) && Enabled(k, s, step)
    ensures step.NetSend? && s.senders[step.i].Created? ==>
              Apply(k, s, step).tx == s.tx[0 := Some(s.senders[step.i].op)]
    ensures step.NetSend? && s.senders[step.i].Finished? ==>
              Apply(k, s, step).tx == if s.tx[0] == Some(s.senders[step.i].op) then s.tx[0 := None] else s.tx
    ensures step.PollSend? && s.polls[step.c].sender.Created? ==>
              Apply(k, s, step).tx == s.tx[1 - step.c := Some(s.polls[step.c].sender.op)]
    ensures step.PollSend? && s.polls[step.c].sender.Finished? ==>
              Apply(k, s, step).tx
                == if s.tx[1 - step.c] == Some(s.polls[step.c].sender.op) then s.tx[1 - step.c := None] else s.tx
    ensures (step.NetSend? ==> !s.senders[step.i].Created? && !s.senders[step.i].Finished?) ==>
              ((step.PollSend? ==> !s.polls[step.c].sender.Created? && !s.polls[step.c].sender.Finished?) ==>
                Apply(k, s, step).tx == s.tx)
    ensures !step.PollRegister? ==> Apply(k, s, step).rx == s.rx
    ensures step.PollRegister? ==> Apply(k, s, step).rx == s.rx[step.c := Some(s.polls[step.c].op)]
  {
  }

  // ---- the one thing left to the API ---------------------------------------------------------------------

  lemma ExecStep(k: Config, steps: seq<Step>, s: State, step: Step)
    requires ValidConfig(k) && Exec(k, steps) == Some(s) && Shaped(k, s) && Enabled(k, s, step)
    ensures Exec(k, steps + [step]) == Some(Apply(k, s, step))
  {
    assert (steps + [step])[..|steps|] == steps;
  }

  /** A polling thread between two receptions at the moment of the cancel loop. */
  lemma CaughtBetweenWaits(k: Config) returns (steps: seq<Step>, s: State)
    requires ValidConfig(k)
    ensures Exec(k, steps) == Some(s) && Shaped(k, s) && s.main == NetCancelled
    ensures s.polls[0] == Fresh(1) && s.rx[0] == Some(0) && s.tx[0] == None
    ensures s.ops == [Op(Rx(0), Done, 0), Op(Rx(0), Live, 0)]
    ensures k.nchans == 2 ==> s.rx[1] == None && s.polls[1] == Top
  {
    hide Exec;
    steps := [];
    s := Start(k);
    assert Exec(k, []) == Some(s) by {
      ExecNothing(k);
    }
    steps, s := TakeStep(k, steps, s, PollTop(0));
    steps, s := TakeStep(k, steps, s, PollRegister(0));
    steps, s := TakeStep(k, steps, s, Complete(0));
    steps, s := TakeStep(k, steps, s, PollCheck(0));
    steps, s := TakeStep(k, steps, s, PollWake(0));
    steps, s := TakeStep(k, steps, s, PollHandle(0, false));
    steps, s := TakeStep(k, steps, s, PollTop(0));
    steps, s := TakeStep(k, steps, s, Request);
    steps, s := TakeStep(k, steps, s, CancelNet);
  }

  lemma ExecNothing(k: Config)
    requires ValidConfig(k)
    ensures Exec(k, []) == Some(Start(k))
  {
  }

  lemma TakeStep(k: Config, steps: seq<Step>, s: State, step: Step) returns (steps': seq<Step>, s': State)
    requires ValidConfig(k) && Exec(k, steps) == Some(s) && Shaped(k, s) && Enabled(k, s, step)
    ensures s' == Apply(k, s, step) && Exec(k, steps') == Some(s')
  {
    ExecStep(k, steps, s, step);
    steps', s' := steps + [step], Apply(k, s, step);
  }

  lemma {:induction false} KillSenders(k: Config, steps: seq<Step>, s: State, i: nat)
    returns (steps': seq<Step>, s': State)
    requires ValidConfig(k) && Exec(k, steps) == Some(s) && Shaped(k, s) && s.main == NetCancelled
    requires i <= k.nsenders && forall j: nat :: j < i ==> s.senders[j].Gone?
    ensures Exec(k, steps') == Some(s') && Shaped(k, s') && s' == s.(senders := s'.senders)
    ensures forall j: nat :: j < k.nsenders ==> s'.senders[j].Gone?
    decreases k.nsenders - i
  {
    hide Exec;
    steps', s' := steps, s;
    if i < k.nsenders {
      steps', s' := TakeStep(k, steps, s, NetDie(i));
      steps', s' := KillSenders(k, steps', s', i + 1);
    }
  }

  /** That thread registering its next operation after the cancel loop. */
  lemma RegisteredLate(k: Config) returns (steps: seq<Step>, s: State)
    requires ValidConfig(k)
    ensures Exec(k, steps) == Some(s) && Shaped(k, s) && s.main == Woke && s.shutdown
    ensures s.polls[0] == Registered(1) && s.rx[0] == Some(1)
    ensures s.ops == [Op(Rx(0), if k.cancelsFinished then Cancelled else Done, 1), Op(Rx(0), Live, 0)]
    ensures k.nchans == 2 ==> s.polls[1] == Top
  {
    hide Exec;
    steps, s := CaughtBetweenWaits(k);
    steps, s := KillSenders(k, steps, s, 0);
    steps, s := TakeStep(k, steps, s, JoinNet);
    steps, s := TakeStep(k, steps, s, WakePolls);
    steps, s := TakeStep(k, steps, s, PollRegister(0));
  }

  /** A cancelled operation is never disposed of, in any run, exactly if cancelling leaves
      finished operations alone.  Otherwise a polling thread that has just read `shutdown` as
      false may register its next operation after the cancel loop and dispose of its last one. */
  lemma CancelledNeverDisposedIff(k: Config)
    requires ValidConfig(k)
    ensures (forall s :: Reachable(k, s) ==> CancelledIntact(s)) <==> !k.cancelsFinished
  {
    if !k.cancelsFinished {
      forall s | Reachable(k, s) ensures CancelledIntact(s) {
        ReachableSafe(k, s);
      }
    } else {
      var steps, s := RegisteredLate(k);
      assert Reachable(k, s);
      assert s.ops[0].status == Cancelled && s.ops[0].disposals == 1;
    }
  }

  /** The same thread having ended, everything is ready for the teardown. */
  lemma ReadyForTeardown(k: Config) returns (steps: seq<Step>, s: State)
    requires ValidConfig(k)
    ensures Exec(k, steps) == Some(s) && Shaped(k, s) && s.main == PollsJoined
    ensures s.rx[0] == Some(1) && |s.ops| == 2 && s.ops[1].status == Live && s.ops[1].disposals == 0
  {
    hide Exec;
    steps, s := RegisteredLate(k);
    steps, s := TakeStep(k, steps, s, PollCheck(0));
    if k.nchans == 2 {
      steps, s := TakeStep(k, steps, s, PollTop(1));
    }
    steps, s := TakeStep(k, steps, s, JoinPolls);
  }

  /** The slots are not reset by the teardown: in every configuration it can leave one that names
      a disposed operation, so `s.main != Torn` in NoDisposedOperationInUse is needed. */
  lemma SlotsDangleAfterTeardown(k: Config) returns (s: State)
    requires ValidConfig(k)
    ensures Reachable(k, s) && Shaped(k, s) && s.main == Torn
    ensures s.rx[0].Some? && s.rx[0].value < |s.ops| && s.ops[s.rx[0].value].disposals == 1
  {
    hide Exec;
    var steps;
    steps, s := ReadyForTeardown(k);
    ReachableSafe(k, s) by {
      assert Reachable(k, s);
    }
    TeardownEffect(k, s);
    hide DisposeSlots;
    steps, s := TakeStep(k, steps, s, DisposeAll);
  }

  // ---- the transmission status has no owner --------------------------------------------------------------

  /** Two network threads that have their transmissions under way. */
  lemma TwoNetworkSenders(k: Config) returns (steps: seq<Step>, s: State)
    requires ValidConfig(k) && k.nsenders >= 2
    ensures Exec(k, steps) == Some(s) && Shaped(k, s)
    ensures s.senders[0] == Linked(0) && s.senders[1] == Linked(1)
    ensures |s.ops| == 2 && s.ops[0].status == s.ops[1].status == Live
  {
    hide Exec;
    steps, s := [], Start(k);
    ExecNothing(k);
    steps, s := TakeStep(k, steps, s, NetSend(0));
    steps, s := TakeStep(k, steps, s, NetSend(0));
    steps, s := TakeStep(k, steps, s, NetSend(1));
    steps, s := TakeStep(k, steps, s, NetSend(1));
  }

  /** A polling thread that has received a packet and is about to forward it. */
  lemma AboutToForward(k: Config, steps: seq<Step>, s: State, c: nat) returns (steps': seq<Step>, s': State)
    requires ValidConfig(k) && k.nchans == 2 && c < 2 && Exec(k, steps) == Some(s) && Shaped(k, s)
    requires !s.shutdown && s.polls[c] == Top && s.rx[c] == None
    ensures Exec(k, steps') == Some(s') && Shaped(k, s')
    ensures s' == s.(rx := s'.rx, ops := s'.ops, polls := s'.polls)
    ensures s'.polls == s.polls[c := Sending(|s.ops|, Idle)] && s'.rx[1 - c] == s.rx[1 - c]
    ensures |s'.ops| == |s.ops| + 1
  {
    hide Exec;
    var o := |s.ops|;
    steps', s' := TakeStep(k, steps, s, PollTop(c));
    steps', s' := TakeStep(k, steps', s', PollRegister(c));
    steps', s' := TakeStep(k, steps', s', PollCheck(c));
    steps', s' := TakeStep(k, steps', s', Complete(o));
    steps', s' := TakeStep(k, steps', s', PollWake(c));
    steps', s' := TakeStep(k, steps', s', PollHandle(c, true));
  }

  /** Two polling threads in monitor mode that have their transmissions under way. */
  lemma TwoForwarders(k: Config) returns (steps: seq<Step>, s: State)
    requires ValidConfig(k) && k.nchans == 2
    ensures Exec(k, steps) == Some(s) && Shaped(k, s)
    ensures s.polls == [Sending(0, Linked(2)), Sending(1, Linked(3))]
    ensures |s.ops| == 4 && s.ops[2].status == s.ops[3].status == Live
  {
    hide Exec;
    steps, s := [], Start(k);
    ExecNothing(k);
    steps, s := AboutToForward(k, steps, s, 0);
    steps, s := AboutToForward(k, steps, s, 1);
    steps, s := TakeStep(k, steps, s, PollSend(0));
    steps, s := TakeStep(k, steps, s, PollSend(0));
    steps, s := TakeStep(k, steps, s, PollSend(1));
    steps, s := TakeStep(k, steps, s, PollSend(1));
  }

  /** A sender goes on only with its own operation complete, in every run, exactly if at most one
      thread transmits.  With two, one whose time is up may read the status that the other one
      has just written, and dispose of an operation that is still live. */
  lemma StatusReliableIff(k: Config)
    requires ValidConfig(k)
    ensures (forall s :: Reachable(k, s) && Shaped(k, s) ==> AllOwnComplete(k, s)) <==> OneSender(k)
  {
    if OneSender(k) {
      forall s | Reachable(k, s) && Shaped(k, s) ensures AllOwnComplete(k, s) {
        ReachableSafe(k, s);
        forall c: nat | c < k.nchans ensures !s.polls[c].Sending? {
          assert PollOk(k, s, c);
        }
      }
    } else if k.nsenders >= 2 {
      NetworkSenderMisled(k);
    } else {
      ForwarderMisled(k);
    }
  }

  lemma NetworkSenderMisled(k: Config)
    requires ValidConfig(k) && k.nsenders >= 2
    ensures exists s :: Reachable(k, s) && Shaped(k, s) && !AllOwnComplete(k, s)
  {
    hide Exec;
    var steps, s := TwoNetworkSenders(k);
    steps, s := TakeStep(k, steps, s, Complete(0));
    steps, s := TakeStep(k, steps, s, NetSend(1));
    steps, s := TakeStep(k, steps, s, NetSend(0));
    steps, s := TakeStep(k, steps, s, NetSend(1));
    assert Reachable(k, s);
    assert !OwnComplete(s.senders[1], s.ops);
  }

  lemma ForwarderMisled(k: Config)
    requires ValidConfig(k) && k.nchans == 2
    ensures exists s :: Reachable(k, s) && Shaped(k, s) && !AllOwnComplete(k, s)
  {
    hide Exec;
    var steps, s := TwoForwarders(k);
    steps, s := TakeStep(k, steps, s, Complete(2));
    steps, s := TakeStep(k, steps, s, PollSend(1));
    steps, s := TakeStep(k, steps, s, PollSend(0));
    steps, s := TakeStep(k, steps, s, PollSend(1));
    assert Reachable(k, s);
    assert s.polls[1].Sending? && !OwnComplete(s.polls[1].sender, s.ops);
  }
}
