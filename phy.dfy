/**
 * The per-peripheral link state machine (`cp_phy_state_update`): take the
 * next command off the queue, send it, wait for the reply, and decide
 * whether to go back to idle, resend after a busy reply, or fail.
 *
 * Sending (`cp_send_command`) and receiving (`cp_process_response`) depend
 * on framing and transport code outside this model, so one poll takes their
 * results as inputs: `sendOk` for the send, and `response` for the receive,
 * which is 1 when nothing has arrived, -1 when the framing is rejected and
 * otherwise what the reply decoder returned (0, 2 or -1).
 */
module PhyLink {
  import opened Bytes
  import opened CommandQueue

  /** Bytes of the per-peripheral scratch area that stages the dequeued command (`OSDP_PD_SCRATCH_SIZE`). */
  const SCRATCH_SIZE: int := 64

  /** Milliseconds to wait for a reply before giving up (`OSDP_RESP_TOUT_MS`). */
  const RESP_TIMEOUT_MS: int := 400

  datatype PhyState = Idle | SendCmd | RespWait | Err

  /** Where one poll leaves the machine, and what it returns. */
  datatype Outcome = Outcome(state: PhyState, tstamp: int, ret: int)

  /** What `cp_dequeue_command` returns for a queue holding `records`. */
  function DequeueResult(records: seq<seq<byte>>, maxlen: int): int
  {
    if records == [] then 0 else if |records[0]| > maxlen then -1 else |records[0]|
  }

  /** The send step shared by IDLE (after a dequeue) and SEND_CMD; `ret` is what the poll returns if the send works. */
  function AfterSend(tstamp: int, ret: int, sendOk: bool, now: int): Outcome
  {
    if sendOk then Outcome(RespWait, now, ret) else Outcome(Err, tstamp, -1)
  }

  /**
   * One poll: `dequeued` is what the dequeue returns (read only in IDLE),
   * `sendOk` whether the send worked (read in IDLE after a dequeue and in
   * SEND_CMD), `response` what receiving returned (read in RESP_WAIT), `now`
   * the millisecond clock.
   */
  function Transition(s: PhyState, tstamp: int, dequeued: int, sendOk: bool, response: int, now: int): (o: Outcome)
    ensures s == Err ==> o == Outcome(Err, tstamp, -1)
    ensures o.tstamp == tstamp || (o.tstamp == now && o.state == RespWait && sendOk)
    ensures o.state == Idle ==> o.ret == 0 || o.ret == 2
  {
    match s
    case Idle =>
      if dequeued == 0 then Outcome(Idle, tstamp, 0)
      else if dequeued < 0 then Outcome(Err, tstamp, dequeued)
      else AfterSend(tstamp, 1, sendOk, now)
    case SendCmd =>
      // `ret` still holds its initial 0 here (see the busy-retry note in README)
      AfterSend(tstamp, 0, sendOk, now)
    case RespWait =>
      if response == 0 then Outcome(Idle, tstamp, 2)
      else if response == -1 then Outcome(Err, tstamp, -1)
      else if response == 2 then Outcome(SendCmd, tstamp, 2)
      else if now - tstamp > RESP_TIMEOUT_MS then Outcome(Err, tstamp, 1)
      else Outcome(RespWait, tstamp, response)
    case Err =>
      Outcome(Err, tstamp, -1)
  }

  /**
   * What each return code means, for the results the dequeue (-1 or a
   * count) and the receive (-1, 0, 1 or 2) can give: -1 exactly when the
   * link has failed (a timeout fails it too but reports 1); 2 exactly at a
   * command boundary or on a busy reply; 0 when the queue was empty, and
   * also after a resend from SEND_CMD; 1 otherwise.
   */
  lemma ReturnCodes(s: PhyState, tstamp: int, dequeued: int, sendOk: bool, response: int, now: int)
    requires dequeued >= -1
    requires response == -1 || response == 0 || response == 1 || response == 2
    ensures Transition(s, tstamp, dequeued, sendOk, response, now).ret in {-1, 0, 1, 2}
    ensures Transition(s, tstamp, dequeued, sendOk, response, now).ret == -1
            ==> Transition(s, tstamp, dequeued, sendOk, response, now).state == Err
    ensures Transition(s, tstamp, dequeued, sendOk, response, now).state == Err
            <==> (Transition(s, tstamp, dequeued, sendOk, response, now).ret == -1
                  || (s == RespWait && response == 1 && now - tstamp > RESP_TIMEOUT_MS))
    ensures Transition(s, tstamp, dequeued, sendOk, response, now).ret == 2
            <==> s == RespWait && (response == 0 || response == 2)
    ensures Transition(s, tstamp, dequeued, sendOk, response, now).ret == 0
            <==> (s == Idle && dequeued == 0) || (s == SendCmd && sendOk)
  {
  }

  /** The time stamp changes exactly when a send succeeds, and then becomes `now`. */
  lemma StampOnSend(s: PhyState, tstamp: int, dequeued: int, sendOk: bool, response: int, now: int)
    requires now != tstamp
    ensures Transition(s, tstamp, dequeued, sendOk, response, now).tstamp != tstamp
            <==> sendOk && (s == SendCmd || (s == Idle && dequeued > 0))
    ensures Transition(s, tstamp, dequeued, sendOk, response, now).tstamp in {tstamp, now}
  {
  }

  /** The inputs of one poll. */
  datatype Poll = Poll(dequeued: int, sendOk: bool, response: int, now: int)

  /** The outcomes of a run of polls from state `s` with stamp `tstamp`, one per poll. */
  function Run(s: PhyState, tstamp: int, polls: seq<Poll>): (r: seq<Outcome>)
    ensures |r| == |polls|
    decreases |polls|
  {
    if polls == [] then []
    else
      var o := Transition(s, tstamp, polls[0].dequeued, polls[0].sendOk, polls[0].response, polls[0].now);
      [o] + Run(o.state, o.tstamp, polls[1..])
  }

  /** ERR is terminal: whatever happens, every later poll stays in ERR and returns -1. */
  lemma {:induction false} ErrIsTerminal(tstamp: int, polls: seq<Poll>)
    ensures forall k :: 0 <= k < |polls| ==> Run(Err, tstamp, polls)[k] == Outcome(Err, tstamp, -1)
    decreases |polls|
  {
    if polls != [] {
      ErrIsTerminal(tstamp, polls[1..]);
      assert Run(Err, tstamp, polls) == [Outcome(Err, tstamp, -1)] + Run(Err, tstamp, polls[1..]);
    }
  }

  /**
   * A timeout is reported once: the poll that finds no reply past the
   * deadline fails the link returning 1, and every later poll returns -1.
   */
  lemma TimeoutReportedOnce(tstamp: int, polls: seq<Poll>)
    requires polls != [] && polls[0].response == 1 && polls[0].now - tstamp > RESP_TIMEOUT_MS
    ensures Run(RespWait, tstamp, polls)[0] == Outcome(Err, tstamp, 1)
    ensures forall k :: 1 <= k < |polls| ==> Run(RespWait, tstamp, polls)[k].ret == -1
  {
    ErrIsTerminal(tstamp, polls[1..]);
    assert Run(RespWait, tstamp, polls) == [Outcome(Err, tstamp, 1)] + Run(Err, tstamp, polls[1..]);
  }

  /**
   * A busy reply followed by a working send puts the machine back to waiting
   * with a fresh stamp; neither poll consults the dequeue.
   */
  lemma BusyThenResend(tstamp: int, p: Poll, q: Poll)
    requires p.response == 2 && q.sendOk
    ensures Run(RespWait, tstamp, [p, q]) == [Outcome(SendCmd, tstamp, 2), Outcome(RespWait, q.now, 0)]
    ensures forall d :: Run(RespWait, tstamp, [p, q.(dequeued := d)]) == Run(RespWait, tstamp, [p, q])
  {
    assert [p, q][1..] == [q];
    assert [p, q.(dequeued := 0)][1..] == [q.(dequeued := 0)];
  }

  /** The link of one peripheral: its command queue, its scratch area, its state and its send stamp. */
  class Link {
    const queue: Queue
    const scratch: array<byte>
    var state: PhyState
    var tstamp: int
    /** The command staged in `scratch` while it is being sent or answered. */
    ghost var inFlight: seq<byte>

    ghost predicate Valid()
      reads this, queue, queue.buffer, scratch
    {
      && queue.Valid()
      && scratch.Length == SCRATCH_SIZE
      && scratch != queue.buffer
      && ((state == SendCmd || state == RespWait) ==>
            IsRecord(inFlight) && |inFlight| <= SCRATCH_SIZE && scratch[..|inFlight|] == inFlight)
    }

    constructor (q: Queue)
      requires q.Valid()
      ensures Valid() && queue == q && state == Idle && tstamp == 0 && fresh(scratch)
    {
      queue := q;
      scratch := new byte[SCRATCH_SIZE](_ => 0);
      state := Idle;
      tstamp := 0;
      inFlight := [];
    }

    /**
     * `cp_phy_state_update`. `sent` is the command handed to the send, or
     * empty when the poll sends nothing.
     */
    method Step(sendOk: bool, response: int, now: int) returns (ret: int, sent: seq<byte>)
      requires Valid()
      modifies this, queue, scratch
      ensures Valid()
      ensures Outcome(state, tstamp, ret)
              == Transition(old(state), old(tstamp), DequeueResult(old(queue.records), SCRATCH_SIZE), sendOk, response, now)
      ensures queue.head == old(queue.head) && queue.buffer[..] == old(queue.buffer[..])
      ensures old(state) == Idle && DequeueResult(old(queue.records), SCRATCH_SIZE) > 0 ==>
                && queue.records == old(queue.records)[1..] && sent == old(queue.records)[0] && inFlight == sent
                && queue.tail == HeadAfter(old(queue.tail), |sent|)
      ensures old(state) != Idle || DequeueResult(old(queue.records), SCRATCH_SIZE) <= 0 ==>
                queue.records == old(queue.records) && queue.tail == old(queue.tail)
      ensures old(state) == SendCmd ==> sent == old(inFlight) && inFlight == old(inFlight)
      ensures old(state) != SendCmd && (old(state) != Idle || DequeueResult(old(queue.records), SCRATCH_SIZE) <= 0) ==>
                sent == [] && scratch[..] == old(scratch[..])
    {
      ret := 0;
      sent := [];
      match state
      case Idle =>
        ghost var front: seq<byte> := if queue.records == [] then [] else queue.records[0];
        assert queue.records != [] ==> front in queue.records;
        ret := queue.Dequeue(false, scratch, SCRATCH_SIZE);
        if ret == 0 {
          return;
        }
        if ret < 0 {
          state := Err;
          return;
        }
        ret := 1;
        sent := scratch[..scratch[0]];
        inFlight := sent;
        ret := Send(ret, sendOk, now);
      case SendCmd =>
        assert scratch[0] == scratch[..|inFlight|][0];
        sent := scratch[..scratch[0]];
        ret := Send(ret, sendOk, now);
      case RespWait =>
        ret := response;
        if ret == 0 {
          state := Idle;
          ret := 2;
          return;
        }
        if ret == -1 {
          state := Err;
          return;
        }
        if ret == 2 {
          state := SendCmd;
          return;
        }
        if now - tstamp > RESP_TIMEOUT_MS {
          state := Err;
          ret := 1;
        }
      case Err =>
        ret := -1;
    }

    /** The send step: on success wait for the reply from `now`, otherwise fail the link. */
    method Send(ret0: int, sendOk: bool, now: int) returns (ret: int)
      modifies this
      ensures Outcome(state, tstamp, ret) == AfterSend(old(tstamp), ret0, sendOk, now)
      ensures inFlight == old(inFlight)
    {
      ret := ret0;
      if !sendOk {
        state := Err;
        ret := -1;
        return;
      }
      state := RespWait;
      tstamp := now;
    }
  }

  /**
   * A busy reply makes the next poll resend the same command, without
   * touching the queue; that poll returns 0, not 1 as the first send did.
   */
  method BusyRetryResends(rec: seq<byte>, t0: int, t1: int) returns (first: seq<byte>, second: seq<byte>, rets: seq<int>)
    requires IsRecord(rec) && |rec| <= SCRATCH_SIZE
    ensures first == rec && second == rec
    ensures rets == [1, 2, 0, 2, 0]
  {
    var q := new Queue();
    var r := q.Enqueue(rec);
    var link := new Link(q);
    var ret1, ret2, ret3, ret4, ret5, none;
    ret1, first := link.Step(true, 1, t0);
    ret2, none := link.Step(true, 2, t0);
    ret3, second := link.Step(true, 1, t1);
    ret4, none := link.Step(true, 0, t1);
    ret5, none := link.Step(true, 1, t1);
    rets := [ret1, ret2, ret3, ret4, ret5];
  }
}
