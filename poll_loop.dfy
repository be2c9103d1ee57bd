/** `useLayerStyleState`: the panel's polling hook. It asks the host for a
    snapshot on a self-rescheduling timer, polling every 200 ms while the
    layer keeps changing and every 1000 ms once it has been quiet for more
    than 3000 ms. The clock (`Date.now`) is a parameter of every step; a
    timer firing is a call to `Tick`, and a host answer arriving is a call to
    `Receive`, because the hook does not wait for its own polls. */
module PollLoop {
  import opened Common
  import opened LayerStyleTypes
  import opened HostModel
  import opened AeftSnapshot

  const PollActive: nat := 200
  const PollIdle: nat := 1000
  /** Milliseconds without a hash change before polling slows down. */
  const IdleThreshold: int := 3000
  const InitialStyleId: string := "innerShadow"

  /** What one `getLayerStyleState` call gives the hook: a falsy result, a
      thrown host error, or a snapshot. */
  datatype PollOutcome = Falsy | Threw | Returned(state: PanelState)

  /** A host answer and the time it arrived. */
  datatype Response = Response(at: int, outcome: PollOutcome)

  /** The hook's remembered values: the current style (and its mirror
      `styleIdRef`), the last layer hash, the time it last changed, and the
      last snapshot. */
  datatype PollView = PollView(styleId: string, lastHash: string, lastChange: int, state: Option<PanelState>)

  /** The values on mount at time `start`. */
  function Initial(start: int): PollView
  {
    PollView(InitialStyleId, "", start, None)
  }

  /** The delay before the next tick, given the time since the last change. */
  function NextDelay(elapsed: int): (d: nat)
    ensures d == PollActive || d == PollIdle
    ensures d == PollIdle <==> elapsed > IdleThreshold
  {
    if elapsed > IdleThreshold then PollIdle else PollActive
  }

  /** Handling one answer at time `now`: a snapshot whose hash differs from
      the last one restarts the quiet period; every snapshot sets the style
      (adopting a host correction) and the state; anything else is ignored. */
  function AfterPoll(v: PollView, now: int, o: PollOutcome): PollView
  {
    match o
    case Falsy => v
    case Threw => v
    case Returned(st) =>
      PollView(st.currentStyleId, st.layerHash,
               if st.layerHash != v.lastHash then now else v.lastChange,
               Some(st))
  }

  /** Answers handled in the order they arrive. */
  function AfterPolls(v: PollView, rs: seq<Response>): PollView
    decreases |rs|
  {
    if rs == [] then v else AfterPolls(AfterPoll(v, rs[0].at, rs[0].outcome), rs[1..])
  }

  /** `forceRefresh`: the quiet period restarts now (the poll it starts is a separate answer). */
  function Refreshed(v: PollView, now: int): PollView
  {
    v.(lastChange := now)
  }

  /** The snapshot of the latest answer that carried one. */
  function LatestSnapshot(rs: seq<Response>): Option<PanelState>
    decreases |rs|
  {
    if rs == [] then None
    else
      match LatestSnapshot(rs[1..])
      case Some(st) => Some(st)
      case None => if rs[0].outcome.Returned? then Some(rs[0].outcome.state) else None
  }

  /** Every snapshot among the answers reports the hash `h`. */
  predicate AllHashesAre(rs: seq<Response>, h: string)
  {
    forall i :: 0 <= i < |rs| && rs[i].outcome.Returned? ==> rs[i].outcome.state.layerHash == h
  }

  /** The delay never shrinks as the quiet period grows. */
  lemma NextDelayMonotone(e1: int, e2: int)
    requires e1 <= e2
    ensures NextDelay(e1) <= NextDelay(e2)
  {
  }

  /** A falsy answer or a host error leaves the style, hash, timestamp and state untouched. */
  lemma FailedPollChangesNothing(v: PollView, now: int, o: PollOutcome)
    requires !o.Returned?
    ensures AfterPoll(v, now, o) == v
  {
  }

  /** After any run of answers, the hook holds the latest snapshot's hash,
      style and state; with no snapshot among them nothing has changed. */
  lemma {:induction false} PollsTrackLatest(v: PollView, rs: seq<Response>)
    ensures var r := AfterPolls(v, rs);
      match LatestSnapshot(rs)
      case Some(st) => r.lastHash == st.layerHash && r.styleId == st.currentStyleId && r.state == Some(st)
      case None => r == v
    decreases |rs|
  {
    if rs != [] {
      PollsTrackLatest(AfterPoll(v, rs[0].at, rs[0].outcome), rs[1..]);
    }
  }

  /** Answers that all repeat the last hash never restart the quiet period. */
  lemma {:induction false} QuietPollsKeepChange(v: PollView, rs: seq<Response>)
    requires AllHashesAre(rs, v.lastHash)
    ensures AfterPolls(v, rs).lastChange == v.lastChange
    ensures AfterPolls(v, rs).lastHash == v.lastHash
    decreases |rs|
  {
    if rs != [] {
      var v' := AfterPoll(v, rs[0].at, rs[0].outcome);
      assert v'.lastChange == v.lastChange && v'.lastHash == v.lastHash;
      assert AllHashesAre(rs[1..], v'.lastHash) by {
        forall i | 0 <= i < |rs[1..]| && rs[1..][i].outcome.Returned?
          ensures rs[1..][i].outcome.state.layerHash == v'.lastHash
        {
          assert rs[1..][i] == rs[i + 1];
        }
      }
      QuietPollsKeepChange(v', rs[1..]);
    }
  }

  /** When the layer has stopped changing, the first tick more than 3000 ms
      after the last change slows polling to 1000 ms, however many answers
      arrived in between. */
  lemma GoesIdleWhenQuiet(v: PollView, rs: seq<Response>, now: int)
    requires AllHashesAre(rs, v.lastHash)
    requires now - v.lastChange > IdleThreshold
    ensures NextDelay(now - AfterPolls(v, rs).lastChange) == PollIdle
  {
    QuietPollsKeepChange(v, rs);
  }

  /** The last-change time stays within any window holding it and every
      answer's arrival time. */
  lemma {:induction false} LastChangeWithin(v: PollView, rs: seq<Response>, lo: int, hi: int)
    requires lo <= v.lastChange <= hi
    requires forall i :: 0 <= i < |rs| ==> lo <= rs[i].at <= hi
    ensures lo <= AfterPolls(v, rs).lastChange <= hi
    decreases |rs|
  {
    if rs != [] {
      var v' := AfterPoll(v, rs[0].at, rs[0].outcome);
      assert lo <= v'.lastChange <= hi;
      forall i | 0 <= i < |rs[1..]| ensures lo <= rs[1..][i].at <= hi {
        assert rs[1..][i] == rs[i + 1];
      }
      LastChangeWithin(v', rs[1..], lo, hi);
    }
  }

  /** After `forceRefresh` at `start`, every tick up to 3000 ms later picks
      the 200 ms delay, whatever answers arrive in between. */
  lemma RefreshKeepsActive(v: PollView, start: int, rs: seq<Response>, now: int)
    requires start <= now <= start + IdleThreshold
    requires forall i :: 0 <= i < |rs| ==> start <= rs[i].at <= now
    ensures NextDelay(now - AfterPolls(Refreshed(v, start), rs).lastChange) == PollActive
  {
    LastChangeWithin(Refreshed(v, start), rs, start, now);
  }

  /** A tick chooses its delay before its own poll is answered: after a quiet
      spell the tick picks 1000 ms even when its answer brings a new hash, and
      only the tick after that goes back to 200 ms. */
  lemma DelayLagsOnePoll(v: PollView, now: int, st: PanelState, later: int)
    requires now - v.lastChange > IdleThreshold && st.layerHash != v.lastHash
    requires now <= later <= now + IdleThreshold
    ensures NextDelay(now - v.lastChange) == PollIdle
    ensures NextDelay(later - AfterPoll(v, now, Returned(st)).lastChange) == PollActive
  {
  }

  /** Polling an unchanged host twice: the second answer repeats the first,
      so it changes nothing, not even the quiet period. */
  lemma RepeatPollSettles(v: PollView, comp: Comp, layer: Option<Layer>, t1: int, t2: int)
    ensures var v1 := AfterPoll(v, t1, Returned(Snapshot(comp, layer, v.styleId)));
      AfterPoll(v1, t2, Returned(Snapshot(comp, layer, v1.styleId))) == v1
  {
    SnapshotStable(comp, layer, v.styleId);
  }

  /** The hook's mutable part: its state and refs, and the pending timer. */
  class Poller {
    var styleId: string
    var lastHash: string
    var lastChange: int
    var state: Option<PanelState>
    /** When the scheduled tick is due; `None` when no timer is pending. */
    var pending: Option<int>

    function View(): PollView
      reads this
    {
      PollView(styleId, lastHash, lastChange, state)
    }

    /** The hook's first render at time `start`. */
    constructor(start: int)
      ensures View() == Initial(start) && pending == None
    {
      styleId := InitialStyleId;
      lastHash := "";
      lastChange := start;
      state := None;
      pending := None;
    }

    /** `tick`: start a poll for the current style, then schedule the next
        tick from the quiet period as it stands before that poll is answered. */
    method Tick(now: int) returns (request: string, delay: nat)
      modifies this
      ensures request == old(styleId)
      ensures delay == NextDelay(now - old(lastChange))
      ensures View() == old(View()) && pending == Some(now + delay)
    {
      request := styleId;
      var elapsed := now - lastChange;
      delay := if elapsed > IdleThreshold then PollIdle else PollActive;
      pending := Some(now + delay);
    }

    /** A poll's answer arriving at time `now`. */
    method Receive(now: int, o: PollOutcome)
      modifies this
      ensures View() == AfterPoll(old(View()), now, o) && pending == old(pending)
    {
      if o.Returned? {
        var result := o.state;
        if result.layerHash != lastHash {
          lastChange := now;
          lastHash := result.layerHash;
        }
        if result.currentStyleId != styleId {
          styleId := result.currentStyleId;
        }
        state := Some(result);
      }
    }

    /** `forceRefresh`: restart the quiet period, then start a poll. */
    method ForceRefresh(now: int) returns (request: string)
      modifies this
      ensures View() == Refreshed(old(View()), now) && pending == old(pending)
      ensures request == styleId
    {
      lastChange := now;
      request := styleId;
    }

    /** `setCurrentStyleId`, as the panel's style buttons call it. */
    method SelectStyle(id: string)
      modifies this
      ensures View() == old(View()).(styleId := id) && pending == old(pending)
    {
      styleId := id;
    }

    /** Unmount: cancel the pending timer. */
    method Teardown()
      modifies this
      ensures View() == old(View()) && pending == None
    {
      pending := None;
    }
  }
}
