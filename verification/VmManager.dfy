/** The VM's lifecycle: what each call does to the state, the process and the control socket, whatever the environment answers. */
module VmManager {
  import opened Wrappers

  datatype VmState = Idle | Starting | Running | Paused | Stopping | Stopped | Crashed | Failed

  predicate CanTransition(from: VmState, to: VmState) {
    match (from, to)
    case (Idle, Starting) => true
    case (Starting, Running) => true
    case (Paused, Running) => true
    case (Starting, Failed) => true
    case (Running, Paused) => true
    case (Running, Stopping) => true
    case (Running, Crashed) => true
    case (Paused, Stopping) => true
    case (Paused, Crashed) => true
    case (Stopping, Stopped) => true
    case (Stopping, Crashed) => true
    case (Stopped, Idle) => true
    case (Crashed, Idle) => true
    case (Failed, Idle) => true
    case _ => false
  }

  datatype VmError =
    | InvalidStateTransition(state: VmState)
    | InvalidConfig
    | KvmNotAvailable
    | SpawnFailed
    | StartFailed
    | WaitFailed
    | ControlFailed

  type Outcome = Result<(), VmError>

  /** One change of state. */
  datatype Change = Change(from: VmState, to: VmState, byKill: bool)

  // ----- histories -----

  /** The state after a history of changes that began in Idle. */
  function StateAfter(h: seq<Change>): VmState {
    if h == [] then Idle else h[|h| - 1].to
  }

  /** Each change leaves from where the last one arrived, follows an edge unless it is a kill, and none returns to Idle. */
  ghost predicate Lawful(h: seq<Change>) {
    forall i :: 0 <= i < |h| ==> LawfulAt(h, i)
  }

  predicate LawfulAt(h: seq<Change>, i: nat)
    requires i < |h|
  {
    && h[i].from == StateAfter(h[..i])
    && h[i].to != Idle
    && (if h[i].byKill then h[i].to == Stopped && h[i].from in {Starting, Running, Paused, Stopping}
        else CanTransition(h[i].from, h[i].to))
  }

  lemma LawfulSnoc(h: seq<Change>, c: Change)
    requires Lawful(h) && c.from == StateAfter(h) && c.to != Idle
    requires if c.byKill then c.to == Stopped && c.from in {Starting, Running, Paused, Stopping} else CanTransition(c.from, c.to)
    ensures Lawful(h + [c])
  {
    forall i | 0 <= i < |h + [c]|
      ensures LawfulAt(h + [c], i)
    {
      assert (h + [c])[..i] == h[..i];
      assert i < |h| ==> LawfulAt(h, i);
      assert h[..|h|] == h;
    }
  }

  lemma Chained(h: seq<Change>, i: nat)
    requires Lawful(h) && 0 < i < |h|
    ensures h[i].from == h[i - 1].to != Idle
  {
    assert LawfulAt(h, i) && LawfulAt(h, i - 1) && h[..i][i - 1] == h[i - 1];
  }

  /** A manager is started at most once: only the very first change can leave Idle. */
  lemma StartsOnce(h: seq<Change>, i: nat)
    requires Lawful(h) && i < |h| && h[i].from == Idle
    ensures i == 0 && h[i].to == Starting
  {
    assert LawfulAt(h, i);
    if i > 0 {
      Chained(h, i);
    }
  }

  predicate Final(s: VmState) {
    s == Stopped || s == Failed || s == Crashed
  }

  /** What is followed by a change was not final. */
  lemma FollowedIsNotFinal(h: seq<Change>, i: nat)
    requires Lawful(h) && i + 1 < |h|
    ensures !Final(h[i].to)
  {
    assert LawfulAt(h, i + 1) && h[..i + 1][i] == h[i];
  }

  /** Nothing follows a final state: a stopped or failed manager stays so for ever. */
  lemma FinalStays(h: seq<Change>, i: nat)
    requires Lawful(h) && i < |h| && Final(h[i].to)
    ensures i == |h| - 1
  {
    if i < |h| - 1 {
      FollowedIsNotFinal(h, i);
    }
  }

  /** A VM that is running was started, and was neither stopped, failed nor killed since. */
  lemma RunningMeansStarted(h: seq<Change>)
    requires Lawful(h) && StateAfter(h) in {Running, Paused, Stopping}
    ensures |h| >= 2 && h[0] == Change(Idle, Starting, false) && h[1] == Change(Starting, Running, false)
    ensures forall i :: 0 <= i < |h| ==> !Final(h[i].to) && !h[i].byKill
  {
    forall i | 0 <= i < |h|
      ensures !Final(h[i].to) && !h[i].byKill
    {
      assert LawfulAt(h, i);
      if Final(h[i].to) {
        FinalStays(h, i);
      }
    }
    assert LawfulAt(h, 0) && h[..0] == [];
    assert LawfulAt(h, 1) && h[..1] == [h[0]];
  }

  // ----- the manager -----

  class Manager {
    var state: VmState
    var process: bool
    var control: bool
    ghost var history: seq<Change>

    /** Between calls. A start whose wait for the dead process failed is left in Starting, with the process still owned. */
    ghost predicate Valid()
      reads this
    {
      && Lawful(history) && StateAfter(history) == state
      && (state in {Starting, Running, Paused} ==> process)
      && (state in {Idle, Stopped} ==> !process && !control)
      && (control ==> state in {Running, Paused})
      && state != Stopping && state != Crashed
    }

    /** The part of `Valid` that also holds inside a call. */
    ghost predicate OnRecord()
      reads this
    {
      Lawful(history) && StateAfter(history) == state
    }

    constructor ()
      ensures Valid() && state == Idle && history == []
    {
      state, process, control, history := Idle, false, false, [];
    }

    method SetState(to: VmState)
      requires OnRecord() && CanTransition(state, to) && to != Idle
      modifies `state, `history
      ensures OnRecord() && state == to && history == old(history) + [Change(old(state), to, false)]
    {
      LawfulSnoc(history, Change(state, to, false));
      history := history + [Change(state, to, false)];
      state := to;
    }

    method Transition(to: VmState) returns (r: Outcome)
      requires OnRecord() && to != Idle
      modifies `state, `history
      ensures OnRecord()
      ensures r.Success? <==> CanTransition(old(state), to)
      ensures r.Success? ==> state == to && history == old(history) + [Change(old(state), to, false)]
      ensures r.Failure? ==> r == Failure(InvalidStateTransition(state)) && state == old(state) && history == old(history)
    {
      if !CanTransition(state, to) {
        return Failure(InvalidStateTransition(state));
      }
      SetState(to);
      r := Success(());
    }

    /** Passes its guard only on a manager never started before; then it ends running, failed, or stuck in Starting. */
    method Start() returns (r: Outcome)
      requires Valid()
      modifies this
      ensures Valid()
      ensures old(state) != Idle ==> r == Failure(InvalidStateTransition(old(state))) && history == old(history)
                                     && process == old(process) && control == old(control)
      ensures old(state) == Idle ==>
                match r
                case Success(_) => state == Running && process && control
                case Failure(WaitFailed) => state == Starting && process && !control
                case Failure(StartFailed) => state == Failed && process && !control
                case Failure(e) => e in {InvalidConfig, KvmNotAvailable, SpawnFailed} && state == Failed && !process && !control
    {
      hide Lawful;
      r := Transition(Starting);
      if r.Failure? {
        return;
      }
      if * {
        SetState(Failed);
        return Failure(InvalidConfig);
      }
      if * {
        SetState(Failed);
        return Failure(KvmNotAvailable);
      }
      if * {
        SetState(Failed);
        return Failure(SpawnFailed);
      }
      process := true;
      var tries, connected := 0, false;
      while tries < 10 && !connected
        invariant 0 <= tries <= 10 && state == Starting && process && !control && OnRecord()
      {
        var isRunning: bool := *;
        if !isRunning {
          if * {
            return Failure(WaitFailed);
          }
          SetState(Failed);
          return Failure(StartFailed);
        }
        connected := *;
        tries := tries + 1;
      }
      control := true;
      SetState(Running);
      r := Success(());
    }

    /** Succeeds exactly on a running or paused VM, and leaves nothing owned. */
    method Stop() returns (r: Outcome)
      requires Valid()
      modifies this
      ensures Valid()
      ensures r.Success? <==> old(state) in {Running, Paused}
      ensures r.Success? ==> state == Stopped && !process && !control
      ensures r.Failure? ==> r == Failure(InvalidStateTransition(old(state))) && history == old(history)
                             && process == old(process) && control == old(control)
    {
      hide Lawful;
      r := Transition(Stopping);
      if r.Failure? {
        return;
      }
      control := false;
      process := false;
      SetState(Stopped);
    }

    method Pause() returns (r: Outcome)
      requires Valid()
      modifies this
      ensures Valid() && process == old(process) && control == old(control)
      ensures r.Success? ==> old(state) == Running && state == Paused
      ensures r.Failure? ==> state == old(state)
      ensures old(state) != Running ==> r == Failure(InvalidStateTransition(old(state))) && history == old(history)
      ensures old(state) == Running && !control ==> r.Success?
    {
      hide Lawful;
      r := Transition(Paused);
      if r.Failure? {
        return;
      }
      if control {
        if * {
          SetState(Running);
          return Failure(ControlFailed);
        }
      }
    }

    /** Its guard also lets through a start that got stuck: the manager then counts as running. */
    method Resume() returns (r: Outcome)
      requires Valid()
      modifies this
      ensures Valid() && process == old(process) && control == old(control)
      ensures r.Success? ==> old(state) in {Paused, Starting} && state == Running
      ensures r.Failure? ==> state == old(state)
      ensures old(state) !in {Paused, Starting} ==> r == Failure(InvalidStateTransition(old(state))) && history == old(history)
      ensures old(state) in {Paused, Starting} && !control ==> r.Success?
    {
      hide Lawful;
      r := Transition(Running);
      if r.Failure? {
        return;
      }
      if control {
        if * {
          SetState(Paused);
          return Failure(ControlFailed);
        }
      }
    }

    /** Leaves nothing owned, and an Idle or Failed manager as it was. */
    method ForceKill() returns (r: Outcome)
      requires Valid()
      modifies this
      ensures Valid() && r.Success? && !process && !control
      ensures state == if old(state) in {Idle, Stopped, Failed} then old(state) else Stopped
      ensures old(state) in {Idle, Stopped, Failed} ==> history == old(history)
    {
      if state in {Idle, Stopped, Crashed, Failed} {
        process := false;
        control := false;
        return Success(());
      }
      control := false;
      process := false;
      LawfulSnoc(history, Change(state, Stopped, true));
      hide Lawful;
      history := history + [Change(state, Stopped, true)];
      state := Stopped;
      r := Success(());
    }
  }

  /** What a manager has ever done: it left Idle once, and once at rest it stays. */
  lemma OneLife(m: Manager)
    requires m.Valid() && m.state != Idle
    ensures m.history != [] && m.history[0] == Change(Idle, Starting, false)
    ensures forall i :: 1 <= i < |m.history| ==> m.history[i].from != Idle
    ensures Final(m.state) ==> forall i :: 0 <= i < |m.history| - 1 ==> !Final(m.history[i].to)
  {
    var h := m.history;
    assert LawfulAt(h, 0) && h[..0] == [];
    forall i | 0 <= i < |h|
      ensures i >= 1 ==> h[i].from != Idle
      ensures i < |h| - 1 ==> !Final(h[i].to)
    {
      if h[i].from == Idle {
        StartsOnce(h, i);
      }
      if Final(h[i].to) {
        FinalStays(h, i);
      }
    }
  }
}
