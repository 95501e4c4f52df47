/** The commands the guest's touch screen sees, and what they leave each pointer doing. */
module TouchTrace {
  import opened Wrappers

  datatype Kind = Down | Move | Up

  /** One command, with the display size in force when its coordinates were computed. */
  datatype Command =
    | Touch(kind: Kind, ptr: nat, x: nat, y: nat, w: nat, h: nat)
    | Tap(x: nat, y: nat, w: nat, h: nat)

  type Trace = seq<Command>

  /** Where a pointer stands in the grammar (Down Move* Up)*; Broken once its commands leave the grammar. */
  datatype Phase = Lifted | Pressed | Broken

  predicate Concerns(c: Command, ptr: nat) {
    c.Touch? && c.ptr == ptr
  }

  function Advance(p: Phase, kind: Kind): Phase {
    match (p, kind)
    case (Lifted, Down) => Pressed
    case (Pressed, Move) => Pressed
    case (Pressed, Up) => Lifted
    case _ => Broken
  }

  function PhaseOf(trace: Trace, ptr: nat): (p: Phase) {
    if trace == [] then Lifted
    else
      var last := trace[|trace| - 1];
      var before := PhaseOf(trace[..|trace| - 1], ptr);
      if Concerns(last, ptr) then Advance(before, last.kind) else before
  }

  function Change(kind: Kind): int {
    match kind
    case Down => 1
    case Move => 0
    case Up => -1
  }

  /** Downs minus ups. */
  function Balance(trace: Trace, ptr: nat): (n: int) {
    if trace == [] then 0
    else
      var last := trace[|trace| - 1];
      Balance(trace[..|trace| - 1], ptr) + if Concerns(last, ptr) then Change(last.kind) else 0
  }

  function LastKind(trace: Trace, ptr: nat): (k: Option<Kind>) {
    if trace == [] then None
    else
      var last := trace[|trace| - 1];
      if Concerns(last, ptr) then Some(last.kind) else LastKind(trace[..|trace| - 1], ptr)
  }

  /** The effect of one more command on one pointer. */
  lemma Snoc(trace: Trace, c: Command, ptr: nat)
    ensures PhaseOf(trace + [c], ptr) == if Concerns(c, ptr) then Advance(PhaseOf(trace, ptr), c.kind) else PhaseOf(trace, ptr)
    ensures Balance(trace + [c], ptr) == Balance(trace, ptr) + if Concerns(c, ptr) then Change(c.kind) else 0
    ensures LastKind(trace + [c], ptr) == if Concerns(c, ptr) then Some(c.kind) else LastKind(trace, ptr)
  {
    assert (trace + [c])[..|trace|] == trace;
  }

  ghost predicate Silent(trace: Trace, ptr: nat) {
    forall i :: 0 <= i < |trace| ==> !Concerns(trace[i], ptr)
  }

  lemma {:induction false} SilentPointer(trace: Trace, ptr: nat)
    requires Silent(trace, ptr)
    ensures PhaseOf(trace, ptr) == Lifted && Balance(trace, ptr) == 0 && LastKind(trace, ptr) == None
  {
    if trace != [] {
      assert !Concerns(trace[|trace| - 1], ptr);
      SilentPointer(trace[..|trace| - 1], ptr);
    }
  }

  /** In the grammar a pointer is pressed exactly when its downs outnumber its ups by one, and its last command says the same. */
  lemma {:induction false} PhaseReadsTrace(trace: Trace, ptr: nat)
    ensures PhaseOf(trace, ptr) == Pressed ==> Balance(trace, ptr) == 1 && LastKind(trace, ptr) in {Some(Down), Some(Move)}
    ensures PhaseOf(trace, ptr) == Lifted ==> Balance(trace, ptr) == 0 && LastKind(trace, ptr) in {None, Some(Up)}
  {
    if trace != [] {
      PhaseReadsTrace(trace[..|trace| - 1], ptr);
    }
  }

  /** What a pointer was told, in order. */
  function KindsOn(trace: Trace, ptr: nat): seq<Kind> {
    if trace == [] then []
    else
      var last := trace[|trace| - 1];
      KindsOn(trace[..|trace| - 1], ptr) + if Concerns(last, ptr) then [last.kind] else []
  }

  lemma KindsSnoc(trace: Trace, c: Command, ptr: nat)
    ensures KindsOn(trace + [c], ptr) == KindsOn(trace, ptr) + if Concerns(c, ptr) then [c.kind] else []
  {
    assert (trace + [c])[..|trace|] == trace;
  }

  lemma {:induction false} KindsUnchanged(trace: Trace, more: Trace, ptr: nat)
    requires Silent(more, ptr)
    ensures KindsOn(trace + more, ptr) == KindsOn(trace, ptr)
  {
    if more == [] {
      assert trace + more == trace;
    } else {
      var last := |more| - 1;
      assert trace + more == (trace + more[..last]) + [more[last]];
      KindsUnchanged(trace, more[..last], ptr);
      KindsSnoc(trace + more[..last], more[last], ptr);
    }
  }

  function PhaseAfter(kinds: seq<Kind>): Phase {
    if kinds == [] then Lifted else Advance(PhaseAfter(kinds[..|kinds| - 1]), kinds[|kinds| - 1])
  }

  /** A pointer's phase and last command are those of what it was told. */
  lemma {:induction false} KindsTellAll(trace: Trace, ptr: nat)
    ensures var kinds := KindsOn(trace, ptr);
            && PhaseOf(trace, ptr) == PhaseAfter(kinds)
            && LastKind(trace, ptr) == if kinds == [] then None else Some(kinds[|kinds| - 1])
  {
    if trace != [] {
      var last := |trace| - 1;
      var before := KindsOn(trace[..last], ptr);
      KindsTellAll(trace[..last], ptr);
      if Concerns(trace[last], ptr) {
        assert (before + [trace[last].kind])[..|before|] == before;
      } else {
        assert KindsOn(trace, ptr) == before;
      }
    }
  }

  /** Down, up, down, up, ... */
  ghost predicate Alternates(kinds: seq<Kind>) {
    forall i :: 0 <= i < |kinds| ==> kinds[i] == if i % 2 == 0 then Down else Up
  }

  /** Downs and ups stay in the grammar exactly when they alternate, and then leave the pointer pressed after an odd number. */
  lemma {:induction false} AlternatingIff(kinds: seq<Kind>)
    requires forall i :: 0 <= i < |kinds| ==> kinds[i] != Move
    ensures PhaseAfter(kinds) != Broken <==> Alternates(kinds)
    ensures Alternates(kinds) ==> PhaseAfter(kinds) == if |kinds| % 2 == 1 then Pressed else Lifted
  {
    if kinds != [] {
      var before, last := kinds[..|kinds| - 1], |kinds| - 1;
      AlternatingIff(before);
      assert Alternates(kinds) <==> Alternates(before) && kinds[last] == if last % 2 == 0 then Down else Up;
    }
  }

  // ----- the last command on a pointer -----

  function LastOn(trace: Trace, ptr: nat): (c: Option<Command>)
    ensures c.Some? ==> Concerns(c.value, ptr)
  {
    if trace == [] then None
    else
      var last := trace[|trace| - 1];
      if Concerns(last, ptr) then Some(last) else LastOn(trace[..|trace| - 1], ptr)
  }

  /** Between two moments nothing was sent on this pointer. */
  ghost predicate Quiet(trace: Trace, later: Trace, ptr: nat) {
    trace <= later && forall i :: |trace| <= i < |later| ==> !Concerns(later[i], ptr)
  }

  lemma {:induction false} LastOnQuiet(trace: Trace, later: Trace, ptr: nat)
    requires Quiet(trace, later, ptr)
    ensures LastOn(later, ptr) == LastOn(trace, ptr)
    decreases |later|
  {
    if |later| == |trace| {
      assert later == trace;
    } else {
      LastOnQuiet(trace, later[..|later| - 1], ptr);
    }
  }
}
